/**
 The script that re-wraps an ordinary ed25519 public key as a security-key line
 (tools/sshd-matrix/make-sk-pubkey.sh), as a pipeline of string transformations.
 */
module SkPubkey {
  import opened Wrappers
  import opened Bytes
  import opened Base64
  import opened KeyBlob

  const TYPE := "sk-ssh-ed25519@openssh.com"
  const APP := "ssh:"

  function HexDigit(n: nat): (c: char)
    requires n < 16
  {
    if n < 10 then ('0' as int + n) as char else ('a' as int + n - 10) as char
  }

  lemma HexIsLowerCase(n: nat)
    requires n < 16
    ensures HexDigit(n) == "0123456789abcdef"[n]
  {
  }

  function DigitValue(c: char): (n: Option<nat>)
    ensures n.Some? ==> n.value < 16
  {
    if '0' <= c <= '9' then Some(c as int - '0' as int)
    else if 'a' <= c <= 'f' then Some(c as int - 'a' as int + 10)
    else None
  }

  /** od -An -v -tx1 | tr -d ' \n' */
  function Hex(data: seq<byte>): (s: string)
    ensures |s| == 2 * |data|
  {
    if data == [] then "" else [HexDigit(data[0] / 16), HexDigit(data[0] as int % 16)] + Hex(data[1..])
  }

  /** perl's pack("H*", ...) of lower-case hex; anything else is outside this model. */
  function Pack(s: string): (r: Option<seq<byte>>) {
    if s == "" then
      Some([])
    else if |s| < 2 || DigitValue(s[0]).None? || DigitValue(s[1]).None? then
      None
    else
      var rest := Pack(s[2..]);
      if rest.Some? then Some([DigitValue(s[0]).value * 16 + DigitValue(s[1]).value] + rest.value) else None
  }

  /** printf '%08x' of a number of at most eight hex digits: `width` digits of n. */
  function HexNumber(n: nat, width: nat): (s: string)
    ensures |s| == width
  {
    if width == 0 then "" else HexNumber(n / 16, width - 1) + [HexDigit(n % 16)]
  }

  /** The script's hex_str: eight digits of length, then the characters in hex. */
  function HexStr(s: string): (h: string)
    requires IsAscii(s)
  {
    HexNumber(|s|, 8) + Hex(Ascii(s))
  }

  /** cut -c from-to, one-based and inclusive, on one line. */
  function Cut(s: string, from: nat, to: nat): (t: string)
    requires 1 <= from <= to
  {
    var hi := if to <= |s| then to else |s|;
    var lo := if from - 1 <= hi then from - 1 else hi;
    s[lo..hi]
  }

  /** The script's $blob from its $raw. */
  function BlobHex(raw: string): (h: string) {
    HexStr(TYPE) + "00000020" + Cut(raw, 39, 102) + HexStr(APP)
  }

  /** printf '%s %s conch-android-test-sk\n' */
  function PrintedLine(blob: seq<byte>): (line: string) {
    TYPE + " " + Encode(blob) + " conch-android-test-sk\n"
  }

  /** The printed line, from the base64 field of the input key line. */
  function SkLine(field: string): (line: Option<string>) {
    var data := Decode(field);
    if data.None? then
      None
    else
      var blob := Pack(BlobHex(Hex(data.value)));
      if blob.None? then None else Some(PrintedLine(blob.value))
  }

  lemma {:induction false} HexAppend(a: seq<byte>, b: seq<byte>)
    ensures Hex(a + b) == Hex(a) + Hex(b)
  {
    if a == [] {
      assert a + b == b;
    } else {
      assert (a + b)[1..] == a[1..] + b;
      HexAppend(a[1..], b);
    }
  }

  lemma {:induction false} PackHex(data: seq<byte>)
    ensures Pack(Hex(data)) == Some(data)
  {
    if data != [] {
      PackHex(data[1..]);
      assert Hex(data)[2..] == Hex(data[1..]);
      assert data == [data[0]] + data[1..];
    }
  }

  /** Two more digits are one more byte. */
  lemma HexNumberStep(n: nat, width: nat)
    ensures HexNumber(n, width + 2) == HexNumber(n / 0x100, width) + Hex([n % 0x100])
  {
    assert n / 16 / 16 == n / 0x100 && n / 16 % 16 == n % 0x100 / 16 && n % 16 == n % 0x100 % 16;
    assert HexNumber(n, width + 2) == HexNumber(n / 0x100, width) + [HexDigit(n / 16 % 16)] + [HexDigit(n % 16)];
  }

  lemma HexNumberOfBytes(n: nat)
    requires n < TWO_32
    ensures HexNumber(n, 8)
            == Hex([n / 0x100_0000]) + Hex([n / 0x1_0000 % 0x100]) + Hex([n / 0x100 % 0x100]) + Hex([n % 0x100])
  {
    hide Hex, HexNumber;
    assert n / 0x100 / 0x100 == n / 0x1_0000 && n / 0x1_0000 / 0x100 == n / 0x100_0000;
    HexNumberStep(n, 6);
    HexNumberStep(n / 0x100, 4);
    HexNumberStep(n / 0x1_0000, 2);
    HexNumberStep(n / 0x100_0000, 0);
    assert HexNumber(0, 0) == "";
  }

  lemma HexOfFour(b0: byte, b1: byte, b2: byte, b3: byte)
    ensures Hex([b0, b1, b2, b3]) == Hex([b0]) + Hex([b1]) + Hex([b2]) + Hex([b3])
  {
    hide Hex;
    HexAppend([b0, b1, b2], [b3]);
    HexAppend([b0, b1], [b2]);
    HexAppend([b0], [b1]);
    assert [b0, b1, b2, b3] == [b0, b1, b2] + [b3] && [b0, b1, b2] == [b0, b1] + [b2] && [b0, b1] == [b0] + [b1];
  }

  /** The eight digits of any length are its four wire bytes in hex. */
  lemma HexNumberIsBe32(n: nat)
    requires n < TWO_32
    ensures HexNumber(n, 8) == Hex(ToBe32(n))
  {
    hide Hex, HexNumber;
    HexNumberOfBytes(n);
    HexOfFour(n / 0x100_0000, n / 0x1_0000 % 0x100, n / 0x100 % 0x100, n % 0x100);
  }

  lemma {:induction false} ZeroDigits(width: nat)
    ensures HexNumber(0, width) == seq(width, _ => '0')
  {
    if width > 0 {
      ZeroDigits(width - 1);
    }
  }

  /** A hex field of a wire string is its length digits followed by its bytes in hex. */
  lemma HexOfWireString(p: seq<byte>)
    requires |p| < TWO_32
    ensures Hex(RawBlob([p])) == HexNumber(|p|, 8) + Hex(p)
  {
    RawBlobOfOne(p);
    HexNumberIsBe32(|p|);
    HexAppend(ToBe32(|p|), p);
  }

  lemma ThirtyTwo()
    ensures HexNumber(32, 8) == "00000020"
  {
    ZeroDigits(6);
    assert HexNumber(32, 8) == HexNumber(32 / 16, 7) + ['0'];
    assert HexNumber(2, 7) == HexNumber(2 / 16, 6) + ['2'];
  }

  /** Characters 39 to 102 of an ed25519 blob's hex are exactly its 32 key bytes. */
  lemma KeySlice(name: seq<byte>, key: seq<byte>)
    requires |name| == 11 && |key| == 32
    ensures Cut(Hex(RawBlob([name, key])), 39, 102) == Hex(key)
  {
    RawBlobAppend([name], [key]);
    assert [name] + [key] == [name, key];
    HexAppend(RawBlob([name]), RawBlob([key]));
    HexOfWireString(name);
    HexOfWireString(key);
    var front := HexNumber(11, 8) + Hex(name) + HexNumber(32, 8);
    assert Hex(RawBlob([name, key])) == front + Hex(key);
    assert |front| == 38;
  }

  function SkParts(key: seq<byte>): (parts: seq<seq<byte>>) {
    [Ascii(TYPE), key, Ascii(APP)]
  }

  function SkBlob(key: seq<byte>): (blob: seq<byte>) {
    RawBlob(SkParts(key))
  }

  /** The wire blob of an ordinary ed25519 key. */
  function EdBlob(key: seq<byte>): (blob: seq<byte>) {
    RawBlob([Ascii("ssh-ed25519"), key])
  }

  lemma HexOfThree(t: seq<byte>, key: seq<byte>, a: seq<byte>)
    requires |t| < TWO_32 && |key| == 32 && |a| < TWO_32
    ensures Hex(RawBlob([t, key, a]))
            == HexNumber(|t|, 8) + Hex(t) + "00000020" + Hex(key) + (HexNumber(|a|, 8) + Hex(a))
  {
    ThirtyTwo();
    HexOfWireString(t);
    HexOfWireString(key);
    HexOfWireString(a);
    RawBlobOfThree(t, key, a);
    HexAppend(RawBlob([t]) + RawBlob([key]), RawBlob([a]));
    HexAppend(RawBlob([t]), RawBlob([key]));
  }

  lemma BlobHexIsWireBlob(key: seq<byte>)
    requires |key| == 32
    ensures BlobHex(Hex(EdBlob(key))) == Hex(SkBlob(key))
  {
    KeySlice(Ascii("ssh-ed25519"), key);
    HexOfThree(Ascii(TYPE), key, Ascii(APP));
  }

  lemma SkLineOfHex(input: seq<byte>, blob: seq<byte>)
    requires BlobHex(Hex(input)) == Hex(blob)
    ensures SkLine(Encode(input)) == Some(PrintedLine(blob))
  {
    DecodeEncode(input);
    PackHex(blob);
  }

  lemma SkPartsAreReadable(key: seq<byte>)
    requires |key| == 32
    ensures ReadStrings(SkBlob(key)) == Some(SkParts(key))
    ensures IsPlausibleBlob(SkBlob(key))
  {
    var parts := SkParts(key);
    assert |parts[0]| == 26 && |parts[1]| == 32 && |parts[2]| == 4;
    ReadRawBlob(parts);
    SkTypeIsNamed();
    RawBlobPlausibleShort(parts);
  }

  lemma SkTypeIsNamed()
    ensures AlgorithmName(Ascii(TYPE))
  {
    assert Ascii("sk-ssh-") <= Ascii(TYPE);
    assert forall i :: 0 <= i < |TYPE| ==> 32 <= TYPE[i] as int <= 126;
  }

  /** The three parts, spelled out. */
  lemma PartsSpelled(key: seq<byte>)
    ensures var parts, name := SkParts(key), "sk-ssh-ed25519@openssh.com";
            && |parts| == 3 && parts[1] == key && parts[2] == [0x73, 0x73, 0x68, 0x3A]
            && |parts[0]| == |name| && forall i :: 0 <= i < |name| ==> parts[0][i] == name[i] as int
  {
  }

  /**
   For every 32-byte key: the script prints a line whose base64 field decodes to a wire blob of
   the three strings type, key and application, which the plausibility test accepts.
   */
  lemma SkLineIsWellFormed(key: seq<byte>)
    requires |key| == 32
    ensures SkLine(Encode(EdBlob(key)))
            == Some("sk-ssh-ed25519@openssh.com" + " " + Encode(SkBlob(key)) + " conch-android-test-sk\n")
    ensures Decode(Encode(SkBlob(key))) == Some(SkBlob(key))
    ensures ReadStrings(SkBlob(key)) == Some(SkParts(key))
    ensures IsPlausibleBlob(SkBlob(key))
  {
    BlobHexIsWireBlob(key);
    SkLineOfHex(EdBlob(key), SkBlob(key));
    DecodeEncode(SkBlob(key));
    SkPartsAreReadable(key);
  }
}
