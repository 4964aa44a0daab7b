/**
 The write side of standard base64 and the fingerprints built on it
 (ssh-transport/src/known_hosts.rs). A machine word `x << k | y` of disjoint
 parts is the sum x * 2^k + y here, and `n >> k & 63` is n / 2^k % 64.
 */
module Base64 {
  import opened Wrappers
  import opened Bytes

  const UPPER := "ABCDEFGHIJKLMNOPQRSTUVWXYZ"
  const LOWER := "abcdefghijklmnopqrstuvwxyz"
  const DIGITS := "0123456789"
  const TABLE: string := UPPER + LOWER + DIGITS + "+/"

  type sextet = n: int | 0 <= n < 64

  /** The base64 alphabet of section 4 of RFC 4648, by ranges. */
  function Letter(v: sextet): (c: char) {
    if v < 26 then ('A' as int + v) as char
    else if v < 52 then ('a' as int + v - 26) as char
    else if v < 62 then ('0' as int + v - 52) as char
    else if v == 62 then '+'
    else '/'
  }

  /** The encoder's lookup table spells that alphabet. */
  lemma TableIsAlphabet(v: sextet)
    ensures |TABLE| == 64 && TABLE[v] == Letter(v)
  {
    if v < 26 {
      assert TABLE[v] == UPPER[v];
    } else if v < 52 {
      assert TABLE[v] == LOWER[v - 26];
    } else if v < 62 {
      assert TABLE[v] == DIGITS[v - 52];
    }
  }

  // ----- reference: section 4 of RFC 4648 over the bit stream

  /** The low `width` bits of n, most significant first. */
  function BitsOf(n: nat, width: nat): (bits: seq<bool>)
    ensures |bits| == width
  {
    if width == 0 then [] else BitsOf(n / 2, width - 1) + [n % 2 == 1]
  }

  /** A bit string read as a binary number. */
  function Value(bits: seq<bool>): (n: nat) {
    if bits == [] then 0
    else 2 * Value(bits[..|bits| - 1]) + (if bits[|bits| - 1] then 1 else 0)
  }

  function Pow2(n: nat): (p: nat)
    ensures p > 0
  {
    if n == 0 then 1 else 2 * Pow2(n - 1)
  }

  function Bits(data: seq<byte>): (bits: seq<bool>)
    ensures |bits| == 8 * |data|
  {
    if data == [] then [] else BitsOf(data[0], 8) + Bits(data[1..])
  }

  lemma {:induction false} ValueBound(bits: seq<bool>)
    ensures Value(bits) < Pow2(|bits|)
  {
    if bits != [] {
      ValueBound(bits[..|bits| - 1]);
    }
  }

  lemma {:induction false} ValueOfBits(n: nat, width: nat)
    requires n < Pow2(width)
    ensures Value(BitsOf(n, width)) == n
  {
    if width > 0 {
      ValueOfBits(n / 2, width - 1);
      assert BitsOf(n, width)[..width - 1] == BitsOf(n / 2, width - 1);
    }
  }

  lemma Doubling(x: nat, p: nat)
    ensures x * (2 * p) == 2 * (x * p)
  {
  }

  lemma {:induction false} ValueAppend(a: seq<bool>, b: seq<bool>)
    ensures Value(a + b) == Value(a) * Pow2(|b|) + Value(b)
  {
    if b == [] {
      assert a + b == a;
    } else {
      var b' := b[..|b| - 1];
      var bit := if b[|b| - 1] then 1 else 0;
      assert Value(a + b) == 2 * Value(a + b') + bit by {
        assert (a + b)[..|a + b| - 1] == a + b';
      }
      ValueAppend(a, b');
      assert Value(a) * Pow2(|b|) == 2 * (Value(a) * Pow2(|b'|)) by {
        Doubling(Value(a), Pow2(|b'|));
      }
    }
  }

  lemma PowersOfTwo()
    ensures Pow2(6) == 64 && Pow2(8) == 0x100 && Pow2(12) == 0x1000
    ensures Pow2(16) == 0x1_0000 && Pow2(18) == 0x4_0000
  {
    assert Pow2(4) == 16;
    assert Pow2(8) == 0x100;
    assert Pow2(12) == 0x1000;
    assert Pow2(16) == 0x1_0000;
  }

  /** Six bits read as a number. */
  function Sextet(bits: seq<bool>): (n: sextet)
    requires |bits| == 6
  {
    PowersOfTwo();
    ValueBound(bits);
    Value(bits)
  }

  /** Zero bits on the right complete the last group of six. */
  function Regroup(bits: seq<bool>): (groups: seq<sextet>)
    ensures |groups| == (|bits| + 5) / 6
  {
    if |bits| == 0 then []
    else if |bits| < 6 then [Sextet(bits + seq(6 - |bits|, _ => false))]
    else [Sextet(bits[..6])] + Regroup(bits[6..])
  }

  function Letters(groups: seq<sextet>): (s: string)
    ensures |s| == |groups|
  {
    seq(|groups|, i requires 0 <= i < |groups| => Letter(groups[i]))
  }

  function Pads(n: nat): (s: string)
    ensures |s| == n
  {
    seq(n, _ => '=')
  }

  function PadCount(n: nat): (k: nat)
    ensures k < 4 && (n + k) % 4 == 0
  {
    (4 - n % 4) % 4
  }

  /** Letters completed to whole quanta of four. */
  function Padded(letters: string): (s: string) {
    letters + Pads(PadCount(|letters|))
  }

  /** Base64 of a byte string: the letters of its bit groups, padded. */
  function Encode(data: seq<byte>): (s: string) {
    Padded(Letters(Regroup(Bits(data))))
  }

  // ----- the chunk loop

  lemma {:induction false} BitsAppend(a: seq<byte>, b: seq<byte>)
    ensures Bits(a + b) == Bits(a) + Bits(b)
  {
    if a == [] {
      assert a + b == b;
    } else {
      assert (a + b)[1..] == a[1..] + b;
      BitsAppend(a[1..], b);
    }
  }

  lemma {:induction false} RegroupAppend(a: seq<bool>, b: seq<bool>)
    requires |a| % 6 == 0
    ensures Regroup(a + b) == Regroup(a) + Regroup(b)
  {
    if a == [] {
      assert a + b == b;
    } else {
      assert (a + b)[..6] == a[..6];
      assert (a + b)[6..] == a[6..] + b;
      RegroupAppend(a[6..], b);
    }
  }

  /** Letters come in quanta of four exactly when the bytes come in groups of three. */
  lemma GroupCount(n: nat)
    ensures n % 3 == 0 ==> (8 * n + 5) / 6 % 4 == 0
    ensures var g := (8 * n + 5) / 6; g + PadCount(g) == (n + 2) / 3 * 4
    ensures (8 * n + 5) / 6 == (4 * n + 2) / 3
  {
    var q, r := n / 3, n % 3;
    assert n == 3 * q + r;
    if r == 0 {
      assert (8 * n + 5) / 6 == 4 * q == (4 * n + 2) / 3;
    } else if r == 1 {
      assert (8 * n + 5) / 6 == 4 * q + 2 == (4 * n + 2) / 3;
    } else {
      assert (8 * n + 5) / 6 == 4 * q + 3 == (4 * n + 2) / 3;
    }
  }

  lemma GroupsAlign(n: nat)
    requires n % 3 == 0
    ensures 8 * n % 6 == 0
  {
    assert 8 * n == 6 * (4 * (n / 3));
  }

  lemma LettersAppend(a: seq<byte>, b: seq<byte>)
    requires |a| % 3 == 0
    ensures Letters(Regroup(Bits(a + b))) == Letters(Regroup(Bits(a))) + Letters(Regroup(Bits(b)))
  {
    BitsAppend(a, b);
    GroupsAlign(|a|);
    RegroupAppend(Bits(a), Bits(b));
  }

  lemma PaddedAppend(x: string, y: string)
    requires |x| % 4 == 0
    ensures Padded(x + y) == Padded(x) + Padded(y)
  {
    assert PadCount(|x|) == 0 && PadCount(|x + y|) == PadCount(|y|);
  }

  /** Whole three-byte groups encode independently of what follows them. */
  lemma EncodeAppend(a: seq<byte>, b: seq<byte>)
    requires |a| % 3 == 0
    ensures Encode(a + b) == Encode(a) + Encode(b)
  {
    LettersAppend(a, b);
    GroupCount(|a|);
    PaddedAppend(Letters(Regroup(Bits(a))), Letters(Regroup(Bits(b))));
  }

  lemma EncodeLength(data: seq<byte>)
    ensures |Encode(data)| == (|data| + 2) / 3 * 4
  {
    GroupCount(|data|);
  }

  /** The 24-bit word of three bytes, and its four six-bit fields. */
  function Word(b0: byte, b1: byte, b2: byte): (n: nat) {
    b0 as int * 0x1_0000 + b1 as int * 0x100 + b2 as int
  }

  function Fields(n: nat): (f: seq<sextet>)
    ensures |f| == 4
  {
    [n / 0x4_0000 % 64, n / 0x1000 % 64, n / 64 % 64, n % 64]
  }

  lemma FieldsOfSextets(v0: sextet, v1: sextet, v2: sextet, v3: sextet)
    ensures Fields(v0 as int * 0x4_0000 + v1 as int * 0x1000 + v2 as int * 64 + v3 as int) == [v0, v1, v2, v3]
  {
    var n := v0 as int * 0x4_0000 + v1 as int * 0x1000 + v2 as int * 64 + v3 as int;
    assert n / 64 == v0 as int * 0x1000 + v1 as int * 64 + v2 as int;
    assert n / 0x1000 == v0 as int * 64 + v1 as int;
    assert n / 0x4_0000 == v0 as int;
  }

  lemma BitsOfThree(b0: byte, b1: byte, b2: byte)
    ensures Bits([b0, b1, b2]) == (BitsOf(b0, 8) + BitsOf(b1, 8)) + BitsOf(b2, 8)
  {
    BitsAppend([b0, b1], [b2]);
    BitsAppend([b0], [b1]);
    assert [b0, b1] + [b2] == [b0, b1, b2] && [b0] + [b1] == [b0, b1];
    assert Bits([b0]) == BitsOf(b0, 8) && Bits([b1]) == BitsOf(b1, 8) && Bits([b2]) == BitsOf(b2, 8);
  }

  lemma WordOfBits(b0: byte, b1: byte, b2: byte)
    ensures Value(Bits([b0, b1, b2])) == Word(b0, b1, b2)
  {
    var x, y, z := BitsOf(b0, 8), BitsOf(b1, 8), BitsOf(b2, 8);
    PowersOfTwo();
    ValueOfBits(b0, 8);
    ValueOfBits(b1, 8);
    ValueOfBits(b2, 8);
    BitsOfThree(b0, b1, b2);
    ValueAppend(x + y, z);
    ValueAppend(x, y);
  }

  lemma Times64(x: nat, p: nat)
    requires p == 64
    ensures x * p == 64 * x
  {
  }

  lemma ValueAppendSix(a: seq<bool>, b: seq<bool>)
    requires |b| == 6
    ensures Value(a + b) == 64 * Value(a) + Value(b)
  {
    hide Value, Pow2;
    assert Pow2(6) == 64 by {
      PowersOfTwo();
    }
    ValueAppend(a, b);
    Times64(Value(a), Pow2(|b|));
  }

  lemma ValueOfFour(p: seq<bool>, q: seq<bool>, r: seq<bool>, s: seq<bool>)
    requires |p| == |q| == |r| == |s| == 6
    ensures Value(((p + q) + r) + s) == Value(p) * 0x4_0000 + Value(q) * 0x1000 + Value(r) * 64 + Value(s)
  {
    hide Value;
    ValueAppendSix((p + q) + r, s);
    ValueAppendSix(p + q, r);
    ValueAppendSix(p, q);
  }

  /** Grouping 24 bits by sixes reads the same fields as shifting and masking the word. */
  lemma FieldsAreGroups(bits: seq<bool>)
    requires |bits| == 24
    ensures Fields(Value(bits)) == [Sextet(bits[..6]), Sextet(bits[6..12]), Sextet(bits[12..18]), Sextet(bits[18..])]
  {
    var p, q, r, s := bits[..6], bits[6..12], bits[12..18], bits[18..];
    hide Value, Fields;
    assert bits == ((p + q) + r) + s;
    ValueOfFour(p, q, r, s);
    FieldsOfSextets(Sextet(p), Sextet(q), Sextet(r), Sextet(s));
  }

  /** What one chunk of one to three bytes contributes, as the encoder's loop body computes it. */
  function Quantum(chunk: seq<byte>): (q: string)
    requires 1 <= |chunk| <= 3
    ensures |q| == 4
  {
    var f := ChunkFields(chunk);
    [Letter(f[0]), Letter(f[1]),
     if |chunk| > 1 then Letter(f[2]) else '=',
     if |chunk| > 2 then Letter(f[3]) else '=']
  }

  lemma ZeroBits()
    ensures BitsOf(0, 8) == seq(8, _ => false)
  {
    assert BitsOf(0, 4) == [false, false, false, false];
  }

  lemma BitsOfOne(b: byte)
    ensures Bits([b]) == BitsOf(b, 8)
  {
    assert Bits([b]) == BitsOf(b, 8) + Bits([b][1..]);
  }

  /** A chunk of k bytes, completed with zero bytes, as the loop body reads it. */
  function ChunkFields(chunk: seq<byte>): (f: seq<sextet>)
    requires 1 <= |chunk| <= 3
    ensures |f| == 4
  {
    var b1: byte := if |chunk| > 1 then chunk[1] else 0;
    var b2: byte := if |chunk| > 2 then chunk[2] else 0;
    Fields(Word(chunk[0], b1, b2))
  }

  lemma GroupsOfOne(b: byte)
    ensures Regroup(Bits([b])) == ChunkFields([b])[..2]
  {
    var bits := BitsOf(b, 8);
    var wide := Bits([b, 0, 0]);
    WordOfBits(b, 0, 0);
    FieldsAreGroups(wide);
    BitsOfOne(b);
    assert wide[..6] == bits[..6] && wide[6..12] == bits[6..] + seq(4, _ => false) by {
      BitsOfThree(b, 0, 0);
      ZeroBits();
    }
    assert Regroup(bits[6..]) == [Sextet(wide[6..12])];
  }

  lemma GroupsOfTwo(b0: byte, b1: byte)
    ensures Regroup(Bits([b0, b1])) == ChunkFields([b0, b1])[..3]
  {
    var bits := Bits([b0, b1]);
    var wide := Bits([b0, b1, 0]);
    WordOfBits(b0, b1, 0);
    FieldsAreGroups(wide);
    assert wide == bits + BitsOf(0, 8) by {
      BitsAppend([b0, b1], [0]);
      assert [b0, b1] + [0] == [b0, b1, 0];
      BitsOfOne(0);
    }
    ZeroBits();
    assert wide[..6] == bits[..6] && wide[6..12] == bits[6..][..6];
    assert wide[12..18] == bits[6..][6..] + seq(2, _ => false);
    assert Regroup(bits[6..][6..]) == [Sextet(wide[12..18])];
  }

  lemma GroupsOfThree(b0: byte, b1: byte, b2: byte)
    ensures Regroup(Bits([b0, b1, b2])) == ChunkFields([b0, b1, b2])
  {
    var bits := Bits([b0, b1, b2]);
    WordOfBits(b0, b1, b2);
    FieldsAreGroups(bits);
    assert bits[6..12] == bits[6..][..6] && bits[12..18] == bits[6..][6..][..6] && bits[18..] == bits[6..][6..][6..];
    assert Regroup(bits[18..]) == [Sextet(bits[18..])] by {
      assert bits[18..][..6] == bits[18..];
    }
    assert Regroup(bits[6..][6..]) == [Sextet(bits[12..18]), Sextet(bits[18..])];
  }

  /** Shifting and masking one chunk yields its letters and padding in the bit-stream definition. */
  lemma QuantumIsEncoding(chunk: seq<byte>)
    requires 1 <= |chunk| <= 3
    ensures Encode(chunk) == Quantum(chunk)
  {
    hide Bits, Regroup, ChunkFields;
    if |chunk| == 1 {
      assert chunk == [chunk[0]];
      GroupsOfOne(chunk[0]);
    } else if |chunk| == 2 {
      assert chunk == [chunk[0], chunk[1]];
      GroupsOfTwo(chunk[0], chunk[1]);
    } else {
      assert chunk == [chunk[0], chunk[1], chunk[2]];
      GroupsOfThree(chunk[0], chunk[1], chunk[2]);
    }
  }

  /** The loop body: one word, four table lookups, '=' for the missing bytes. */
  method EncodeChunk(chunk: seq<byte>) returns (out: string)
    requires 1 <= |chunk| <= 3
    ensures out == Quantum(chunk)
  {
    var b1: byte := if |chunk| > 1 then chunk[1] else 0;
    var b2: byte := if |chunk| > 2 then chunk[2] else 0;
    var n := Word(chunk[0], b1, b2);
    var f := Fields(n);
    TableIsAlphabet(f[0]);
    TableIsAlphabet(f[1]);
    TableIsAlphabet(f[2]);
    TableIsAlphabet(f[3]);
    out := [TABLE[f[0]]];
    out := out + [TABLE[f[1]]];
    out := out + [if |chunk| > 1 then TABLE[f[2]] else '='];
    out := out + [if |chunk| > 2 then TABLE[f[3]] else '='];
  }

  lemma WholeGroups(chunks: nat)
    ensures 3 * chunks % 3 == 0
  {
  }

  lemma EncodePrefix(data: seq<byte>, chunks: nat, end: nat)
    requires 3 * chunks < end <= |data| && end <= 3 * chunks + 3
    ensures Encode(data[..end]) == Encode(data[..3 * chunks]) + Quantum(data[3 * chunks..end])
  {
    hide Encode, Quantum;
    var front, chunk := data[..3 * chunks], data[3 * chunks..end];
    QuantumIsEncoding(chunk);
    assert |front| % 3 == 0 by {
      WholeGroups(chunks);
    }
    EncodeAppend(front, chunk);
    assert data[..end] == front + chunk;
  }

  /** known_hosts.rs base64_encode: a loop over chunks of three bytes that pushes four characters each. */
  method Base64Encode(data: seq<byte>) returns (out: string)
    ensures out == Encode(data)
    ensures |out| == (|data| + 2) / 3 * 4
  {
    out := "";
    var i := 0;
    ghost var chunks := 0;
    while i < |data|
      invariant i <= |data|
      invariant i == 3 * chunks || i == |data|
      invariant out == Encode(data[..i])
    {
      var end := if i + 3 <= |data| then i + 3 else |data|;
      var chunk := data[i..end];
      var quantum := EncodeChunk(chunk);
      out := out + quantum;
      EncodePrefix(data, chunks, end);
      i, chunks := end, chunks + 1;
    }
    assert data[..i] == data;
    EncodeLength(data);
  }

  /** The test vectors of section 10 of RFC 4648, and one with the last two letters of the alphabet. */
  lemma TestVectors()
    ensures Encode([]) == "" && Encode([0x66]) == "Zg==" && Encode([0x66, 0x6F]) == "Zm8="
    ensures Encode([0x66, 0x6F, 0x6F]) == "Zm9v" && Encode([0x66, 0x6F, 0x6F, 0x62]) == "Zm9vYg=="
    ensures Encode([0x66, 0x6F, 0x6F, 0x62, 0x61]) == "Zm9vYmE="
    ensures Encode([0x66, 0x6F, 0x6F, 0x62, 0x61, 0x72]) == "Zm9vYmFy"
    ensures Encode([0xFB, 0xFF]) == "+/8="
  {
    QuantumVectors();
    hide Encode, Quantum;
    var foo := [0x66, 0x6F, 0x6F];
    EncodeEmpty();
    QuantumIsEncoding([0x66]);
    QuantumIsEncoding([0x66, 0x6F]);
    QuantumIsEncoding(foo);
    QuantumIsEncoding([0x62]);
    QuantumIsEncoding([0x62, 0x61]);
    QuantumIsEncoding([0x62, 0x61, 0x72]);
    QuantumIsEncoding([0xFB, 0xFF]);
    EncodeAppend(foo, [0x62]);
    EncodeAppend(foo, [0x62, 0x61]);
    EncodeAppend(foo, [0x62, 0x61, 0x72]);
    assert foo + [0x62] == [0x66, 0x6F, 0x6F, 0x62] && foo + [0x62, 0x61] == [0x66, 0x6F, 0x6F, 0x62, 0x61];
    assert foo + [0x62, 0x61, 0x72] == [0x66, 0x6F, 0x6F, 0x62, 0x61, 0x72];
  }

  lemma QuantumOfFields(chunk: seq<byte>, f: seq<sextet>)
    requires 1 <= |chunk| <= 3 && |f| == 4
    ensures ChunkFields(chunk) == f ==> Quantum(chunk) == [Letter(f[0]), Letter(f[1]), if |chunk| > 1 then Letter(f[2]) else '=', if |chunk| > 2 then Letter(f[3]) else '=']
  {
  }

  lemma FieldsOfWord(chunk: seq<byte>, f: seq<sextet>)
    requires 1 <= |chunk| <= 3 && |f| == 4
    ensures Word(chunk[0], if |chunk| > 1 then chunk[1] else 0, if |chunk| > 2 then chunk[2] else 0)
            == f[0] as int * 0x4_0000 + f[1] as int * 0x1000 + f[2] as int * 64 + f[3] as int
            ==> ChunkFields(chunk) == f
  {
    FieldsOfSextets(f[0], f[1], f[2], f[3]);
  }

  lemma FieldVectors()
    ensures ChunkFields([0x66]) == [25, 32, 0, 0]
    ensures ChunkFields([0x66, 0x6F]) == [25, 38, 60, 0]
    ensures ChunkFields([0x66, 0x6F, 0x6F]) == [25, 38, 61, 47]
    ensures ChunkFields([0x62]) == [24, 32, 0, 0]
    ensures ChunkFields([0x62, 0x61]) == [24, 38, 4, 0]
    ensures ChunkFields([0x62, 0x61, 0x72]) == [24, 38, 5, 50]
    ensures ChunkFields([0xFB, 0xFF]) == [62, 63, 60, 0]
  {
    hide Fields, ChunkFields;
    FieldsOfWord([0x66], [25, 32, 0, 0]);
    FieldsOfWord([0x66, 0x6F], [25, 38, 60, 0]);
    FieldsOfWord([0x66, 0x6F, 0x6F], [25, 38, 61, 47]);
    FieldsOfWord([0x62], [24, 32, 0, 0]);
    FieldsOfWord([0x62, 0x61], [24, 38, 4, 0]);
    FieldsOfWord([0x62, 0x61, 0x72], [24, 38, 5, 50]);
    FieldsOfWord([0xFB, 0xFF], [62, 63, 60, 0]);
  }

  lemma QuantumVectors()
    ensures Quantum([0x66]) == "Zg==" && Quantum([0x66, 0x6F]) == "Zm8=" && Quantum([0x66, 0x6F, 0x6F]) == "Zm9v"
    ensures Quantum([0x62]) == "Yg==" && Quantum([0x62, 0x61]) == "YmE=" && Quantum([0x62, 0x61, 0x72]) == "YmFy"
    ensures Quantum([0xFB, 0xFF]) == "+/8="
  {
    hide Quantum, ChunkFields;
    FieldVectors();
    QuantumOfFields([0x66], [25, 32, 0, 0]);
    QuantumOfFields([0x66, 0x6F], [25, 38, 60, 0]);
    QuantumOfFields([0x66, 0x6F, 0x6F], [25, 38, 61, 47]);
    QuantumOfFields([0x62], [24, 32, 0, 0]);
    QuantumOfFields([0x62, 0x61], [24, 38, 4, 0]);
    QuantumOfFields([0x62, 0x61, 0x72], [24, 38, 5, 50]);
    QuantumOfFields([0xFB, 0xFF], [62, 63, 60, 0]);
  }

  // ----- the canonical decoder (section 3.5 of RFC 4648) and the round trips

  function SextetOf(c: char): (v: Option<sextet>) {
    if 'A' <= c <= 'Z' then Some(c as int - 'A' as int)
    else if 'a' <= c <= 'z' then Some(c as int - 'a' as int + 26)
    else if '0' <= c <= '9' then Some(c as int - '0' as int + 52)
    else if c == '+' then Some(62)
    else if c == '/' then Some(63)
    else None
  }

  lemma LetterRoundTrip(v: sextet)
    ensures SextetOf(Letter(v)) == Some(v) && Letter(v) != '='
  {
  }

  lemma LetterOnto(c: char)
    requires SextetOf(c).Some?
    ensures Letter(SextetOf(c).value) == c
  {
  }

  function DecodeQuantum(q: string, last: bool): (r: Option<seq<byte>>)
    requires |q| == 4
    ensures r.Some? ==> 1 <= |r.value| <= 3 && (|r.value| < 3 ==> last)
  {
    var v0, v1, v2, v3 := SextetOf(q[0]), SextetOf(q[1]), SextetOf(q[2]), SextetOf(q[3]);
    if v0.None? || v1.None? then
      None
    else if last && q[2] == '=' && q[3] == '=' then
      if v1.value % 16 == 0 then Some([v0.value as int * 4 + v1.value / 16]) else None
    else if v2.None? then
      None
    else if last && q[3] == '=' then
      if v2.value % 4 == 0 then
        Some([v0.value as int * 4 + v1.value / 16, v1.value % 16 * 16 + v2.value / 4])
      else
        None
    else if v3.None? then
      None
    else
      Some([v0.value as int * 4 + v1.value / 16, v1.value as int % 16 * 16 + v2.value / 4, v2.value as int % 4 * 64 + v3.value])
  }

  /** Accepts exactly the canonical encodings: right alphabet, right padding, zero pad bits. */
  function Decode(s: string): (r: Option<seq<byte>>) {
    if s == "" then
      Some([])
    else if |s| < 4 then
      None
    else
      var head, tail := DecodeQuantum(s[..4], |s| == 4), Decode(s[4..]);
      if head.Some? && tail.Some? then Some(head.value + tail.value) else None
  }

  lemma FieldsOfBytes(b0: byte, b1: byte, b2: byte)
    ensures var f := Fields(Word(b0, b1, b2));
            && f[0] as int * 4 + f[1] / 16 == b0
            && f[1] as int % 16 * 16 + f[2] / 4 == b1
            && f[2] as int % 4 * 64 + f[3] == b2
            && (b1 == 0 ==> f[1] % 16 == 0)
            && (b2 == 0 ==> f[2] % 4 == 0)
  {
    FieldsOfSextets(b0 / 4, b0 as int % 4 * 16 + b1 / 16, b1 as int % 16 * 4 + b2 / 64, b2 % 64);
  }

  lemma FieldsJoin(v0: sextet, v1: sextet, v2: sextet, v3: sextet)
    ensures Fields(Word(v0 as int * 4 + v1 / 16, v1 as int % 16 * 16 + v2 / 4, v2 as int % 4 * 64 + v3)) == [v0, v1, v2, v3]
  {
    FieldsOfSextets(v0, v1, v2, v3);
  }

  lemma DecodeLetters(v0: sextet, v1: sextet, v2: sextet, v3: sextet, last: bool)
    ensures DecodeQuantum([Letter(v0), Letter(v1), Letter(v2), Letter(v3)], last)
            == Some([v0 as int * 4 + v1 / 16, v1 as int % 16 * 16 + v2 / 4, v2 as int % 4 * 64 + v3])
    ensures v2 % 4 == 0 ==>
              DecodeQuantum([Letter(v0), Letter(v1), Letter(v2), '='], true)
              == Some([v0 as int * 4 + v1 / 16, v1 as int % 16 * 16 + v2 / 4])
    ensures v1 % 16 == 0 ==>
              DecodeQuantum([Letter(v0), Letter(v1), '=', '='], true) == Some([v0 as int * 4 + v1 / 16])
  {
    LetterRoundTrip(v0);
    LetterRoundTrip(v1);
    LetterRoundTrip(v2);
    LetterRoundTrip(v3);
    PadIsNoLetter();
  }

  lemma DecodeOfQuantum(chunk: seq<byte>, last: bool)
    requires 1 <= |chunk| <= 3 && (|chunk| < 3 ==> last)
    ensures DecodeQuantum(Quantum(chunk), last) == Some(chunk)
  {
    var b1: byte := if |chunk| > 1 then chunk[1] else 0;
    var b2: byte := if |chunk| > 2 then chunk[2] else 0;
    var f := ChunkFields(chunk);
    DecodeLetters(f[0], f[1], f[2], f[3], last);
    FieldsOfBytes(chunk[0], b1, b2);
    assert chunk == if |chunk| == 1 then [chunk[0]] else if |chunk| == 2 then [chunk[0], b1] else [chunk[0], b1, b2];
  }

  lemma PadIsNoLetter()
    ensures SextetOf('=').None?
  {
  }

  lemma QuantumOfDecoded(q: string, last: bool)
    requires |q| == 4 && DecodeQuantum(q, last).Some?
    ensures Quantum(DecodeQuantum(q, last).value) == q
  {
    var chunk := DecodeQuantum(q, last).value;
    LetterOnto(q[0]);
    LetterOnto(q[1]);
    var v0, v1 := SextetOf(q[0]).value, SextetOf(q[1]).value;
    var v2: sextet := if |chunk| > 1 then SextetOf(q[2]).value else 0;
    var v3: sextet := if |chunk| > 2 then SextetOf(q[3]).value else 0;
    FieldsJoin(v0, v1, v2, v3);
    assert ChunkFields(chunk) == [v0, v1, v2, v3];
    if |chunk| > 1 {
      LetterOnto(q[2]);
    }
    if |chunk| > 2 {
      LetterOnto(q[3]);
    }
  }

  lemma EncodeEmpty()
    ensures Encode([]) == ""
  {
  }

  lemma EncodeStep(data: seq<byte>)
    requires data != []
    ensures var k := if |data| < 3 then |data| else 3;
            Encode(data) == Quantum(data[..k]) + Encode(data[k..])
  {
    var k := if |data| < 3 then |data| else 3;
    QuantumIsEncoding(data[..k]);
    assert data == data[..k] + data[k..];
    if k == 3 {
      EncodeAppend(data[..k], data[k..]);
    } else {
      assert data[k..] == [] && data[..k] == data;
      EncodeEmpty();
    }
  }

  /** Decoding an encoding gives the bytes back. */
  lemma {:induction false} DecodeEncode(data: seq<byte>)
    ensures Decode(Encode(data)) == Some(data)
  {
    hide Encode, Quantum, DecodeQuantum;
    if data == [] {
      EncodeEmpty();
    } else {
      var k := if |data| < 3 then |data| else 3;
      EncodeStep(data);
      EncodeLength(data[k..]);
      DecodeOfQuantum(data[..k], |Encode(data)| == 4);
      DecodeEncode(data[k..]);
      var s := Encode(data);
      assert s[..4] == Quantum(data[..k]) && s[4..] == Encode(data[k..]);
      assert data == data[..k] + data[k..];
    }
  }

  lemma DecodeStep(s: string) returns (head: seq<byte>)
    requires s != "" && Decode(s).Some?
    ensures |s| >= 4 && Encode(head) == s[..4]
    ensures Decode(s[4..]).Some? && Decode(s).value == head + Decode(s[4..]).value
    ensures |s| > 4 ==> |head| == 3
  {
    head := DecodeQuantum(s[..4], |s| == 4).value;
    QuantumOfDecoded(s[..4], |s| == 4);
    QuantumIsEncoding(head);
  }

  /** A string the decoder accepts is the encoding of what it decodes to. */
  lemma {:induction false} EncodeDecode(s: string)
    requires Decode(s).Some?
    ensures Encode(Decode(s).value) == s
  {
    if s == "" {
      EncodeEmpty();
    } else {
      var head := DecodeStep(s);
      EncodeDecode(s[4..]);
      var tail := Decode(s[4..]).value;
      if |s| > 4 {
        EncodeAppend(head, tail);
      } else {
        assert tail == [] && head + tail == head;
      }
    }
  }

  // ----- trimming and fingerprints

  /** Rust's trim_end_matches('='). */
  function TrimPad(s: string): (t: string)
    ensures t <= s
  {
    if s != "" && s[|s| - 1] == '=' then TrimPad(s[..|s| - 1]) else s
  }

  lemma {:induction false} TrimPads(letters: string, k: nat)
    requires forall i :: 0 <= i < |letters| ==> letters[i] != '='
    ensures TrimPad(letters + Pads(k)) == letters
  {
    if k == 0 {
      assert letters + Pads(0) == letters;
    } else {
      assert (letters + Pads(k))[..|letters| + k - 1] == letters + Pads(k - 1);
      TrimPads(letters, k - 1);
    }
  }

  lemma LettersHaveNoPad(groups: seq<sextet>)
    ensures forall i :: 0 <= i < |groups| ==> Letters(groups)[i] != '='
  {
    forall i | 0 <= i < |groups| ensures Letters(groups)[i] != '=' {
      LetterRoundTrip(groups[i]);
    }
  }

  /** Trimming drops the padding and nothing else. */
  lemma TrimmedEncoding(data: seq<byte>)
    ensures TrimPad(Encode(data)) == Letters(Regroup(Bits(data)))
    ensures Padded(TrimPad(Encode(data))) == Encode(data)
    ensures |TrimPad(Encode(data))| == (4 * |data| + 2) / 3
    ensures forall i :: 0 <= i < |TrimPad(Encode(data))| ==> TrimPad(Encode(data))[i] != '='
  {
    var letters := Letters(Regroup(Bits(data)));
    LettersHaveNoPad(Regroup(Bits(data)));
    TrimPads(letters, PadCount(|letters|));
    GroupCount(|data|);
  }

  lemma TrimmedInjective(x: seq<byte>, y: seq<byte>)
    ensures TrimPad(Encode(x)) == TrimPad(Encode(y)) <==> x == y
  {
    TrimmedEncoding(x);
    TrimmedEncoding(y);
    DecodeEncode(x);
    DecodeEncode(y);
  }

  type digest = d: seq<byte> | |d| == 32 witness seq(32, _ => 0)

  const LABEL := "SHA256:"

  /** known_hosts.rs blob_fingerprint, over any 32-byte digest function. */
  function BlobFingerprint(sha256: seq<byte> -> digest, blob: seq<byte>): (s: string) {
    LABEL + TrimPad(Encode(sha256(blob)))
  }

  lemma FingerprintShape(sha256: seq<byte> -> digest, blob: seq<byte>)
    ensures var s := BlobFingerprint(sha256, blob); |s| == 7 + 43 && LABEL <= s && '=' !in s
  {
    TrimmedEncoding(sha256(blob));
  }

  /** After the label, and with its padding restored, a fingerprint decodes to the digest. */
  lemma FingerprintDecodes(sha256: seq<byte> -> digest, blob: seq<byte>)
    ensures var s := BlobFingerprint(sha256, blob);
            s[..7] == "SHA256:" && Decode(s[7..] + "=") == Some(sha256(blob))
  {
    hide Encode, Decode, TrimPad, Letters, Regroup, Bits;
    var d := sha256(blob);
    TrimmedEncoding(d);
    DecodeEncode(d);
    assert BlobFingerprint(sha256, blob)[7..] == TrimPad(Encode(d));
    assert Pads(1) == "=";
  }

  lemma FingerprintsAgree(sha256: seq<byte> -> digest, x: seq<byte>, y: seq<byte>)
    ensures BlobFingerprint(sha256, x) == BlobFingerprint(sha256, y) <==> sha256(x) == sha256(y)
  {
    TrimmedInjective(sha256(x), sha256(y));
    assert BlobFingerprint(sha256, x)[|LABEL|..] == TrimPad(Encode(sha256(x)));
    assert BlobFingerprint(sha256, y)[|LABEL|..] == TrimPad(Encode(sha256(y)));
  }
}
