/**
 Host-key wire blobs (ssh-transport/src/known_hosts.rs): the plausibility test,
 and the length-prefixed string encoding of section 5 of RFC 4251 that it reads.
 */
module KeyBlob {
  import opened Wrappers
  import opened Bytes

  predicate KnownFamily(alg: seq<byte>) {
    || Ascii("ssh-") <= alg
    || Ascii("ecdsa-") <= alg
    || Ascii("sk-ssh-") <= alg
    || Ascii("x509v3-") <= alg
  }

  predicate Printable(alg: seq<byte>) {
    forall i :: 0 <= i < |alg| ==> 32 <= alg[i] <= 126
  }

  predicate AlgorithmName(alg: seq<byte>) {
    KnownFamily(alg) && Printable(alg)
  }

  /** is_plausible_blob, early return by early return. Every slice below is within the blob. */
  predicate IsPlausibleBlob(blob: seq<byte>) {
    if |blob| < 4 then
      false
    else
      var len := FromBe32(blob[..4]);
      if len < 4 || len > |blob| - 4 then
        false
      else
        var alg := blob[4..4 + len];
        if !ValidUtf8(alg) then false else KnownFamily(alg) && Printable(alg)
  }

  /** The first length-prefixed string lies within the blob. */
  predicate HoldsFirstString(blob: seq<byte>) {
    |blob| >= 4 && 4 + FromBe32(blob[..4]) <= |blob|
  }

  function FirstString(blob: seq<byte>): (s: seq<byte>)
    requires HoldsFirstString(blob)
  {
    blob[4..4 + FromBe32(blob[..4])]
  }

  lemma FamilyNamesAreLong(alg: seq<byte>)
    requires KnownFamily(alg)
    ensures |alg| >= 4
  {
  }

  /** The UTF-8 and minimum-length tests decide nothing: the check is a plain byte predicate. */
  lemma PlausibleMeansNamed(blob: seq<byte>)
    ensures IsPlausibleBlob(blob) <==> HoldsFirstString(blob) && AlgorithmName(FirstString(blob))
  {
    if HoldsFirstString(blob) && AlgorithmName(FirstString(blob)) {
      FamilyNamesAreLong(FirstString(blob));
      SevenBitIsUtf8(FirstString(blob));
    }
  }

  /** The bytes of alg begin with those given. */
  predicate Begins(alg: seq<byte>, family: seq<byte>) {
    |alg| >= |family| && forall i :: 0 <= i < |family| ==> alg[i] == family[i]
  }

  /**
   The same answer byte by byte: a length field that fits, characters from 32 to 126, and one of the
   beginnings ssh-, ecdsa-, sk-ssh-, x509v3-.
   */
  lemma PlausibleInBytes(blob: seq<byte>)
    ensures IsPlausibleBlob(blob) <==>
            && |blob| >= 4
            && var n := blob[0] as int * 0x100_0000 + blob[1] as int * 0x1_0000 + blob[2] as int * 0x100 + blob[3] as int;
            && 4 + n <= |blob|
            && (forall i :: 4 <= i < 4 + n ==> 32 <= blob[i] <= 126)
            && (|| Begins(blob[4..4 + n], [0x73, 0x73, 0x68, 0x2D])
                || Begins(blob[4..4 + n], [0x65, 0x63, 0x64, 0x73, 0x61, 0x2D])
                || Begins(blob[4..4 + n], [0x73, 0x6B, 0x2D, 0x73, 0x73, 0x68, 0x2D])
                || Begins(blob[4..4 + n], [0x78, 0x35, 0x30, 0x39, 0x76, 0x33, 0x2D]))
  {
    PlausibleMeansNamed(blob);
    if HoldsFirstString(blob) {
      FamiliesInBytes(FirstString(blob));
      assert forall i :: 4 <= i < 4 + |FirstString(blob)| ==> blob[i] == FirstString(blob)[i - 4];
    }
  }

  lemma FamiliesInBytes(alg: seq<byte>)
    ensures KnownFamily(alg) <==>
            || Begins(alg, [0x73, 0x73, 0x68, 0x2D])
            || Begins(alg, [0x65, 0x63, 0x64, 0x73, 0x61, 0x2D])
            || Begins(alg, [0x73, 0x6B, 0x2D, 0x73, 0x73, 0x68, 0x2D])
            || Begins(alg, [0x78, 0x35, 0x30, 0x39, 0x76, 0x33, 0x2D])
  {
    BeginsIsPrefix(alg, Ascii("ssh-"));
    BeginsIsPrefix(alg, Ascii("ecdsa-"));
    BeginsIsPrefix(alg, Ascii("sk-ssh-"));
    BeginsIsPrefix(alg, Ascii("x509v3-"));
    assert Ascii("ssh-") == [0x73, 0x73, 0x68, 0x2D];
    assert Ascii("ecdsa-") == [0x65, 0x63, 0x64, 0x73, 0x61, 0x2D];
    assert Ascii("sk-ssh-") == [0x73, 0x6B, 0x2D, 0x73, 0x73, 0x68, 0x2D];
    assert Ascii("x509v3-") == [0x78, 0x35, 0x30, 0x39, 0x76, 0x33, 0x2D];
  }

  lemma BeginsIsPrefix(alg: seq<byte>, family: seq<byte>)
    ensures Begins(alg, family) <==> family <= alg
  {
  }

  /** Bytes after the first string never matter. */
  lemma PlausibleIgnoresTail(blob: seq<byte>, extra: seq<byte>)
    requires HoldsFirstString(blob)
    ensures IsPlausibleBlob(blob + extra) == IsPlausibleBlob(blob)
  {
    PlausibleMeansNamed(blob);
    PlausibleMeansNamed(blob + extra);
    assert (blob + extra)[..4] == blob[..4];
    assert FirstString(blob + extra) == FirstString(blob);
  }

  // ----- the encoder

  /** A length as `p.len() as u32` keeps it. */
  function WireLength(p: seq<byte>): (n: nat)
    ensures n < TWO_32
  {
    |p| % TWO_32
  }

  function RawBlob(parts: seq<seq<byte>>): (blob: seq<byte>) {
    if parts == [] then [] else ToBe32(WireLength(parts[0])) + parts[0] + RawBlob(parts[1..])
  }

  lemma {:induction false} RawBlobAppend(xs: seq<seq<byte>>, ys: seq<seq<byte>>)
    ensures RawBlob(xs + ys) == RawBlob(xs) + RawBlob(ys)
  {
    if xs == [] {
      assert xs + ys == ys;
    } else {
      assert (xs + ys)[1..] == xs[1..] + ys;
      RawBlobAppend(xs[1..], ys);
    }
  }

  /** Where a part stands: behind its length, which is kept in four big-endian bytes, modulo 2^32. */
  lemma RawBlobLayout(xs: seq<seq<byte>>, p: seq<byte>, ys: seq<seq<byte>>)
    ensures var n := |p| % 0x1_0000_0000;
            RawBlob(xs + [p] + ys)
            == RawBlob(xs) + [n / 0x100_0000, n / 0x1_0000 % 0x100, n / 0x100 % 0x100, n % 0x100] + p + RawBlob(ys)
  {
    assert xs + [p] + ys == xs + ([p] + ys) && ([p] + ys)[1..] == ys;
    RawBlobAppend(xs, [p] + ys);
  }

  /** raw_blob: one buffer, a length and the bytes pushed for each part. */
  method EncodeRawBlob(parts: seq<seq<byte>>) returns (out: seq<byte>)
    ensures out == RawBlob(parts)
  {
    out := [];
    for i := 0 to |parts|
      invariant out == RawBlob(parts[..i])
    {
      out := out + ToBe32(WireLength(parts[i]));
      out := out + parts[i];
      assert parts[..i + 1] == parts[..i] + [parts[i]];
      RawBlobAppend(parts[..i], [parts[i]]);
      assert RawBlob([parts[i]]) == ToBe32(WireLength(parts[i])) + parts[i];
    }
    assert parts[..|parts|] == parts;
  }

  lemma WireLengthFits(p: seq<byte>)
    ensures WireLength(p) <= |p|
  {
  }

  lemma ShortWireLength(p: seq<byte>)
    requires |p| < TWO_32
    ensures WireLength(p) == |p|
  {
  }

  /** What a reader finds first in an encoded blob. */
  lemma FirstOfRawBlob(parts: seq<seq<byte>>)
    requires parts != []
    ensures var blob, n := RawBlob(parts), WireLength(parts[0]);
            && HoldsFirstString(blob)
            && FirstString(blob) == parts[0][..n]
            && blob[4 + n..] == parts[0][n..] + RawBlob(parts[1..])
  {
    hide ToBe32, FromBe32, WireLength, FirstString, HoldsFirstString;
    var p, rest := parts[0], RawBlob(parts[1..]);
    WireLengthFits(p);
    var n := WireLength(p);
    LengthPrefix(n, p + rest);
    assert RawBlob(parts) == ToBe32(n) + (p + rest);
    PrefixedString(RawBlob(parts), p, rest, n);
  }

  lemma LengthPrefix(n: nat, rest: seq<byte>)
    requires n < TWO_32
    ensures FromBe32((ToBe32(n) + rest)[..4]) == n && (ToBe32(n) + rest)[4..] == rest
  {
    Be32RoundTrip(n);
    assert (ToBe32(n) + rest)[..4] == ToBe32(n);
  }

  lemma PrefixedString(blob: seq<byte>, p: seq<byte>, rest: seq<byte>, n: nat)
    requires |blob| >= 4 && blob[4..] == p + rest && n == FromBe32(blob[..4]) <= |p|
    ensures HoldsFirstString(blob) && FirstString(blob) == p[..n] && blob[4 + n..] == p[n..] + rest
  {
    assert |blob| == 4 + |p| + |rest|;
    assert blob[4..4 + n] == blob[4..][..n] == p[..n];
    assert blob[4 + n..] == blob[4..][n..] == p[n..] + rest;
  }

  /**
   When an encoded blob is plausible, for parts of any length. A first part of 4 GiB or more is
   read back only up to its truncated length.
   */
  lemma RawBlobPlausible(parts: seq<seq<byte>>)
    ensures IsPlausibleBlob(RawBlob(parts)) <==>
            parts != [] && AlgorithmName(parts[0][..|parts[0]| % 0x1_0000_0000])
  {
    if parts != [] {
      FirstOfRawBlob(parts);
      PlausibleMeansNamed(RawBlob(parts));
    }
  }

  /** Below 4 GiB nothing is truncated. */
  lemma RawBlobPlausibleShort(parts: seq<seq<byte>>)
    requires parts != [] ==> |parts[0]| < TWO_32
    ensures IsPlausibleBlob(RawBlob(parts)) <==> parts != [] && AlgorithmName(parts[0])
  {
    RawBlobPlausible(parts);
    if parts != [] {
      ShortWireLength(parts[0]);
      assert parts[0][..|parts[0]|] == parts[0];
    }
  }

  /** A well-named first part that the length field truncates to nothing. */
  lemma LongNameIsLost()
    ensures var p := Ascii("ssh-") + seq(TWO_32 - 4, _ => 97);
            AlgorithmName(p) && !IsPlausibleBlob(RawBlob([p]))
  {
    var p: seq<byte> := Ascii("ssh-") + seq(TWO_32 - 4, _ => 97);
    assert forall i :: 0 <= i < |p| ==> 32 <= p[i] <= 126;
    RawBlobPlausible([p]);
    assert p[..WireLength(p)] == [];
  }

  lemma RawBlobOfOne(p: seq<byte>)
    requires |p| < TWO_32
    ensures RawBlob([p]) == ToBe32(|p|) + p
  {
    ShortWireLength(p);
    assert RawBlob([p]) == ToBe32(WireLength(p)) + p + RawBlob([p][1..]);
  }

  lemma RawBlobOfThree(p: seq<byte>, q: seq<byte>, r: seq<byte>)
    ensures RawBlob([p, q, r]) == RawBlob([p]) + RawBlob([q]) + RawBlob([r])
  {
    RawBlobAppend([p, q], [r]);
    RawBlobAppend([p], [q]);
    assert [p, q] + [r] == [p, q, r] && [p] + [q] == [p, q];
  }

  // ----- the reader, and the round trips

  function ReadStrings(blob: seq<byte>): (r: Option<seq<seq<byte>>>)
    decreases |blob|
  {
    if blob == [] then
      Some([])
    else if !HoldsFirstString(blob) then
      None
    else
      var s := FirstString(blob);
      var rest := ReadStrings(blob[4 + |s|..]);
      if rest.Some? then Some([s] + rest.value) else None
  }

  lemma {:induction false} ReadRawBlob(parts: seq<seq<byte>>)
    requires forall i :: 0 <= i < |parts| ==> |parts[i]| < TWO_32
    ensures ReadStrings(RawBlob(parts)) == Some(parts)
  {
    hide ToBe32, FromBe32;
    if parts != [] {
      FirstOfRawBlob(parts);
      ShortWireLength(parts[0]);
      assert FirstString(RawBlob(parts)) == parts[0];
      assert RawBlob(parts)[4 + |parts[0]|..] == RawBlob(parts[1..]);
      ReadRawBlob(parts[1..]);
      assert parts == [parts[0]] + parts[1..];
    }
  }

  /** The round trip holds exactly when no length is truncated. */
  lemma ReadRawBlobExactly(parts: seq<seq<byte>>)
    ensures ReadStrings(RawBlob(parts)) == Some(parts) <==> forall i :: 0 <= i < |parts| ==> |parts[i]| < TWO_32
  {
    if ReadStrings(RawBlob(parts)) == Some(parts) {
      RawBlobOfRead(RawBlob(parts));
    } else if forall i :: 0 <= i < |parts| ==> |parts[i]| < TWO_32 {
      ReadRawBlob(parts);
    }
  }

  lemma {:induction false} RawBlobOfRead(blob: seq<byte>)
    requires ReadStrings(blob).Some?
    ensures RawBlob(ReadStrings(blob).value) == blob
    ensures forall i :: 0 <= i < |ReadStrings(blob).value| ==> |ReadStrings(blob).value[i]| < TWO_32
    decreases |blob|
  {
    if blob != [] {
      var s := FirstString(blob);
      var rest := blob[4 + |s|..];
      RawBlobOfRead(rest);
      var parts := ReadStrings(rest).value;
      assert ReadStrings(blob).value == [s] + parts;
      assert RawBlob([s] + parts) == ToBe32(WireLength(s)) + s + RawBlob(parts) by {
        assert ([s] + parts)[1..] == parts;
      }
      FirstStringSplits(blob);
    }
  }

  lemma FirstStringSplits(blob: seq<byte>)
    requires HoldsFirstString(blob)
    ensures var s := FirstString(blob);
            |s| < TWO_32 && blob == ToBe32(WireLength(s)) + s + blob[4 + |s|..]
  {
    var s := FirstString(blob);
    ShortWireLength(s);
    Be32Onto(blob[..4]);
    assert blob == blob[..4] + s + blob[4 + |s|..];
  }
}
