/** What the UTF-8 test accepts, from the encoding side: section 3 of RFC 3629. */
module Utf8 {
  import opened Bytes

  /** Unicode scalar values: the code points without the surrogates. */
  type scalar = c: int | 0 <= c < 0xD800 || 0xE000 <= c < 0x11_0000

  function Encoding(c: scalar): (b: seq<byte>)
    ensures 1 <= |b| <= 4
  {
    if c < 0x80 then [c]
    else if c < 0x800 then [0xC0 + c / 64, 0x80 + c % 64]
    else if c < 0x1_0000 then [0xE0 + c / 0x1000, 0x80 + c / 64 % 64, 0x80 + c % 64]
    else [0xF0 + c / 0x4_0000, 0x80 + c / 0x1000 % 64, 0x80 + c / 64 % 64, 0x80 + c % 64]
  }

  /** The bytes of a text. */
  function Encodings(text: seq<scalar>): (b: seq<byte>) {
    if text == [] then [] else Encoding(text[0]) + Encodings(text[1..])
  }

  ghost predicate IsText(b: seq<byte>) {
    exists text: seq<scalar> :: Encodings(text) == b
  }

  /** The encodings that RFC 3629 gives as examples in its section 7. */
  lemma ExamplesOfRfc()
    ensures Encoding(0x41) == [0x41] && Encoding(0x391) == [0xCE, 0x91]
    ensures Encoding(0x2262) == [0xE2, 0x89, 0xA2] && Encoding(0x2_33B4) == [0xF0, 0xA3, 0x8E, 0xB4]
  {
  }

  /** The scalar value that a well-formed sequence at the front of s stands for. */
  function Front(s: seq<byte>): (c: int)
    requires |s| > 0 && Utf8Width(s) > 0
  {
    var w := Utf8Width(s);
    if w == 1 then s[0]
    else if w == 2 then (s[0] as int - 0xC0) * 64 + (s[1] as int - 0x80)
    else if w == 3 then (s[0] as int - 0xE0) * 0x1000 + (s[1] as int - 0x80) * 64 + (s[2] as int - 0x80)
    else (s[0] as int - 0xF0) * 0x4_0000 + (s[1] as int - 0x80) * 0x1000 + (s[2] as int - 0x80) * 64 + (s[3] as int - 0x80)
  }

  lemma FrontIsScalar(s: seq<byte>)
    requires |s| > 0 && Utf8Width(s) > 0
    ensures 0 <= Front(s) < 0xD800 || 0xE000 <= Front(s) < 0x11_0000
    ensures match Utf8Width(s)
            case 1 => Front(s) < 0x80
            case 2 => 0x80 <= Front(s) < 0x800
            case 3 => 0x800 <= Front(s) < 0x1_0000
            case _ => 0x1_0000 <= Front(s)
  {
  }

  lemma SplitTwo(a: nat, b: nat)
    requires b < 64
    ensures (a * 64 + b) / 64 == a && (a * 64 + b) % 64 == b
  {
  }

  lemma ThreeBytes(x: nat, y: nat, z: nat)
    requires y < 64 && z < 64
    ensures var c := x * 0x1000 + y * 64 + z; c / 0x1000 == x && c / 64 % 64 == y && c % 64 == z
  {
    SplitTwo(x * 64 + y, z);
    SplitTwo(x, y);
    var c := x * 0x1000 + y * 64 + z;
    assert c == (x * 64 + y) * 64 + z && c / 0x1000 == c / 64 / 64;
  }

  lemma FourBytes(x: nat, y: nat, z: nat, w: nat)
    requires y < 64 && z < 64 && w < 64
    ensures var c := x * 0x4_0000 + y * 0x1000 + z * 64 + w;
            c / 0x4_0000 == x && c / 0x1000 % 64 == y && c / 64 % 64 == z && c % 64 == w
  {
    ThreeBytes(x * 64 + y, z, w);
    SplitTwo(x, y);
    var c := x * 0x4_0000 + y * 0x1000 + z * 64 + w;
    assert c == (x * 64 + y) * 0x1000 + z * 64 + w && c / 0x4_0000 == c / 0x1000 / 64;
  }

  lemma EncodingOfFront(s: seq<byte>)
    requires |s| > 0 && Utf8Width(s) > 0
    ensures 0 <= Front(s) < 0xD800 || 0xE000 <= Front(s) < 0x11_0000
    ensures Encoding(Front(s)) == s[..Utf8Width(s)]
  {
    FrontIsScalar(s);
    match Utf8Width(s) {
      case 1 =>
      case 2 => SplitTwo(s[0] - 0xC0, s[1] - 0x80);
      case 3 => ThreeBytes(s[0] - 0xE0, s[1] - 0x80, s[2] - 0x80);
      case _ => FourBytes(s[0] - 0xF0, s[1] - 0x80, s[2] - 0x80, s[3] - 0x80);
    }
  }

  lemma WidthOfEncoding(c: scalar, rest: seq<byte>)
    ensures Utf8Width(Encoding(c) + rest) == |Encoding(c)|
  {
    if 0x800 <= c < 0x1_0000 {
      assert c / 0x1000 == 0 ==> c / 64 >= 0x20 && c / 64 % 64 == c / 64;
      assert c / 0x1000 == 0xD ==> c / 64 < 0x360 && c / 64 % 64 == c / 64 - 0x340;
    } else if 0x1_0000 <= c {
      assert c / 0x4_0000 == 0 ==> c / 0x1000 >= 0x10 && c / 0x1000 % 64 == c / 0x1000;
      assert c / 0x4_0000 == 4 ==> c / 0x1000 < 0x110 && c / 0x1000 % 64 == c / 0x1000 - 0x100;
    }
  }

  lemma {:induction false} TextIsValid(text: seq<scalar>)
    ensures ValidUtf8(Encodings(text))
  {
    hide Utf8Width, Encoding;
    if text != [] {
      TextIsValid(text[1..]);
      WidthOfEncoding(text[0], Encodings(text[1..]));
      assert Encodings(text)[|Encoding(text[0])|..] == Encodings(text[1..]);
    }
  }

  lemma {:induction false} ValidIsText(b: seq<byte>) returns (text: seq<scalar>)
    requires ValidUtf8(b)
    ensures Encodings(text) == b
    decreases |b|
  {
    hide Utf8Width, Front, Encoding;
    if b == [] {
      text := [];
    } else {
      EncodingOfFront(b);
      var rest := ValidIsText(b[Utf8Width(b)..]);
      text := [Front(b)] + rest;
      assert text[1..] == rest;
      assert b == b[..Utf8Width(b)] + b[Utf8Width(b)..];
    }
  }

  /** The test accepts exactly the encodings of texts: no overlong forms, no surrogates, nothing past U+10FFFF. */
  lemma ValidExactly(b: seq<byte>)
    ensures ValidUtf8(b) <==> IsText(b)
  {
    if ValidUtf8(b) {
      var text := ValidIsText(b);
    }
    if IsText(b) {
      var text: seq<scalar> :| Encodings(text) == b;
      TextIsValid(text);
    }
  }
}
