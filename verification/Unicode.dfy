/** Unicode text and its two encodings: what the byte and the UTF-16 positions of
    an editor have to do with each other. */
module Unicode {
  import opened Wrappers
  import opened Bytes
  import opened Utf8
  import opened DocumentChanges

  /** A Unicode scalar value. */
  type Scalar = c: int | 0 <= c <= 0xD7FF || 0xE000 <= c <= 0x10FFFF

  /** Section 3 of RFC 3629. */
  function EncodeUtf8(scalar: Scalar): Text {
    var c: int := scalar;
    if c < 0x80 then [c]
    else if c < 0x800 then [0xC0 + c / 0x40, 0x80 + c % 0x40]
    else if c < 0x10000 then [0xE0 + c / 0x1000, 0x80 + c / 0x40 % 0x40, 0x80 + c % 0x40]
    else
      assert c / 0x40000 <= 4;
      [0xF0 + c / 0x40000, 0x80 + c / 0x1000 % 0x40, 0x80 + c / 0x40 % 0x40, 0x80 + c % 0x40]
  }

  /** Section 2.1 of RFC 2781: one unit, or a surrogate pair. */
  function EncodeUtf16(scalar: Scalar): seq<nat> {
    var c: int := scalar;
    if c < 0x10000 then [c] else [0xD800 + (c - 0x10000) / 0x400, 0xDC00 + (c - 0x10000) % 0x400]
  }

  function Utf8Of(text: seq<Scalar>): Text {
    if |text| == 0 then [] else EncodeUtf8(text[0]) + Utf8Of(text[1..])
  }

  function Utf16Of(text: seq<Scalar>): seq<nat> {
    if |text| == 0 then [] else EncodeUtf16(text[0]) + Utf16Of(text[1..])
  }

  /** An encoded character is recognized whatever follows it, and takes as many
      units as its UTF-16 encoding is long. */
  lemma EncodedIsOneRune(c: Scalar, rest: Text)
    ensures var s := EncodeUtf8(c) + rest;
      && CharWidth(s) == RuneSize(s) == |EncodeUtf8(c)|
      && RuneUnits(s) == |EncodeUtf16(c)|
      && s[RuneSize(s)..] == rest
  {
    var s, e := EncodeUtf8(c) + rest, EncodeUtf8(c);
    assert forall i :: 0 <= i < |e| ==> s[i] == e[i];
    var value: int := c;
    if 0x800 <= value < 0x10000 {
      ThreeBytes(value);
    } else if 0x10000 <= value {
      FourBytes(value);
    }
  }

  lemma ThreeBytes(c: int)
    requires 0x800 <= c <= 0xD7FF || 0xE000 <= c < 0x10000
    ensures var a, b := c / 0x1000, c / 0x40 % 0x40;
      0 <= a <= 0xF && (a == 0 ==> b >= 0x20) && (a == 0xD ==> b <= 0x1F)
  {
    assert c / 0x1000 == c / 0x40 / 0x40;
  }

  lemma FourBytes(c: int)
    requires 0x10000 <= c <= 0x10FFFF
    ensures var a, b := c / 0x40000, c / 0x1000 % 0x40;
      0 <= a <= 4 && (a == 0 ==> b >= 0x10) && (a == 4 ==> b <= 0xF)
  {
    assert c / 0x40000 == c / 0x1000 / 0x40;
  }

  /** Every recognized character is the encoding of a scalar value. */
  lemma RuneIsEncoded(s: Text) returns (c: Scalar)
    requires CharWidth(s) > 0
    ensures s[..CharWidth(s)] == EncodeUtf8(c)
  {
    var w := CharWidth(s);
    if w == 1 {
      c := s[0];
      assert s[..1] == [s[0]];
    } else if w == 2 {
      c := DecodeTwo(s[0], s[1]);
      assert s[..2] == [s[0], s[1]];
    } else if w == 3 {
      c := DecodeThree(s[0], s[1], s[2]);
      assert s[..3] == [s[0], s[1], s[2]];
    } else {
      c := DecodeFour(s[0], s[1], s[2], s[3]);
      assert s[..4] == [s[0], s[1], s[2], s[3]];
    }
  }

  lemma DecodeTwo(a: int, b: int) returns (c: Scalar)
    requires 0xC2 <= a <= 0xDF && 0x80 <= b <= 0xBF
    ensures EncodeUtf8(c) == [a, b]
  {
    var value := (a - 0xC0) * 0x40 + (b - 0x80);
    assert value / 0x40 == a - 0xC0 && value % 0x40 == b - 0x80;
    c := value;
  }

  lemma DecodeThree(a: int, b: int, d: int) returns (c: Scalar)
    requires 0xE0 <= a <= 0xEF && 0x80 <= b <= 0xBF && 0x80 <= d <= 0xBF && (a == 0xE0 ==> b >= 0xA0) && (a == 0xED ==> b <= 0x9F)
    ensures EncodeUtf8(c) == [a, b, d]
  {
    var upper := (a - 0xE0) * 0x40 + (b - 0x80);
    var value := upper * 0x40 + (d - 0x80);
    assert value / 0x40 == upper && value % 0x40 == d - 0x80;
    assert upper / 0x40 == a - 0xE0 && upper % 0x40 == b - 0x80;
    assert value / 0x1000 == upper / 0x40;
    c := value;
  }

  lemma DecodeFour(a: int, b: int, d: int, e: int) returns (c: Scalar)
    requires 0xF0 <= a <= 0xF4 && 0x80 <= b <= 0xBF && 0x80 <= d <= 0xBF && 0x80 <= e <= 0xBF && (a == 0xF0 ==> b >= 0x90) && (a == 0xF4 ==> b <= 0x8F)
    ensures EncodeUtf8(c) == [a, b, d, e]
  {
    var top := (a - 0xF0) * 0x40 + (b - 0x80);
    var upper := top * 0x40 + (d - 0x80);
    var value := upper * 0x40 + (e - 0x80);
    assert value / 0x40 == upper && value % 0x40 == e - 0x80;
    assert upper / 0x40 == top && upper % 0x40 == d - 0x80;
    assert top / 0x40 == a - 0xF0 && top % 0x40 == b - 0x80;
    assert value / 0x1000 == upper / 0x40 && value / 0x40000 == top / 0x40;
    c := value;
  }

  lemma {:induction false} EncodedIsValid(text: seq<Scalar>)
    ensures ValidUtf8(Utf8Of(text))
  {
    if |text| > 0 {
      EncodedIsOneRune(text[0], Utf8Of(text[1..]));
      hide CharWidth, EncodeUtf8;
      EncodedIsValid(text[1..]);
    }
  }

  lemma {:induction false} ValidIsEncoded(s: Text) returns (text: seq<Scalar>)
    requires ValidUtf8(s)
    ensures Utf8Of(text) == s
    decreases |s|
  {
    if |s| == 0 {
      text := [];
    } else {
      var w := CharWidth(s);
      var c := RuneIsEncoded(s);
      hide CharWidth, EncodeUtf8;
      var rest := ValidIsEncoded(s[w..]);
      text := [c] + rest;
      Prepended(c, rest);
      hide Utf8Of, ValidUtf8;
      assert s == s[..w] + s[w..];
    }
  }

  lemma Prepended(c: Scalar, rest: seq<Scalar>)
    ensures Utf8Of([c] + rest) == EncodeUtf8(c) + Utf8Of(rest)
  {
    hide EncodeUtf8;
    assert ([c] + rest)[1..] == rest;
  }

  /** Valid UTF-8 is exactly what encoding scalar values gives. */
  lemma ValidIffEncoded(s: Text)
    ensures ValidUtf8(s) <==> exists text: seq<Scalar> :: Utf8Of(text) == s
  {
    if ValidUtf8(s) {
      var text := ValidIsEncoded(s);
    }
    if text: seq<Scalar> :| Utf8Of(text) == s {
      EncodedIsValid(text);
    }
  }

  /** The units of encoded text are those of its UTF-16 encoding. */
  lemma {:induction false} UnitsAreUtf16(text: seq<Scalar>)
    ensures Units(Utf8Of(text)) == |Utf16Of(text)|
  {
    if |text| > 0 {
      EncodedIsOneRune(text[0], Utf8Of(text[1..]));
      hide CharWidth, EncodeUtf8, EncodeUtf16;
      UnitsAreUtf16(text[1..]);
    }
  }

  // The first `n` characters are the last ones that fit into `character` units.
  predicate Fits(text: seq<Scalar>, n: nat, character: nat) {
    && n <= |text| && |Utf16Of(text[..n])| <= character
    && (n < |text| ==> |Utf16Of(text[..n])| + |EncodeUtf16(text[n])| > character)
  }

  /** A position of `character` UTF-16 units is found behind exactly as many
      characters as fit into that many units; a position between the two halves
      of a surrogate pair falls back before the pair. */
  lemma {:induction false} WalkCountsUtf16(text: seq<Scalar>, character: nat) returns (n: nat)
    ensures Fits(text, n, character) && Walk(Utf8Of(text), character) == |Utf8Of(text[..n])|
  {
    n := 0;
    assert text[..0] == [];
    if |text| > 0 {
      var c, rest := text[0], text[1..];
      EncodedIsOneRune(c, Utf8Of(rest));
      hide CharWidth, EncodeUtf8, EncodeUtf16;
      if |EncodeUtf16(c)| <= character {
        var m := WalkCountsUtf16(rest, character - |EncodeUtf16(c)|);
        n := m + 1;
        assert text[..n][1..] == rest[..m] && text[..n][0] == c;
      }
    }
  }

  lemma {:induction false} FitsIsUnique(text: seq<Scalar>, n: nat, m: nat, character: nat)
    requires Fits(text, n, character) && Fits(text, m, character)
    ensures n == m
  {
    hide EncodeUtf16;
    if n < m {
      PrefixesGrow(text, n + 1, m);
      PrefixOneMore(text, n);
    } else if m < n {
      PrefixesGrow(text, m + 1, n);
      PrefixOneMore(text, m);
    }
  }

  lemma {:induction false} PrefixOneMore(text: seq<Scalar>, n: nat)
    requires n < |text|
    ensures |Utf16Of(text[..n + 1])| == |Utf16Of(text[..n])| + |EncodeUtf16(text[n])|
  {
    hide EncodeUtf16;
    if n == 0 {
      assert text[..1][1..] == [] && text[..0] == [];
    } else {
      PrefixOneMore(text[1..], n - 1);
      assert text[..n + 1][1..] == text[1..][..n] && text[..n][1..] == text[1..][..n - 1];
    }
  }

  lemma {:induction false} PrefixesGrow(text: seq<Scalar>, n: nat, m: nat)
    requires n <= m <= |text|
    ensures |Utf16Of(text[..n])| <= |Utf16Of(text[..m])|
  {
    if n < m {
      PrefixesGrow(text, n, m - 1);
      PrefixOneMore(text, m - 1);
    }
  }
}
