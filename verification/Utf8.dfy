/** Valid UTF-8, by the syntax in section 4 of RFC 3629. */
module Utf8 {
  import opened Bytes

  predicate Tail(b: Byte) {
    0x80 <= b <= 0xBF
  }

  predicate TailAt(s: Text, i: nat) {
    i < |s| && Tail(s[i])
  }

  /** The width of the character at the front, or 0 when there is none. */
  function CharWidth(s: Text): (w: nat)
    ensures w <= |s| && w <= 4
  {
    if |s| == 0 then 0
    else
      var b := s[0];
      if b <= 0x7F then 1
      else if 0xC2 <= b <= 0xDF then if TailAt(s, 1) then 2 else 0
      else if 0xE0 <= b <= 0xEF then
        if TailAt(s, 1) && TailAt(s, 2) && (b == 0xE0 ==> s[1] >= 0xA0) && (b == 0xED ==> s[1] <= 0x9F) then 3 else 0
      else if 0xF0 <= b <= 0xF4 then
        if TailAt(s, 1) && TailAt(s, 2) && TailAt(s, 3) && (b == 0xF0 ==> s[1] >= 0x90) && (b == 0xF4 ==> s[1] <= 0x8F)
        then 4 else 0
      else 0
  }

  predicate ValidUtf8(s: Text)
    decreases |s|
  {
    |s| == 0 || (CharWidth(s) > 0 && ValidUtf8(s[CharWidth(s)..]))
  }

  // Only the character itself decides its width.
  lemma CharWidthIsLocal(s: Text, t: Text)
    requires CharWidth(s) > 0 && CharWidth(s) <= |t| && t[..CharWidth(s)] == s[..CharWidth(s)]
    ensures CharWidth(t) == CharWidth(s)
  {
    var w := CharWidth(s);
    assert forall i :: 0 <= i < w ==> t[..w][i] == t[i] && s[..w][i] == s[i];
  }

  lemma {:induction false} ValidConcat(a: Text, b: Text)
    requires ValidUtf8(a)
    ensures ValidUtf8(a + b) <==> ValidUtf8(b)
    decreases |a|
  {
    if |a| == 0 {
      assert a + b == b;
    } else {
      var w := CharWidth(a);
      assert (a + b)[..w] == a[..w];
      CharWidthIsLocal(a, a + b);
      assert (a + b)[w..] == a[w..] + b;
      ValidConcat(a[w..], b);
    }
  }

  lemma FirstChar(s: Text)
    requires ValidUtf8(s) && |s| > 0
    ensures CharWidth(s) > 0 && ValidUtf8(s[..CharWidth(s)]) && ValidUtf8(s[CharWidth(s)..])
  {
    var c := s[..CharWidth(s)];
    CharWidthIsLocal(s, c);
    assert c[CharWidth(s)..] == [];
  }

  lemma NothingIsValid()
    ensures ValidUtf8([])
  {}

  /** `k` starts a character of `s`, or ends it. */
  predicate Boundary(s: Text, k: int) {
    0 <= k <= |s| && ValidUtf8(s[..k]) && ValidUtf8(s[k..])
  }

  /** Stepping over one character leads to the next boundary. */
  lemma NextBoundary(s: Text, k: int)
    requires Boundary(s, k) && k < |s|
    ensures CharWidth(s[k..]) > 0 && Boundary(s, k + CharWidth(s[k..]))
  {
    var w := CharWidth(s[k..]);
    FirstChar(s[k..]);
    hide CharWidth, ValidUtf8;
    assert s[..k + w] == s[..k] + s[k..][..w];
    ValidConcat(s[..k], s[k..][..w]);
    assert s[k + w..] == s[k..][w..];
  }

  /** Where the last character of the first `n` bytes starts. */
  ghost function LastStart(s: Text, n: nat): (k: nat)
    requires ValidUtf8(s) && 0 < n <= |s|
    ensures k < n && k < |s|
    decreases |s|
  {
    var w := CharWidth(s);
    if n <= w then 0 else w + LastStart(s[w..], n - w)
  }

  lemma {:induction false} LastStartIsBoundary(s: Text, n: nat)
    requires ValidUtf8(s) && 0 < n <= |s|
    ensures var k := LastStart(s, n);
      Boundary(s, k) && k < n <= k + CharWidth(s[k..])
    decreases |s|
  {
    hide CharWidth, ValidUtf8;
    FirstChar(s);
    NothingIsValid();
    var w := CharWidth(s);
    if n <= w {
      assert s[..0] == [] && s[0..] == s;
    } else {
      var rest := s[w..];
      LastStartIsBoundary(rest, n - w);
      var k := LastStart(rest, n - w);
      assert s[w + k..] == rest[k..];
      assert s[..w + k] == s[..w] + rest[..k];
      ValidConcat(s[..w], rest[..k]);
    }
  }

  lemma TailsFollow(s: Text)
    requires CharWidth(s) > 0
    ensures !Tail(s[0]) && (s[0] < 0x80 <==> CharWidth(s) == 1)
    ensures forall i :: 1 <= i < CharWidth(s) ==> Tail(s[i])
  {}

  /** A byte below 0x80 is a character of its own. */
  lemma AsciiIsAlone(s: Text, k: nat)
    requires ValidUtf8(s) && 0 < k <= |s| && s[k - 1] < 0x80
    ensures Boundary(s, k)
  {
    hide ValidUtf8, CharWidth, LastStart;
    var j := LastStart(s, k);
    LastStartIsBoundary(s, k);
    TailsFollow(s[j..]);
    assert s[k - 1] == s[j..][k - 1 - j];
    NextBoundary(s, j);
  }

  /** The text between two boundaries is whole characters. */
  lemma BetweenBoundaries(s: Text, i: nat, j: nat)
    requires Boundary(s, i) && Boundary(s, j) && i <= j
    ensures ValidUtf8(s[i..j])
  {
    hide ValidUtf8, CharWidth;
    assert s[..j] == s[..i] + s[i..j];
    ValidConcat(s[..i], s[i..j]);
  }

  lemma BoundaryWithin(s: Text, i: nat, j: nat, k: nat)
    requires Boundary(s, i) && i <= j <= |s| && k <= j - i && Boundary(s[i..j], k) && Boundary(s, j)
    ensures Boundary(s, i + k)
  {
    hide ValidUtf8, CharWidth;
    assert s[..i + k] == s[..i] + s[i..j][..k];
    ValidConcat(s[..i], s[i..j][..k]);
    assert s[i + k..] == s[i..j][k..] + s[j..];
    ValidConcat(s[i..j][k..], s[j..]);
  }
}
