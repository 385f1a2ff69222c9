/** Bytes, the texts and streams made of them, and their order. */
module Bytes {
  type Byte = b: int | 0 <= b < 256

  type Text = seq<Byte>

  // Byte order.
  predicate Less(a: Text, b: Text) {
    if |a| == 0 then |b| > 0
    else |b| > 0 && (a[0] < b[0] || (a[0] == b[0] && Less(a[1..], b[1..])))
  }

  lemma {:induction false} LessIsTotal(a: Text, b: Text)
    ensures !Less(a, a)
    ensures a == b || Less(a, b) || Less(b, a)
    ensures !(Less(a, b) && Less(b, a))
  {
    if |a| > 0 {
      LessIsTotal(a[1..], a[1..]);
      if |b| > 0 && a[0] == b[0] {
        LessIsTotal(a[1..], b[1..]);
        assert a == [a[0]] + a[1..] && b == [b[0]] + b[1..];
      }
    }
  }

  lemma {:induction false} LessIsTransitive(a: Text, b: Text, c: Text)
    requires Less(a, b) && Less(b, c)
    ensures Less(a, c)
  {
    if |a| > 0 && a[0] == b[0] == c[0] {
      LessIsTransitive(a[1..], b[1..], c[1..]);
    }
  }

  /** The texts agree up to byte `i`, and there the first has the smaller byte. */
  predicate FirstSmallerAt(a: Text, b: Text, i: int) {
    0 <= i < |a| && i < |b| && a[..i] == b[..i] && a[i] < b[i]
  }

  /** Byte order: a proper beginning comes first, otherwise the first differing byte decides. */
  lemma {:induction false} LessMeans(a: Text, b: Text)
    ensures Less(a, b) <==> (a < b || exists i :: FirstSmallerAt(a, b, i))
  {
    if |a| > 0 && |b| > 0 {
      LessMeans(a[1..], b[1..]);
      if a[0] == b[0] {
        if i :| FirstSmallerAt(a, b, i) {
          assert a[..i] == [a[0]] + a[1..][..i - 1] && b[..i] == [b[0]] + b[1..][..i - 1];
          assert FirstSmallerAt(a[1..], b[1..], i - 1);
        }
        if i :| FirstSmallerAt(a[1..], b[1..], i) {
          assert a[..i + 1] == [a[0]] + a[1..][..i] && b[..i + 1] == [b[0]] + b[1..][..i];
          assert FirstSmallerAt(a, b, i + 1);
        }
        if a < b {
          assert b[1..][..|a| - 1] == b[..|a|][1..];
        }
        if a[1..] < b[1..] {
          assert b[..|a|] == [b[0]] + b[1..][..|a| - 1];
          assert a == [a[0]] + a[1..];
        }
      } else {
        assert a[..0] == b[..0];
        assert a[0] < b[0] ==> FirstSmallerAt(a, b, 0);
        assert forall i :: FirstSmallerAt(a, b, i) ==> i == 0 || a[..i][0] == b[..i][0];
      }
    }
  }

  predicate AtMostInOrder(a: Text, b: Text) {
    a == b || Less(a, b)
  }

  lemma ByteOrderIsTotal(a: Text, b: Text, c: Text)
    ensures AtMostInOrder(a, b) || AtMostInOrder(b, a)
    ensures AtMostInOrder(a, b) && AtMostInOrder(b, c) ==> AtMostInOrder(a, c)
  {
    LessIsTotal(a, b);
    if Less(a, b) && Less(b, c) {
      LessIsTransitive(a, b, c);
    }
  }
}
