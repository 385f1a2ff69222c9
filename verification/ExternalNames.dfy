/** Names of external symbols and the preference between them. */
module ExternalNames {
  import opened Bytes

  type Name = seq<Byte>

  const DOT: Byte := 46
  const INTERNAL_PREFIX: Byte := 0xFE

  function Dots(name: Name): nat {
    if |name| == 0 then 0 else Dots(name[..|name| - 1]) + (if name[|name| - 1] == DOT then 1 else 0)
  }

  /** Fewer dots first, then the shorter name, then byte order. */
  predicate Prefer(candidate: Name, current: Name) {
    if Dots(candidate) != Dots(current) then Dots(candidate) < Dots(current)
    else if |candidate| != |current| then |candidate| < |current|
    else Less(candidate, current)
  }

  function Join(prefix: Name, name: Name): Name {
    if |prefix| == 0 then name else prefix + [DOT] + name
  }

  predicate AtMost(a: Name, b: Name) {
    a == b || Prefer(a, b)
  }

  lemma {:induction false} DotsAdd(a: Name, b: Name)
    ensures Dots(a + b) == Dots(a) + Dots(b)
  {
    if |b| == 0 {
      assert a + b == a;
    } else {
      assert (a + b)[..|a + b| - 1] == a + b[..|b| - 1];
      DotsAdd(a, b[..|b| - 1]);
    }
  }

  lemma {:induction false} LessExtends(a: Name, b: Name, suffix: Name)
    requires |a| == |b|
    ensures Less(a + suffix, b + suffix) <==> Less(a, b)
  {
    if |a| == 0 {
      LessIsTotal(suffix, suffix);
      assert a + suffix == suffix && b + suffix == suffix;
    } else {
      assert (a + suffix)[1..] == a[1..] + suffix && (b + suffix)[1..] == b[1..] + suffix;
      LessExtends(a[1..], b[1..], suffix);
    }
  }

  /** Preference is a strict total order. */
  lemma PreferIsTotal(a: Name, b: Name)
    ensures !Prefer(a, a)
    ensures a == b || Prefer(a, b) || Prefer(b, a)
    ensures !(Prefer(a, b) && Prefer(b, a))
  {
    LessIsTotal(a, b);
  }

  lemma PreferIsTransitive(a: Name, b: Name, c: Name)
    requires Prefer(a, b) && Prefer(b, c)
    ensures Prefer(a, c)
  {
    if Dots(a) == Dots(b) == Dots(c) && |a| == |b| == |c| {
      LessIsTransitive(a, b, c);
    }
  }

  /** Appending the same child keeps the preference between two parents. */
  lemma PreferExtends(a: Name, b: Name, child: Name)
    requires |a| > 0 && |b| > 0
    ensures Prefer(Join(a, child), Join(b, child)) <==> Prefer(a, b)
  {
    var suffix := [DOT] + child;
    assert Join(a, child) == a + suffix && Join(b, child) == b + suffix;
    DotsAdd(a, suffix);
    DotsAdd(b, suffix);
    if |a| == |b| {
      LessExtends(a, b, suffix);
    }
  }

  /** A member's name is always behind its owner's, and behind its own bare name. */
  lemma JoinIsLater(prefix: Name, child: Name)
    requires |prefix| > 0
    ensures Prefer(prefix, Join(prefix, child)) && Prefer(child, Join(prefix, child))
  {
    assert Join(prefix, child) == prefix + ([DOT] + child);
    DotsAdd(prefix, [DOT] + child);
    DotsAdd([DOT], child);
    assert [DOT][..0] == [];
  }

  lemma AtMostTransitive(a: Name, b: Name, c: Name)
    requires AtMost(a, b) && AtMost(b, c)
    ensures AtMost(a, c)
    ensures Prefer(b, c) ==> Prefer(a, c)
  {
    if a != b && b != c {
      PreferIsTransitive(a, b, c);
    }
  }
}
