/** Applying the fixes of many diagnostics to one text in a single pass. */
module SourceCodeFixer {
  import opened Bytes
  import opened Sorting

  const BOM: Text := [0xEF, 0xBB, 0xBF]

  /** A replacement of [pos, end) of the text without its byte order mark; the
      mark itself is at position -1. */
  datatype Fix = Fix(pos: int, end: int, text: Text)

  datatype Diagnostic = Diagnostic(id: nat, fixes: seq<Fix>)

  predicate IsInsertion(fix: Fix) { fix.pos == fix.end }

  predicate IsInverted(diagnostic: Diagnostic) {
    exists i :: 0 <= i < |diagnostic.fixes| && diagnostic.fixes[i].pos > diagnostic.fixes[i].end
  }

  function NonNegative(n: int): nat { if n < 0 then 0 else n }

  // ---- What it means to apply edits simultaneously --------------------------

  // One edit on its own.
  function Replace(text: Text, fix: Fix): (r: Text)
    requires fix.pos <= fix.end <= |text|
    ensures NonNegative(fix.pos) <= |r|
  {
    text[..NonNegative(fix.pos)] + fix.text + text[NonNegative(fix.end)..]
  }

  // Edits in text order, none reaching into the next, all within `limit`.
  predicate Chain(edits: seq<Fix>, limit: int) {
    |edits| == 0 ||
    var last := edits[|edits| - 1];
    -1 <= last.pos <= last.end <= limit && Chain(edits[..|edits| - 1], last.pos)
  }

  lemma ChainWidens(edits: seq<Fix>, limit: int, wider: int)
    requires Chain(edits, limit) && limit <= wider
    ensures Chain(edits, wider)
  {
  }

  /** Simultaneous application: the last edit first, so that every edit finds
      the text at its position still as it was. */
  function ApplyAll(text: Text, edits: seq<Fix>): (r: Text)
    requires Chain(edits, |text|)
    decreases |edits|
  {
    if |edits| == 0 then text
    else
      var last := edits[|edits| - 1];
      ChainWidens(edits[..|edits| - 1], last.pos, |Replace(text, last)|);
      ApplyAll(Replace(text, last), edits[..|edits| - 1])
  }

  // Text behind all edits is carried along unchanged.
  lemma {:induction false} ApplyCarriesTail(text: Text, tail: Text, edits: seq<Fix>)
    requires Chain(edits, |text|)
    ensures ApplyAll(text + tail, edits) == ApplyAll(text, edits) + tail
    decreases |edits|
  {
    if |edits| > 0 {
      var last := edits[|edits| - 1];
      assert Replace(text + tail, last) == Replace(text, last) + tail;
      ApplyCarriesTail(Replace(text, last), tail, edits[..|edits| - 1]);
    }
  }

  // How far into the text the edits reach.
  function Reached(edits: seq<Fix>): int {
    if |edits| == 0 then -1 else edits[|edits| - 1].end
  }

  // One more edit behind the ones already applied.
  lemma ApplyOneMore(text: Text, edits: seq<Fix>, fix: Fix)
    requires -1 <= Reached(edits) <= fix.pos <= fix.end <= |text| && Chain(edits, Reached(edits))
    ensures Chain(edits + [fix], fix.end)
    ensures ApplyAll(text[..NonNegative(fix.end)], edits + [fix])
         == ApplyAll(text[..NonNegative(Reached(edits))], edits)
            + text[NonNegative(Reached(edits))..NonNegative(fix.pos)] + fix.text
  {
    var all := edits + [fix];
    assert all[..|all| - 1] == edits;
    var from, to := NonNegative(Reached(edits)), NonNegative(fix.pos);
    var head := text[..from];
    var tail := text[from..to] + fix.text;
    assert Replace(text[..NonNegative(fix.end)], fix) == head + tail;
    ApplyCarriesTail(head, tail, edits);
  }

  /** A fix reaching back over the mark removes it, and so does one that puts a
      mark of its own at the start of the text. */
  predicate DropsMark(fix: Fix) {
    (fix.pos < 0 && fix.end >= 0) || (fix.pos == 0 && BOM <= fix.text)
  }

  function Mark(code: Text): Text { if BOM <= code then BOM else [] }

  function Body(code: Text): Text { code[|Mark(code)|..] }

  /** The text that applying `edits` to a file means, byte order mark included. */
  ghost function Fixed(code: Text, edits: seq<Fix>): Text
    requires Chain(edits, |Body(code)|)
  {
    (if AnyDropsMark(edits) then [] else Mark(code)) + ApplyAll(Body(code), edits)
  }

  // ---- Which diagnostics may be applied together ----------------------------

  predicate FixOrder(a: Fix, b: Fix) {
    a.pos < b.pos || (a.pos == b.pos && a.end <= b.end)
  }

  function Start(diagnostic: Diagnostic): int {
    if |diagnostic.fixes| == 0 then 0 else diagnostic.fixes[0].pos
  }

  function End(diagnostic: Diagnostic): int {
    if |diagnostic.fixes| == 0 then 0 else diagnostic.fixes[|diagnostic.fixes| - 1].end
  }

  predicate DiagnosticOrder(a: Diagnostic, b: Diagnostic) {
    Start(a) < Start(b) || (Start(a) == Start(b) && End(a) <= End(b))
  }

  // `b` starts inside what `a` spans, or right behind it with an insertion on either side.
  predicate Clashes(a: Diagnostic, b: Diagnostic)
    requires |a.fixes| > 0 && |b.fixes| > 0
  {
    && Start(a) <= Start(b)
    && (|| Start(b) < End(a)
        || (Start(b) == End(a) && (IsInsertion(b.fixes[0]) || IsInsertion(a.fixes[|a.fixes| - 1]))))
  }

  /** Two diagnostics conflict when the spans of their fixes do. */
  predicate Conflict(a: Diagnostic, b: Diagnostic)
    requires |a.fixes| > 0 && |b.fixes| > 0
  {
    Clashes(a, b) || Clashes(b, a)
  }

  /** What a rule owes: fixes within the text that do not reach into each other.
      A diagnostic with an inverted range owes nothing; it is never applied. */
  predicate WellFormed(diagnostic: Diagnostic, length: nat) {
    var fixes := diagnostic.fixes;
    || IsInverted(diagnostic)
    || (&& (forall i :: 0 <= i < |fixes| ==> -1 <= fixes[i].pos <= fixes[i].end <= length)
        && (forall i, j :: 0 <= i < j < |fixes| ==> fixes[i].end <= fixes[j].pos || fixes[j].end <= fixes[i].pos))
  }

  // The same diagnostic with its own fixes put in order.
  ghost predicate SortedForm(sorted: Diagnostic, original: Diagnostic) {
    && sorted.id == original.id
    && multiset(sorted.fixes) == multiset(original.fixes)
    && Ordered(sorted.fixes, FixOrder)
  }

  // A sorted permutation of disjoint fixes is a chain.
  lemma SortedFixesChain(sorted: Diagnostic, original: Diagnostic, length: nat)
    requires SortedForm(sorted, original) && WellFormed(original, length) && !IsInverted(sorted)
    ensures Chain(sorted.fixes, length)
    ensures |sorted.fixes| > 0 ==> Start(sorted) >= -1
  {
    var a, b := sorted.fixes, original.fixes;
    forall i | 0 <= i < |b| ensures b[i].pos <= b[i].end {
      assert b[i] in multiset(a);
    }
    forall i | 0 <= i < |a| ensures -1 <= a[i].pos <= a[i].end <= length {
      assert a[i] in multiset(b);
    }
    forall i | 0 <= i < |a| - 1 ensures a[i].end <= a[i + 1].pos {
      Disjoint(a, b, i);
    }
    NeighboursChain(a, length);
  }

  lemma {:induction false} NeighboursChain(fixes: seq<Fix>, limit: int)
    requires forall i :: 0 <= i < |fixes| ==> -1 <= fixes[i].pos <= fixes[i].end <= limit
    requires forall i :: 0 <= i < |fixes| - 1 ==> fixes[i].end <= fixes[i + 1].pos
    ensures Chain(fixes, limit)
  {
    var n := |fixes| - 1;
    if n > 0 {
      forall i | 0 <= i < n ensures fixes[i].end <= fixes[n].pos {
        NeighboursOrder(fixes, i, n);
      }
      NeighboursChain(fixes[..n], fixes[n].pos);
    }
  }

  lemma {:induction false} NeighboursOrder(fixes: seq<Fix>, i: nat, j: nat)
    requires forall k :: 0 <= k < |fixes| ==> fixes[k].pos <= fixes[k].end
    requires forall k :: 0 <= k < |fixes| - 1 ==> fixes[k].end <= fixes[k + 1].pos
    requires i < j < |fixes|
    ensures fixes[i].end <= fixes[j].pos
  {
    if i + 1 < j {
      NeighboursOrder(fixes, i, j - 1);
    }
  }

  // Two fixes that are neighbours after sorting were two fixes before it.
  lemma Disjoint(a: seq<Fix>, b: seq<Fix>, i: nat)
    requires multiset(a) == multiset(b) && i + 1 < |a| && Ordered(a, FixOrder)
    requires forall k :: 0 <= k < |b| ==> b[k].pos <= b[k].end
    requires forall k, l :: 0 <= k < l < |b| ==> b[k].end <= b[l].pos || b[l].end <= b[k].pos
    ensures a[i].end <= a[i + 1].pos
  {
    var x, y := a[i], a[i + 1];
    assert FixOrder(x, y);
    var k, l: nat;
    if x != y {
      assert x in multiset(b) && y in multiset(b);
      k :| 0 <= k < |b| && b[k] == x;
      l :| 0 <= l < |b| && b[l] == y;
    } else {
      assert a == a[..i] + [x] + [y] + a[i + 2..];
      assert multiset(a)[x] >= 2;
      k, l := TwoPlaces(b, x);
    }
    assert k != l;
  }

  lemma {:induction false} TwoPlaces(items: seq<Fix>, x: Fix) returns (k: nat, l: nat)
    requires multiset(items)[x] >= 2
    ensures k < l < |items| && items[k] == x && items[l] == x
  {
    var n := |items| - 1;
    assert items == items[..n] + [items[n]];
    if items[n] == x {
      assert x in multiset(items[..n]);
      k :| 0 <= k < n && items[..n][k] == x;
      l := n;
    } else {
      k, l := TwoPlaces(items[..n], x);
    }
  }

  // ---- The pass ------------------------------------------------------------

  function AllFixes(diagnostics: seq<Diagnostic>): seq<Fix> {
    if |diagnostics| == 0 then []
    else AllFixes(diagnostics[..|diagnostics| - 1]) + diagnostics[|diagnostics| - 1].fixes
  }

  /** What has been written is the simultaneous application of `edits` to the
      text read so far. */
  ghost predicate Written(text: Text, edits: seq<Fix>, output: Text) {
    && -1 <= Reached(edits) <= |text|
    && Chain(edits, Reached(edits))
    && output == ApplyAll(text[..NonNegative(Reached(edits))], edits)
  }

  lemma WriteOneMore(text: Text, edits: seq<Fix>, output: Text, fix: Fix)
    requires Written(text, edits, output) && Reached(edits) <= fix.pos <= fix.end <= |text|
    ensures Written(text, edits + [fix],
                    output + text[NonNegative(Reached(edits))..NonNegative(fix.pos)] + fix.text)
  {
    ApplyOneMore(text, edits, fix);
  }

  // Behind the last edit the text is copied as it is.
  lemma WriteRest(text: Text, edits: seq<Fix>, output: Text)
    requires Written(text, edits, output)
    ensures Chain(edits, |text|)
    ensures output + text[NonNegative(Reached(edits))..] == ApplyAll(text, edits)
  {
    var at := NonNegative(Reached(edits));
    ApplyCarriesTail(text[..at], text[at..], edits);
    assert text[..at] + text[at..] == text;
  }

  ghost predicate AnyDropsMark(edits: seq<Fix>) {
    exists i :: 0 <= i < |edits| && DropsMark(edits[i])
  }

  /** Writes the fixes of one diagnostic behind what has been written. */
  method WriteFixes(text: Text, fixes: seq<Fix>, output: Text, lastFixEnd: int, bom: Text, ghost edits: seq<Fix>)
    returns (written: Text, fixEnd: int, wasInsertion: bool, mark: Text)
    requires |fixes| > 0 && Chain(fixes, |text|)
    requires lastFixEnd == Reached(edits) <= fixes[0].pos && Written(text, edits, output)
    ensures fixEnd == fixes[|fixes| - 1].end == Reached(edits + fixes) && Written(text, edits + fixes, written)
    ensures wasInsertion == IsInsertion(fixes[|fixes| - 1])
    ensures mark == if AnyDropsMark(fixes) then [] else bom
  {
    hide Written, Chain, DropsMark;
    written, fixEnd, wasInsertion, mark := output, lastFixEnd, false, bom;
    assert edits + fixes[..0] == edits;
    for i := 0 to |fixes|
      invariant fixEnd == Reached(edits + fixes[..i])
      invariant i < |fixes| ==> fixEnd <= fixes[i].pos
      invariant Written(text, edits + fixes[..i], written)
      invariant i > 0 ==> wasInsertion == IsInsertion(fixes[i - 1])
      invariant mark == if exists k :: 0 <= k < i && DropsMark(fixes[k]) then [] else bom
    {
      var fix := fixes[i];
      ChainAt(fixes, |text|, i);
      WrittenBounds(text, edits + fixes[..i], written);
      wasInsertion := fix.pos == fix.end;
      if DropsMark(fix) {
        mark := [];
      }
      WriteOneMore(text, edits + fixes[..i], written, fix);
      assert edits + fixes[..i] + [fix] == edits + fixes[..i + 1];
      written := written + text[NonNegative(fixEnd)..NonNegative(fix.pos)] + fix.text;
      fixEnd := fix.end;
    }
    assert fixes[..|fixes|] == fixes;
  }

  lemma WrittenBounds(text: Text, edits: seq<Fix>, output: Text)
    requires Written(text, edits, output)
    ensures -1 <= Reached(edits) <= |text|
  {
  }

  lemma {:induction false} ChainAt(edits: seq<Fix>, limit: int, i: nat)
    requires Chain(edits, limit) && i < |edits|
    ensures -1 <= edits[i].pos <= edits[i].end <= limit
    ensures i + 1 < |edits| ==> edits[i].end <= edits[i + 1].pos
    ensures edits[0].pos <= edits[i].pos
  {
    var n := |edits| - 1;
    if i < n {
      ChainAt(edits[..n], edits[n].pos, i);
    } else if n > 0 {
      ChainAt(edits[..n], edits[n].pos, n - 1);
    }
  }

  // `b` lies behind `a`, touching it at most as two replacements may.
  predicate Apart(a: Diagnostic, b: Diagnostic)
    requires |a.fixes| > 0 && |b.fixes| > 0
  {
    || End(a) < Start(b)
    || (End(a) == Start(b) && !IsInsertion(b.fixes[0]) && !IsInsertion(a.fixes[|a.fixes| - 1]))
  }

  predicate Applicable(diagnostic: Diagnostic, length: nat) {
    |diagnostic.fixes| > 0 && Chain(diagnostic.fixes, length)
  }

  lemma SpanIsOrdered(diagnostic: Diagnostic, length: nat)
    requires Applicable(diagnostic, length)
    ensures -1 <= Start(diagnostic) <= End(diagnostic) <= length
    ensures Start(diagnostic) == End(diagnostic) ==>
              IsInsertion(diagnostic.fixes[0]) && IsInsertion(diagnostic.fixes[|diagnostic.fixes| - 1])
  {
    var n := |diagnostic.fixes| - 1;
    ChainAt(diagnostic.fixes, length, n);
    ChainAt(diagnostic.fixes, length, 0);
    if n > 0 {
      FirstEndsFirst(diagnostic.fixes, length);
    }
  }

  lemma {:induction false} FirstEndsFirst(fixes: seq<Fix>, limit: int)
    requires |fixes| > 1 && Chain(fixes, limit)
    ensures fixes[0].end <= fixes[|fixes| - 1].pos
  {
    var n := |fixes| - 1;
    if n > 1 {
      FirstEndsFirst(fixes[..n], fixes[n].pos);
      ChainAt(fixes, limit, n);
      ChainAt(fixes, limit, n - 1);
    } else {
      ChainAt(fixes, limit, 0);
    }
  }

  lemma ApartIsTransitive(a: Diagnostic, b: Diagnostic, c: Diagnostic, length: nat)
    requires |a.fixes| > 0 && Applicable(b, length) && |c.fixes| > 0 && Apart(a, b) && Apart(b, c)
    ensures Apart(a, c)
  {
    SpanIsOrdered(b, length);
  }

  lemma ApartIsFree(a: Diagnostic, b: Diagnostic, length: nat)
    requires Applicable(a, length) && Applicable(b, length) && Apart(a, b)
    ensures !Conflict(a, b)
  {
    SpanIsOrdered(a, length);
    SpanIsOrdered(b, length);
  }

  // Applied diagnostics follow each other, so no two of them conflict.
  ghost predicate Separated(applied: seq<Diagnostic>, length: nat) {
    && (forall i :: 0 <= i < |applied| ==> Applicable(applied[i], length))
    && (forall i, j :: 0 <= i < j < |applied| ==> Apart(applied[i], applied[j]))
  }

  lemma SeparatedOneMore(applied: seq<Diagnostic>, next: Diagnostic, length: nat)
    requires Separated(applied, length) && Applicable(next, length)
    requires |applied| > 0 ==> Apart(applied[|applied| - 1], next)
    ensures Separated(applied + [next], length)
  {
    forall i | 0 <= i < |applied| ensures Apart(applied[i], next) {
      if i < |applied| - 1 {
        ApartIsTransitive(applied[i], applied[|applied| - 1], next, length);
      }
    }
  }

  ghost predicate NoConflicts(applied: seq<Diagnostic>) {
    && (forall i :: 0 <= i < |applied| ==> |applied[i].fixes| > 0)
    && (forall i, j :: 0 <= i < j < |applied| ==> !Conflict(applied[i], applied[j]))
  }

  /** Why a diagnostic is left for a later pass: it has nothing usable, or it
      conflicts with an applied one that starts no later than it does. */
  ghost predicate HasReason(diagnostic: Diagnostic, applied: seq<Diagnostic>) {
    || |diagnostic.fixes| == 0
    || IsInverted(diagnostic)
    || exists a :: a in applied && |a.fixes| > 0 && Conflict(a, diagnostic)
         && (Start(a) < Start(diagnostic) || (Start(a) == Start(diagnostic) && End(a) <= End(diagnostic)))
  }

  lemma OrdersArePreorders()
    ensures TotalPreorder(FixOrder) && TotalPreorder(DiagnosticOrder)
  {
  }

  lemma LastOfAll(diagnostics: seq<Diagnostic>, next: Diagnostic)
    requires |next.fixes| > 0
    ensures AllFixes(diagnostics + [next]) == AllFixes(diagnostics) + next.fixes
    ensures Reached(AllFixes(diagnostics + [next])) == End(next)
  {
    assert (diagnostics + [next])[..|diagnostics|] == diagnostics;
  }

  // Every diagnostic with its own fixes in order; those without any are set aside.
  method PrepareDiagnostics(diagnostics: seq<Diagnostic>)
    returns (withFixes: seq<Diagnostic>, without: seq<Diagnostic>, ghost sorted: seq<Diagnostic>)
    ensures |sorted| == |diagnostics| && forall i :: 0 <= i < |sorted| ==> SortedForm(sorted[i], diagnostics[i])
    ensures multiset(withFixes) + multiset(without) == multiset(sorted)
    ensures forall w :: w in withFixes ==> |w.fixes| > 0
    ensures forall w :: w in without ==> |w.fixes| == 0
  {
    hide SortedForm;
    withFixes, without, sorted := [], [], [];
    for i := 0 to |diagnostics|
      invariant |sorted| == i && forall k :: 0 <= k < i ==> SortedForm(sorted[k], diagnostics[k])
      invariant multiset(withFixes) + multiset(without) == multiset(sorted)
      invariant forall w :: w in withFixes ==> |w.fixes| > 0
      invariant forall w :: w in without ==> |w.fixes| == 0
    {
      var diagnostic := PrepareOne(diagnostics[i]);
      if |diagnostic.fixes| > 0 {
        withFixes := withFixes + [diagnostic];
      } else {
        without := without + [diagnostic];
      }
      sorted := sorted + [diagnostic];
    }
  }

  method PrepareOne(diagnostic: Diagnostic) returns (sorted: Diagnostic)
    ensures SortedForm(sorted, diagnostic) && (|sorted.fixes| > 0 <==> |diagnostic.fixes| > 0)
  {
    OrdersArePreorders();
    hide TotalPreorder;
    sorted := diagnostic;
    if |diagnostic.fixes| > 0 {
      var fixes := Sort(diagnostic.fixes, FixOrder);
      assert |multiset(fixes)| == |multiset(diagnostic.fixes)|;
      sorted := diagnostic.(fixes := fixes);
    }
  }

  // What preparing and sorting give the pass to work on.
  ghost predicate Prepared(diagnostics: seq<Diagnostic>, sorted: seq<Diagnostic>, length: nat) {
    && |sorted| == |diagnostics|
    && (forall i :: 0 <= i < |sorted| ==> SortedForm(sorted[i], diagnostics[i]))
    && (forall i :: 0 <= i < |diagnostics| ==> WellFormed(diagnostics[i], length))
  }

  /** The pass itself, over diagnostics in text order. */
  method ApplyOrdered(code: Text, order: seq<Diagnostic>, without: seq<Diagnostic>,
                      ghost diagnostics: seq<Diagnostic>, ghost sorted: seq<Diagnostic>)
    returns (output: Text, unapplied: seq<Diagnostic>, fixed: bool, ghost applied: seq<Diagnostic>)
    requires Prepared(diagnostics, sorted, |Body(code)|) && Ordered(order, DiagnosticOrder)
    requires Accounted([], without, order, sorted)
    requires forall i :: 0 <= i < |order| ==> |order[i].fixes| > 0
    requires forall u :: u in without ==> HasReason(u, [])
    ensures multiset(applied) + multiset(unapplied) == multiset(sorted)
    ensures Chain(AllFixes(applied), |Body(code)|) && output == Fixed(code, AllFixes(applied))
    ensures NoConflicts(applied) && forall u :: u in unapplied ==> HasReason(u, applied)
    ensures fixed <==> |applied| > 0
  {
    hide Chain, Written, Prepared, ApplyAll, DropsMark, Ordered, Conflict, IsInverted, DiagnosticOrder,
      Accounted, HasReason, AllFixes, Separated, AnyDropsMark, NoConflicts, Mark;
    var text := Body(code);
    var bom := Mark(code);
    var builder: Text := [];
    var lastFixEnd, lastWasInsertion := -1, false;
    unapplied, fixed, applied := without, false, [];
    ghost var last := Diagnostic(0, []);
    NothingWritten(text);
    assert order[0..] == order;
    for i := 0 to |order|
      invariant Accounted(applied, unapplied, order[i..], sorted)
      invariant Separated(applied, |text|) && Written(text, AllFixes(applied), builder)
      invariant lastFixEnd == Reached(AllFixes(applied))
      invariant fixed <==> |applied| > 0
      invariant fixed ==> last == applied[|applied| - 1] && |last.fixes| > 0
      invariant fixed ==> lastFixEnd == End(last) && lastWasInsertion == IsInsertion(last.fixes[|last.fixes| - 1])
      invariant fixed && i < |order| ==> DiagnosticOrder(last, order[i]) && Start(last) <= Start(order[i])
      invariant bom == if AnyDropsMark(AllFixes(applied)) then [] else Mark(code)
      invariant forall u :: u in unapplied ==> HasReason(u, applied)
    {
      var diagnostic := order[i];
      assert order[i..] == [diagnostic] + order[i + 1..];
      OrderedStarts(order, i, last);
      NextIsAccounted(applied, unapplied, diagnostic, order[i + 1..], sorted);
      var fixes := diagnostic.fixes;
      var firstFix := fixes[0];
      var isOverlapping := lastFixEnd > firstFix.pos;
      var isAdjacentConflict := fixed && lastFixEnd == firstFix.pos && (IsInsertion(firstFix) || lastWasInsertion);
      var isInverted := IsInverted(diagnostic);
      if !isInverted {
        SortedIsApplicable(diagnostics, sorted, diagnostic, |text|);
        SpanIsOrdered(diagnostic, |text|);
      }
      if isOverlapping || isAdjacentConflict || isInverted {
        if !isInverted {
          ClashIsConflict(last, diagnostic);
        }
        OneMoreReason(unapplied, applied, diagnostic);
        unapplied := unapplied + [diagnostic];
        continue;
      }
      ghost var edits := AllFixes(applied);
      LastOfAll(applied, diagnostic);
      SeparatedOneMore(applied, diagnostic, |text|);
      MarkAfter(edits, fixes);
      builder, lastFixEnd, lastWasInsertion, bom := WriteFixes(text, fixes, builder, lastFixEnd, bom, edits);
      fixed := true;
      ReasonsStay(unapplied, applied, diagnostic);
      applied, last := applied + [diagnostic], diagnostic;
    }
    WriteRest(text, AllFixes(applied), builder);
    SeparatedHasNoConflicts(applied, |text|);
    AllAccounted(applied, unapplied, order[|order|..], sorted);
    output := bom + (builder + text[NonNegative(lastFixEnd)..]);
  }

  /** The outcome of a pass in terms of its input alone: some diagnostics, whole
      and free of conflict, are applied together, and the others are handed back. */
  ghost predicate IsFixOf(code: Text, diagnostics: seq<Diagnostic>, output: Text, unapplied: seq<Diagnostic>, fixed: bool) {
    exists sorted, applied :: FixedBy(code, diagnostics, output, unapplied, fixed, sorted, applied)
  }

  ghost predicate FixedBy(
    code: Text, diagnostics: seq<Diagnostic>, output: Text, unapplied: seq<Diagnostic>, fixed: bool,
    sorted: seq<Diagnostic>, applied: seq<Diagnostic>)
  {
    && |sorted| == |diagnostics| && (forall i :: 0 <= i < |sorted| ==> SortedForm(sorted[i], diagnostics[i]))
    && multiset(applied) + multiset(unapplied) == multiset(sorted)
    && Chain(AllFixes(applied), |Body(code)|) && output == Fixed(code, AllFixes(applied))
    && NoConflicts(applied) && (forall u :: u in unapplied ==> HasReason(u, applied))
    && (fixed <==> |applied| > 0)
  }

  predicate Usable(diagnostic: Diagnostic) {
    |diagnostic.fixes| > 0 && !IsInverted(diagnostic)
  }

  lemma UsableIsApplied(
    code: Text, diagnostics: seq<Diagnostic>, output: Text, unapplied: seq<Diagnostic>, fixed: bool,
    sorted: seq<Diagnostic>, applied: seq<Diagnostic>, i: nat)
    requires FixedBy(code, diagnostics, output, unapplied, fixed, sorted, applied)
    requires i < |diagnostics| && Usable(diagnostics[i])
    ensures fixed
  {
    hide Chain, AllFixes, Fixed, NoConflicts, HasReason;
    SortingKeepsUsable(sorted[i], diagnostics[i]);
    assert sorted[i] in multiset(sorted);
    SomethingIsApplied(applied, unapplied, sorted[i]);
  }

  lemma SortingKeepsUsable(sorted: Diagnostic, original: Diagnostic)
    requires SortedForm(sorted, original) && Usable(original)
    ensures Usable(sorted)
  {
    var a, b := sorted.fixes, original.fixes;
    assert |multiset(a)| == |multiset(b)|;
    forall i | 0 <= i < |a| ensures a[i].pos <= a[i].end {
      assert a[i] in multiset(b);
      var k :| 0 <= k < |b| && b[k] == a[i];
    }
  }

  /** One pass over a file: the result is the simultaneous application of whole
      diagnostics that do not conflict, every other diagnostic is handed back
      with a reason, none is lost, and something is applied whenever a diagnostic
      has fixes and no inverted range. */
  method ApplyRuleFixes(code: Text, diagnostics: seq<Diagnostic>)
    returns (output: Text, unapplied: seq<Diagnostic>, fixed: bool, ghost sorted: seq<Diagnostic>, ghost applied: seq<Diagnostic>)
    requires forall i :: 0 <= i < |diagnostics| ==> WellFormed(diagnostics[i], |Body(code)|)
    ensures |sorted| == |diagnostics| && forall i :: 0 <= i < |sorted| ==> SortedForm(sorted[i], diagnostics[i])
    ensures multiset(applied) + multiset(unapplied) == multiset(sorted)
    ensures Chain(AllFixes(applied), |Body(code)|) && output == Fixed(code, AllFixes(applied))
    ensures NoConflicts(applied) && forall u :: u in unapplied ==> HasReason(u, applied)
    ensures fixed <==> |applied| > 0
    ensures IsFixOf(code, diagnostics, output, unapplied, fixed)
    ensures (exists i :: 0 <= i < |diagnostics| && Usable(diagnostics[i])) ==> fixed
  {
    hide Chain, SortedForm, ApplyAll, Ordered, WellFormed, HasReason, NoConflicts, Fixed, Usable;
    var withFixes, without;
    withFixes, without, sorted := PrepareDiagnostics(diagnostics);
    NoFixesIsReason(without);
    OrdersArePreorders();
    var order := Sort(withFixes, DiagnosticOrder);
    forall i | 0 <= i < |order| ensures |order[i].fixes| > 0 {
      assert order[i] in multiset(order) && order[i] in withFixes;
    }
    StartAccount(withFixes, order, without, sorted);
    output, unapplied, fixed, applied := ApplyOrdered(code, order, without, diagnostics, sorted);
    assert FixedBy(code, diagnostics, output, unapplied, fixed, sorted, applied);
    if i :| 0 <= i < |diagnostics| && Usable(diagnostics[i]) {
      UsableIsApplied(code, diagnostics, output, unapplied, fixed, sorted, applied, i);
    }
  }

  // No diagnostic is lost or duplicated: applied, handed back, or still to come.
  ghost predicate Accounted(
    applied: seq<Diagnostic>, unapplied: seq<Diagnostic>, rest: seq<Diagnostic>, sorted: seq<Diagnostic>)
  {
    multiset(applied) + multiset(unapplied) + multiset(rest) == multiset(sorted)
  }

  lemma StartAccount(
    withFixes: seq<Diagnostic>, order: seq<Diagnostic>, without: seq<Diagnostic>, sorted: seq<Diagnostic>)
    requires multiset(order) == multiset(withFixes)
    requires multiset(withFixes) + multiset(without) == multiset(sorted)
    ensures Accounted([], without, order, sorted)
  {
  }

  lemma NextIsAccounted(
    applied: seq<Diagnostic>, unapplied: seq<Diagnostic>, next: Diagnostic, rest: seq<Diagnostic>, sorted: seq<Diagnostic>)
    requires Accounted(applied, unapplied, [next] + rest, sorted)
    ensures Accounted(applied + [next], unapplied, rest, sorted) && Accounted(applied, unapplied + [next], rest, sorted)
    ensures next in multiset(sorted)
  {
    assert next in multiset([next] + rest);
  }

  lemma AllAccounted(
    applied: seq<Diagnostic>, unapplied: seq<Diagnostic>, rest: seq<Diagnostic>, sorted: seq<Diagnostic>)
    requires Accounted(applied, unapplied, rest, sorted) && |rest| == 0
    ensures multiset(applied) + multiset(unapplied) == multiset(sorted)
  {
  }

  lemma NoFixesIsReason(unapplied: seq<Diagnostic>)
    requires forall u :: u in unapplied ==> |u.fixes| == 0
    ensures forall u :: u in unapplied ==> HasReason(u, [])
  {
  }

  lemma OneMoreReason(unapplied: seq<Diagnostic>, applied: seq<Diagnostic>, next: Diagnostic)
    requires forall u :: u in unapplied ==> HasReason(u, applied)
    requires IsInverted(next) || (|next.fixes| > 0 && |applied| > 0 && |applied[|applied| - 1].fixes| > 0
                                  && DiagnosticOrder(applied[|applied| - 1], next) && Conflict(applied[|applied| - 1], next))
    ensures forall u :: u in unapplied + [next] ==> HasReason(u, applied)
  {
    if !IsInverted(next) {
      assert applied[|applied| - 1] in applied;
    }
  }

  lemma NothingWritten(text: Text)
    ensures Written(text, [], []) && AllFixes([]) == [] && Separated([], |text|) && !AnyDropsMark([])
  {
  }

  lemma OrderedStarts(order: seq<Diagnostic>, i: nat, last: Diagnostic)
    requires Ordered(order, DiagnosticOrder) && i < |order|
    ensures i + 1 < |order| ==> DiagnosticOrder(order[i], order[i + 1]) && Start(order[i]) <= Start(order[i + 1])
    ensures i + 1 < |order| && DiagnosticOrder(last, order[i]) ==> DiagnosticOrder(last, order[i + 1])
  {
  }

  lemma SortedIsApplicable(diagnostics: seq<Diagnostic>, sorted: seq<Diagnostic>, diagnostic: Diagnostic, length: nat)
    requires Prepared(diagnostics, sorted, length)
    requires diagnostic in multiset(sorted) && !IsInverted(diagnostic) && |diagnostic.fixes| > 0
    ensures Applicable(diagnostic, length)
  {
    var i :| 0 <= i < |sorted| && sorted[i] == diagnostic;
    SortedFixesChain(sorted[i], diagnostics[i], length);
  }

  lemma ClashIsConflict(a: Diagnostic, b: Diagnostic)
    requires |a.fixes| > 0 && |b.fixes| > 0 && Clashes(a, b)
    ensures Conflict(a, b)
  {
  }

  lemma MarkAfter(edits: seq<Fix>, fixes: seq<Fix>)
    ensures AnyDropsMark(edits + fixes) <==> AnyDropsMark(edits) || AnyDropsMark(fixes)
  {
    if AnyDropsMark(fixes) {
      var i :| 0 <= i < |fixes| && DropsMark(fixes[i]);
      assert (edits + fixes)[|edits| + i] == fixes[i];
    }
    if AnyDropsMark(edits) {
      var i :| 0 <= i < |edits| && DropsMark(edits[i]);
      assert (edits + fixes)[i] == edits[i];
    }
  }

  lemma ReasonsStay(unapplied: seq<Diagnostic>, applied: seq<Diagnostic>, next: Diagnostic)
    requires forall u :: u in unapplied ==> HasReason(u, applied)
    ensures forall u :: u in unapplied ==> HasReason(u, applied + [next])
  {
  }

  lemma SeparatedHasNoConflicts(applied: seq<Diagnostic>, length: nat)
    requires Separated(applied, length)
    ensures NoConflicts(applied)
  {
    forall i, j | 0 <= i < j < |applied| ensures !Conflict(applied[i], applied[j]) {
      ApartIsFree(applied[i], applied[j], length);
    }
  }

  /** Progress: a diagnostic with fixes and no inverted range never goes unapplied alone. */
  lemma SomethingIsApplied(applied: seq<Diagnostic>, unapplied: seq<Diagnostic>, diagnostic: Diagnostic)
    requires forall u :: u in unapplied ==> HasReason(u, applied)
    requires diagnostic in multiset(applied) + multiset(unapplied)
    requires |diagnostic.fixes| > 0 && !IsInverted(diagnostic)
    ensures |applied| > 0
  {
    if diagnostic in unapplied {
      assert HasReason(diagnostic, applied);
    }
  }
}
