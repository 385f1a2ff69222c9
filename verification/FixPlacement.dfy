/** Where every byte of a fixed text comes from, and when two diagnostics are in
    each other's way, told by positions alone. */
module FixPlacement {
  import opened Bytes
  import opened SourceCodeFixer

  // By how much the first `i` edits move the text behind them.
  function Shift(edits: seq<Fix>, i: nat): int
    requires i <= |edits|
  {
    if i == 0 then 0
    else Shift(edits, i - 1) + |edits[i - 1].text| - (NonNegative(edits[i - 1].end) - NonNegative(edits[i - 1].pos))
  }

  lemma {:induction false} ShiftOfFront(edits: seq<Fix>, i: nat)
    requires i < |edits|
    ensures Shift(edits[..|edits| - 1], i) == Shift(edits, i)
  {
    if i > 0 {
      ShiftOfFront(edits, i - 1);
    }
  }

  // Position `k` of the text lies behind the first `i` edits and before the others.
  predicate Between(edits: seq<Fix>, i: nat, k: int)
    requires i <= |edits|
  {
    (i > 0 ==> NonNegative(edits[i - 1].end) <= k) && (i < |edits| ==> k < NonNegative(edits[i].pos))
  }

  lemma {:induction false} LengthShifts(text: Text, edits: seq<Fix>)
    requires Chain(edits, |text|)
    ensures |ApplyAll(text, edits)| == |text| + Shift(edits, |edits|)
    decreases |edits|
  {
    if |edits| > 0 {
      var front, last := edits[..|edits| - 1], edits[|edits| - 1];
      ChainWidens(front, last.pos, |Replace(text, last)|);
      LengthShifts(Replace(text, last), front);
      ShiftOfFront(edits, |front|);
    }
  }

  /** A byte no edit touches is in the result, moved by what the edits before it
      add and remove. */
  lemma {:induction false} KeptBytes(text: Text, edits: seq<Fix>, i: nat, k: nat)
    requires Chain(edits, |text|) && i <= |edits| && k < |text| && Between(edits, i, k)
    ensures 0 <= k + Shift(edits, i) < |ApplyAll(text, edits)|
    ensures ApplyAll(text, edits)[k + Shift(edits, i)] == text[k]
    decreases |edits|
  {
    if |edits| > 0 {
      var n := |edits| - 1;
      var front, last := edits[..n], edits[n];
      var next := Replace(text, last);
      ChainWidens(front, last.pos, |next|);
      if i <= n {
        if i < n {
          PositionsRise(edits, |text|, i, n);
        }
        assert next[k] == text[k];
        KeptBytes(next, front, i, k);
        ShiftOfFront(edits, i);
      } else {
        var k' := k + |last.text| - (NonNegative(last.end) - NonNegative(last.pos));
        assert next[k'] == text[k];
        if n > 0 {
          ChainAt(edits, |text|, n - 1);
        }
        KeptBytes(next, front, n, k');
        ShiftOfFront(edits, n);
      }
    }
  }

  lemma {:induction false} PositionsRise(edits: seq<Fix>, limit: int, i: nat, j: nat)
    requires Chain(edits, limit) && i <= j < |edits|
    ensures edits[i].pos <= edits[j].pos
  {
    if i < j {
      PositionsRise(edits, limit, i, j - 1);
      ChainAt(edits, limit, j - 1);
    }
  }

  /** The text of every edit stands in the result where the edit was made, moved
      in the same way. */
  lemma {:induction false} EditBytes(text: Text, edits: seq<Fix>, i: nat, j: nat)
    requires Chain(edits, |text|) && i < |edits| && j < |edits[i].text|
    ensures 0 <= NonNegative(edits[i].pos) + Shift(edits, i) + j < |ApplyAll(text, edits)|
    ensures ApplyAll(text, edits)[NonNegative(edits[i].pos) + Shift(edits, i) + j] == edits[i].text[j]
    decreases |edits|
  {
    var n := |edits| - 1;
    var front, last := edits[..n], edits[n];
    var next := Replace(text, last);
    ChainWidens(front, last.pos, |next|);
    ShiftOfFront(edits, i);
    if i < n {
      EditBytes(next, front, i, j);
    } else {
      var k := NonNegative(last.pos) + j;
      assert next[k] == last.text[j];
      if n > 0 {
        ChainAt(edits, |text|, n - 1);
      }
      KeptBytes(next, front, n, k);
    }
  }

  /** The byte order mark survives unless some edit reaches from before the text
      into it, or puts a mark of its own at the very start. */
  lemma MarkSurvivesUnless(code: Text, edits: seq<Fix>)
    requires Chain(edits, |Body(code)|)
    ensures [0xEF, 0xBB, 0xBF] <= code ==>
      && Body(code) == code[3..]
      && Fixed(code, edits) ==
           (if exists i :: 0 <= i < |edits| && ((edits[i].pos < 0 && edits[i].end >= 0)
                                                || (edits[i].pos == 0 && [0xEF, 0xBB, 0xBF] <= edits[i].text))
            then [] else [0xEF, 0xBB, 0xBF]) + ApplyAll(code[3..], edits)
    ensures !([0xEF, 0xBB, 0xBF] <= code) ==> Body(code) == code && Fixed(code, edits) == ApplyAll(code, edits)
  {
    hide Chain, ApplyAll;
    assert BOM == [0xEF, 0xBB, 0xBF];
    if !(BOM <= code) {
      assert code[0..] == code;
      assert Mark(code) == [] && [] + ApplyAll(code, edits) == ApplyAll(code, edits);
    }
  }

  /** Two applicable diagnostics are free of each other exactly when one ends
      before the other starts, or ends where it starts and neither of the two
      fixes that meet there is an insertion. */
  lemma ConflictByPositions(a: Diagnostic, b: Diagnostic, length: nat)
    requires Applicable(a, length) && Applicable(b, length)
    ensures var firstA, lastA, firstB, lastB := a.fixes[0], a.fixes[|a.fixes| - 1], b.fixes[0], b.fixes[|b.fixes| - 1];
      !Conflict(a, b) <==>
        || lastA.end < firstB.pos
        || lastB.end < firstA.pos
        || (lastA.end == firstB.pos && lastA.pos < lastA.end && firstB.pos < firstB.end)
        || (lastB.end == firstA.pos && lastB.pos < lastB.end && firstA.pos < firstA.end)
  {
    SpanIsOrdered(a, length);
    SpanIsOrdered(b, length);
    ChainAt(a.fixes, length, 0);
    ChainAt(b.fixes, length, 0);
    ChainAt(a.fixes, length, |a.fixes| - 1);
    ChainAt(b.fixes, length, |b.fixes| - 1);
    hide Chain;
  }
}
