/** Applying editor changes to a document: lines, UTF-16 positions, splices. */
module DocumentChanges {
  import opened Wrappers
  import opened Bytes
  import opened Utf8

  datatype Position = Position(line: nat, character: nat)

  datatype Partial = Partial(start: Position, end: Position, text: Text)

  /** A change on the wire may carry a range, a whole text, both or neither. */
  datatype Change = Change(part: Option<Partial>, whole: Option<Text>)

  const CR: Byte := 13
  const LF: Byte := 10

  // ---- Lines -----------------------------------------------------------------

  /** A line starts at 0 and after every LF, CR or CRLF, and nowhere else. */
  predicate StartsLine(content: Text, k: int) {
    0 <= k <= |content| &&
    (k == 0 || content[k - 1] == LF || (content[k - 1] == CR && (k == |content| || content[k] != LF)))
  }

  ghost predicate AreLineStarts(starts: seq<nat>, content: Text) {
    && |starts| > 0 && starts[0] == 0
    && (forall i, j :: 0 <= i < j < |starts| ==> starts[i] < starts[j])
    && (forall k :: k in starts <==> StartsLine(content, k))
  }

  ghost predicate LineStartsUpTo(starts: seq<nat>, content: Text, offset: nat) {
    && |starts| > 0 && starts[0] == 0 && offset <= |content|
    && (forall i, j :: 0 <= i < j < |starts| ==> starts[i] < starts[j])
    && (forall k :: k in starts <==> StartsLine(content, k) && k <= offset)
  }

  lemma NoStartAdded(starts: seq<nat>, content: Text, offset: nat)
    requires LineStartsUpTo(starts, content, offset) && offset < |content| && !StartsLine(content, offset + 1)
    ensures LineStartsUpTo(starts, content, offset + 1)
  {}

  lemma StartAdded(starts: seq<nat>, content: Text, offset: nat)
    requires LineStartsUpTo(starts, content, offset) && offset < |content| && StartsLine(content, offset + 1)
    ensures LineStartsUpTo(starts + [offset + 1], content, offset + 1)
  {
    var more := starts + [offset + 1];
    forall i, j | 0 <= i < j < |more| ensures more[i] < more[j] {
      assert starts[i] in starts;
    }
  }

  method ComputeLSPLineStarts(content: Text) returns (starts: seq<nat>)
    ensures AreLineStarts(starts, content)
  {
    starts := [0];
    var offset := 0;
    while offset < |content|
      invariant LineStartsUpTo(starts, content, offset)
      invariant offset > 0 && content[offset - 1] == CR ==> offset == |content| || content[offset] != LF
    {
      hide LineStartsUpTo;
      if content[offset] == CR {
        offset := offset + 1;
        if offset < |content| && content[offset] == LF {
          NoStartAdded(starts, content, offset - 1);
          offset := offset + 1;
        }
        StartAdded(starts, content, offset - 1);
        starts := starts + [offset];
      } else if content[offset] == LF {
        StartAdded(starts, content, offset);
        offset := offset + 1;
        starts := starts + [offset];
      } else {
        NoStartAdded(starts, content, offset);
        offset := offset + 1;
      }
    }
    AllStarts(starts, content);
  }

  lemma AllStarts(starts: seq<nat>, content: Text)
    requires LineStartsUpTo(starts, content, |content|)
    ensures AreLineStarts(starts, content)
  {}

  // ---- One line --------------------------------------------------------------

  /** The byte size and UTF-16 size of the first rune; an invalid byte counts as
      one replacement character. */
  function RuneSize(s: Text): (n: nat)
    requires |s| > 0
    ensures 1 <= n <= |s|
  {
    if CharWidth(s) > 0 then CharWidth(s) else 1
  }

  function RuneUnits(s: Text): (n: nat)
    requires |s| > 0
    ensures 1 <= n <= 2
  {
    if CharWidth(s) == 4 then 2 else 1
  }

  /** The length of a text in UTF-16 code units. */
  function Units(s: Text): nat
    decreases |s|
  {
    if |s| == 0 then 0 else RuneUnits(s) + Units(s[RuneSize(s)..])
  }

  /** How many bytes of a line hold its first `character` UTF-16 units. */
  function Walk(line: Text, character: nat): (offset: nat)
    ensures offset <= |line|
    decreases |line|
  {
    if |line| == 0 || RuneUnits(line) > character then 0
    else RuneSize(line) + Walk(line[RuneSize(line)..], character - RuneUnits(line))
  }

  lemma {:induction false} WalkIsMonotone(line: Text, c: nat, d: nat)
    requires c <= d
    ensures Walk(line, c) <= Walk(line, d)
    decreases |line|
  {
    hide CharWidth;
    if |line| > 0 && RuneUnits(line) <= c {
      WalkIsMonotone(line[RuneSize(line)..], c - RuneUnits(line), d - RuneUnits(line));
    }
  }

  lemma {:induction false} WalkStopsBetweenCharacters(line: Text, character: nat)
    requires ValidUtf8(line)
    ensures Boundary(line, Walk(line, character))
    decreases |line|
  {
    hide CharWidth, ValidUtf8, RuneUnits;
    if |line| > 0 {
      FirstChar(line);
    }
    NothingIsValid();
    assert line[..0] == [] && line[0..] == line;
    if |line| > 0 && RuneUnits(line) <= character {
      var w := RuneSize(line);
      WalkStopsBetweenCharacters(line[w..], character - RuneUnits(line));
      var k := Walk(line[w..], character - RuneUnits(line));
      assert line[w + k..] == line[w..][k..];
      assert line[..w + k] == line[..w] + line[w..][..k];
      ValidConcat(line[..w], line[w..][..k]);
    }
  }

  /** Every boundary of a line is found again from its UTF-16 distance. */
  lemma {:induction false} WalkFindsEveryBoundary(line: Text, k: nat)
    requires ValidUtf8(line) && k <= |line| && ValidUtf8(line[..k])
    ensures Walk(line, Units(line[..k])) == k
    decreases |line|
  {
    if k > 0 {
      var front := line[..k];
      var w := CharWidth(front);
      FirstChar(front);
      assert front[..w] == line[..w];
      CharWidthIsLocal(front, line);
      FirstChar(line);
      assert line[w..][..k - w] == front[w..];
      hide CharWidth, ValidUtf8;
      WalkFindsEveryBoundary(line[w..], k - w);
    }
  }

  // ---- Positions -------------------------------------------------------------

  function LineEnd(content: Text, starts: seq<nat>, line: nat): nat
    requires line < |starts|
  {
    if line + 1 < |starts| then starts[line + 1] else |content|
  }

  function Offset(content: Text, starts: seq<nat>, p: Position): nat
    requires AreLineStarts(starts, content)
  {
    if p.line >= |starts| then |content|
    else
      LineBounds(content, starts, p.line);
      starts[p.line] + Walk(content[starts[p.line]..LineEnd(content, starts, p.line)], p.character)
  }

  lemma LineBounds(content: Text, starts: seq<nat>, line: nat)
    requires AreLineStarts(starts, content) && line < |starts|
    ensures starts[line] <= LineEnd(content, starts, line) <= |content|
  {
    assert starts[line] in starts;
    assert line + 1 < |starts| ==> starts[line + 1] in starts;
  }

  method LspUTF16PositionToOffset(content: Text, starts: seq<nat>, position: Position) returns (offset: nat)
    requires AreLineStarts(starts, content)
    ensures offset == Offset(content, starts, position)
  {
    if position.line >= |starts| {
      return |content|;
    }
    LineBounds(content, starts, position.line);
    hide AreLineStarts, Walk;
    var lineStart := starts[position.line];
    var lineEnd := if position.line + 1 < |starts| then starts[position.line + 1] else |content|;
    offset := WalkWithin(content, lineStart, lineEnd, position.character);
  }

  method WalkWithin(content: Text, lineStart: nat, lineEnd: nat, character: nat) returns (offset: nat)
    requires lineStart <= lineEnd <= |content|
    ensures offset == lineStart + Walk(content[lineStart..lineEnd], character)
  {
    hide CharWidth, RuneSize, RuneUnits, Walk;
    offset := lineStart;
    var utf16Offset := 0;
    while offset < lineEnd
      invariant lineStart <= offset <= lineEnd && utf16Offset <= character
      invariant offset + Walk(content[offset..lineEnd], character - utf16Offset)
             == lineStart + Walk(content[lineStart..lineEnd], character)
    {
      var rest := content[offset..lineEnd];
      var size, units := RuneSize(rest), RuneUnits(rest);
      WalkStep(rest, character - utf16Offset);
      if utf16Offset + units > character {
        return;
      }
      assert rest[size..] == content[offset + size..lineEnd];
      utf16Offset := utf16Offset + units;
      offset := offset + size;
    }
    assert Walk(content[offset..lineEnd], character - utf16Offset) == 0;
  }

  lemma WalkStep(rest: Text, character: nat)
    requires |rest| > 0
    ensures Walk(rest, character) == if RuneUnits(rest) > character then 0
      else RuneSize(rest) + Walk(rest[RuneSize(rest)..], character - RuneUnits(rest))
  {}

  predicate AtMost(p: Position, q: Position) {
    p.line < q.line || (p.line == q.line && p.character <= q.character)
  }

  /** A later position is never a smaller offset. */
  lemma OffsetIsMonotone(content: Text, starts: seq<nat>, p: Position, q: Position)
    requires AreLineStarts(starts, content) && AtMost(p, q)
    ensures Offset(content, starts, p) <= Offset(content, starts, q) <= |content|
  {
    hide Walk, Units;
    if p.line < |starts| {
      LineBounds(content, starts, p.line);
    }
    if q.line < |starts| {
      LineBounds(content, starts, q.line);
      if p.line == q.line {
        WalkIsMonotone(content[starts[p.line]..LineEnd(content, starts, p.line)], p.character, q.character);
      }
    }
  }

  lemma LineEndsAreBoundaries(content: Text, starts: seq<nat>, line: nat)
    requires AreLineStarts(starts, content) && line < |starts| && ValidUtf8(content)
    ensures Boundary(content, starts[line]) && Boundary(content, LineEnd(content, starts, line))
  {
    LineBounds(content, starts, line);
    assert starts[line] in starts;
    assert line + 1 < |starts| ==> starts[line + 1] in starts;
    StartIsBoundary(content, starts[line]);
    StartIsBoundary(content, LineEnd(content, starts, line));
  }

  lemma StartIsBoundary(content: Text, k: nat)
    requires ValidUtf8(content) && (StartsLine(content, k) || k == |content|)
    ensures Boundary(content, k)
  {
    hide ValidUtf8, CharWidth;
    NothingIsValid();
    assert content[..0] == [] && content[0..] == content;
    assert content[..|content|] == content && content[|content|..] == [];
    if 0 < k < |content| {
      AsciiIsAlone(content, k);
    }
  }

  /** In valid text every position is a character boundary. */
  lemma OffsetIsBoundary(content: Text, starts: seq<nat>, p: Position)
    requires AreLineStarts(starts, content) && ValidUtf8(content)
    ensures Boundary(content, Offset(content, starts, p))
  {
    hide ValidUtf8, CharWidth, Walk, StartsLine;
    if p.line >= |starts| {
      StartIsBoundary(content, |content|);
    } else {
      LineBounds(content, starts, p.line);
      LineEndsAreBoundaries(content, starts, p.line);
      var i, j := starts[p.line], LineEnd(content, starts, p.line);
      hide AreLineStarts;
      BetweenBoundaries(content, i, j);
      WalkStopsBetweenCharacters(content[i..j], p.character);
      BoundaryWithin(content, i, j, Walk(content[i..j], p.character));
    }
  }

  /** Every character boundary of valid text has a position that finds it. */
  lemma EveryBoundaryHasAPosition(content: Text, starts: seq<nat>, k: nat)
    requires AreLineStarts(starts, content) && ValidUtf8(content) && k <= |content| && Boundary(content, k)
    ensures exists p :: Offset(content, starts, p) == k
  {
    hide ValidUtf8, CharWidth, Walk, StartsLine, Units;
    var line := LineOf(starts, k);
    LineBounds(content, starts, line);
    LineEndsAreBoundaries(content, starts, line);
    var i, j := starts[line], LineEnd(content, starts, line);
    BetweenBoundaries(content, i, j);
    BetweenBoundaries(content, i, k);
    assert content[i..j][..k - i] == content[i..k];
    WalkFindsEveryBoundary(content[i..j], k - i);
    assert Offset(content, starts, Position(line, Units(content[i..k]))) == k;
  }

  ghost function LineOf(starts: seq<nat>, k: nat): (line: nat)
    requires |starts| > 0 && starts[0] == 0
    ensures line < |starts| && starts[line] <= k && (line + 1 < |starts| ==> k < starts[line + 1])
    decreases |starts|
  {
    if starts[|starts| - 1] <= k then |starts| - 1 else LineOf(starts[..|starts| - 1], k)
  }

  // ---- Characters past the end of a line -------------------------------------

  /** The length of the CR, LF or CRLF a line ends with. */
  function TerminatorLength(line: Text): (n: nat)
    ensures n <= |line|
  {
    if |line| == 0 then 0
    else if line[|line| - 1] == LF then if |line| >= 2 && line[|line| - 2] == CR then 2 else 1
    else if line[|line| - 1] == CR then 1
    else 0
  }

  function LineText(line: Text): Text {
    line[..|line| - TerminatorLength(line)]
  }

  function Line(content: Text, starts: seq<nat>, line: nat): Text
    requires AreLineStarts(starts, content) && line < |starts|
  {
    LineBounds(content, starts, line);
    content[starts[line]..LineEnd(content, starts, line)]
  }

  /** The offset LSP 3.17 assigns to a position: a character past the text of its
      line falls back to the end of that text, before the terminator. */
  function Intended(content: Text, starts: seq<nat>, p: Position): nat
    requires AreLineStarts(starts, content) && p.line < |starts|
  {
    starts[p.line] + Walk(LineText(Line(content, starts, p.line)), p.character)
  }

  // A character is not continued by what is not a continuation byte.
  lemma WidthBeforeBreak(text: Text, rest: Text)
    requires |text| > 0 && (|rest| > 0 ==> !Tail(rest[0]))
    ensures CharWidth(text + rest) == CharWidth(text)
  {
    var s := text + rest;
    assert forall i :: 0 <= i < |text| ==> s[i] == text[i];
    assert |rest| > 0 ==> s[|text|] == rest[0];
    assert forall i: nat :: i < 4 ==> (TailAt(s, i) ==> TailAt(text, i) || i >= |text|);
    assert |text| < 4 && |rest| > 0 ==> !TailAt(s, |text|);
  }

  /** Walking a line with its terminator agrees with walking its text up to the
      length of that text, and goes further behind it. */
  lemma {:induction false} WalkPastText(text: Text, terminator: Text, character: nat)
    requires |terminator| > 0 && (terminator[0] == CR || terminator[0] == LF)
    ensures character <= Units(text) ==> Walk(text + terminator, character) == Walk(text, character)
    ensures character > Units(text) ==> Walk(text + terminator, character) > |text|
    decreases |text|
  {
    if |text| == 0 {
      assert text + terminator == terminator;
      assert CharWidth(terminator) == 1;
    } else {
      WidthBeforeBreak(text, terminator);
      hide CharWidth;
      var size := RuneSize(text);
      assert (text + terminator)[size..] == text[size..] + terminator;
      if RuneUnits(text) <= character {
        WalkPastText(text[size..], terminator, character - RuneUnits(text));
      }
    }
  }

  /** The code gives the intended offset exactly for characters within the text of
      a line, and everywhere on a line without a terminator; valid text or not. */
  lemma OffsetIsIntendedIff(content: Text, starts: seq<nat>, p: Position)
    requires AreLineStarts(starts, content) && p.line < |starts|
    ensures Offset(content, starts, p) == Intended(content, starts, p)
       <==> var line := Line(content, starts, p.line);
            TerminatorLength(line) == 0 || p.character <= Units(LineText(line))
  {
    LineBounds(content, starts, p.line);
    hide AreLineStarts, CharWidth, Units;
    var line := Line(content, starts, p.line);
    var n := |line| - TerminatorLength(line);
    var text, terminator := line[..n], line[n..];
    assert line == text + terminator;
    if |terminator| > 0 {
      WalkPastText(text, terminator, p.character);
    } else {
      assert text == line;
    }
  }

  /** Two failing positions: in `a` LF `b`, character 5 of the first line is 2 and
      not 1; in `a` CR LF `b`, character 2 falls between CR and LF. */
  lemma PastTheEndOvershoots()
    ensures var lf: Text := [97, LF, 98];
      && AreLineStarts([0, 2], lf)
      && Offset(lf, [0, 2], Position(0, 5)) == 2 && Intended(lf, [0, 2], Position(0, 5)) == 1
    ensures var crlf: Text := [97, CR, LF, 98];
      && AreLineStarts([0, 3], crlf)
      && Offset(crlf, [0, 3], Position(0, 2)) == 2 && Intended(crlf, [0, 3], Position(0, 2)) == 1
  {
    var lf: Text := [97, LF, 98];
    TwoLines(lf, 2);
    assert Line(lf, [0, 2], 0) == [97, LF] && [97, LF][..1] == [97];
    WalkAscii([97, LF], 5);
    WalkAscii([97], 5);
    var crlf: Text := [97, CR, LF, 98];
    TwoLines(crlf, 3);
    assert Line(crlf, [0, 3], 0) == [97, CR, LF] && [97, CR, LF][..1] == [97];
    WalkAscii([97, CR, LF], 2);
    WalkAscii([97], 2);
  }

  lemma TwoLines(content: Text, second: nat)
    requires 0 < second <= |content|
    requires forall k :: 0 <= k <= |content| ==> (StartsLine(content, k) <==> k == 0 || k == second)
    ensures AreLineStarts([0, second], content)
  {}

  lemma {:induction false} WalkAscii(line: Text, character: nat)
    requires forall i :: 0 <= i < |line| ==> line[i] < 0x80
    ensures Walk(line, character) == if character < |line| then character else |line|
    decreases |line|
  {
    if |line| > 0 && character > 0 {
      WalkAscii(line[1..], character - 1);
    }
  }

  // ---- Changes ---------------------------------------------------------------

  ghost function LineStarts(content: Text): (starts: seq<nat>)
    ensures AreLineStarts(starts, content)
  {
    LineStartsExist(content);
    var starts :| AreLineStarts(starts, content);
    starts
  }

  lemma {:induction false} StartsExistUpTo(content: Text, offset: nat)
    requires offset <= |content|
    ensures exists starts :: LineStartsUpTo(starts, content, offset)
  {
    if offset == 0 {
      assert LineStartsUpTo([0], content, 0);
    } else {
      StartsExistUpTo(content, offset - 1);
      var starts :| LineStartsUpTo(starts, content, offset - 1);
      if StartsLine(content, offset) {
        StartAdded(starts, content, offset - 1);
      } else {
        NoStartAdded(starts, content, offset - 1);
      }
    }
  }

  lemma LineStartsExist(content: Text)
    ensures exists starts :: AreLineStarts(starts, content)
  {
    StartsExistUpTo(content, |content|);
    var starts :| LineStartsUpTo(starts, content, |content|);
    AllStarts(starts, content);
  }

  /** The line starts are determined by the text. */
  lemma {:induction false} LineStartsAreUnique(a: seq<nat>, b: seq<nat>, content: Text)
    requires AreLineStarts(a, content) && AreLineStarts(b, content)
    ensures a == b
  {
    IncreasingSetsAgree(a, b);
  }

  ghost predicate Increasing(s: seq<nat>) {
    forall i, j :: 0 <= i < j < |s| ==> s[i] < s[j]
  }

  lemma SameEmptiness(a: seq<nat>, b: seq<nat>)
    requires forall k :: k in a ==> k in b
    ensures |a| > 0 ==> |b| > 0
  {
    if |a| > 0 {
      assert a[0] in a;
    }
  }

  lemma {:induction false} IncreasingSetsAgree(a: seq<nat>, b: seq<nat>)
    requires Increasing(a) && Increasing(b) && forall k :: k in a <==> k in b
    ensures a == b
    decreases |a|
  {
    SameEmptiness(a, b);
    SameEmptiness(b, a);
    if |a| > 0 {
      var x, y := a[|a| - 1], b[|b| - 1];
      assert x in a && y in b;
      assert x in b && y in a;
      assert x == y;
      var f, g := a[..|a| - 1], b[..|b| - 1];
      forall k ensures k in f <==> k in g {
        assert k in f <==> k in a && k != x;
        assert k in g <==> k in b && k != y;
      }
      IncreasingSetsAgree(f, g);
      assert a == f + [x] && b == g + [y];
    }
  }

  /** The text of one change: replaced as a whole, or one range spliced out. */
  ghost function ApplyOne(content: Text, change: Change): Option<Text> {
    if change.part.None? == change.whole.None? then None
    else if change.whole.Some? then change.whole
    else
      var part := change.part.value;
      var starts := LineStarts(content);
      var from, to := Offset(content, starts, part.start), Offset(content, starts, part.end);
      if from > to then None
      else
        Offsets(content, starts, part.start);
        Offsets(content, starts, part.end);
        Some(content[..from] + part.text + content[to..])
  }

  lemma Offsets(content: Text, starts: seq<nat>, p: Position)
    requires AreLineStarts(starts, content)
    ensures Offset(content, starts, p) <= |content|
  {
    OffsetIsMonotone(content, starts, p, p);
  }

  ghost function ApplyAll(content: Text, changes: seq<Change>): Option<Text> {
    if |changes| == 0 then Some(content)
    else
      var before := ApplyAll(content, changes[..|changes| - 1]);
      if before.None? then None else ApplyOne(before.value, changes[|changes| - 1])
  }

  // A rejected change rejects every list that goes on from it.
  lemma {:induction false} RejectedForGood(content: Text, changes: seq<Change>, n: nat)
    requires n <= |changes| && ApplyAll(content, changes[..n]).None?
    ensures ApplyAll(content, changes).None?
    decreases |changes|
  {
    if n < |changes| {
      assert changes[..|changes| - 1][..n] == changes[..n];
      RejectedForGood(content, changes[..|changes| - 1], n);
    } else {
      assert changes[..n] == changes;
    }
  }

  /** Either all changes in order, or the original text. */
  method ApplyDocumentChanges(content: Text, changes: seq<Change>) returns (updated: Text, ok: bool)
    ensures ok <==> ApplyAll(content, changes).Some?
    ensures updated == if ok then ApplyAll(content, changes).value else content
  {
    hide Offset, ApplyOne, AreLineStarts;
    updated := content;
    for i := 0 to |changes|
      invariant ApplyAll(content, changes[..i]) == Some(updated)
    {
      assert changes[..i + 1][..i] == changes[..i];
      var next := ApplyChange(updated, changes[i]);
      if next.None? {
        RejectedForGood(content, changes, i + 1);
        return content, false;
      }
      updated := next.value;
    }
    assert changes[..|changes|] == changes;
    ok := true;
  }

  method ApplyChange(content: Text, change: Change) returns (next: Option<Text>)
    ensures next == ApplyOne(content, change)
  {
    if change.part.None? == change.whole.None? {
      return None;
    }
    if change.whole.Some? {
      return change.whole;
    }
    var part := change.part.value;
    var starts := ComputeLSPLineStarts(content);
    LineStartsAreUnique(starts, LineStarts(content), content);
    hide AreLineStarts;
    var from := LspUTF16PositionToOffset(content, starts, part.start);
    var to := LspUTF16PositionToOffset(content, starts, part.end);
    Offsets(content, starts, part.start);
    Offsets(content, starts, part.end);
    hide Offset;
    if from > to {
      return None;
    }
    return Some(content[..from] + part.text + content[to..]);
  }

  // ---- What the changes promise ----------------------------------------------

  ghost predicate TextsAreValid(changes: seq<Change>) {
    forall i :: 0 <= i < |changes| ==>
      && (changes[i].part.Some? ==> ValidUtf8(changes[i].part.value.text))
      && (changes[i].whole.Some? ==> ValidUtf8(changes[i].whole.value))
  }

  lemma SpliceIsValid(content: Text, change: Change)
    requires ValidUtf8(content) && TextsAreValid([change]) && ApplyOne(content, change).Some?
    ensures ValidUtf8(ApplyOne(content, change).value)
  {
    hide ValidUtf8, CharWidth, Offset, AreLineStarts;
    assert [change][0] == change;
    if change.part.Some? {
      var part := change.part.value;
      var starts := LineStarts(content);
      OffsetIsBoundary(content, starts, part.start);
      OffsetIsBoundary(content, starts, part.end);
      var from, to := Offset(content, starts, part.start), Offset(content, starts, part.end);
      ValidConcat(part.text, content[to..]);
      ValidConcat(content[..from], part.text + content[to..]);
      assert content[..from] + part.text + content[to..] == content[..from] + (part.text + content[to..]);
    }
  }

  /** Changes of valid text by valid text give valid text. */
  lemma {:induction false} ChangesKeepUtf8(content: Text, changes: seq<Change>)
    requires ValidUtf8(content) && TextsAreValid(changes) && ApplyAll(content, changes).Some?
    ensures ValidUtf8(ApplyAll(content, changes).value)
    decreases |changes|
  {
    hide ValidUtf8, ApplyOne;
    if |changes| > 0 {
      ChangesKeepUtf8(content, changes[..|changes| - 1]);
      SpliceIsValid(ApplyAll(content, changes[..|changes| - 1]).value, changes[|changes| - 1]);
    }
  }

  ghost predicate WellFormed(change: Change) {
    && change.part.None? != change.whole.None?
    && (change.part.Some? ==> AtMost(change.part.value.start, change.part.value.end))
  }

  /** A list of ranges whose start is not after their end is never rejected,
      whatever the text. */
  lemma {:induction false} OrderedRangesAreAccepted(content: Text, changes: seq<Change>)
    requires forall i :: 0 <= i < |changes| ==> WellFormed(changes[i])
    ensures ApplyAll(content, changes).Some?
    decreases |changes|
  {
    hide Offset;
    if |changes| > 0 {
      OrderedRangesAreAccepted(content, changes[..|changes| - 1]);
      var before := ApplyAll(content, changes[..|changes| - 1]).value;
      var change := changes[|changes| - 1];
      assert WellFormed(change);
      if change.part.Some? {
        OffsetIsMonotone(before, LineStarts(before), change.part.value.start, change.part.value.end);
      }
    }
  }

  /** Every replacement of whole characters can be asked for: some range removes
      exactly `b` between `a` and `c`, and the same range the other way round is
      rejected unless it is empty. */
  lemma EveryEditCanBeMade(a: Text, b: Text, c: Text, text: Text)
    requires ValidUtf8(a) && ValidUtf8(b) && ValidUtf8(c)
    ensures exists p, q ::
      && ApplyOne(a + b + c, Change(Some(Partial(p, q, text)), None)) == Some(a + text + c)
      && (b != [] ==> ApplyOne(a + b + c, Change(Some(Partial(q, p, text)), None)) == None)
  {
    hide ValidUtf8, CharWidth, Offset, AreLineStarts;
    var content := a + b + c;
    ValidConcat(b, c);
    ValidConcat(a, b + c);
    ValidConcat(a, b);
    assert content == a + (b + c);
    assert content[..|a|] == a && content[|a|..] == b + c;
    assert content[..|a + b|] == a + b && content[|a + b|..] == c;
    var starts := LineStarts(content);
    EveryBoundaryHasAPosition(content, starts, |a|);
    EveryBoundaryHasAPosition(content, starts, |a + b|);
    var p :| Offset(content, starts, p) == |a|;
    var q :| Offset(content, starts, q) == |a + b|;
    assert ApplyOne(content, Change(Some(Partial(p, q, text)), None)) == Some(a + text + c);
  }
}
