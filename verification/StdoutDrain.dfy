/** Forwarding redirected stdout to the IPC peer: frames of whole characters
    that add up to the stream. */
module StdoutDrain {
  import opened Bytes
  import opened Utf8

  const MIN_FLUSH_BYTES: nat := 8 * 1024
  const READ_BYTES: nat := 4096

  // ---- Splitting at a character boundary -------------------------------------

  /** The width a first byte announces; 0 for a continuation byte and for one
      that announces nothing. */
  function AnnouncedWidth(b: Byte): nat {
    if b < 0x80 then 1
    else if b < 0xC0 then 0
    else if b < 0xE0 then 2
    else if b < 0xF0 then 3
    else if b < 0xF8 then 4
    else 0
  }

  /** `buf` ends inside the character announced at `i`. */
  ghost predicate EndsInside(buf: Text, i: int) {
    && 0 <= i < |buf| && |buf| - i <= 4
    && |buf| - i < AnnouncedWidth(buf[i])
    && (forall k :: i < k < |buf| ==> Tail(buf[k]))
  }

  /** Holds back exactly an announced and unfinished last character. */
  method SplitAtUTF8Boundary(buf: Text) returns (complete: Text, incomplete: Text)
    ensures complete + incomplete == buf
    ensures incomplete != [] <==> exists i :: EndsInside(buf, i)
    ensures incomplete != [] ==> EndsInside(buf, |complete|)
  {
    var maxLookback := if |buf| < 4 then |buf| else 4;
    var i := |buf| - 1;
    while i >= |buf| - maxLookback
      invariant |buf| - maxLookback - 1 <= i < |buf|
      invariant forall k :: i < k < |buf| ==> Tail(buf[k])
    {
      var b := buf[i];
      if 0x80 <= b < 0xC0 {
        i := i - 1;
        continue;
      }
      var width := AnnouncedWidth(b);
      assert forall k :: EndsInside(buf, k) ==> k == i;
      if width == 0 || |buf| - i >= width {
        return buf, [];
      }
      assert EndsInside(buf, i);
      return buf[..i], buf[i..];
    }
    return buf, [];
  }

  lemma CharIsAnnounced(s: Text)
    requires CharWidth(s) > 0
    ensures AnnouncedWidth(s[0]) == CharWidth(s)
    ensures forall i :: 1 <= i < CharWidth(s) ==> Tail(s[i])
  {}

  /** Cut a valid stream anywhere: what is held back is exactly the part of the
      unfinished character, so both sides of the split are whole characters. */
  lemma SplitOfValid(s: Text, n: nat, complete: Text, incomplete: Text)
    requires ValidUtf8(s) && n <= |s| && complete + incomplete == s[..n]
    requires incomplete != [] <==> exists i :: EndsInside(s[..n], i)
    requires incomplete != [] ==> EndsInside(s[..n], |complete|)
    ensures ValidUtf8(complete) && Boundary(s, |complete|) && |incomplete| <= 3
  {
    hide ValidUtf8, CharWidth, LastStart, AnnouncedWidth;
    var buf := s[..n];
    NothingIsValid();
    if n == 0 {
      assert complete == [] && s[0..] == s && s[..0] == [];
      return;
    }
    var k := LastStart(s, n);
    LastStartIsBoundary(s, n);
    var w := CharWidth(s[k..]);
    CharIsAnnounced(s[k..]);
    LastCharEnds(s, n, k);
    if n < k + w {
      assert |complete| == k;
      assert complete == s[..k];
    } else {
      NextBoundary(s, k);
      assert complete == s[..n];
    }
  }

  // The last character started is unfinished exactly when the bytes end inside it.
  lemma LastCharEnds(s: Text, n: nat, k: nat)
    requires k < n <= |s| && CharWidth(s[k..]) > 0 && n <= k + CharWidth(s[k..])
    ensures EndsInside(s[..n], k) <==> n < k + CharWidth(s[k..])
    ensures forall i :: EndsInside(s[..n], i) ==> i == k
  {
    CharIsAnnounced(s[k..]);
    hide CharWidth;
    var buf := s[..n];
    assert forall i :: k < i < n ==> buf[i] == s[k..][i - k];
    assert buf[k] == s[k..][0];
  }

  // ---- The drain -------------------------------------------------------------

  function Concat(chunks: seq<Text>): Text {
    if |chunks| == 0 then [] else Concat(chunks[..|chunks| - 1]) + chunks[|chunks| - 1]
  }

  lemma ConcatGrows(chunks: seq<Text>, chunk: Text)
    ensures Concat(chunks + [chunk]) == Concat(chunks) + chunk
  {
    assert (chunks + [chunk])[..|chunks|] == chunks;
  }

  /** Concatenation is determined by this. */
  lemma {:induction false} ConcatJoins(a: seq<Text>, b: seq<Text>)
    ensures Concat(a + b) == Concat(a) + Concat(b)
    ensures forall x: Text :: Concat([x]) == x
    decreases |b|
  {
    forall x: Text ensures Concat([x]) == x {
      assert [x][..0] == [];
    }
    if |b| > 0 {
      ConcatJoins(a, b[..|b| - 1]);
      assert (a + b)[..|a + b| - 1] == a + b[..|b| - 1];
    } else {
      assert a + b == a;
    }
  }

  lemma {:induction false} ConcatStarts(chunks: seq<Text>, n: nat)
    requires n <= |chunks|
    ensures Concat(chunks[..n]) <= Concat(chunks)
  {
    if n < |chunks| {
      ConcatStarts(chunks[..|chunks| - 1], n);
      assert chunks[..|chunks| - 1][..n] == chunks[..n];
    } else {
      assert chunks[..n] == chunks;
    }
  }

  ghost predicate AllValid(frames: seq<Text>) {
    forall i :: 0 <= i < |frames| ==> ValidUtf8(frames[i])
  }

  /** Between two reads: everything seen is sent, pending or held back, in order;
      after a failed send, what was sent is a beginning of it. */
  ghost predicate Accounted(seen: Text, frames: seq<Text>, pending: Text, leftover: Text, discard: bool) {
    if discard then Concat(frames) <= seen else Concat(frames) + pending + leftover == seen
  }

  /** In a valid stream the cuts fall between characters. */
  ghost predicate Clean(stream: Text, frames: seq<Text>, pending: Text, discard: bool) {
    ValidUtf8(stream) ==>
      && AllValid(frames)
      && (!discard ==>
            && ValidUtf8(pending) && |Concat(frames) + pending| <= |stream|
            && ValidUtf8(stream[|Concat(frames) + pending|..]))
  }

  ghost predicate Sized(frames: seq<Text>, last: bool) {
    && (forall i :: 0 <= i < |frames| ==> 0 < |frames[i]| < MIN_FLUSH_BYTES + READ_BYTES + 3)
    && (forall i :: 0 <= i < |frames| && (last ==> i < |frames| - 1) ==> |frames[i]| >= MIN_FLUSH_BYTES)
  }

  /** Sends what is pending; the first refusal turns forwarding off for good. */
  method Flush(frames: seq<Text>, pending: Text, discard: bool, accepted: bool)
    returns (sent: seq<Text>, discards: bool)
    ensures discards == (discard || (pending != [] && !accepted))
    ensures sent == if pending == [] || discards then frames else frames + [pending]
  {
    if pending == [] || discard {
      return frames, discard;
    }
    if !accepted {
      return frames, true;
    }
    return frames + [pending], false;
  }

  lemma FlushAccounts(seen: Text, frames: seq<Text>, pending: Text, leftover: Text, discard: bool, accepted: bool, sent: seq<Text>, discards: bool)
    requires Accounted(seen, frames, pending, leftover, discard)
    requires discards == (discard || (pending != [] && !accepted))
    requires sent == if pending == [] || discards then frames else frames + [pending]
    ensures Accounted(seen, sent, [], leftover, discards)
  {
    ConcatGrows(frames, pending);
    if !discard {
      assert Concat(frames) + (pending + leftover) == seen;
    }
  }

  lemma FlushIsClean(stream: Text, frames: seq<Text>, pending: Text, discard: bool, accepted: bool, sent: seq<Text>, discards: bool)
    requires Clean(stream, frames, pending, discard)
    requires discards == (discard || (pending != [] && !accepted))
    requires sent == if pending == [] || discards then frames else frames + [pending]
    ensures Clean(stream, sent, [], discards)
  {
    hide ValidUtf8, CharWidth;
    NothingIsValid();
    ConcatGrows(frames, pending);
    if ValidUtf8(stream) && !discards {
      assert Concat(sent) + [] == Concat(frames) + pending;
    }
  }

  /** A read appended to what was held back, and split again. */
  lemma SplitAccounts(seen: Text, frames: seq<Text>, pending: Text, leftover: Text, discard: bool, bytes: Text, good: Text, tail: Text)
    requires Accounted(seen, frames, pending, leftover, discard) && good + tail == leftover + bytes
    ensures Accounted(seen + bytes, frames, pending + good, tail, discard)
  {
    if !discard {
      var sent := Concat(frames);
      assert sent + (pending + good) + tail == sent + pending + (good + tail) == sent + pending + leftover + bytes;
    }
  }

  lemma SplitIsClean(stream: Text, seen: Text, frames: seq<Text>, pending: Text, leftover: Text, discard: bool, bytes: Text, good: Text, tail: Text)
    requires Accounted(seen, frames, pending, leftover, discard) && Clean(stream, frames, pending, discard)
    requires seen + bytes <= stream && good + tail == leftover + bytes
    requires tail != [] <==> exists i :: EndsInside(leftover + bytes, i)
    requires tail != [] ==> EndsInside(leftover + bytes, |good|)
    ensures Clean(stream, frames, pending + good, discard)
  {
    hide ValidUtf8, CharWidth, EndsInside;
    if ValidUtf8(stream) && !discard {
      var at := Concat(frames) + pending;
      var rest := stream[|at|..];
      assert seen == at + leftover;
      var n := |leftover + bytes|;
      assert rest[..n] == leftover + bytes by {
        assert stream[..|seen + bytes|] == seen + bytes == at + (leftover + bytes);
      }
      SplitOfValid(rest, n, good, tail);
      ValidConcat(pending, good);
      assert Concat(frames) + (pending + good) == at + good;
      assert stream[|at + good|..] == rest[|good|..];
    }
  }

  /** At the end of the stream nothing is held back. */
  lemma RestIsClean(stream: Text, seen: Text, frames: seq<Text>, pending: Text, leftover: Text, discard: bool, bytes: Text)
    requires Accounted(seen, frames, pending, leftover, discard) && Clean(stream, frames, pending, discard)
    requires seen + bytes == stream
    ensures Clean(stream, frames, pending + (leftover + bytes), discard)
  {
    hide ValidUtf8, CharWidth;
    if ValidUtf8(stream) && !discard {
      var at := Concat(frames) + pending;
      var rest := stream[|at|..];
      assert stream == at + (leftover + bytes);
      assert rest == leftover + bytes;
      ValidConcat(pending, rest);
      NothingIsValid();
      assert Concat(frames) + (pending + (leftover + bytes)) == stream;
      assert stream[|stream|..] == [];
    }
  }

  /** However the stream is cut into reads, the frames sent add up to it, or to a
      beginning of it once a send failed; if the stream is valid UTF-8 so is every
      frame. Only the last frame may be short. */
  method DrainStdout(input: seq<Text>, finalRead: Text, accepts: nat -> bool)
    returns (frames: seq<Text>, discard: bool)
    requires forall i :: 0 <= i < |input| ==> |input[i]| <= READ_BYTES
    requires |finalRead| <= READ_BYTES
    ensures if discard then Concat(frames) <= Concat(input) + finalRead else Concat(frames) == Concat(input) + finalRead
    ensures ValidUtf8(Concat(input) + finalRead) ==> AllValid(frames)
    ensures Sized(frames, true)
    ensures (forall k :: 0 <= k < |frames| ==> accepts(k)) && (discard ==> !accepts(|frames|))
  {
    hide ValidUtf8, CharWidth, EndsInside, Accounted, Clean, Attempted, Sized;
    ghost var stream := Concat(input) + finalRead;
    var pending, leftover := [], [];
    frames, discard := [], false;
    var attempts := 0;
    StartIsClean(stream);
    StartAttempts(accepts);
    assert Sized(frames, false) by { NothingSized(); }
    for i := 0 to |input|
      invariant Accounted(Concat(input[..i]), frames, pending, leftover, discard)
      invariant Clean(stream, frames, pending, discard)
      invariant Sized(frames, false) && |pending| < MIN_FLUSH_BYTES && |leftover| <= 3
      invariant Attempted(|frames|, discard, attempts, accepts)
    {
      var combined := leftover + input[i];
      assert input[..i + 1] == input[..i] + [input[i]];
      ConcatGrows(input[..i], input[i]);
      ConcatStarts(input, i + 1);
      var good, tail := SplitAtUTF8Boundary(combined);
      SplitIsClean(stream, Concat(input[..i]), frames, pending, leftover, discard, input[i], good, tail);
      SplitAccounts(Concat(input[..i]), frames, pending, leftover, discard, input[i], good, tail);
      ShortTail(combined, good, tail);
      leftover := tail;
      ghost var ready := pending + good;
      pending := pending + good;
      if |pending| >= MIN_FLUSH_BYTES {
        ghost var sofar, was := frames, discard;
        frames, discard := Flush(frames, pending, discard, accepts(attempts));
        FlushAccounts(Concat(input[..i + 1]), sofar, ready, leftover, was, accepts(attempts), frames, discard);
        FlushIsClean(stream, sofar, ready, was, accepts(attempts), frames, discard);
        FlushAttempts(|sofar|, was, attempts, accepts);
        FlushSizes(sofar, ready, frames, discard);
        attempts := attempts + 1;
        pending := [];
      }
    }
    assert input[..|input|] == input;
    RestIsClean(stream, Concat(input), frames, pending, leftover, discard, finalRead);
    SplitAccounts(Concat(input), frames, pending, leftover, discard, finalRead, leftover + finalRead, []);
    ghost var ready := pending + (leftover + finalRead);
    pending := pending + (leftover + finalRead);
    ghost var sofar, was := frames, discard;
    frames, discard := Flush(frames, pending, discard, accepts(attempts));
    FlushAccounts(stream, sofar, ready, [], was, accepts(attempts), frames, discard);
    FlushIsClean(stream, sofar, ready, was, accepts(attempts), frames, discard);
    FlushAttempts(|sofar|, was, attempts, accepts);
    AttemptsTell(|frames|, discard, attempts + (if ready == [] then 0 else 1), accepts);
    FlushSizes(sofar, ready, frames, discard);
    Settled(stream, frames, discard);
  }

  lemma NothingSized()
    ensures Sized([], false)
  {}

  lemma FlushSizes(frames: seq<Text>, ready: Text, sent: seq<Text>, discards: bool)
    requires Sized(frames, false) && |ready| < MIN_FLUSH_BYTES + READ_BYTES + 3
    requires sent == if ready == [] || discards then frames else frames + [ready]
    ensures Sized(sent, true) && (|ready| >= MIN_FLUSH_BYTES ==> Sized(sent, false))
  {}

  /** Every frame was accepted at its turn, and forwarding stopped at the first refusal. */
  ghost predicate Attempted(sent: nat, discard: bool, attempts: nat, accepts: nat -> bool) {
    (forall k :: 0 <= k < sent ==> accepts(k)) && (if discard then !accepts(sent) else attempts == sent)
  }

  lemma StartAttempts(accepts: nat -> bool)
    ensures Attempted(0, false, 0, accepts)
  {}

  lemma FlushAttempts(sent: nat, discard: bool, attempts: nat, accepts: nat -> bool)
    requires Attempted(sent, discard, attempts, accepts)
    ensures if discard then Attempted(sent, true, attempts + 1, accepts)
      else if accepts(attempts) then Attempted(sent + 1, false, attempts + 1, accepts)
      else Attempted(sent, true, attempts + 1, accepts)
  {}

  lemma AttemptsTell(sent: nat, discard: bool, attempts: nat, accepts: nat -> bool)
    requires Attempted(sent, discard, attempts, accepts)
    ensures (forall k :: 0 <= k < sent ==> accepts(k)) && (discard ==> !accepts(sent))
  {}

  lemma StartIsClean(stream: Text)
    ensures Accounted([], [], [], [], false) && Clean(stream, [], [], false)
  {
    assert stream[0..] == stream;
  }

  lemma ShortTail(buf: Text, good: Text, tail: Text)
    requires good + tail == buf && (tail != [] ==> EndsInside(buf, |good|))
    ensures |tail| <= 3
  {}

  lemma Settled(stream: Text, frames: seq<Text>, discard: bool)
    requires Accounted(stream, frames, [], [], discard) && Clean(stream, frames, [], discard)
    ensures if discard then Concat(frames) <= stream else Concat(frames) == stream
    ensures ValidUtf8(stream) ==> AllValid(frames)
  {
    assert Concat(frames) + [] + [] == Concat(frames);
  }
}
