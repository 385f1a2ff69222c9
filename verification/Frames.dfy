/** The wire format: a 32-bit little-endian length and that many bytes; reading
    frames back, and observing how far into a frame a byte stream has got. */
module Frames {
  import opened Bytes

  const MAX_FRAME_SIZE: nat := 256 * 1024 * 1024

  function Header(length: nat): (h: Text)
    requires length < 0x1_0000_0000
    ensures |h| == 4
  {
    var a := length / 256;
    var b := a / 256;
    [length % 256, a % 256, b % 256, b / 256 % 256]
  }

  function HeaderLength(h: Text): (n: nat)
    requires |h| == 4
    ensures n < 0x1_0000_0000
  {
    (h[0] as int) + 256 * (h[1] as int) + 65536 * (h[2] as int) + 16777216 * (h[3] as int)
  }

  lemma HeaderRoundTrip(length: nat)
    requires length < 0x1_0000_0000
    ensures HeaderLength(Header(length)) == length
  {
    var a := length / 256;
    var b := a / 256;
    assert length == 256 * a + length % 256 && a == 256 * b + a % 256 && b == 256 * (b / 256) + b % 256;
  }

  /** The header spells the length in four bytes, the lowest first. */
  lemma HeaderIsLittleEndian(length: nat)
    requires length < 0x1_0000_0000
    ensures var h := Header(length);
      length == (h[0] as int) + 256 * (h[1] as int) + 65536 * (h[2] as int) + 16777216 * (h[3] as int)
  {
    HeaderRoundTrip(length);
  }

  /** A frame announcing more than 268435456 bytes is refused before its body is
      read, and so is a body of more when it is written. */
  lemma FramesAreCapped(stream: Text, body: Text)
    ensures |stream| >= 4
      && (stream[0] as int) + 256 * (stream[1] as int) + 65536 * (stream[2] as int) + 16777216 * (stream[3] as int) > 268435456
      ==> ReadFrame(stream) == Broken
    ensures Writable(body) <==> |body| <= 268435456
  {
    if |stream| >= 4 {
      assert stream[..4][0] == stream[0] && stream[..4][1] == stream[1] && stream[..4][2] == stream[2] && stream[..4][3] == stream[3];
    }
  }

  // Any body whose length fits the header.
  predicate Sized(body: Text) { |body| < 0x1_0000_0000 }

  predicate Writable(body: Text) { |body| <= MAX_FRAME_SIZE }

  function Encode(body: Text): (r: Text)
    requires Sized(body)
    ensures |r| == 4 + |body|
  {
    Header(|body|) + body
  }

  ghost predicate AllSized(bodies: seq<Text>) {
    forall i :: 0 <= i < |bodies| ==> Sized(bodies[i])
  }

  ghost predicate AllWritable(bodies: seq<Text>) {
    AllSized(bodies) && forall i :: 0 <= i < |bodies| ==> Writable(bodies[i])
  }

  function EncodeAll(bodies: seq<Text>): Text
    requires AllSized(bodies)
  {
    if |bodies| == 0 then [] else Encode(bodies[0]) + EncodeAll(bodies[1..])
  }

  datatype Read = Frame(body: Text, rest: Text) | CleanEnd | Broken

  /** Reads one frame. Only a stream that ends between frames ends cleanly. */
  function ReadFrame(stream: Text): Read {
    if |stream| == 0 then CleanEnd
    else if |stream| < 4 then Broken
    else
      var length := HeaderLength(stream[..4]);
      if length > MAX_FRAME_SIZE || |stream| < 4 + length then Broken
      else Frame(stream[4..4 + length], stream[4 + length..])
  }

  lemma ReadWhatWasWritten(body: Text, rest: Text)
    requires Writable(body)
    ensures ReadFrame(Encode(body) + rest) == Frame(body, rest)
  {
    var stream := Encode(body) + rest;
    assert stream[..4] == Header(|body|);
    HeaderRoundTrip(|body|);
    assert stream[4..4 + |body|] == body && stream[4 + |body|..] == rest;
  }

  /** Reads frames until the stream ends or breaks. */
  method ReadAll(stream: Text) returns (bodies: seq<Text>, clean: bool)
    ensures AllWritable(bodies)
    ensures clean <==> exists all :: AllWritable(all) && stream == EncodeAll(all)
    ensures clean ==> stream == EncodeAll(bodies)
    ensures EncodeAll(bodies) <= stream && !ReadFrame(stream[|EncodeAll(bodies)|..]).Frame?
  {
    assert EncodeAll([]) == [];
    hide Header, HeaderLength, Encode, Writable, ReadFrame, EncodeAll;
    bodies := [];
    var rest := stream;
    while true
      invariant AllWritable(bodies)
      invariant stream == EncodeAll(bodies) + rest
      decreases |rest|
    {
      var read := ReadFrame(rest);
      match read
      case Frame(body, next) =>
        FrameIsEncoded(rest);
        EncodeOneMore(bodies, body);
        bodies, rest := bodies + [body], next;
      case CleanEnd =>
        CleanEndIsEmpty(rest);
        assert stream == EncodeAll(bodies) && stream[|EncodeAll(bodies)|..] == rest;
        return bodies, true;
      case Broken =>
        forall all | AllWritable(all) ensures stream != EncodeAll(all) {
          BrokenIsNoEncoding(bodies, rest, all);
        }
        assert stream[|EncodeAll(bodies)|..] == rest;
        return bodies, false;
    }
  }

  lemma CleanEndIsEmpty(stream: Text)
    requires ReadFrame(stream).CleanEnd?
    ensures stream == []
  {}

  lemma FrameIsEncoded(stream: Text)
    requires ReadFrame(stream).Frame?
    ensures Writable(ReadFrame(stream).body)
    ensures stream == Encode(ReadFrame(stream).body) + ReadFrame(stream).rest
    ensures |ReadFrame(stream).rest| < |stream|
  {
    HeaderIsUnique(stream[..4]);
  }

  // Four bytes are the header of the length they spell.
  lemma HeaderIsUnique(h: Text)
    requires |h| == 4
    ensures Header(HeaderLength(h)) == h
  {
    var n := HeaderLength(h);
    var a: int, b: int, c: int, e: int := h[0], h[1], h[2], h[3];
    Digit(a, b + 256 * c + 65536 * e);
    Digit(b, c + 256 * e);
    Digit(c, e);
    assert e % 256 == e;
  }

  lemma Digit(low: int, high: int)
    requires 0 <= low < 256
    ensures (low + 256 * high) % 256 == low && (low + 256 * high) / 256 == high
  {
  }

  lemma {:induction false} EncodeOneMore(bodies: seq<Text>, body: Text)
    requires Sized(body) && AllSized(bodies)
    ensures EncodeAll(bodies + [body]) == EncodeAll(bodies) + Encode(body)
  {
    if |bodies| == 0 {
      assert bodies + [body] == [body];
      assert [body][1..] == [];
    } else {
      assert (bodies + [body])[1..] == bodies[1..] + [body];
      EncodeOneMore(bodies[1..], body);
    }
  }

  // Where reading breaks, no sequence of frames fits.
  lemma {:induction false} BrokenIsNoEncoding(bodies: seq<Text>, rest: Text, all: seq<Text>)
    requires ReadFrame(rest).Broken?
    requires AllWritable(bodies)
    requires AllWritable(all)
    ensures EncodeAll(bodies) + rest != EncodeAll(all)
    decreases |bodies|
  {
    if |all| > 0 {
      ReadWhatWasWritten(all[0], EncodeAll(all[1..]));
      if |bodies| > 0 {
        ReadWhatWasWritten(bodies[0], EncodeAll(bodies[1..]) + rest);
        assert EncodeAll(bodies) + rest == Encode(bodies[0]) + (EncodeAll(bodies[1..]) + rest);
        BrokenIsNoEncoding(bodies[1..], rest, all[1..]);
      } else {
        assert EncodeAll(bodies) + rest == rest;
      }
    }
  }

  /** Reading back what was written gives the same bodies, and nothing else does. */
  lemma {:induction false} EncodingIsInjective(a: seq<Text>, b: seq<Text>)
    requires AllWritable(a)
    requires AllWritable(b)
    requires EncodeAll(a) == EncodeAll(b)
    ensures a == b
  {
    if |a| > 0 && |b| > 0 {
      ReadWhatWasWritten(a[0], EncodeAll(a[1..]));
      ReadWhatWasWritten(b[0], EncodeAll(b[1..]));
      EncodingIsInjective(a[1..], b[1..]);
    }
  }

  method RoundTrip(written: seq<Text>) returns (read: seq<Text>, clean: bool)
    requires AllWritable(written)
    ensures read == written && clean
  {
    read, clean := ReadAll(EncodeAll(written));
    EncodingIsInjective(read, written);
  }

  // ---- Observing a stream ----------------------------------------------------

  /** How far into a frame a stream has got. */
  datatype Position = InHeader(bytes: Text) | InBody(remaining: nat)

  predicate ValidPosition(p: Position) {
    match p
    case InHeader(bytes) => |bytes| < 4
    case InBody(remaining) => 0 < remaining < 0x1_0000_0000
  }

  function Advance(p: Position, b: Byte): (r: Position)
    requires ValidPosition(p)
    ensures ValidPosition(r)
  {
    match p
    case InHeader(bytes) =>
      if |bytes| < 3 then InHeader(bytes + [b])
      else
        var length := HeaderLength(bytes + [b]);
        if length == 0 then InHeader([]) else InBody(length)
    case InBody(remaining) => if remaining == 1 then InHeader([]) else InBody(remaining - 1)
  }

  /** The position after a stream, byte by byte. */
  function Scan(p: Position, stream: Text): (r: Position)
    requires ValidPosition(p)
    ensures ValidPosition(r)
    decreases |stream|
  {
    if |stream| == 0 then p else Scan(Advance(p, stream[0]), stream[1..])
  }

  /** The position depends on the bytes and not on how they were chunked. */
  lemma {:induction false} ScanIgnoresChunks(p: Position, a: Text, b: Text)
    requires ValidPosition(p)
    ensures Scan(p, a + b) == Scan(Scan(p, a), b)
    decreases |a|
  {
    if |a| == 0 {
      assert a + b == b;
    } else {
      assert (a + b)[1..] == a[1..] + b;
      ScanIgnoresChunks(Advance(p, a[0]), a[1..], b);
    }
  }

  lemma {:induction false} ScanBody(remaining: nat, stream: Text)
    requires 0 < remaining < 0x1_0000_0000 && |stream| <= remaining
    ensures Scan(InBody(remaining), stream) == if |stream| == remaining then InHeader([]) else InBody(remaining - |stream|)
  {
    if |stream| > 0 {
      if remaining > 1 {
        ScanBody(remaining - 1, stream[1..]);
      }
    }
  }

  lemma {:induction false} ScanHeader(bytes: Text, stream: Text)
    requires |bytes| + |stream| < 4
    ensures Scan(InHeader(bytes), stream) == InHeader(bytes + stream)
    decreases |stream|
  {
    if |stream| == 0 {
      assert bytes + stream == bytes;
    } else {
      ScanHeader(bytes + [stream[0]], stream[1..]);
      assert bytes + [stream[0]] + stream[1..] == bytes + stream;
    }
  }

  // Four header bytes fix what follows.
  lemma ScanWholeHeader(bytes: Text, stream: Text)
    requires |bytes| < 4 && |bytes| + |stream| == 4
    ensures Scan(InHeader(bytes), stream) ==
      var length := HeaderLength(bytes + stream); if length == 0 then InHeader([]) else InBody(length)
  {
    var n := |stream| - 1;
    assert stream == stream[..n] + [stream[n]];
    ScanIgnoresChunks(InHeader(bytes), stream[..n], [stream[n]]);
    ScanHeader(bytes, stream[..n]);
    assert bytes + stream[..n] + [stream[n]] == bytes + stream;
    assert [stream[n]][1..] == [];
  }

  lemma ScanFrame(body: Text, rest: Text)
    requires Sized(body)
    ensures Scan(InHeader([]), Encode(body) + rest) == Scan(InHeader([]), rest)
  {
    var header := Header(|body|);
    HeaderRoundTrip(|body|);
    ScanWholeHeader([], header);
    assert [] + header == header;
    assert Encode(body) + rest == header + (body + rest);
    ScanIgnoresChunks(InHeader([]), header, body + rest);
    if |body| > 0 {
      ScanIgnoresChunks(InBody(|body|), body, rest);
      ScanBody(|body|, body);
    } else {
      assert body + rest == rest;
    }
  }

  ghost predicate WholeFrames(stream: Text) {
    exists bodies :: AllSized(bodies) && stream == EncodeAll(bodies)
  }

  /** The observer is between frames exactly when the bytes seen are a whole number of frames. */
  lemma {:induction false} BoundaryMeansWholeFrames(stream: Text)
    ensures Scan(InHeader([]), stream) == InHeader([]) <==>
      WholeFrames(stream)
    decreases |stream|
  {
    if |stream| == 0 {
      assert stream == EncodeAll([]);
    } else if |stream| < 4 {
      ScanHeader([], stream);
      assert [] + stream == stream;
    } else {
      var length := HeaderLength(stream[..4]);
      HeaderIsUnique(stream[..4]);
      if |stream| < 4 + length {
        ShortBody(stream, length);
      } else {
        var body, rest := stream[4..4 + length], stream[4 + length..];
        assert stream == Encode(body) + rest;
        ScanFrame(body, rest);
        BoundaryMeansWholeFrames(rest);
        WholeFramesStep(body, rest);
      }
    }
  }

  lemma ShortBody(stream: Text, length: nat)
    requires 4 <= |stream| < 4 + length && length == HeaderLength(stream[..4])
    ensures Scan(InHeader([]), stream) != InHeader([])
    ensures !WholeFrames(stream)
  {
    assert stream == stream[..4] + stream[4..];
    ScanWholeHeader([], stream[..4]);
    assert [] + stream[..4] == stream[..4];
    ScanIgnoresChunks(InHeader([]), stream[..4], stream[4..]);
    ScanBody(length, stream[4..]);
    forall bodies | AllSized(bodies) ensures stream != EncodeAll(bodies) {
      if |bodies| > 0 {
        HeaderRoundTrip(|bodies[0]|);
        assert EncodeAll(bodies)[..4] == Header(|bodies[0]|);
      }
    }
  }

  lemma WholeFramesStep(body: Text, rest: Text)
    requires Sized(body)
    ensures WholeFrames(Encode(body) + rest) <==> WholeFrames(rest)
  {
    if WholeFrames(rest) {
      var bodies :| AllSized(bodies) && rest == EncodeAll(bodies);
      assert ([body] + bodies)[1..] == bodies;
      assert EncodeAll([body] + bodies) == Encode(body) + rest;
    }
    if WholeFrames(Encode(body) + rest) {
      var bodies :| AllSized(bodies) && Encode(body) + rest == EncodeAll(bodies);
      FirstFrame(body, rest, bodies[0], EncodeAll(bodies[1..]));
    }
  }

  // A stream starts with at most one frame.
  lemma FirstFrame(body: Text, rest: Text, body': Text, rest': Text)
    requires Sized(body) && Sized(body') && Encode(body) + rest == Encode(body') + rest'
    ensures body == body' && rest == rest'
  {
    HeaderRoundTrip(|body|);
    HeaderRoundTrip(|body'|);
    var stream := Encode(body) + rest;
    assert stream[..4] == Header(|body|) && stream[..4] == Header(|body'|);
    assert body == stream[4..4 + |body|] && rest == stream[4 + |body|..];
    assert body' == stream[4..4 + |body|] && rest' == stream[4 + |body|..];
  }

  datatype ReadError = EndOfStream | UnexpectedEnd | Failed

  /** Watches the bytes another reader delivers and remembers how the stream ended. */
  class Observer {
    var header: array<Byte>
    var headerLen: nat
    var remaining: nat
    var inBody: bool
    var error: seq<ReadError>

    ghost predicate Valid()
      reads this, header
    {
      && header.Length == 4 && headerLen < 4
      && (inBody ==> headerLen == 0 && 0 < remaining < 0x1_0000_0000)
    }

    ghost function Position(): (p: Position)
      requires Valid()
      reads this, header
      ensures ValidPosition(p)
    {
      if inBody then InBody(remaining) else InHeader(header[..headerLen])
    }

    constructor ()
      ensures Valid() && Position() == InHeader([]) && error == [] && fresh(header)
    {
      header := new Byte[4](_ => 0);
      headerLen, remaining, inBody, error := 0, 0, false, [];
    }

    /** Fills the header with as many bytes as it still takes. */
    method ObserveHeader(data: Text) returns (used: nat)
      requires Valid() && !inBody && |data| > 0
      modifies this, header
      ensures Valid() && header == old(header) && error == old(error)
      ensures 0 < used <= |data|
      ensures Position() == Scan(old(Position()), data[..used])
    {
      ghost var before := header[..headerLen];
      used := if 4 - headerLen < |data| then 4 - headerLen else |data|;
      var start := headerLen;
      for i := 0 to used
        invariant header.Length == 4 && start + used <= 4
        invariant header[..start] == before
        invariant header[start..start + i] == data[..i]
        invariant header == old(header) && headerLen == start && inBody == old(inBody) && error == old(error)
      {
        header[start + i] := data[i];
        assert header[start..start + i + 1] == header[start..start + i] + [data[i]];
      }
      headerLen := start + used;
      assert header[..headerLen] == before + data[..used];
      if headerLen < 4 {
        ScanHeader(before, data[..used]);
        return;
      }
      ScanWholeHeader(before, data[..used]);
      assert header[..4] == header[..];
      remaining := HeaderLength(header[..]);
      headerLen := 0;
      inBody := remaining != 0;
      assert header[..0] == [];
    }

    /** Takes in one chunk, whatever its size. */
    method Observe(chunk: Text)
      requires Valid()
      modifies this, header
      ensures Valid() && header == old(header) && error == old(error)
      ensures Position() == Scan(old(Position()), chunk)
    {
      var data := chunk;
      ghost var seen: Text := [];
      while |data| > 0
        invariant Valid() && header == old(header) && error == old(error)
        invariant chunk == seen + data
        invariant Position() == Scan(old(Position()), seen)
        decreases |data|
      {
        if !inBody {
          var used := ObserveHeader(data);
          ScanIgnoresChunks(old(Position()), seen, data[..used]);
          seen, data := seen + data[..used], data[used..];
        } else {
          var n := if |data| > remaining then remaining else |data|;
          ScanIgnoresChunks(old(Position()), seen, data[..n]);
          ScanBody(remaining, data[..n]);
          remaining := remaining - n;
          seen, data := seen + data[..n], data[n..];
          if remaining == 0 {
            inBody := false;
            assert header[..0] == [];
          }
        }
      }
      assert seen == chunk;
    }

    /** One read: the bytes are observed, and an end inside a frame is remembered as unexpected. */
    method Read(bytes: Text, end: seq<ReadError>)
      requires Valid() && |end| <= 1
      modifies this, header
      ensures Valid() && header == old(header)
      ensures Position() == Scan(old(Position()), bytes)
      ensures error == if |end| == 0 then old(error)
                       else if end[0] == EndOfStream && Position() != InHeader([]) then [UnexpectedEnd]
                       else end
    {
      Observe(bytes);
      if |end| > 0 {
        if end[0] == EndOfStream && (headerLen != 0 || inBody) {
          error := [UnexpectedEnd];
        } else {
          assert header[..0] == [];
          error := end;
        }
      }
    }
  }
}
