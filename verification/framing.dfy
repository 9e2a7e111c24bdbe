// Frames over a byte stream cut at arbitrary points: the read loops of the
// server (server/network/network.cpp) and of the client (testclient/network.cpp)
// over the reassembly buffer. Both take at most one frame per arriving chunk.

module Framing {
  import opened Bytes
  import opened Errors
  import opened PackageBuffer

  type Frame = seq<Byte>

  function Concat(parts: seq<seq<Byte>>): seq<Byte> {
    if parts == [] then [] else Concat(parts[..|parts| - 1]) + parts[|parts| - 1]
  }

  /** A string that announces its own size, so that it can travel on the stream. */
  predicate IsFrame(f: Frame) {
    |f| >= PREFIX && FromBigEndian(f[..PREFIX]) == |f|
  }

  predicate AllFrames(fs: seq<Frame>) {
    forall i :: 0 <= i < |fs| ==> IsFrame(fs[i])
  }

  // ------------------------------------------------------------------------
  // The complete frames of a byte string
  // ------------------------------------------------------------------------

  datatype Parsed = Parsed(frames: seq<Frame>, rest: seq<Byte>)

  /** All complete frames at the front of `bytes`; an announced size of 0 ends them. */
  function Parse(bytes: seq<Byte>): (p: Parsed)
    ensures p.frames == [] ==> p.rest == bytes
    decreases |bytes|
  {
    var (f, rest) := ReadFrom(bytes);
    if f.Ok? then
      var p := Parse(rest);
      Parsed([f.value] + p.frames, p.rest)
    else Parsed([], bytes)
  }

  lemma Assoc(a: seq<Byte>, b: seq<Byte>, c: seq<Byte>)
    ensures (a + b) + c == a + (b + c)
  {
  }

  lemma AssocFrames(a: seq<Frame>, b: seq<Frame>, c: seq<Frame>)
    ensures (a + b) + c == a + (b + c)
  {
  }

  lemma {:induction false} ConcatPrepend(f: Frame, fs: seq<Frame>)
    ensures Concat([f] + fs) == f + Concat(fs)
  {
    if fs == [] {
      assert Concat([f]) == Concat([]) + f;
    } else {
      var all := [f] + fs;
      assert all[..|all| - 1] == [f] + fs[..|fs| - 1];
      ConcatPrepend(f, fs[..|fs| - 1]);
      Assoc(f, Concat(fs[..|fs| - 1]), fs[|fs| - 1]);
    }
  }

  lemma {:induction false} ConcatAppend(fs: seq<Frame>, gs: seq<Frame>)
    ensures Concat(fs + gs) == Concat(fs) + Concat(gs)
  {
    if gs == [] {
      assert fs + gs == fs;
    } else {
      var all := fs + gs;
      assert all[..|all| - 1] == fs + gs[..|gs| - 1];
      ConcatAppend(fs, gs[..|gs| - 1]);
      Assoc(Concat(fs), Concat(gs[..|gs| - 1]), gs[|gs| - 1]);
    }
  }

  /** Reading is not disturbed by bytes that arrive later. */
  lemma ReadExtend(a: seq<Byte>, b: seq<Byte>)
    requires ReadFrom(a).0.Ok?
    ensures ReadFrom(a + b) == (ReadFrom(a).0, ReadFrom(a).1 + b)
  {
    assert (a + b)[..PREFIX] == a[..PREFIX];
    var n := FirstLength(a);
    assert (a + b)[..n] == a[..n] && (a + b)[n..] == a[n..] + b;
  }

  lemma {:induction false} ParseExtend(a: seq<Byte>, b: seq<Byte>)
    ensures Parse(a + b).frames == Parse(a).frames + Parse(Parse(a).rest + b).frames
    ensures Parse(a + b).rest == Parse(Parse(a).rest + b).rest
    decreases |a|
  {
    if ReadFrom(a).0.Ok? {
      var rest := ReadFrom(a).1;
      ReadExtend(a, b);
      ParseExtend(rest, b);
      AssocFrames([ReadFrom(a).0.value], Parse(rest).frames, Parse(Parse(rest).rest + b).frames);
    }
  }

  lemma ReadConserves(bytes: seq<Byte>)
    requires ReadFrom(bytes).0.Ok?
    ensures ReadFrom(bytes).0.value + ReadFrom(bytes).1 == bytes
  {
  }

  lemma {:induction false} ParseConserves(bytes: seq<Byte>)
    ensures Concat(Parse(bytes).frames) + Parse(bytes).rest == bytes
    decreases |bytes|
  {
    var (f, rest) := ReadFrom(bytes);
    if f.Ok? {
      ParseConserves(rest);
      ConcatPrepend(f.value, Parse(rest).frames);
      Assoc(f.value, Concat(Parse(rest).frames), Parse(rest).rest);
      ReadConserves(bytes);
    }
  }

  lemma ReadFrame(f: Frame, tail: seq<Byte>)
    requires IsFrame(f)
    ensures ReadFrom(f + tail) == (Ok(f), tail)
  {
    assert (f + tail)[..PREFIX] == f[..PREFIX];
    assert (f + tail)[..|f|] == f && (f + tail)[|f|..] == tail;
  }

  lemma ParseFront(f: Frame, tail: seq<Byte>)
    requires IsFrame(f)
    ensures Parse(f + tail) == Parsed([f] + Parse(tail).frames, Parse(tail).rest)
  {
    ReadFrame(f, tail);
  }

  /** Frames put on the wire one after the other are recovered in order. */
  lemma {:induction false} ParseFrames(fs: seq<Frame>, tail: seq<Byte>)
    requires AllFrames(fs)
    ensures Parse(Concat(fs) + tail) == Parsed(fs + Parse(tail).frames, Parse(tail).rest)
    decreases |fs|
  {
    if fs == [] {
      assert Concat(fs) + tail == tail;
    } else {
      var f, more := fs[0], fs[1..];
      assert fs == [f] + more;
      ConcatPrepend(f, more);
      Assoc(f, Concat(more), tail);
      ParseFront(f, Concat(more) + tail);
      ParseFrames(more, tail);
      AssocFrames([f], more, Parse(tail).frames);
    }
  }

  // ------------------------------------------------------------------------
  // The read loop
  // ------------------------------------------------------------------------

  /** `failed`: the loop was left by the exception of an announced size of 0. */
  datatype Receiver = Receiver(buffer: seq<Byte>, delivered: seq<Frame>, failed: bool)

  const START := Receiver([], [], false)

  /** One turn: write the chunk, then take one frame if one is complete. */
  function Feed(r: Receiver, chunk: seq<Byte>): Receiver {
    if r.failed then r
    else
      var bytes := r.buffer + chunk;
      if !Readable(bytes) then Receiver(bytes, r.delivered, false)
      else
        var (f, rest) := ReadFrom(bytes);
        if f.Ok? then Receiver(rest, r.delivered + [f.value], false) else Receiver(rest, r.delivered, true)
  }

  function FeedAll(chunks: seq<seq<Byte>>): Receiver {
    if chunks == [] then START else Feed(FeedAll(chunks[..|chunks| - 1]), chunks[|chunks| - 1])
  }

  lemma FeedConserves(r: Receiver, chunk: seq<Byte>)
    requires !Feed(r, chunk).failed
    ensures var r' := Feed(r, chunk);
            && Concat(r'.delivered) + r'.buffer == Concat(r.delivered) + (r.buffer + chunk)
            && r'.delivered + Parse(r'.buffer).frames == r.delivered + Parse(r.buffer + chunk).frames
            && Parse(r'.buffer).rest == Parse(r.buffer + chunk).rest
  {
    var r' := Feed(r, chunk);
    var bytes := r.buffer + chunk;
    if Readable(bytes) {
      var f := ReadFrom(bytes).0.value;
      assert Concat(r'.delivered) == Concat(r.delivered) + f by {
        assert r'.delivered[..|r'.delivered| - 1] == r.delivered;
      }
      ReadConserves(bytes);
      Assoc(Concat(r.delivered), f, r'.buffer);
      AssocFrames(r.delivered, [f], Parse(r'.buffer).frames);
    }
  }

  /**
   * No byte is lost, duplicated or reordered, whatever the bytes and however they
   * are cut; and what has been delivered together with the complete frames still
   * buffered is always exactly the complete frames of everything written.
   */
  lemma {:induction false} ReceiverConserves(chunks: seq<seq<Byte>>)
    requires !FeedAll(chunks).failed
    ensures Concat(FeedAll(chunks).delivered) + FeedAll(chunks).buffer == Concat(chunks)
    ensures FeedAll(chunks).delivered + Parse(FeedAll(chunks).buffer).frames == Parse(Concat(chunks)).frames
    ensures Parse(FeedAll(chunks).buffer).rest == Parse(Concat(chunks)).rest
  {
    if chunks != [] {
      var before, chunk := chunks[..|chunks| - 1], chunks[|chunks| - 1];
      var r := FeedAll(before);
      ReceiverConserves(before);
      FeedConserves(r, chunk);
      Assoc(Concat(r.delivered), r.buffer, chunk);
      ParseExtend(r.buffer, chunk);
      ParseExtend(Concat(before), chunk);
      AssocFrames(r.delivered, Parse(r.buffer).frames, Parse(Parse(r.buffer).rest + chunk).frames);
    }
  }

  /**
   * Delivery is a prefix of what was sent. For every list of frames and every way of
   * cutting what has arrived so far of their concatenation, the loop has not failed,
   * and the frames delivered followed by the buffer are the bytes that arrived.
   */
  lemma {:induction false} DeliveryIsPrefix(fs: seq<Frame>, chunks: seq<seq<Byte>>)
    requires AllFrames(fs)
    requires Concat(chunks) <= Concat(fs)
    ensures !FeedAll(chunks).failed
    ensures FeedAll(chunks).delivered <= fs
    ensures Concat(FeedAll(chunks).delivered) + FeedAll(chunks).buffer == Concat(chunks)
  {
    if chunks != [] {
      var before, chunk := chunks[..|chunks| - 1], chunks[|chunks| - 1];
      var r := FeedAll(before);
      DeliveryIsPrefix(fs, before);
      Assoc(Concat(r.delivered), r.buffer, chunk);
      var bytes := r.buffer + chunk;
      var left := fs[|r.delivered|..];
      assert fs[..|r.delivered|] == r.delivered;
      LeftOver(fs, |r.delivered|, bytes);
      if Readable(bytes) {
        NextFrame(left, bytes);
      }
      ReceiverConserves(chunks);
    }
  }

  lemma LeftOver(fs: seq<Frame>, d: nat, bytes: seq<Byte>)
    requires d <= |fs| && Concat(fs[..d]) + bytes <= Concat(fs)
    ensures bytes <= Concat(fs[d..])
  {
    assert fs == fs[..d] + fs[d..];
    ConcatAppend(fs[..d], fs[d..]);
    var n := |Concat(fs[..d])|;
    assert bytes == (Concat(fs[..d]) + bytes)[n..];
    assert Concat(fs)[n..] == Concat(fs[d..]);
  }

  lemma NextFrame(left: seq<Frame>, bytes: seq<Byte>)
    requires AllFrames(left) && bytes <= Concat(left) && Readable(bytes)
    ensures left != [] && ReadFrom(bytes).0 == Ok(left[0])
  {
    var f, more := left[0], left[1..];
    assert left == [f] + more;
    ConcatPrepend(f, more);
    assert bytes[..PREFIX] == Concat(left)[..PREFIX] == f[..PREFIX];
    assert bytes[..|f|] == Concat(left)[..|f|] == f;
  }

  /** The complete frames contained in an initial piece of a stream of frames. */
  lemma {:induction false} CompleteFrames(fs: seq<Frame>, arrived: seq<Byte>, n: nat)
    requires AllFrames(fs) && arrived <= Concat(fs)
    requires n <= |fs| && |Concat(fs[..n])| <= |arrived|
    requires n < |fs| ==> |arrived| < |Concat(fs[..n + 1])|
    ensures Parse(arrived).frames == fs[..n]
  {
    ConcatSplit(fs, n);
    var done := Concat(fs[..n]);
    var part := arrived[|done|..];
    assert arrived == done + part;
    assert part <= Concat(fs[n..]);
    ParseFrames(fs[..n], part);
    if n < |fs| {
      ConcatAround(fs, n);
      PartialFrame(fs[n], part, Concat(fs[n + 1..]));
    }
  }

  lemma ConcatSplit(fs: seq<Frame>, n: nat)
    requires n <= |fs|
    ensures Concat(fs) == Concat(fs[..n]) + Concat(fs[n..])
  {
    assert fs == fs[..n] + fs[n..];
    ConcatAppend(fs[..n], fs[n..]);
  }

  lemma ConcatAround(fs: seq<Frame>, n: nat)
    requires n < |fs|
    ensures Concat(fs[n..]) == fs[n] + Concat(fs[n + 1..]) && Concat(fs[..n + 1]) == Concat(fs[..n]) + fs[n]
  {
    assert fs[n..] == [fs[n]] + fs[n + 1..];
    ConcatPrepend(fs[n], fs[n + 1..]);
    assert fs[..n + 1][..n] == fs[..n];
  }

  lemma PartialFrame(f: Frame, part: seq<Byte>, tail: seq<Byte>)
    requires IsFrame(f) && part <= f + tail && |part| < |f|
    ensures Parse(part).frames == []
  {
    if |part| >= PREFIX {
      assert part[..PREFIX] == (f + tail)[..PREFIX] == f[..PREFIX];
    }
  }

  /** A chunk delivers one more frame, if one is complete. */
  lemma DeliveredNext(chunks: seq<seq<Byte>>)
    requires chunks != [] && !FeedAll(chunks).failed
    ensures var before, all := FeedAll(chunks[..|chunks| - 1]), |Parse(Concat(chunks)).frames|;
            && !before.failed
            && |FeedAll(chunks).delivered| == if |before.delivered| < all then |before.delivered| + 1 else all
  {
    var before := chunks[..|chunks| - 1];
    var r, chunk := FeedAll(before), chunks[|chunks| - 1];
    ReceiverConserves(before);
    ReceiverConserves(chunks);
    FeedConserves(r, chunk);
  }

  /** How many complete frames the first `j` chunks contain. */
  function Complete(chunks: seq<seq<Byte>>, j: nat): nat
    requires j <= |chunks|
  {
    |Parse(Concat(chunks[..j])).frames|
  }

  lemma CompleteBefore(chunks: seq<seq<Byte>>)
    requires chunks != []
    ensures forall j :: 0 <= j < |chunks| ==> Complete(chunks[..|chunks| - 1], j) == Complete(chunks, j)
  {
    forall j | 0 <= j < |chunks|
      ensures Complete(chunks[..|chunks| - 1], j) == Complete(chunks, j)
    {
      assert chunks[..|chunks| - 1][..j] == chunks[..j];
    }
  }

  /**
   * How far delivery lags. With c(j) complete frames in the first j chunks, k chunks
   * have delivered the least of c(j) + (k - j) over all j <= k: one frame per chunk,
   * held back only where fewer were complete.
   */
  lemma {:induction false} DeliveryCount(chunks: seq<seq<Byte>>) returns (at: nat)
    requires !FeedAll(chunks).failed
    ensures at <= |chunks|
    ensures |FeedAll(chunks).delivered| == Complete(chunks, at) + (|chunks| - at)
    ensures forall j :: 0 <= j <= |chunks| ==> |FeedAll(chunks).delivered| <= Complete(chunks, j) + (|chunks| - j)
  {
    var k := |chunks|;
    assert chunks[..k] == chunks;
    if k == 0 {
      at := 0;
    } else {
      var before := chunks[..k - 1];
      DeliveredNext(chunks);
      at := DeliveryCount(before);
      CompleteBefore(chunks);
      if |FeedAll(before).delivered| >= Complete(chunks, k) {
        at := k;
      }
    }
  }

  // ------------------------------------------------------------------------
  // The loops themselves
  // ------------------------------------------------------------------------

  /** The receive loop of the client: one read per chunk, one frame if one is there. */
  method ClientReadLoop(chunks: seq<seq<Byte>>) returns (delivered: seq<Frame>, failed: bool, left: seq<Byte>)
    ensures Receiver(left, delivered, failed) == FeedAll(chunks)
  {
    var package := new Package();
    delivered, failed := [], false;
    var i := 0;
    while i < |chunks| && !failed
      invariant 0 <= i <= |chunks|
      invariant Receiver(package.buffer, delivered, failed) == FeedAll(chunks[..i])
    {
      package.Write(chunks[i]);
      var readable := package.CanRead();
      assert chunks[..i + 1][..i] == chunks[..i];
      if readable {
        var data := package.Read();
        if data.Ok? {
          delivered := delivered + [data.value];
        } else {
          failed := true;
        }
      }
      i := i + 1;
    }
    FailureIsFinal(chunks, i);
    left := package.buffer;
  }

  lemma {:induction false} FailureIsFinal(chunks: seq<seq<Byte>>, i: nat)
    requires i <= |chunks|
    requires FeedAll(chunks[..i]).failed || i == |chunks|
    ensures FeedAll(chunks) == FeedAll(chunks[..i])
    decreases |chunks|
  {
    if i < |chunks| {
      var before := chunks[..|chunks| - 1];
      assert before[..i] == chunks[..i];
      FailureIsFinal(before, i);
    } else {
      assert chunks[..i] == chunks;
    }
  }

  /** Reading until `canRead` refuses takes exactly the complete frames. */
  method Drain(package: Package) returns (frames: seq<Frame>, failed: bool)
    modifies package
    ensures Parsed(frames, package.buffer) == Parse(old(package.buffer))
    ensures failed <==> Readable(package.buffer)
    ensures Concat(frames) + package.buffer == old(package.buffer)
  {
    frames, failed := [], false;
    ghost var start := package.buffer;
    var readable := package.CanRead();
    while readable && !failed
      invariant failed ==> Readable(package.buffer) && Parse(package.buffer).frames == []
      invariant readable == Readable(package.buffer)
      invariant Parse(start).frames == frames + Parse(package.buffer).frames
      invariant Parse(start).rest == Parse(package.buffer).rest
      decreases |package.buffer|, !failed
    {
      ghost var before := package.buffer;
      var data := package.Read();
      if data.Ok? {
        AssocFrames(frames, [data.value], Parse(package.buffer).frames);
        frames := frames + [data.value];
        readable := package.CanRead();
      } else {
        failed := true;
      }
    }
    ParseConserves(start);
  }
}
