/** Reassembly: the drain loop over a connection's buffer (internal/server/server.go, drainFrames
    and the read loop of handleConn). */
module Stream {
  import opened Bytes
  import opened Framing
  import opened FramingTheorems

  /** What one turn of the loop takes off the buffer. */
  datatype Item = Handled(frame: Frame) | Skipped(bytes: seq<byte>)

  datatype Drained = Drained(items: seq<Item>, rest: seq<byte>)

  function Cons(i: Item, d: Drained): Drained { Drained([i] + d.items, d.rest) }

  /** The whole loop. */
  function Drain(buf: seq<byte>): Drained
    decreases |buf|
  {
    ExtractShape(buf);
    match Extract(buf)
    case Incomplete => Drained([], buf)
    case BadHeader(n) => Cons(Skipped(buf[..n]), Drain(buf[n..]))
    case Got(f, n) => Cons(Handled(f), Drain(buf[n..]))
    case BadLength(_) => assert false; Drained([], [])
  }

  /** The frames handed to handleFrame, in order. */
  function Frames(items: seq<Item>): seq<Frame> {
    if items == [] then []
    else match items[0]
      case Handled(f) => [f] + Frames(items[1..])
      case Skipped(_) => Frames(items[1..])
  }

  lemma ShortIsIncomplete(buf: seq<byte>)
    requires |buf| < 5
    ensures Extract(buf) == Incomplete
  {}

  lemma CutLength(f: Frame, buf: seq<byte>, n: int)
    requires CutFrom(f, buf, n)
    ensures 6 <= n <= |buf| && f.raw == buf[..n]
  {}

  lemma DrainStops(buf: seq<byte>)
    requires Extract(buf) == Incomplete
    ensures Drain(buf) == Drained([], buf)
  {}

  lemma DrainSkips(buf: seq<byte>, n: nat)
    requires Extract(buf) == BadHeader(n) && n <= |buf|
    ensures Drain(buf) == Drained([Skipped(buf[..n])] + Drain(buf[n..]).items, Drain(buf[n..]).rest)
  {}

  lemma DrainTakes(buf: seq<byte>, f: Frame, n: nat)
    requires Extract(buf) == Got(f, n) && n <= |buf|
    ensures Drain(buf) == Drained([Handled(f)] + Drain(buf[n..]).items, Drain(buf[n..]).rest)
    ensures Frames(Drain(buf).items) == [f] + Frames(Drain(buf[n..]).items)
  {}

  // ----- conservation -----

  function ItemBytes(i: Item): seq<byte> { match i case Handled(f) => f.raw case Skipped(g) => g }

  function BytesOf(items: seq<Item>): seq<byte> {
    if items == [] then [] else ItemBytes(items[0]) + BytesOf(items[1..])
  }

  lemma BytesOfCons(i: Item, items: seq<Item>, rest: seq<byte>)
    ensures BytesOf([i] + items) + rest == ItemBytes(i) + (BytesOf(items) + rest)
  {}

  /** Each item is a prefix of what is left: a frame from header to trailer, or skipped bytes at
      none of which a header starts. */
  predicate Explains(items: seq<Item>, buf: seq<byte>, rest: seq<byte>)
    decreases |items|
  {
    if items == [] then buf == rest
    else match items[0]
      case Handled(f) => CutFrom(f, buf, |f.raw|) && Explains(items[1..], buf[|f.raw|..], rest)
      case Skipped(g) => g <= buf && g != [] && (forall i :: 0 <= i < |g| ==> !HeaderAt(buf, i))
                         && Explains(items[1..], buf[|g|..], rest)
  }

  /** Every byte is accounted for, in order; what stays is short or starts with a header. */
  predicate Conserved(d: Drained, buf: seq<byte>) {
    && BytesOf(d.items) + d.rest == buf
    && Explains(d.items, buf, d.rest)
    && (|d.rest| < 5 || HeaderAt(d.rest, 0))
    && Extract(d.rest) == Incomplete
  }

  lemma ExplainsSkip(n: nat, items: seq<Item>, buf: seq<byte>, rest: seq<byte>)
    requires 0 < n <= |buf| && (forall i :: 0 <= i < n ==> !HeaderAt(buf, i)) && Explains(items, buf[n..], rest)
    ensures Explains([Skipped(buf[..n])] + items, buf, rest)
  {}

  lemma ExplainsTake(f: Frame, items: seq<Item>, buf: seq<byte>, rest: seq<byte>)
    requires CutFrom(f, buf, |f.raw|) && |f.raw| <= |buf| && Explains(items, buf[|f.raw|..], rest)
    ensures Explains([Handled(f)] + items, buf, rest)
  {}

  lemma {:induction false} DrainConserves(buf: seq<byte>)
    ensures Conserved(Drain(buf), buf)
    decreases |buf|
  {
    hide Extract, CutFrom, HeaderAt, Drain, Explains, BytesOf;
    ExtractShape(buf);
    match Extract(buf)
    case Incomplete =>
      DrainStops(buf);
      NothingDrained(buf);
    case BadHeader(n) =>
      DrainSkips(buf, n);
      var d := Drain(buf[n..]);
      DrainConserves(buf[n..]);
      ExplainsSkip(n, d.items, buf, d.rest);
      BytesOfCons(Skipped(buf[..n]), d.items, d.rest);
    case Got(f, n) =>
      CutLength(f, buf, n);
      DrainTakes(buf, f, n);
      var d := Drain(buf[n..]);
      DrainConserves(buf[n..]);
      ExplainsTake(f, d.items, buf, d.rest);
      BytesOfCons(Handled(f), d.items, d.rest);
    case BadLength(_) => assert false;
  }

  lemma NothingDrained(buf: seq<byte>)
    ensures BytesOf([]) + buf == buf && Explains([], buf, buf)
  {}

  lemma ConsParts(i: Item, items: seq<Item>)
    ensures ([i] + items)[0] == i && ([i] + items)[1..] == items
  {}

  /** Draining again changes nothing. */
  lemma DrainIdempotent(buf: seq<byte>)
    ensures Drain(Drain(buf).rest) == Drained([], Drain(buf).rest)
  {
    hide Extract;
    DrainConserves(buf);
  }

  // ----- reads -----

  /** The read loop: each chunk is appended and the buffer drained. */
  datatype Fed = Fed(frames: seq<Frame>, buf: seq<byte>)

  function FeedOne(buf: seq<byte>, chunk: seq<byte>): Fed {
    var d := Drain(buf + chunk);
    Fed(Frames(d.items), d.rest)
  }

  function Feed(buf: seq<byte>, chunks: seq<seq<byte>>): Fed
    decreases |chunks|
  {
    if chunks == [] then Fed([], buf) else
      var one := FeedOne(buf, chunks[0]);
      var more := Feed(one.buf, chunks[1..]);
      Fed(one.frames + more.frames, more.buf)
  }

  lemma FeedStep(buf: seq<byte>, chunks: seq<seq<byte>>)
    requires chunks != []
    ensures var d := Drain(buf + chunks[0]);
      Feed(buf, chunks) == Fed(Frames(d.items) + Feed(d.rest, chunks[1..]).frames, Feed(d.rest, chunks[1..]).buf)
  {}

  function Concat(chunks: seq<seq<byte>>): seq<byte> {
    if chunks == [] then [] else chunks[0] + Concat(chunks[1..])
  }

  function Raws(frames: seq<Frame>): seq<byte> {
    if frames == [] then [] else frames[0].raw + Raws(frames[1..])
  }

  /** A frame that any later bytes leave alone and that no shorter read releases. */
  ghost predicate Solid(f: Frame) {
    && f.raw != []
    && (forall tail :: Extract(f.raw + tail) == Got(f, |f.raw|))
    && (forall k :: 0 <= k < |f.raw| ==> Extract(f.raw[..k]) == Incomplete)
  }

  ghost predicate AllSolid(frames: seq<Frame>) { forall i :: 0 <= i < |frames| ==> Solid(frames[i]) }

  /** How many of the frames lie wholly within the first n bytes of their concatenation. */
  function Whole(frames: seq<Frame>, n: nat): nat {
    if frames == [] || n < |frames[0].raw| then 0 else 1 + Whole(frames[1..], n - |frames[0].raw|)
  }

  lemma {:induction false} WholeBound(frames: seq<Frame>, n: nat)
    requires n <= |Raws(frames)|
    ensures Whole(frames, n) <= |frames| && |Raws(frames[..Whole(frames, n)])| <= n
    decreases |frames|
  {
    if frames != [] && n >= |frames[0].raw| {
      WholeBound(frames[1..], n - |frames[0].raw|);
      var m := Whole(frames, n);
      assert frames[..m][1..] == frames[1..][..m - 1];
    }
  }

  /** Draining a prefix of a stream of solid frames takes off exactly the frames it holds whole. */
  lemma {:induction false} DrainPrefix(frames: seq<Frame>, buf: seq<byte>)
    requires AllSolid(frames) && buf <= Raws(frames)
    ensures var m := Whole(frames, |buf|);
      && m <= |frames|
      && Frames(Drain(buf).items) == frames[..m]
      && buf == Raws(frames[..m]) + Drain(buf).rest
      && Drain(buf).rest <= Raws(frames[m..])
      && (m < |frames| ==> |Drain(buf).rest| < |frames[m].raw|)
    decreases |frames|
  {
    hide Extract, Drain;
    if frames == [] {
      ShortIsIncomplete(buf);
      DrainStops(buf);
    } else if |buf| < |frames[0].raw| {
      assert Solid(frames[0]);
      assert buf == frames[0].raw[..|buf|];
      DrainStops(buf);
      assert frames[..0] == [] && frames[0..] == frames;
    } else {
      var f, more := frames[0], buf[|frames[0].raw|..];
      SplitFirst(frames, buf);
      assert Solid(f);
      DrainTakes(buf, f, |f.raw|);
      DrainPrefix(frames[1..], more);
      OneMore(frames, Whole(frames[1..], |more|));
      RawsCons(f, frames[1..][..Whole(frames[1..], |more|)], Drain(buf).rest);
      hide AllSolid, Solid, Raws;
    }
  }

  lemma OneMore(frames: seq<Frame>, m: nat)
    requires 1 + m <= |frames|
    ensures frames[..m + 1] == [frames[0]] + frames[1..][..m] && frames[m + 1..] == frames[1..][m..]
    ensures m + 1 < |frames| ==> frames[m + 1] == frames[1..][m]
  {}

  lemma SplitFirst(frames: seq<Frame>, buf: seq<byte>)
    requires frames != [] && buf <= Raws(frames) && |buf| >= |frames[0].raw|
    ensures var n := |frames[0].raw|; buf == frames[0].raw + buf[n..] && buf[n..] <= Raws(frames[1..])
  {}

  lemma RawsCons(f: Frame, frames: seq<Frame>, rest: seq<byte>)
    ensures Raws([f] + frames) + rest == f.raw + (Raws(frames) + rest)
  {}

  /** Chunking independence: however the stream is cut into reads, after any number of reads the
      frames handled are exactly those that have arrived whole, in order, and the buffer holds the
      bytes of the next one so far. */
  lemma {:induction false} ChunkingIndependence(frames: seq<Frame>, buf: seq<byte>, chunks: seq<seq<byte>>)
    requires AllSolid(frames)
    requires buf + Concat(chunks) <= Raws(frames)
    requires Extract(buf) == Incomplete && (frames == [] || |buf| < |frames[0].raw|)
    ensures var m := Whole(frames, |buf + Concat(chunks)|);
      && m <= |frames|
      && Feed(buf, chunks).frames == frames[..m]
      && buf + Concat(chunks) == Raws(frames[..m]) + Feed(buf, chunks).buf
    decreases |chunks|
  {
    hide Extract, Drain, Feed, AllSolid;
    if chunks == [] {
      assert buf + Concat(chunks) == buf;
      assert frames[..0] == [];
      NoChunks(buf);
    } else {
      FeedStep(buf, chunks);
      var now, later := buf + chunks[0], Concat(chunks[1..]);
      assert buf + Concat(chunks) == now + later;
      PrefixOfSum(now, later, Raws(frames));
      DrainPrefix(frames, now);
      DrainConserves(now);
      var m, left := Whole(frames, |now|), Drain(now).rest;
      RawsSplit(frames, m);
      SuffixOfSum(Raws(frames[..m]), left, later, Raws(frames[m..]));
      StillSolid(frames, m);
      ChunkingIndependence(frames[m..], left, chunks[1..]);
      Assemble(frames, m, left, later, Feed(left, chunks[1..]));
    }
  }

  /** The first m frames and what the later reads made of the rest. */
  lemma Assemble(frames: seq<Frame>, m: nat, left: seq<byte>, later: seq<byte>, fed: Fed)
    requires m <= |frames| && left + later <= Raws(frames[m..])
    requires var j := Whole(frames[m..], |left + later|);
      j <= |frames[m..]| && fed.frames == frames[m..][..j]
      && left + later == Raws(frames[m..][..j]) + fed.buf
    ensures var total := (Raws(frames[..m]) + left) + later;
      var k := Whole(frames, |total|);
      k <= |frames| && frames[..m] + fed.frames == frames[..k] && total == Raws(frames[..k]) + fed.buf
  {
    hide Raws, Whole;
    Resume(frames, m, |left + later|);
    var j := Whole(frames[m..], |left + later|);
    assert (Raws(frames[..m]) + left) + later == Raws(frames[..m]) + (left + later);
    assert Raws(frames[..m]) + (Raws(frames[m..][..j]) + fed.buf) == Raws(frames[..m + j]) + fed.buf;
  }

  lemma NoChunks(buf: seq<byte>)
    ensures Feed(buf, []) == Fed([], buf)
  {}

  lemma StillSolid(frames: seq<Frame>, m: nat)
    requires AllSolid(frames) && m <= |frames|
    ensures AllSolid(frames[m..])
  {}

  lemma PrefixOfSum(a: seq<byte>, b: seq<byte>, c: seq<byte>)
    requires a + b <= c
    ensures a <= c
  {}

  lemma SuffixOfSum(a: seq<byte>, b: seq<byte>, c: seq<byte>, d: seq<byte>)
    requires (a + b) + c <= a + d
    ensures b + c <= d
  {
    assert (a + b) + c == a + (b + c);
    assert (a + (b + c))[|a|..] == b + c && (a + d)[|a|..] == d;
    assert (a + d)[..|a + (b + c)|] == a + (b + c);
    assert (a + d)[..|a + (b + c)|][|a|..] == d[..|b + c|];
  }

  /** Counting on from the m-th frame. */
  lemma Resume(frames: seq<Frame>, m: nat, n: nat)
    requires m <= |frames| && n <= |Raws(frames[m..])|
    ensures var j := Whole(frames[m..], n);
      && m + j <= |frames|
      && Whole(frames, |Raws(frames[..m])| + n) == m + j
      && frames[..m + j] == frames[..m] + frames[m..][..j]
      && Raws(frames[..m + j]) == Raws(frames[..m]) + Raws(frames[m..][..j])
  {
    WholeBound(frames[m..], n);
    WholeSplit(frames, m, n);
    var upTo := frames[..m + Whole(frames[m..], n)];
    RawsSplit(upTo, m);
    assert upTo[..m] == frames[..m] && upTo[m..] == frames[m..][..Whole(frames[m..], n)];
  }

  lemma {:induction false} RawsSplit(frames: seq<Frame>, m: nat)
    requires m <= |frames|
    ensures Raws(frames) == Raws(frames[..m]) + Raws(frames[m..])
    decreases m
  {
    if m == 0 {
      assert frames[..0] == [] && frames[0..] == frames;
    } else {
      RawsSplit(frames[1..], m - 1);
      assert frames[..m][1..] == frames[1..][..m - 1] && frames[m..] == frames[1..][m - 1..];
    }
  }

  lemma {:induction false} WholeSplit(frames: seq<Frame>, m: nat, n: nat)
    requires m <= |frames|
    ensures Whole(frames, |Raws(frames[..m])| + n) == m + Whole(frames[m..], n)
    decreases m
  {
    if m == 0 {
      assert frames[..0] == [] && frames[0..] == frames;
    } else {
      WholeSplit(frames[1..], m - 1, n);
      assert frames[..m][1..] == frames[1..][..m - 1] && frames[m..] == frames[1..][m - 1..];
    }
  }

  /** When all bytes have arrived, all frames have been handled and the buffer is empty. */
  lemma WholeStream(frames: seq<Frame>, chunks: seq<seq<byte>>)
    requires AllSolid(frames) && Concat(chunks) == Raws(frames)
    ensures Feed([], chunks) == Fed(frames, [])
  {
    hide Extract;
    ShortIsIncomplete([]);
    assert [] + Concat(chunks) == Concat(chunks);
    ChunkingIndependence(frames, [], chunks);
    WholeSplit(frames, |frames|, 0);
    assert frames[..|frames|] == frames && frames[|frames|..] == [];
  }
}
