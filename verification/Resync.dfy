/** What garbage in front of a frame does to its recovery (internal/protocol/frame.go,
    internal/server/server.go). */
module Resync {
  import opened Bytes
  import opened Framing
  import opened FramingTheorems
  import opened Stream
  import opened StreamTheorems

  lemma DrainGarbage(g: seq<byte>, x: seq<byte>)
    requires g != [] && |g + x| >= 5 && FirstHeader(g + x) == (if x == [] then -1 else |g|)
    ensures Drain(g + x).rest == Drain(x).rest && Frames(Drain(g + x).items) == Frames(Drain(x).items)
  {}

  lemma HeaderWithin(g: seq<byte>, f: Frame, k: nat)
    requires FirstHeader(g + f.raw) == |g| && k <= |f.raw|
    ensures FirstHeader(g + f.raw[..k]) == if k < 2 then -1 else |g|
  {
    var b, all := g + f.raw[..k], g + f.raw;
    forall i: nat | HeaderAt(b, i) ensures HeaderAt(all, i) {}
    if k >= 2 { assert HeaderAt(b, |g|); }
  }

  lemma SolidDrains(f: Frame, k: nat)
    requires Solid(f) && k <= |f.raw|
    ensures Drain(f.raw[..k]) == if k < |f.raw| then Drained([], f.raw[..k]) else Drained([Handled(f)], [])
  {
    hide Extract, Drain;
    if k < |f.raw| {
      DrainStops(f.raw[..k]);
    } else {
      assert f.raw[..k] == f.raw && f.raw + [] == f.raw && f.raw[|f.raw|..] == [];
      DrainTakes(f.raw, f, |f.raw|);
      ShortIsIncomplete([]);
      DrainStops([]);
    }
  }

  /** Two reads, from what draining makes of the first. */
  lemma FeedTwo(a: seq<byte>, b: seq<byte>, first: seq<Frame>, rest: seq<byte>)
    requires Frames(Drain(a).items) == first && Drain(a).rest == rest
    ensures Feed([], [a, b]) == Fed(first + Frames(Drain(rest + b).items), Drain(rest + b).rest)
  {
    hide Drain, Frames;
    TwoReads([], a, b);
    assert [] + a == a;
  }

  lemma NoFrames()
    ensures Frames([]) == []
  {}

  lemma OneFrame(f: Frame)
    ensures Frames([Handled(f)]) == [f]
  {}

  /** Garbage after which the search for a header stops at the frame's own. */
  lemma AlignedGarbage(g: seq<byte>, f: Frame, k: nat)
    requires Solid(f) && k <= |f.raw| && FirstHeader(g + f.raw) == |g|
    ensures Feed([], [g + f.raw[..k], f.raw[k..]]) == Fed([f], []) <==> !(k == 1 && |g| >= 4)
  {
    hide Extract, Drain, FirstHeader, Solid, Frames, Feed;
    var a, b := g + f.raw[..k], f.raw[k..];
    FirstTwo(g, f);
    if |a| < 5 {
      ShortIsIncomplete(a);
      DrainStops(a);
      NoFrames();
      FeedTwo(a, b, [], a);
      assert a + b == g + f.raw;
      GarbageThenWhole(g, f);
      assert [] + [f] == [f];
    } else if k == 1 {
      HeaderWithin(g, f, k);
      SkipAll(a);
      FeedTwo(a, b, [], []);
      assert [] + b == b && [] + Frames(Drain(b).items) == Frames(Drain(b).items);
      TooShortForFrame(b, f);
    } else {
      GarbageThenPart(g, f, k);
      FeedTwo(a, b, Frames(Drain(a).items), Drain(a).rest);
    }
  }

  lemma GarbageThenPart(g: seq<byte>, f: Frame, k: nat)
    requires Solid(f) && k <= |f.raw| && FirstHeader(g + f.raw) == |g|
    requires |g + f.raw[..k]| >= 5 && k != 1
    ensures var d := Drain(g + f.raw[..k]);
      Frames(d.items) + Frames(Drain(d.rest + f.raw[k..]).items) == [f] && Drain(d.rest + f.raw[k..]).rest == []
  {
    hide Extract, Drain, FirstHeader, Solid, Frames;
    var a, x, b := g + f.raw[..k], f.raw[..k], f.raw[k..];
    HeaderWithin(g, f, k);
    assert f.raw[..|f.raw|] == f.raw && x + b == f.raw && [] + b == b;
    SolidDrains(f, |f.raw|);
    NoFrames();
    OneFrame(f);
    if k == 0 {
      assert a == g;
      SkipAll(a);
      assert [] + [f] == [f];
    } else {
      if g == [] { assert a == x; } else { DrainGarbage(g, x); }
      SolidDrains(f, k);
      if k < |f.raw| {
        assert [] + [f] == [f];
      } else {
        assert b == [];
        ShortIsIncomplete([]);
        DrainStops([]);
        assert [f] + [] == [f];
      }
    }
  }

  lemma FirstTwo(g: seq<byte>, f: Frame)
    requires FirstHeader(g + f.raw) == |g|
    ensures |f.raw| >= 2
  {}

  lemma SkipAll(a: seq<byte>)
    requires |a| >= 5 && FirstHeader(a) == -1
    ensures Drain(a) == Drained([Skipped(a)], []) && Frames(Drain(a).items) == []
  {
    hide Drain;
    DrainSkips(a, |a|);
    assert a[..|a|] == a && a[|a|..] == [];
    ShortIsIncomplete([]);
    DrainStops([]);
  }

  lemma GarbageThenWhole(g: seq<byte>, f: Frame)
    requires Solid(f) && FirstHeader(g + f.raw) == |g|
    ensures Frames(Drain(g + f.raw).items) == [f] && Drain(g + f.raw).rest == []
  {
    hide Extract, Drain, FirstHeader;
    assert f.raw[..|f.raw|] == f.raw;
    SolidDrains(f, |f.raw|);
    SolidLayout(f);
    if g == [] { assert g + f.raw == f.raw; } else { DrainGarbage(g, f.raw); }
  }

  /** Bytes fewer than a frame's cannot yield it. */
  lemma TooShortForFrame(b: seq<byte>, f: Frame)
    requires |b| < |f.raw|
    ensures Frames(Drain(b).items) != [f]
  {
    hide Drain;
    DrainConserves(b);
    FramesFit(Drain(b).items);
  }

  lemma {:induction false} FramesFit(items: seq<Item>)
    ensures |Raws(Frames(items))| <= |BytesOf(items)|
  {
    if items != [] {
      FramesFit(items[1..]);
      if items[0].Handled? {
        RawsCons(items[0].frame, Frames(items[1..]), []);
        assert Raws([items[0].frame] + Frames(items[1..])) + [] == Raws(Frames(items));
      }
    }
  }

  // ----- garbage that ends in the frame's first byte -----

  lemma FirstHeaderBehind(g: seq<byte>, x: seq<byte>)
    requires HeaderAt(x, 0) && forall i :: 0 <= i < |g| ==> !HeaderAt(g, i)
    ensures FirstHeader(g + x) == if g != [] && g[|g| - 1] == x[0] then |g| - 1 else |g|
  {
    var b := g + x;
    assert HeaderAt(b, |g|) && b[|g|] == x[0];
    forall i | 0 <= i < |g| - 1 ensures !HeaderAt(b, i) { assert !HeaderAt(g, i); }
    if g != [] {
      assert b[|g| - 1] == g[|g| - 1];
      assert HeaderAt(b, |g| - 1) <==> g[|g| - 1] == x[0];
    }
  }

  lemma {:induction false} AllSame(s: seq<byte>, h: byte, i: nat)
    requires i < |s| && s == ([h] + s)[..|s|]
    ensures s[i] == h
    decreases i
  {
    assert s[i] == ([h] + s)[..|s|][i] == ([h] + s)[i];
    if i > 0 { AllSame(s, h, i - 1); }
  }

  lemma ShiftDiffers(s: seq<byte>, h: byte)
    requires s != [] && s[|s| - 1] != h
    ensures s != ([h] + s)[..|s|]
  {
    if s == ([h] + s)[..|s|] { AllSame(s, h, |s| - 1); }
  }

  lemma SolidLayout(f: Frame)
    requires Solid(f)
    ensures |f.raw| >= 6 && HeaderAt(f.raw, 0) && f.raw[|f.raw| - 1] == 0x0A
  {
    hide Extract;
    assert Extract(f.raw + []) == Got(f, |f.raw|) && f.raw + [] == f.raw;
    ExtractShape(f.raw);
  }

  lemma ShiftedCut(f: Frame, y: seq<byte>, e: Frame, n: int)
    requires f.raw != [] && f.raw[|f.raw| - 1] != f.raw[0] && y <= [f.raw[0]] + f.raw && CutFrom(e, y, n)
    ensures e != f
  {
    var all := [f.raw[0]] + f.raw;
    CutLength(e, y, n);
    assert y == all[..|y|] && y[..n] == all[..n];
    ShiftDiffers(f.raw, f.raw[0]);
  }

  /** One byte early: what is handled first, if anything, is not the frame. */
  lemma ShiftedDrain(f: Frame, y: seq<byte>)
    requires Solid(f) && 2 <= |y| && y <= [f.raw[0]] + f.raw
    ensures Frames(Drain(y).items) == [] ==> Drain(y).rest == y
    ensures Frames(Drain(y).items) != [] ==> Frames(Drain(y).items)[0] != f
  {
    hide Extract, Drain, Solid, CutFrom, HeaderAt;
    ShiftedHeader(f, y);
    ExtractShape(y);
    match Extract(y)
    case Incomplete =>
      DrainStops(y);
    case BadHeader(n) => assert false;
    case Got(e, n) =>
      CutLength(e, y, n);
      DrainTakes(y, e, n);
      ShiftedCut(f, y, e, n);
    case BadLength(_) => assert false;
  }

  lemma ShiftedHeader(f: Frame, y: seq<byte>)
    requires Solid(f) && 2 <= |y| && y <= [f.raw[0]] + f.raw
    ensures HeaderAt(y, 0) && f.raw[|f.raw| - 1] != f.raw[0]
  {
    hide Solid;
    SolidLayout(f);
    var all := [f.raw[0]] + f.raw;
    assert y == all[..|y|] && y[0] == all[0] && y[1] == all[1];
  }

  lemma ShiftedAway(pre: seq<byte>, f: Frame, y: seq<byte>)
    requires Solid(f) && 2 <= |y| && y <= [f.raw[0]] + f.raw && |pre + y| >= 5
    requires var g := pre + [f.raw[0]]; forall i :: 0 <= i < |g| ==> !HeaderAt(g, i)
    ensures Frames(Drain(pre + y).items) == Frames(Drain(y).items) && Drain(pre + y).rest == Drain(y).rest
  {
    hide Extract, Drain, Solid;
    SolidLayout(f);
    var g, all := pre + [f.raw[0]], [f.raw[0]] + f.raw;
    assert y == all[..|y|] && y[0] == all[0] && y[1] == all[1];
    if pre == [] {
      assert pre + y == y;
    } else {
      forall i | 0 <= i < |pre| ensures !HeaderAt(pre, i) && !HeaderAt(g, i) {
        assert !HeaderAt(g, i);
        assert g[i] == pre[i];
      }
      assert g[|pre|] == y[0] && g[|pre| - 1] == pre[|pre| - 1] && !HeaderAt(g, |pre| - 1);
      FirstHeaderBehind(pre, y);
      DrainGarbage(pre, y);
    }
  }

  lemma NoHeaderIn(g: seq<byte>)
    requires forall i :: 0 <= i < |g| ==> !HeaderAt(g, i)
    ensures FirstHeader(g) == -1
  {}

  lemma ShiftedGarbage(pre: seq<byte>, f: Frame, k: nat)
    requires Solid(f) && 1 <= k <= |f.raw|
    requires var g := pre + [f.raw[0]]; forall i :: 0 <= i < |g| ==> !HeaderAt(g, i)
    ensures var g := pre + [f.raw[0]]; Feed([], [g + f.raw[..k], f.raw[k..]]) != Fed([f], [])
  {
    hide Extract, Drain, Solid, Frames, Feed;
    var y, b, x := [f.raw[0]] + f.raw[..k], f.raw[k..], [f.raw[0]] + f.raw;
    var a := pre + y;
    assert pre + [f.raw[0]] + f.raw[..k] == a && y == x[..k + 1] && y + b == x;
    SolidLayout(f);
    ShiftedDrain(f, x);
    if |a| < 5 {
      ShortIsIncomplete(a);
      DrainStops(a);
      NoFrames();
      FeedTwo(a, b, [], a);
      assert a + b == pre + x;
      ShiftedAway(pre, f, x);
      assert [] + Frames(Drain(x).items) == Frames(Drain(x).items);
    } else {
      ShiftedAway(pre, f, y);
      ShiftedDrain(f, y);
      var first, rest := Frames(Drain(y).items), Drain(y).rest;
      FeedTwo(a, b, first, rest);
      if first == [] {
        assert [] + Frames(Drain(x).items) == Frames(Drain(x).items);
      } else {
        assert (first + Frames(Drain(rest + b).items))[0] == first[0];
      }
    }
  }

  lemma GarbageAlone(g: seq<byte>, f: Frame)
    requires Solid(f) && g != [] && g[|g| - 1] == f.raw[0] && forall i :: 0 <= i < |g| ==> !HeaderAt(g, i)
    ensures Feed([], [g, f.raw]) == Fed([f], []) <==> |g| >= 5
  {
    hide Extract, Drain, Solid, Frames, Feed, FirstHeader;
    SolidLayout(f);
    if |g| < 5 {
      var pre, x := g[..|g| - 1], [f.raw[0]] + f.raw;
      assert pre + [f.raw[0]] == g && g + f.raw == pre + x && x[..|x|] == x;
      ShortIsIncomplete(g);
      DrainStops(g);
      NoFrames();
      FeedTwo(g, f.raw, [], g);
      ShiftedAway(pre, f, x);
      ShiftedDrain(f, x);
      assert [] + Frames(Drain(x).items) == Frames(Drain(x).items);
    } else {
      NoHeaderIn(g);
      SkipAll(g);
      FeedTwo(g, f.raw, [], []);
      assert [] + f.raw == f.raw && f.raw[..|f.raw|] == f.raw;
      SolidDrains(f, |f.raw|);
      OneFrame(f);
    }
  }

  /** A solid frame behind garbage that holds no header pair, delivered in two reads cut after the
      frame's first k bytes. Usually it is recovered unless the cut falls between its two header
      bytes and the first read is long enough for the headerless buffer to be thrown away. If the
      garbage ends in the frame's first byte the search stops one byte early, and the frame is
      recovered only if the first read is that garbage alone and is thrown away. */
  lemma GarbageThenFrame(g: seq<byte>, f: Frame, k: nat)
    requires Solid(f) && k <= |f.raw| && forall i :: 0 <= i < |g| ==> !HeaderAt(g, i)
    ensures f.raw != []
    ensures Feed([], [g + f.raw[..k], f.raw[k..]]) == Fed([f], []) <==>
      if g != [] && g[|g| - 1] == f.raw[0] then k == 0 && |g| >= 5 else !(k == 1 && |g| >= 4)
  {
    hide Extract, Drain, FirstHeader;
    SolidLayout(f);
    if g != [] && g[|g| - 1] == f.raw[0] {
      var pre := g[..|g| - 1];
      assert pre + [f.raw[0]] == g;
      if k == 0 {
        assert g + f.raw[..0] == g && f.raw[0..] == f.raw;
        GarbageAlone(g, f);
      } else {
        ShiftedGarbage(pre, f, k);
      }
    } else {
      FirstHeaderBehind(g, f.raw);
      AlignedGarbage(g, f, k);
    }
  }
}
