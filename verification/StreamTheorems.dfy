/** Which frames survive any cutting of the stream into reads. */
module StreamTheorems {
  import opened Bytes
  import opened Framing
  import opened FramingTheorems
  import opened WifiFraming
  import opened Stream
  import W = WifiLbs

  // ----- solid frames, exactly -----

  /** Every trailer pair inside the body lies before the search bound that framing computes when a
      read happens to end with that pair. */
  predicate NoEarlyTrailer(proto: byte, body: seq<byte>) {
    forall j :: 0 <= j < |body| && TrailerAt(body, j) ==> j < SearchFrom(proto, body[..j + 2])
  }

  /** Cutting a slice right behind a trailer at or after its search bound keeps that bound. */
  lemma BoundOfCut(proto: byte, content: seq<byte>, j: nat)
    requires j + 2 <= |content| && SearchFrom(proto, content) <= j
    ensures SearchFrom(proto, content[..j + 2]) == SearchFrom(proto, content)
  {
    if IsWifi(proto) {
      assert content[..j + 2][6..] == content[6..][..j - 4];
      SliceAgrees(content[6..], j - 4);
    }
  }

  /** What a strict prefix of an encoded frame shows to extraction. */
  lemma PrefixContent(h: Header, lens: seq<byte>, proto: byte, body: seq<byte>, k: nat)
    requires |lens| == Prefix(h) - 3 && k < |Encode(h, lens, proto, body)| && k >= 5
    ensures var buf := Encode(h, lens, proto, body)[..k];
      && HeaderAt(buf, 0) && HeaderOf(buf) == h && buf[Prefix(h) - 1] == proto
      && buf[Prefix(h)..] == (body + TRAILER)[..k - Prefix(h)]
      && (Extract(buf) == Incomplete || Extract(buf).Got?)
      && (Extract(buf) == Incomplete <==> TrailerEnd(buf[Prefix(h)..], SearchFrom(proto, buf[Prefix(h)..])) == -1)
  {
    var raw := Encode(h, lens, proto, body);
    assert raw[Prefix(h)..] == body + TRAILER;
    assert HeaderAt(raw[..k], 0);
  }

  lemma EarlyTrailerReleases(h: Header, lens: seq<byte>, proto: byte, body: seq<byte>, j: nat)
    requires |lens| == Prefix(h) - 3 && TrailerAt(body, j) && SearchFrom(proto, body[..j + 2]) <= j
    ensures var k := Prefix(h) + j + 2;
      k < |Encode(h, lens, proto, body)| && Extract(Encode(h, lens, proto, body)[..k]).Got?
  {
    PrefixContent(h, lens, proto, body, Prefix(h) + j + 2);
    assert (body + TRAILER)[..j + 2] == body[..j + 2];
    assert TrailerAt(body[..j + 2], j);
  }

  lemma SameTrailer(a: seq<byte>, b: seq<byte>, e: nat)
    requires 2 <= e <= |a| && e <= |b| && a[..e] == b[..e] && TrailerAt(a, e - 2)
    ensures TrailerAt(b, e - 2)
  {}

  lemma NoTrailerInCut(proto: byte, body: seq<byte>, m: nat)
    requires NoEarlyTrailer(proto, body) && m < |body| + 2
    ensures var content := (body + TRAILER)[..m]; TrailerEnd(content, SearchFrom(proto, content)) == -1
  {
    hide SearchFrom, TrailerEnd;
    var content := (body + TRAILER)[..m];
    var e := TrailerEnd(content, SearchFrom(proto, content));
    if e != -1 {
      BoundOfCut(proto, content, e - 2);
      SamePrefix(body, m, e);
      SameTrailer(content, body, e);
    }
  }

  lemma SamePrefix(body: seq<byte>, m: nat, e: nat)
    requires e <= m < |body| + 2
    ensures e <= |body| ==> (body + TRAILER)[..m][..e] == body[..e]
    ensures e == |body| + 1 ==> (body + TRAILER)[..m][e - 1] == 0x0D
  {}

  lemma NoEarlyTrailerKeeps(h: Header, lens: seq<byte>, proto: byte, body: seq<byte>, k: nat)
    requires |lens| == Prefix(h) - 3 && k < |Encode(h, lens, proto, body)| && NoEarlyTrailer(proto, body)
    ensures Extract(Encode(h, lens, proto, body)[..k]) == Incomplete
  {
    hide Extract, Encode, SearchFrom, NoEarlyTrailer;
    if k < 5 {
      ShortIsIncomplete(Encode(h, lens, proto, body)[..k]);
    } else {
      EncodeLayout(h, lens, proto, body, []);
      PrefixContent(h, lens, proto, body, k);
      NoTrailerInCut(proto, body, k - Prefix(h));
    }
  }

  predicate Survives(proto: byte, body: seq<byte>) {
    (if IsWifi(proto) then Immune(body) else |body| >= MinContent(proto)) && NoEarlyTrailer(proto, body)
  }

  /** For protocols other than Wi-Fi/LBS both conditions together say: the minimum length, and no
      trailer pair from there on. */
  lemma SurvivesIffClean(proto: byte, body: seq<byte>)
    requires !IsWifi(proto)
    ensures Survives(proto, body) <==> CleanFrom(body, MinContent(proto))
  {}

  lemma WholeFrameIff(h: Header, lens: seq<byte>, proto: byte, body: seq<byte>)
    requires |lens| == Prefix(h) - 3 && NoEarlyTrailer(proto, body)
    ensures (forall tail :: Framed(h, lens, proto, body, tail)) <==> Survives(proto, body)
  {
    hide Immune, Extract, Encode, FrameOf;
    if IsWifi(proto) {
      FramedWhateverFollowsIffImmune(h, lens, proto, body);
    } else {
      SurvivesIffClean(proto, body);
      forall tail ensures Framed(h, lens, proto, body, tail) <==> CleanFrom(body, MinContent(proto)) {
        FramedIffClean(h, lens, proto, body, tail);
      }
      assert Framed(h, lens, proto, body, []) <==> CleanFrom(body, MinContent(proto));
    }
  }

  /** An encoded frame is solid exactly when its bytes survive: a condition on the body alone. */
  lemma SolidIffSurvives(h: Header, lens: seq<byte>, proto: byte, body: seq<byte>)
    requires |lens| == Prefix(h) - 3
    ensures Solid(FrameOf(h, lens, proto, body)) <==> Survives(proto, body)
  {
    hide Extract, Encode, SearchFrom, Immune;
    var f := FrameOf(h, lens, proto, body);
    EncodeLayout(h, lens, proto, body, []);
    if NoEarlyTrailer(proto, body) {
      forall k | 0 <= k < |f.raw| ensures Extract(f.raw[..k]) == Incomplete {
        NoEarlyTrailerKeeps(h, lens, proto, body, k);
      }
      WholeFrameIff(h, lens, proto, body);
      forall tail ensures Framed(h, lens, proto, body, tail) <==> Extract(f.raw + tail) == Got(f, |f.raw|) {}
      if Solid(f) {
        forall tail ensures Framed(h, lens, proto, body, tail) {
          assert Extract(f.raw + tail) == Got(f, |f.raw|);
        }
      }
      if Survives(proto, body) {
        forall tail ensures Extract(f.raw + tail) == Got(f, |f.raw|) {
          assert Framed(h, lens, proto, body, tail);
        }
      }
    } else {
      var j :| 0 <= j < |body| && TrailerAt(body, j) && SearchFrom(proto, body[..j + 2]) <= j;
      EarlyTrailerReleases(h, lens, proto, body, j);
    }
  }

  // ----- solid is exactly what chunked delivery needs -----

  /** However the frame and anything behind it are cut into reads, it is the first one handled. */
  ghost predicate AlwaysFirst(f: Frame) {
    forall chunks :: f.raw <= Concat(chunks) ==>
      Feed([], chunks).frames != [] && Feed([], chunks).frames[0] == f
  }

  lemma {:induction false} SolidComesFirst(f: Frame, buf: seq<byte>, chunks: seq<seq<byte>>)
    requires Solid(f) && |buf| < |f.raw| && f.raw <= buf + Concat(chunks)
    ensures Feed(buf, chunks).frames != [] && Feed(buf, chunks).frames[0] == f
    decreases |chunks|
  {
    hide Extract, Drain;
    assert buf + Concat([]) == buf;
    if chunks != [] {
      FeedStep(buf, chunks);
      var now := buf + chunks[0];
      assert buf + Concat(chunks) == now + Concat(chunks[1..]);
      if |now| < |f.raw| {
        assert now == f.raw[..|now|];
        DrainStops(now);
        SolidComesFirst(f, now, chunks[1..]);
      } else {
        assert now == f.raw + now[|f.raw|..];
        DrainTakes(now, f, |f.raw|);
      }
    }
  }

  lemma FirstOfDrain(buf: seq<byte>)
    requires Frames(Drain(buf).items) != [] && HeaderAt(buf, 0) && |buf| >= 5
    ensures Extract(buf).Got? && Frames(Drain(buf).items)[0] == Extract(buf).frame
    ensures Extract(buf).consumed == |Extract(buf).frame.raw|
  {}

  lemma TwoReads(buf: seq<byte>, a: seq<byte>, b: seq<byte>)
    ensures Feed(buf, [a, b]) == Fed(Frames(Drain(buf + a).items) + Frames(Drain(Drain(buf + a).rest + b).items),
                                     Drain(Drain(buf + a).rest + b).rest)
    ensures Feed(buf, [a]) == Fed(Frames(Drain(buf + a).items), Drain(buf + a).rest)
    ensures Concat([a, b]) == a + b && Concat([a]) == a
  {
    hide Drain;
    FeedStep(buf, [a, b]);
    assert [a, b][1..] == [b];
    FeedStep(Drain(buf + a).rest, [b]);
    FeedStep(buf, [a]);
    assert [b][1..] == [] && [a][1..] == [];
    assert b + Concat([]) == b && a + Concat([]) == a;
    NoChunks(Drain(buf + a).rest);
    NoChunks(Drain(Drain(buf + a).rest + b).rest);
  }

  /** A frame cut from some buffer is recovered from every chunking exactly when it is solid. */
  lemma SolidIffAlwaysFirst(f: Frame, from: seq<byte>)
    requires CutFrom(f, from, |f.raw|)
    ensures Solid(f) <==> AlwaysFirst(f)
  {
    hide Extract, Drain;
    if Solid(f) {
      forall chunks | f.raw <= Concat(chunks)
        ensures Feed([], chunks).frames != [] && Feed([], chunks).frames[0] == f
      {
        assert [] + Concat(chunks) == Concat(chunks);
        SolidComesFirst(f, [], chunks);
      }
    }
    if AlwaysFirst(f) {
      assert HeaderAt(f.raw, 0);
      forall tail ensures Extract(f.raw + tail) == Got(f, |f.raw|) {
        TwoReads([], f.raw + tail, []);
        assert Feed([], [f.raw + tail]).frames[0] == f;
        assert [] + (f.raw + tail) == f.raw + tail && HeaderAt(f.raw + tail, 0);
        FirstOfDrain(f.raw + tail);
      }
      forall k | 0 <= k < |f.raw| ensures Extract(f.raw[..k]) == Incomplete {
        var a, b := f.raw[..k], f.raw[k..];
        if k < 5 {
          ShortIsIncomplete(a);
        } else if Extract(a) != Incomplete {
          assert f.raw == a + b && HeaderAt(a, 0);
          ReleasedEarly(f, a, b);
        }
      }
    }
  }

  lemma ReleasedEarly(f: Frame, a: seq<byte>, b: seq<byte>)
    requires |a| < |f.raw| && |a| >= 5 && HeaderAt(a, 0) && Extract(a) != Incomplete
    ensures Concat([a, b]) == a + b
    ensures Feed([], [a, b]).frames != [] && Feed([], [a, b]).frames[0] != f
  {
    hide Extract, Drain;
    TwoReads([], a, b);
    assert [] + a == a;
    ExtractShape(a);
    var g, n := Extract(a).frame, Extract(a).consumed;
    CutLength(g, a, n);
    DrainTakes(a, g, n);
  }
}
