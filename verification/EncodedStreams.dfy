/** Streams of encoded frames under conditions on their bodies alone, and what reads do to Wi-Fi/LBS
    reports (internal/protocol/frame.go, internal/server/server.go). */
module EncodedStreams {
  import opened Bytes
  import opened Framing
  import opened FramingTheorems
  import opened WifiFraming
  import opened WifiRoundTrip
  import opened Stream
  import opened StreamTheorems
  import W = WifiLbs

  // ----- which trailer pairs inside a Wi-Fi/LBS body are harmless -----

  /** A header is found whose cells end at most one byte before the end. */
  predicate CellsReachEnd(rest: seq<byte>) {
    var s := W.FindHeader(rest);
    s != -1 && s + 4 + rest[s] * W.CellSize(rest[s], |rest| - s - 4) >= |rest| - 1
  }

  /** A pair is harmless exactly when the bytes after the datetime up to and including it show a
      header whose cells cover the pair's first byte. */
  lemma NoEarlyTrailerIff(proto: byte, body: seq<byte>)
    requires IsWifi(proto)
    ensures NoEarlyTrailer(proto, body) <==>
      forall j :: 6 <= j < |body| - 1 && TrailerAt(body, j) ==> CellsReachEnd(body[6..j + 2])
  {
    hide W.FindHeader, W.CellSize;
    forall j | 0 <= j < |body| - 1 && TrailerAt(body, j)
      ensures j < SearchFrom(proto, body[..j + 2]) <==> j < 6 || CellsReachEnd(body[6..j + 2])
    {
      BoundAt(proto, body, j);
    }
  }

  lemma BoundAt(proto: byte, body: seq<byte>, j: nat)
    requires IsWifi(proto) && j + 2 <= |body|
    ensures j < SearchFrom(proto, body[..j + 2]) <==> j < 6 || CellsReachEnd(body[6..j + 2])
  {
    hide W.FindHeader, W.CellSize;
    if j >= 6 { assert body[..j + 2][6..] == body[6..j + 2]; }
  }

  /** For every Wi-Fi/LBS frame: recovered from every cutting into reads, whatever follows, exactly
      when it is immune and each of its trailer pairs is harmless. */
  lemma WifiSolidIff(h: Header, lens: seq<byte>, proto: byte, body: seq<byte>)
    requires |lens| == Prefix(h) - 3 && IsWifi(proto)
    ensures Solid(FrameOf(h, lens, proto, body)) <==>
      && Immune(body)
      && forall j :: 6 <= j < |body| - 1 && TrailerAt(body, j) ==> CellsReachEnd(body[6..j + 2])
  {
    hide Solid, Immune, CellsReachEnd, NoEarlyTrailer;
    SolidIffSurvives(h, lens, proto, body);
    NoEarlyTrailerIff(proto, body);
  }

  /** Without any trailer pair behind the datetime, immunity is enough. */
  lemma ImmuneAndCleanSurvives(proto: byte, body: seq<byte>)
    requires IsWifi(proto) && Immune(body) && CleanFrom(body, 6)
    ensures Survives(proto, body)
  {
    hide Immune, CellsReachEnd;
    NoEarlyTrailerIff(proto, body);
  }

  lemma NoHeaderBeforeCells(rest: seq<byte>, m: nat)
    requires FirstPlausible(rest) != -1 && m <= |rest| && m <= FirstPlausible(rest) + 4
    ensures W.FindHeader(rest[..m]) == -1
  {
    var i := W.FindHeader(rest[..m]);
    if i != -1 {
      assert rest[..m][i] == rest[i] && rest[..m][i + 1] == rest[i + 1] && rest[..m][i + 2] == rest[i + 2];
      assert W.Plausible(rest, i);
    }
  }

  /** A read that ends after k bytes releases something else. */
  predicate TruncatedAt(f: Frame, k: nat) {
    k <= |f.raw|
    && var frames := Feed([], [f.raw[..k], f.raw[k..]]).frames;
    frames != [] && frames[0] != f
  }

  /** A trailer pair anywhere between the datetime and the first cell is not harmless: a read that
      ends behind it releases a truncated report. */
  lemma PairBeforeCellsTruncates(h: Header, lens: seq<byte>, proto: byte, body: seq<byte>, j: nat)
    requires |lens| == Prefix(h) - 3 && IsWifi(proto) && Immune(body)
    requires 6 <= j && TrailerAt(body, j) && j + 2 <= 6 + FirstPlausible(body[6..]) + 4
    ensures !Solid(FrameOf(h, lens, proto, body)) && TruncatedAt(FrameOf(h, lens, proto, body), Prefix(h) + j + 2)
  {
    hide FirstPlausible, Extract, Feed, Solid, NoEarlyTrailer, W.FindHeader, W.CellSize;
    NoHeaderBeforeCells(body[6..], j - 4);
    assert body[6..][..j - 4] == body[6..j + 2];
    BoundAt(proto, body, j);
    EarlyTrailerReleases(h, lens, proto, body, j);
    var raw, k := Encode(h, lens, proto, body), Prefix(h) + j + 2;
    EncodeLayout(h, lens, proto, body, []);
    ReleasedAt(FrameOf(h, lens, proto, body), k);
    NotSolidIfReleased(FrameOf(h, lens, proto, body), k);
  }

  lemma ReleasedAt(f: Frame, k: nat)
    requires 5 <= k < |f.raw| && HeaderAt(f.raw, 0) && Extract(f.raw[..k]).Got?
    ensures TruncatedAt(f, k)
  {
    hide Extract, Feed;
    assert HeaderAt(f.raw[..k], 0);
    ReleasedEarly(f, f.raw[..k], f.raw[k..]);
  }

  lemma NotSolidIfReleased(f: Frame, k: nat)
    requires k < |f.raw| && Extract(f.raw[..k]).Got?
    ensures !Solid(f)
  {
    hide Extract;
  }

  // ----- streams of encoded frames -----

  datatype Wire = Wire(h: Header, lens: seq<byte>, proto: byte, body: seq<byte>)

  predicate Encodable(w: Wire) { |w.lens| == Prefix(w.h) - 3 }

  /** A condition on the body alone: long enough and without trailer pairs from the minimum on; a
      Wi-Fi/LBS body immune as well. */
  predicate Clean(w: Wire) {
    if IsWifi(w.proto) then Immune(w.body) && CleanFrom(w.body, 6) else CleanFrom(w.body, MinContent(w.proto))
  }

  function WireFrame(w: Wire): Frame
    requires Encodable(w)
  {
    FrameOf(w.h, w.lens, w.proto, w.body)
  }

  function AllFrames(ws: seq<Wire>): (fs: seq<Frame>)
    requires forall i :: 0 <= i < |ws| ==> Encodable(ws[i])
    ensures |fs| == |ws| && forall i :: 0 <= i < |ws| ==> fs[i] == WireFrame(ws[i])
  {
    seq(|ws|, i requires 0 <= i < |ws| => WireFrame(ws[i]))
  }

  /** Chunking independence from bodies alone: any list of encoded frames whose bodies survive, cut
      into reads in any way, is handled frame by frame as the frames arrive whole. */
  lemma EncodedStream(ws: seq<Wire>, chunks: seq<seq<byte>>)
    requires forall i :: 0 <= i < |ws| ==> Encodable(ws[i]) && Survives(ws[i].proto, ws[i].body)
    requires Concat(chunks) <= Raws(AllFrames(ws))
    ensures var fs, m := AllFrames(ws), Whole(AllFrames(ws), |Concat(chunks)|);
      m <= |fs| && Feed([], chunks).frames == fs[..m] && Concat(chunks) == Raws(fs[..m]) + Feed([], chunks).buf
    ensures Concat(chunks) == Raws(AllFrames(ws)) ==> Feed([], chunks) == Fed(AllFrames(ws), [])
  {
    hide Solid, Survives, Extract, Feed, Whole, Raws, Concat, FrameOf;
    var fs := AllFrames(ws);
    forall i | 0 <= i < |fs| ensures Solid(fs[i]) {
      SolidIffSurvives(ws[i].h, ws[i].lens, ws[i].proto, ws[i].body);
    }
    ShortIsIncomplete([]);
    assert [] + Concat(chunks) == Concat(chunks);
    FramesNotEmpty(fs);
    ChunkingIndependence(fs, [], chunks);
    if Concat(chunks) == Raws(fs) { WholeStream(fs, chunks); }
  }

  lemma FramesNotEmpty(fs: seq<Frame>)
    requires AllSolid(fs)
    ensures fs == [] || 0 < |fs[0].raw|
  {
    if fs != [] { assert Solid(fs[0]); }
  }

  lemma CleanSurvives(w: Wire)
    requires Clean(w)
    ensures Survives(w.proto, w.body)
  {
    hide Immune;
    if IsWifi(w.proto) { ImmuneAndCleanSurvives(w.proto, w.body); } else { SurvivesIffClean(w.proto, w.body); }
  }

  /** The same under a condition that mentions no search: clean bodies. */
  lemma CleanStream(ws: seq<Wire>, chunks: seq<seq<byte>>)
    requires forall i :: 0 <= i < |ws| ==> Encodable(ws[i]) && Clean(ws[i])
    requires Concat(chunks) == Raws(AllFrames(ws))
    ensures Feed([], chunks) == Fed(AllFrames(ws), [])
  {
    hide Survives, Clean, Feed, Raws, Concat, AllFrames;
    forall i | 0 <= i < |ws| ensures Survives(ws[i].proto, ws[i].body) { CleanSurvives(ws[i]); }
    EncodedStream(ws, chunks);
  }

  // ----- reports that one read delivers and two reads truncate -----

  /** A report whose values come back from every buffer that starts with it is still lost to a read
      that ends behind a trailer pair among its access points or in its header. */
  lemma RoundTripsYetTruncated(h: Header, lens: seq<byte>, proto: byte, r: Report, j: nat)
    requires |lens| == Prefix(h) - 3 && IsWifi(proto) && Valid(r) && NoFakeHeader(r)
    requires 6 <= j && TrailerAt(EncodeBody(r), j) && j + 2 <= 6 + 7 * |r.wifi| + 4
    ensures forall tail :: RoundTrips(h, lens, proto, r, tail)
    ensures var f := FrameOf(h, lens, proto, EncodeBody(r)); !Solid(f) && TruncatedAt(f, Prefix(h) + j + 2)
  {
    hide RoundTrips, Solid, TruncatedAt, Encode, FrameOf, EncodeBody, EncodeRest;
    RoundTripIff(h, lens, proto, r);
    EncodedBodyImmune(r);
    TrueHeaderFirst(r);
    PairBeforeCellsTruncates(h, lens, proto, EncodeBody(r), j);
  }

  /** One access point, whose MAC starts with 0D 0A and whose other bytes are above six. */
  predicate TrailerInMac(r: Report) {
    && Valid(r) && |r.wifi| == 1
    && r.wifi[0].mac[0] == 0x0D && r.wifi[0].mac[1] == 0x0A && r.wifi[0].rssi > 6
    && forall i :: 2 <= i < 6 ==> r.wifi[0].mac[i] > 6
  }

  function SomeReport(): (r: Report)
    ensures TrailerInMac(r)
  {
    Report(W.DateTime(2024, 1, 2, 3, 4, 5), [W.WifiAP([0x0D, 0x0A, 0x20, 0x20, 0x20, 0x20], 0x20)], 432, 11,
           [W.CellTower(432, 11, 0, 0, 0)])
  }

  lemma MacIsTruncated(h: Header, lens: seq<byte>, proto: byte, r: Report)
    requires |lens| == Prefix(h) - 3 && IsWifi(proto) && TrailerInMac(r)
    ensures forall tail :: RoundTrips(h, lens, proto, r, tail)
    ensures var f := FrameOf(h, lens, proto, EncodeBody(r)); !Solid(f) && TruncatedAt(f, Prefix(h) + 8)
  {
    hide RoundTrips, Solid, TruncatedAt, Encode, FrameOf, EncodeBody;
    MacBytes(r);
    RoundTripsYetTruncated(h, lens, proto, r, 6);
  }

  lemma MacBytes(r: Report)
    requires TrailerInMac(r)
    ensures NoFakeHeader(r) && TrailerAt(EncodeBody(r), 6)
  {
    var rest, ap := EncodeRest(r), r.wifi[0].mac + [r.wifi[0].rssi];
    RestLayout(r);
    assert r.wifi[1..] == [] && EncodeAps(r.wifi) == ap;
    hide EncodeRest, EncodeBody;
    assert forall i :: 0 <= i < 7 ==> rest[i] == rest[..7][i] == ap[i] && ap[i] > 6;
    assert EncodeBody(r)[6] == EncodeBody(r)[6..][0] && EncodeBody(r)[7] == EncodeBody(r)[6..][1];
  }
}
