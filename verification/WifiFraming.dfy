/** Wi-Fi/LBS frames end to end: exactly when framing is immune to what follows, and the round
    trip from values to wire and back (internal/protocol/frame.go, internal/protocol/wifilbs.go). */
module WifiFraming {
  import opened Bytes
  import opened Framing
  import opened FramingTheorems
  import W = WifiLbs

  // ----- immunity to what follows -----

  function PlausibleFrom(rest: seq<byte>, from: nat): (r: int)
    ensures r == -1 || from <= r
    ensures r != -1 ==> W.Plausible(rest, r)
    ensures forall i :: from <= i && (r == -1 || i < r) ==> !W.Plausible(rest, i)
    decreases |rest| - from
  {
    if from + 3 > |rest| then -1
    else if W.Plausible(rest, from) then from
    else PlausibleFrom(rest, from + 1)
  }

  /** The first position that looks like a count and an MCC, whether or not its cells fit. */
  function FirstPlausible(rest: seq<byte>): (r: int)
    ensures r == -1 || 0 <= r
    ensures r != -1 ==> W.Plausible(rest, r)
    ensures forall i :: 0 <= i && (r == -1 || i < r) ==> !W.Plausible(rest, i)
  {
    PlausibleFrom(rest, 0)
  }

  /** The body's first plausible header is followed, inside the body, by an MNC and its cells at
      seven bytes each, and no trailer pair lies beyond them. */
  predicate Immune(body: seq<byte>) {
    |body| >= 6
    && var p := FirstPlausible(body[6..]);
    p != -1 && 6 + p + 4 + 7 * body[6 + p] <= |body| && CleanFrom(body, 6 + p + 4 + 7 * body[6 + p])
  }

  /** A plausible header with room behind it is the one found, whatever the bytes behind it. */
  lemma HeaderFoundWithRoom(rest: seq<byte>, more: seq<byte>)
    requires FirstPlausible(rest) != -1
    requires var p := FirstPlausible(rest); p + 4 + 6 * rest[p] <= |rest + more|
    ensures W.FindHeader(rest + more) == FirstPlausible(rest)
  {
    var p := FirstPlausible(rest);
    assert W.HeaderAt(rest + more, p);
    forall i | 0 <= i < p ensures !W.HeaderAt(rest + more, i) {
      assert !W.Plausible(rest, i);
      assert (rest + more)[i] == rest[i] && (rest + more)[i + 1] == rest[i + 1] && (rest + more)[i + 2] == rest[i + 2];
    }
    W.HeaderIs(rest + more, p);
  }

  lemma RestOfContent(body: seq<byte>, tail: seq<byte>)
    requires |body| >= 6
    ensures (body + TRAILER + tail)[6..] == body[6..] + (TRAILER + tail)
  {}

  /** The search bound once enough bytes follow. */
  lemma BoundWithRoom(proto: byte, body: seq<byte>, tail: seq<byte>)
    requires IsWifi(proto) && |body| >= 6 && FirstPlausible(body[6..]) != -1
    requires var p := FirstPlausible(body[6..]); 6 + p + 4 + 7 * body[6 + p] <= |body| + 2 + |tail|
    ensures var p := FirstPlausible(body[6..]);
      SearchFrom(proto, body + TRAILER + tail) == 6 + p + 4 + 7 * body[6 + p]
  {
    RestOfContent(body, tail);
    HeaderFoundWithRoom(body[6..], TRAILER + tail);
  }

  /** Forty-two bytes are room for six cells. */
  function Padding(): (t: seq<byte>) ensures |t| == 42 { seq(42, i => 0) }

  /** If nothing in the body is plausible, a suitable tail supplies a header of its own. */
  lemma ForeignHeader(proto: byte, body: seq<byte>)
    requires IsWifi(proto) && |body| >= 6 && FirstPlausible(body[6..]) == -1
    ensures SearchFrom(proto, body + TRAILER + ([1, 0, 1] + Padding())) > |body|
  {
    var tail := [1, 0, 1] + Padding();
    HeaderlessBound(proto, body, tail);
    var rest := body[6..];
    assert W.HeaderAt(rest + (TRAILER + tail), |rest| + 2);
  }

  /** Without a plausible header in the body, the search starts behind the datetime unless a tail
      supplies a header, and then beyond the body. */
  lemma HeaderlessBound(proto: byte, body: seq<byte>, tail: seq<byte>)
    requires IsWifi(proto) && |body| >= 6 && FirstPlausible(body[6..]) == -1
    ensures var seen := body[6..] + (TRAILER + tail);
      if W.FindHeader(seen) == -1 then SearchFrom(proto, body + TRAILER + tail) == 6
      else SearchFrom(proto, body + TRAILER + tail) > |body|
  {
    RestOfContent(body, tail);
    var rest, seen := body[6..], body[6..] + (TRAILER + tail);
    var s := W.FindHeader(seen);
    if s != -1 && s + 3 <= |rest| { PlausibleInFront(rest, TRAILER + tail, s); }
  }

  lemma PlausibleInFront(rest: seq<byte>, more: seq<byte>, i: nat)
    requires i + 3 <= |rest| && W.Plausible(rest + more, i)
    ensures W.Plausible(rest, i)
  {
    assert (rest + more)[i] == rest[i] && (rest + more)[i + 1] == rest[i + 1] && (rest + more)[i + 2] == rest[i + 2];
  }

  predicate Framed(h: Header, lens: seq<byte>, proto: byte, body: seq<byte>, tail: seq<byte>)
    requires |lens| == Prefix(h) - 3
  {
    var raw := Encode(h, lens, proto, body);
    Extract(raw + tail) == Got(FrameOf(h, lens, proto, body), |raw|)
  }

  /** A Wi-Fi/LBS frame is cut out correctly whatever follows it exactly when it is immune. In
      particular a frame without cells never is. */
  lemma FramedWhateverFollowsIffImmune(h: Header, lens: seq<byte>, proto: byte, body: seq<byte>)
    requires |lens| == Prefix(h) - 3 && IsWifi(proto)
    ensures (forall tail :: Framed(h, lens, proto, body, tail)) <==> Immune(body)
  {
    if Immune(body) {
      forall tail ensures Framed(h, lens, proto, body, tail) {
        FramedIffOwnTrailer(h, lens, proto, body, tail);
        BoundWithRoom(proto, body, tail);
      }
    } else {
      var tail := NotImmuneTail(h, lens, proto, body);
    }
  }

  /** A frame without a plausible header, before each tail: it is framed correctly iff it has no
      trailer pair behind the datetime and the bytes behind it supply no header. */
  lemma HeaderlessFramedIff(h: Header, lens: seq<byte>, proto: byte, body: seq<byte>, tail: seq<byte>)
    requires |lens| == Prefix(h) - 3 && IsWifi(proto) && |body| >= 6 && FirstPlausible(body[6..]) == -1
    ensures Framed(h, lens, proto, body, tail) <==>
      CleanFrom(body, 6) && W.FindHeader(body[6..] + (TRAILER + tail)) == -1
  {
    hide Extract, Encode, FrameOf, FirstPlausible, SearchFrom;
    FramedIffOwnTrailer(h, lens, proto, body, tail);
    HeaderlessBound(proto, body, tail);
  }

  lemma NotImmuneTail(h: Header, lens: seq<byte>, proto: byte, body: seq<byte>) returns (tail: seq<byte>)
    requires |lens| == Prefix(h) - 3 && IsWifi(proto) && !Immune(body)
    ensures !Framed(h, lens, proto, body, tail)
  {
    tail := Padding();
    if |body| >= 6 {
      if FirstPlausible(body[6..]) == -1 {
        tail := [1, 0, 1] + Padding();
        ForeignHeader(proto, body);
      } else {
        BoundWithRoom(proto, body, tail);
      }
    }
    FramedIffOwnTrailer(h, lens, proto, body, tail);
  }

  /** A body whose cells take six bytes each and end it. */
  predicate SixByteCells(body: seq<byte>) {
    |body| >= 6
    && var p := FirstPlausible(body[6..]);
    p != -1 && |body| == 6 + p + 4 + 6 * body[6 + p]
  }

  /** Six-byte cells are framed correctly exactly when fewer than count - 2 bytes follow the frame:
      never with one or two cells, and never with another frame right behind. */
  lemma SixByteCellsFramedIff(h: Header, lens: seq<byte>, proto: byte, body: seq<byte>, tail: seq<byte>)
    requires |lens| == Prefix(h) - 3 && IsWifi(proto) && SixByteCells(body)
    ensures Framed(h, lens, proto, body, tail) <==> |tail| + 2 < body[6 + FirstPlausible(body[6..])]
  {
    hide Extract, Encode, FrameOf, FirstPlausible;
    FramedIffOwnTrailer(h, lens, proto, body, tail);
    SixByteBound(proto, body, tail);
  }

  lemma SixByteBound(proto: byte, body: seq<byte>, tail: seq<byte>)
    requires IsWifi(proto) && SixByteCells(body)
    ensures var s := SearchFrom(proto, body + TRAILER + tail);
      if |tail| + 2 < body[6 + FirstPlausible(body[6..])] then s == |body| else s > |body|
  {
    hide FirstPlausible, W.FindHeader;
    RestOfContent(body, tail);
    HeaderFoundWithRoom(body[6..], TRAILER + tail);
  }
}
