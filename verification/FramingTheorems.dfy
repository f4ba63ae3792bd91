/** When framing is right, for which bytes, and whatever follows them in the buffer. */
module FramingTheorems {
  import opened Bytes
  import opened Framing
  import W = WifiLbs

  // ----- every result of extraction -----

  /** A frame as a slice of the buffer it was cut from. */
  predicate CutFrom(f: Frame, buf: seq<byte>, n: int) {
    && 6 <= n <= |buf| && HeaderAt(buf, 0)
    && var p := Prefix(HeaderOf(buf));
    && p + 2 <= n && TrailerAt(buf, n - 2)
    && f == Frame(buf[p - 1], buf[p..n - 2], 0, buf[..n])
  }

  /** ErrIncomplete keeps a short buffer or one that starts with a header; ErrBadHeader skips
      bytes at none of which a header starts; a frame is a prefix of the buffer from header to
      trailer; there is no other error. */
  lemma ExtractShape(buf: seq<byte>)
    ensures match Extract(buf)
      case Incomplete => |buf| < 5 || HeaderAt(buf, 0)
      case BadHeader(n) => 1 <= n <= |buf| && (n == |buf| || HeaderAt(buf, n))
                           && forall i :: 0 <= i < n ==> !HeaderAt(buf, i)
      case Got(f, n) => CutFrom(f, buf, n)
      case BadLength(_) => false
  {
    if |buf| >= 5 && FirstHeader(buf) == 0 {
      var p := Prefix(HeaderOf(buf));
      var content := buf[p..];
      var e := TrailerEnd(content, SearchFrom(buf[p - 1], content));
      if e >= 0 {
        assert buf[..p + e][p..p + e - 2] == buf[p..p + e - 2];
        assert TrailerAt(buf, p + e - 2);
      }
    }
  }

  /** The length that contentBounds asks for before any trailer. */
  function MinContent(proto: byte): nat {
    if proto == MsgLogin then 9
    else if proto == MsgStatus then 4
    else if IsGps(proto) then 18
    else if IsWifi(proto) then 6
    else if proto == MsgICCID then 1
    else 0
  }

  /** The search for a trailer never starts before the minimum, and starts right there except for a
      Wi-Fi/LBS frame with a header in view: then it starts behind the cells, inside the content. */
  lemma SearchFromBounds(proto: byte, content: seq<byte>)
    ensures SearchFrom(proto, content) >= MinContent(proto)
    ensures !IsWifi(proto) ==> SearchFrom(proto, content) == MinContent(proto)
    ensures IsWifi(proto) ==>
      if |content| >= 6 && W.FindHeader(content[6..]) != -1
      then var s := W.FindHeader(content[6..]); 6 + s + 4 + 6 * content[6 + s] <= SearchFrom(proto, content) <= |content|
      else SearchFrom(proto, content) == 6
  {}

  /** No frame is ever shorter than its protocol's minimum. */
  lemma BodyAtLeastMinimum(buf: seq<byte>)
    requires Extract(buf).Got?
    ensures |Extract(buf).frame.body| >= MinContent(Extract(buf).frame.proto)
  {}

  // ----- encoded frames -----

  const TRAILER: seq<byte> := [0x0D, 0x0A]

  /** A frame on the wire; the length bytes carry anything. */
  function Encode(h: Header, lens: seq<byte>, proto: byte, body: seq<byte>): seq<byte>
    requires |lens| == Prefix(h) - 3
  {
    [Mark(h), Mark(h)] + lens + [proto] + body + TRAILER
  }

  function FrameOf(h: Header, lens: seq<byte>, proto: byte, body: seq<byte>): Frame
    requires |lens| == Prefix(h) - 3
  {
    Frame(proto, body, 0, Encode(h, lens, proto, body))
  }

  /** No trailer pair lies inside the body from offset m on, and the body reaches m. */
  predicate CleanFrom(body: seq<byte>, m: nat) {
    m <= |body| && forall i :: m <= i < |body| ==> !TrailerAt(body, i)
  }

  lemma TrailerInContent(body: seq<byte>, tail: seq<byte>, m: nat)
    ensures TrailerEnd(body + TRAILER + tail, m) == |body| + 2 <==> CleanFrom(body, m)
  {
    var c := body + TRAILER + tail;
    assert TrailerAt(c, |body|);
    assert forall i: nat :: i < |body| ==> (TrailerAt(c, i) <==> TrailerAt(body, i));
  }

  lemma EncodeLayout(h: Header, lens: seq<byte>, proto: byte, body: seq<byte>, tail: seq<byte>)
    requires |lens| == Prefix(h) - 3
    ensures var raw := Encode(h, lens, proto, body);
      var buf := raw + tail;
      && |raw| == Prefix(h) + |body| + 2
      && HeaderAt(buf, 0) && HeaderOf(buf) == h && buf[Prefix(h) - 1] == proto
      && buf[Prefix(h)..] == body + TRAILER + tail
      && buf[..|raw|] == raw && raw[Prefix(h)..|raw| - 2] == body && raw[Prefix(h) - 1] == proto
  {}

  /** In a buffer that starts with an encoded frame, the frame comes out exactly when the first
      trailer from the search bound on is its own. */
  lemma FramedIffOwnTrailer(h: Header, lens: seq<byte>, proto: byte, body: seq<byte>, tail: seq<byte>)
    requires |lens| == Prefix(h) - 3
    ensures var raw := Encode(h, lens, proto, body);
      Extract(raw + tail) == Got(FrameOf(h, lens, proto, body), |raw|)
      <==> CleanFrom(body, SearchFrom(proto, body + TRAILER + tail))
  {
    EncodeLayout(h, lens, proto, body, tail);
    TrailerInContent(body, tail, SearchFrom(proto, body + TRAILER + tail));
  }

  lemma SliceOfPrefix(s: seq<byte>, k: nat, p: nat)
    requires p <= k <= |s|
    ensures s[..k][p..] == s[p..][..k - p]
  {}

  /** A strict prefix of an encoded frame yields nothing if no trailer lies beyond its minimum. */
  lemma PrefixIsIncomplete(h: Header, lens: seq<byte>, proto: byte, body: seq<byte>, k: nat)
    requires |lens| == Prefix(h) - 3
    requires CleanFrom(body, MinContent(proto))
    requires k < |Encode(h, lens, proto, body)|
    ensures Extract(Encode(h, lens, proto, body)[..k]) == Incomplete
  {
    var raw, p := Encode(h, lens, proto, body), Prefix(h);
    var buf := raw[..k];
    if k >= 5 {
      assert HeaderAt(buf, 0) && HeaderOf(buf) == h;
      var content := buf[p..];
      var whole := body + TRAILER;
      assert raw[p..] == whole;
      SliceOfPrefix(raw, k, p);
      assert buf[p - 1] == proto;
      SearchFromBounds(proto, content);
      forall i | MinContent(proto) <= i ensures !TrailerAt(content, i) {
        if TrailerAt(content, i) { assert TrailerAt(body, i); }
      }
    }
  }

  // ----- protocols other than Wi-Fi/LBS: exact, and stable under extension -----

  /** A frame of any other protocol survives, whatever follows it, exactly when its body has the
      minimum length and no trailer pair from there on; it then survives after anything. */
  lemma FramedIffClean(h: Header, lens: seq<byte>, proto: byte, body: seq<byte>, tail: seq<byte>)
    requires |lens| == Prefix(h) - 3 && !IsWifi(proto)
    ensures var raw := Encode(h, lens, proto, body);
      Extract(raw + tail) == Got(FrameOf(h, lens, proto, body), |raw|) <==> CleanFrom(body, MinContent(proto))
  {
    FramedIffOwnTrailer(h, lens, proto, body, tail);
    SearchFromBounds(proto, body + TRAILER + tail);
  }

  lemma HeaderStays(buf: seq<byte>, more: seq<byte>)
    requires HeaderAt(buf, 0)
    ensures HeaderAt(buf + more, 0) && HeaderOf(buf + more) == HeaderOf(buf)
  {
    assert (buf + more)[0] == buf[0] && (buf + more)[1] == buf[1];
  }

  /** More bytes never change a frame already found. */
  lemma ExtensionStable(buf: seq<byte>, more: seq<byte>)
    requires Extract(buf).Got? && !IsWifi(Extract(buf).frame.proto)
    ensures Extract(buf + more) == Extract(buf)
  {
    ExtractShape(buf);
    HeaderStays(buf, more);
    CutIsExtract(buf);
    CutIsExtract(buf + more);
    hide Extract;
    CutStable(buf, more);
  }

  lemma DropOfSum(a: seq<byte>, b: seq<byte>, n: nat)
    requires n <= |a|
    ensures (a + b)[n..] == a[n..] + b
  {}

  lemma TakeOfSum(a: seq<byte>, b: seq<byte>, n: nat)
    requires n <= |a|
    ensures (a + b)[..n] == a[..n]
  {}

  lemma CutStable(buf: seq<byte>, more: seq<byte>)
    requires |buf| >= 5 && Cut(buf, HeaderOf(buf)).Got? && !IsWifi(buf[Prefix(HeaderOf(buf)) - 1])
    ensures Cut(buf + more, HeaderOf(buf)) == Cut(buf, HeaderOf(buf))
  {
    hide SearchFrom;
    var p := Prefix(HeaderOf(buf));
    var content, m := buf[p..], MinContent(buf[p - 1]);
    DropOfSum(buf, more, p);
    SearchFromBounds(buf[p - 1], content);
    SearchFromBounds(buf[p - 1], content + more);
    TrailerStable(content, more, m);
    var e := TrailerEnd(content, m);
    TakeOfSum(buf, more, p + e);
  }

  lemma CutIsExtract(buf: seq<byte>)
    requires |buf| >= 5 && HeaderAt(buf, 0)
    ensures Extract(buf) == Cut(buf, HeaderOf(buf))
  {}

  lemma TrailerStable(c: seq<byte>, more: seq<byte>, m: nat)
    requires TrailerEnd(c, m) != -1
    ensures TrailerEnd(c + more, m) == TrailerEnd(c, m)
  {
    var e := TrailerEnd(c, m);
    assert TrailerAt(c + more, e - 2);
    assert forall i: nat :: i < e - 2 ==> (TrailerAt(c + more, i) <==> TrailerAt(c, i));
  }

  // ----- Wi-Fi/LBS: framing and parsing agree -----

  /** Cutting bytes off the end can only move the header found to the right, or lose it. */
  lemma HeaderMonotone(rest: seq<byte>, k: nat, i: nat)
    requires k <= |rest| && W.HeaderAt(rest[..k], i)
    ensures W.HeaderAt(rest, i)
  {}

  /** The header found in a buffer is found again, at the same place, in any prefix that still
      holds its cells at six bytes each; without a header there is none in a prefix either. */
  lemma HeaderInPrefix(rest: seq<byte>, k: nat)
    requires k <= |rest|
    ensures W.FindHeader(rest) == -1 ==> W.FindHeader(rest[..k]) == -1
    ensures var s := W.FindHeader(rest);
      s != -1 && s + 4 + 6 * rest[s] <= k ==> W.FindHeader(rest[..k]) == s
  {
    var s, t := W.FindHeader(rest), W.FindHeader(rest[..k]);
    if t != -1 { HeaderMonotone(rest, k, t); }
    if s != -1 && s + 4 + 6 * rest[s] <= k {
      assert W.HeaderAt(rest[..k], s);
    }
  }

  /** What framing sees of a Wi-Fi/LBS frame at the front of a buffer: everything that follows
      the datetime, later frames included. */
  function Seen(buf: seq<byte>): seq<byte>
    requires |buf| >= 11
  {
    buf[Prefix(HeaderOf(buf)) + 6..]
  }

  lemma CutAfterCells(buf: seq<byte>)
    requires Extract(buf).Got? && IsWifi(Extract(buf).frame.proto)
    ensures var body := Extract(buf).frame.body;
      && 6 <= |body| && 11 <= |buf| && |body| - 6 <= |Seen(buf)|
      && body[6..] == Seen(buf)[..|body| - 6]
      && var s := W.FindHeader(Seen(buf));
      s != -1 ==> 6 + s + 4 + Seen(buf)[s] * W.CellSize(Seen(buf)[s], |Seen(buf)| - s - 4) <= |body|
  {
    ExtractShape(buf);
    BodyAtLeastMinimum(buf);
    assert buf[Prefix(HeaderOf(buf))..][6..] == Seen(buf);
  }

  /** For every Wi-Fi/LBS frame cut from any buffer, the parser sees what framing saw: the same
      header position or none, the same count and cell size, and exactly `count` cells. */
  lemma FramingAgreesWithParsing(buf: seq<byte>)
    requires Extract(buf).Got? && IsWifi(Extract(buf).frame.proto)
    ensures var body := Extract(buf).frame.body;
      && |body| >= 6 && |buf| >= 11 && W.Parse(body).Parsed?
      && var s := W.FindHeader(Seen(buf));
      && W.FindHeader(body[6..]) == s
      && (s == -1 ==> W.Parse(body).value.cells == [])
      && (s != -1 ==>
            && body[6 + s] == Seen(buf)[s]
            && W.CellSize(Seen(buf)[s], |Seen(buf)| - s - 4) == W.CellSize(body[6 + s], |body| - 6 - s - 4)
            && |W.Parse(body).value.cells| == Seen(buf)[s])
  {
    CutAfterCells(buf);
    var body, seen := Extract(buf).frame.body, Seen(buf);
    SliceAgrees(seen, |body| - 6);
    var s := W.FindHeader(seen);
    if s != -1 { CellsOfSlice(body[6..], s); }
  }

  /** The two runs of the header heuristic, on a slice and on a prefix that holds the cells. */
  lemma SliceAgrees(seen: seq<byte>, k: nat)
    requires k <= |seen|
    requires var s := W.FindHeader(seen);
      s != -1 ==> s + 4 + seen[s] * W.CellSize(seen[s], |seen| - s - 4) <= k
    ensures var s := W.FindHeader(seen);
      && W.FindHeader(seen[..k]) == s
      && (s != -1 ==> W.CellSize(seen[s], |seen| - s - 4) == W.CellSize(seen[s], k - s - 4))
  {
    HeaderInPrefix(seen, k);
  }

  lemma CellsOfSlice(rest: seq<byte>, s: nat)
    requires W.FindHeader(rest) == s
    ensures |W.CellPart(rest, s)| == rest[s]
  {
    var lbs := rest[s..];
    var size := W.CellSize(lbs[0], |lbs| - 4);
    W.CellCount(BE16(lbs[1], lbs[2]), lbs[3], lbs[4..], lbs[0], size);
  }

  /** When the trailer directly follows the last cell, the body has no byte left over. */
  lemma NothingLeftOver(buf: seq<byte>)
    requires Extract(buf).Got? && IsWifi(Extract(buf).frame.proto)
    requires var c := buf[Prefix(HeaderOf(buf))..];
      var b := WifiBounds(c); b.exact >= 0 && TrailerAt(c, b.exact)
    ensures var body := Extract(buf).frame.body;
      && |body| >= 6
      && var s := W.FindHeader(body[6..]);
      s != -1 && |body| == 6 + s + 4 + |W.Parse(body).value.cells| * W.CellSize(body[6 + s], |body| - 6 - s - 4)
  {
    FramingAgreesWithParsing(buf);
    CutAtExact(buf);
  }

  lemma CutAtExact(buf: seq<byte>)
    requires Extract(buf).Got? && IsWifi(Extract(buf).frame.proto)
    requires var c := buf[Prefix(HeaderOf(buf))..];
      var b := WifiBounds(c); b.exact >= 0 && TrailerAt(c, b.exact)
    ensures |buf| >= 11 && W.FindHeader(Seen(buf)) != -1
    ensures var s := W.FindHeader(Seen(buf));
      |Extract(buf).frame.body| == 6 + s + 4 + Seen(buf)[s] * W.CellSize(Seen(buf)[s], |Seen(buf)| - s - 4)
  {
    ExtractShape(buf);
    assert buf[Prefix(HeaderOf(buf))..][6..] == Seen(buf);
  }
}
