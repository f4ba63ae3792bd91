/** Frame extraction from a byte stream (internal/protocol/frame.go). */
module Framing {
  import opened Bytes
  import W = WifiLbs

  datatype Frame = Frame(proto: byte, body: seq<byte>, serial: int, raw: seq<byte>)

  /** The results of ExtractFrame; every error but ErrIncomplete comes with a consumed count. */
  datatype Outcome =
    | Incomplete
    | BadHeader(consumed: int)
    | BadLength(consumed: int)
    | Got(frame: Frame, consumed: int)

  datatype Header = Short | Ext

  const MsgLogin: byte := 0x01
  const MsgGPS: byte := 0x10
  const MsgGPSOffline: byte := 0x11
  const MsgGPSLBS: byte := 0x12
  const MsgStatus: byte := 0x13
  const MsgOfflineWifi: byte := 0x17
  const MsgWifiLBS: byte := 0x1A
  const MsgWifiLBS2: byte := 0x1B
  const MsgGPS2: byte := 0x22
  const MsgTimeSync: byte := 0x30
  const MsgParam: byte := 0x57
  const MsgOnlineWifi: byte := 0x69
  const MsgICCID: byte := 0xB3

  predicate IsGps(proto: byte) {
    proto == MsgGPS || proto == MsgGPSOffline || proto == MsgGPSLBS || proto == MsgGPS2
  }

  predicate IsWifi(proto: byte) {
    proto == MsgWifiLBS || proto == MsgWifiLBS2 || proto == MsgOfflineWifi || proto == MsgOnlineWifi
  }

  // ----- searches -----

  predicate PairAt(b: seq<byte>, i: nat, x: byte, y: byte) {
    i + 1 < |b| && b[i] == x && b[i + 1] == y
  }

  predicate HeaderAt(b: seq<byte>, i: nat) {
    PairAt(b, i, 0x78, 0x78) || PairAt(b, i, 0x79, 0x79)
  }

  predicate TrailerAt(b: seq<byte>, i: nat) { PairAt(b, i, 0x0D, 0x0A) }

  function HeaderFrom(b: seq<byte>, from: nat): (r: int)
    ensures r == -1 || from <= r < |b| - 1
    ensures r != -1 ==> HeaderAt(b, r)
    ensures forall i :: from <= i && (r == -1 || i < r) ==> !HeaderAt(b, i)
    decreases |b| - from
  {
    if from + 1 >= |b| then -1 else if HeaderAt(b, from) then from else HeaderFrom(b, from + 1)
  }

  /** The start of the first header pair, or -1. */
  function FirstHeader(b: seq<byte>): (r: int)
    ensures r == -1 || 0 <= r < |b| - 1
    ensures r != -1 ==> HeaderAt(b, r)
    ensures forall i :: 0 <= i && (r == -1 || i < r) ==> !HeaderAt(b, i)
  {
    HeaderFrom(b, 0)
  }

  /** The end of the first trailer pair at or after `from`, or -1. */
  function TrailerEnd(b: seq<byte>, from: nat): (r: int)
    ensures r == -1 || from + 2 <= r <= |b|
    ensures r != -1 ==> TrailerAt(b, r - 2)
    ensures forall i :: from <= i && (r == -1 || i < r - 2) ==> !TrailerAt(b, i)
    decreases |b| - from
  {
    if from + 1 >= |b| then -1 else if TrailerAt(b, from) then from + 2 else TrailerEnd(b, from + 1)
  }

  method FindTrailer(content: seq<byte>, minContent: int) returns (r: int)
    ensures r == TrailerEnd(content, if minContent < 0 then 0 else minContent)
  {
    var min := minContent;
    if min < 0 {
      min := 0;
    }
    var i := min;
    while i + 1 < |content|
      invariant min <= i
      invariant TrailerEnd(content, min) == TrailerEnd(content, i)
      decreases |content| - i
    {
      if content[i] == 0x0D && content[i + 1] == 0x0A {
        return i + 2;
      }
      i := i + 1;
    }
    return -1;
  }

  // ----- content bounds -----

  /** min: no trailer is accepted before; exact: the length the layout gives, or -1;
      known: false for protocols scanned from the start. */
  datatype Bounds = Bounds(min: nat, exact: int, known: bool)

  function WifiBounds(content: seq<byte>): Bounds {
    if |content| < 6 then Bounds(6, -1, true) else
      var rest := content[6..];
      var s := W.FindHeader(rest);
      if s < 0 then Bounds(6, -1, true)
      else Bounds(6, 6 + s + 4 + rest[s] * W.CellSize(rest[s], |rest| - s - 4), true)
  }

  /** The source's early returns and its wait-for-more-cells branch are here too, each shown to be
      out of reach once a header was found. */
  method WifiLBSContentBounds(content: seq<byte>) returns (b: Bounds)
    ensures b == WifiBounds(content)
  {
    var min, exact := 6, -1;
    if |content| < 6 {
      return Bounds(min, exact, true);
    }
    var rest := content[6..];
    var lbsStart := W.FindLBSHeader(rest);
    if lbsStart < 0 {
      return Bounds(min, exact, true);
    }
    var lbs := rest[lbsStart..];
    if |lbs| < 4 {
      assert false;
    }
    var count := lbs[0];
    if count < 1 || count > 6 {
      assert false;
    }
    var pos := 4;
    var cellSize := 7;
    if pos + count * 7 > |lbs| && pos + count * 6 <= |lbs| {
      cellSize := 6;
    }
    var need := pos + count * cellSize;
    if |lbs| < need {
      assert false;
    }
    exact := 6 + lbsStart + need;
    b := Bounds(min, exact, true);
  }

  function ContentBounds(proto: byte, content: seq<byte>): Bounds {
    if proto == MsgLogin then Bounds(9, -1, true)
    else if proto == MsgTimeSync then Bounds(0, -1, true)
    else if proto == MsgStatus then Bounds(4, -1, true)
    else if IsGps(proto) then Bounds(18, -1, true)
    else if IsWifi(proto) then WifiBounds(content)
    else if proto == MsgICCID then Bounds(1, -1, true)
    else if proto == MsgParam then Bounds(0, -1, true)
    else Bounds(0, -1, false)
  }

  // ----- extraction -----

  function Prefix(h: Header): nat { if h == Short then 4 else 5 }

  /** The marker byte that a header repeats twice. */
  function Mark(h: Header): byte { if h == Short then 0x78 else 0x79 }

  /** The slice of the body would be out of range for the two excluded lengths. */
  function FrameFromRaw(raw: seq<byte>, h: Header): Outcome
    requires |raw| != Prefix(h) + 1
  {
    if |raw| < Prefix(h) + 1 then BadLength(|raw|)
    else Got(Frame(raw[Prefix(h) - 1], raw[Prefix(h)..|raw| - 2], 0, raw), |raw|)
  }

  function Start(b: Bounds): nat { if b.exact >= 0 then b.exact else b.min }

  /** Where the search for the trailer starts, counted from the start of the content. */
  function SearchFrom(proto: byte, content: seq<byte>): (s: nat)
    ensures IsWifi(proto) ==> s >= 6
  {
    Start(ContentBounds(proto, content))
  }

  /** The one rule behind the source's branches: a frame ends at the first trailer at or after
      the start bound of its content. */
  function Cut(buf: seq<byte>, h: Header): Outcome
    requires |buf| >= Prefix(h)
  {
    var content := buf[Prefix(h)..];
    var e := TrailerEnd(content, SearchFrom(buf[Prefix(h) - 1], content));
    if e < 0 then Incomplete else FrameFromRaw(buf[..Prefix(h) + e], h)
  }

  function HeaderOf(buf: seq<byte>): Header
    requires |buf| > 0
  {
    if buf[0] == 0x78 then Short else Ext
  }

  function Extract(buf: seq<byte>): Outcome {
    var start := FirstHeader(buf);
    if |buf| < 5 then Incomplete
    else if start == -1 then BadHeader(|buf|)
    else if start > 0 then BadHeader(start)
    else Cut(buf, HeaderOf(buf))
  }

  method ExtractFrame(buf: seq<byte>) returns (r: Outcome)
    ensures r == Extract(buf)
  {
    if |buf| < 5 {
      return Incomplete;
    }
    var start := -1;
    var i := 0;
    while i + 1 < |buf|
      invariant 0 <= i && start == -1
      invariant forall j :: 0 <= j < i ==> !HeaderAt(buf, j)
      decreases |buf| - i
    {
      if buf[i] == 0x78 && buf[i + 1] == 0x78 {
        start := i;
        assert HeaderAt(buf, i);
        break;
      }
      if buf[i] == 0x79 && buf[i + 1] == 0x79 {
        start := i;
        assert HeaderAt(buf, i);
        break;
      }
      i := i + 1;
    }
    assert start == FirstHeader(buf);
    if start == -1 {
      return BadHeader(|buf|);
    }
    if start > 0 {
      return BadHeader(start);
    }

    var header := BE16(buf[0], buf[1]);
    if header == 0x7878 {
      r := ExtractContent(buf, Short, 4, buf[3]);
    } else if header == 0x7979 {
      if |buf| < 6 {
        ShortContent(buf);
        return Incomplete;
      }
      r := ExtractContent(buf, Ext, 5, buf[4]);
    } else {
      assert false;
    }
  }

  /** The second half of ExtractFrame, once the header is known. */
  method ExtractContent(buf: seq<byte>, h: Header, prefix: nat, proto: byte) returns (r: Outcome)
    requires prefix == Prefix(h) <= |buf| && proto == buf[prefix - 1]
    ensures r == Cut(buf, h)
  {
    hide ContentBounds, IsWifi, TrailerEnd, W.FindHeader, W.HeaderAt;
    var content := buf[prefix..];
    var b := ContentBoundsOf(proto, content);
    ghost var e := TrailerEnd(content, Start(b));
    assert Cut(buf, h) == if e < 0 then Incomplete else FrameFromRaw(buf[..prefix + e], h);
    var minContent := b.min;
    if b.known && b.exact >= 0 {
      if |content| < b.exact + 2 {
        return Incomplete;
      }
      if content[b.exact] != 0x0D || content[b.exact + 1] != 0x0A {
        minContent := b.exact;
      } else {
        assert TrailerAt(content, b.exact);
        var end := prefix + b.exact + 2;
        return FrameFromRaw(buf[..end], h);
      }
    }
    if !b.known {
      minContent := 0;
    }
    if |content| < minContent + 2 {
      return Incomplete;
    }
    var relEnd := FindTrailer(content, minContent);
    if relEnd < 0 {
      return Incomplete;
    }
    r := FrameFromRaw(buf[..prefix + relEnd], h);
  }

  /** contentBounds. Only the layout walk gives an exact length, and only of a layout that lies
      within the content. */
  method ContentBoundsOf(proto: byte, content: seq<byte>) returns (b: Bounds)
    ensures b == ContentBounds(proto, content)
    ensures b.exact >= 0 ==> IsWifi(proto) && b.min <= b.exact <= |content|
    ensures !b.known ==> b.min == 0 && b.exact == -1
  {
    if proto == MsgLogin {
      b := Bounds(9, -1, true);
    } else if proto == MsgTimeSync {
      b := Bounds(0, -1, true);
    } else if proto == MsgStatus {
      b := Bounds(4, -1, true);
    } else if proto == MsgGPS || proto == MsgGPSOffline || proto == MsgGPSLBS || proto == MsgGPS2 {
      b := Bounds(18, -1, true);
    } else if proto == MsgWifiLBS || proto == MsgWifiLBS2 || proto == MsgOfflineWifi || proto == MsgOnlineWifi {
      b := WifiLBSContentBounds(content);
    } else if proto == MsgICCID {
      b := Bounds(1, -1, true);
    } else if proto == MsgParam {
      b := Bounds(0, -1, true);
    } else {
      b := Bounds(0, -1, false);
    }
  }

  /** Five bytes of an extended header leave no content. */
  lemma ShortContent(buf: seq<byte>)
    requires |buf| == 5 && HeaderOf(buf) == Ext
    ensures Cut(buf, Ext) == Incomplete
  {}
}
