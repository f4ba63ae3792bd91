/** Both kinds of frame byte by byte: what extraction makes of literal layouts
    (internal/protocol/frame.go). */
module WireFormat {
  import opened Bytes
  import opened Framing
  import opened FramingTheorems
  import opened WifiFraming
  import opened WifiNumbers
  import W = WifiLbs

  // ----- the protocol numbers -----

  predicate CarriesWifi(proto: byte) { proto == 0x17 || proto == 0x1A || proto == 0x1B || proto == 0x69 }

  predicate CarriesFix(proto: byte) { proto == 0x10 || proto == 0x11 || proto == 0x12 || proto == 0x22 }

  /** Login nine bytes, status four, a fix eighteen, an ICCID one, a report its datetime. */
  function Least(proto: byte): nat {
    if proto == 0x01 then 9
    else if proto == 0x13 then 4
    else if CarriesFix(proto) then 18
    else if CarriesWifi(proto) then 6
    else if proto == 0xB3 then 1
    else 0
  }

  lemma ProtocolNumbers(proto: byte)
    ensures IsWifi(proto) <==> CarriesWifi(proto)
    ensures IsGps(proto) <==> CarriesFix(proto)
    ensures MinContent(proto) == Least(proto)
  {}

  /** The bytes from m on hold no 0D 0A. */
  predicate NoPairFrom(body: seq<byte>, m: nat) {
    m <= |body| && forall i :: m <= i < |body| - 1 ==> !(body[i] == 0x0D && body[i + 1] == 0x0A)
  }

  lemma CleanIsNoPair(body: seq<byte>, m: nat)
    ensures CleanFrom(body, m) <==> NoPairFrom(body, m)
  {
    if NoPairFrom(body, m) {
      forall i | m <= i < |body| ensures !TrailerAt(body, i) {}
    }
    if CleanFrom(body, m) {
      forall i | m <= i < |body| - 1 ensures !(body[i] == 0x0D && body[i + 1] == 0x0A) { assert !TrailerAt(body, i); }
    }
  }

  // ----- resynchronisation -----

  /** 78 78 or 79 79. */
  predicate StartsAt(b: seq<byte>, i: nat) {
    i + 1 < |b| && b[i] == b[i + 1] && (b[i] == 0x78 || b[i] == 0x79)
  }

  lemma HeaderIsStart(b: seq<byte>, i: nat)
    ensures HeaderAt(b, i) <==> StartsAt(b, i)
  {}

  /** Below five bytes extraction waits. Without a start it drops everything, in front of the first start
      everything up to it; at a start it waits or takes a prefix that ends in 0D 0A. */
  lemma OutcomeInBytes(b: seq<byte>)
    ensures |b| < 5 ==> Extract(b) == Incomplete
    ensures |b| >= 5 ==>
      match Extract(b)
      case Incomplete => StartsAt(b, 0)
      case BadHeader(n) =>
        0 < n <= |b| && (n == |b| || StartsAt(b, n)) && forall i :: 0 <= i < n ==> !StartsAt(b, i)
      case Got(f, n) =>
        && StartsAt(b, 0) && 6 <= n <= |b| && f.raw == b[..n] && b[n - 2] == 0x0D && b[n - 1] == 0x0A
        && f.proto == (if b[0] == 0x78 then b[3] else b[4])
      case BadLength(_) => false
  {
    ExtractShape(b);
    ShortWaits(b);
    forall i: nat ensures HeaderAt(b, i) <==> StartsAt(b, i) { HeaderIsStart(b, i); }
    hide Extract, HeaderAt, StartsAt;
    if Extract(b).Got? { TakenPrefix(Extract(b).frame, b, Extract(b).consumed); }
  }

  lemma ShortWaits(b: seq<byte>)
    ensures |b| < 5 ==> Extract(b) == Incomplete
  {}

  lemma TakenPrefix(f: Frame, b: seq<byte>, n: int)
    requires CutFrom(f, b, n)
    ensures StartsAt(b, 0) && 6 <= n <= |b| && f.raw == b[..n] && b[n - 2] == 0x0D && b[n - 1] == 0x0A
    ensures f.proto == if b[0] == 0x78 then b[3] else b[4]
  {
    HeaderIsStart(b, 0);
  }

  // ----- frames of other protocols -----

  /** 78 78, one length byte of any value, the protocol, the body, 0D 0A. */
  function ShortBytes(a: byte, proto: byte, body: seq<byte>): (raw: seq<byte>)
    ensures |raw| == |body| + 6
  {
    [0x78, 0x78, a, proto] + body + [0x0D, 0x0A]
  }

  /** 79 79, two length bytes of any value, the protocol, the body, 0D 0A. */
  function ExtendedBytes(a: byte, b: byte, proto: byte, body: seq<byte>): (raw: seq<byte>)
    ensures |raw| == |body| + 7
  {
    [0x79, 0x79, a, b, proto] + body + [0x0D, 0x0A]
  }

  lemma ShortIsEncoded(a: byte, proto: byte, body: seq<byte>)
    ensures Prefix(Short) == 4 && Encode(Short, [a], proto, body) == ShortBytes(a, proto, body)
  {
    assert [Mark(Short), Mark(Short)] + [a] + [proto] == [0x78, 0x78, a, proto];
  }

  lemma ExtendedIsEncoded(a: byte, b: byte, proto: byte, body: seq<byte>)
    ensures Prefix(Ext) == 5 && Encode(Ext, [a, b], proto, body) == ExtendedBytes(a, b, proto, body)
  {
    assert [Mark(Ext), Mark(Ext)] + [a, b] + [proto] == [0x79, 0x79, a, b, proto];
  }

  /** Such bytes at the front of a buffer come out as that protocol and body, whatever follows, exactly
      when the body has the least length and no trailer pair from there on. */
  lemma ShortFrameInBytes(a: byte, proto: byte, body: seq<byte>, tail: seq<byte>)
    requires !CarriesWifi(proto)
    ensures var raw := [0x78, 0x78, a, proto] + body + [0x0D, 0x0A];
      Extract(raw + tail) == Got(Frame(proto, body, 0, raw), |body| + 6) <==> NoPairFrom(body, Least(proto))
  {
    hide Extract, Encode, CleanFrom, NoPairFrom;
    ProtocolNumbers(proto);
    ShortIsEncoded(a, proto, body);
    FramedIffClean(Short, [a], proto, body, tail);
    CleanIsNoPair(body, Least(proto));
  }

  lemma ExtendedFrameInBytes(a: byte, b: byte, proto: byte, body: seq<byte>, tail: seq<byte>)
    requires !CarriesWifi(proto)
    ensures var raw := [0x79, 0x79, a, b, proto] + body + [0x0D, 0x0A];
      Extract(raw + tail) == Got(Frame(proto, body, 0, raw), |body| + 7) <==> NoPairFrom(body, Least(proto))
  {
    hide Extract, Encode, CleanFrom, NoPairFrom;
    ProtocolNumbers(proto);
    ExtendedIsEncoded(a, b, proto, body);
    FramedIffClean(Ext, [a, b], proto, body, tail);
    CleanIsNoPair(body, Least(proto));
  }

  // ----- Wi-Fi/LBS frames -----

  /** The first position behind the datetime with a count and a country code leaves room for a network
      code and seven bytes a cell inside the body, and no trailer pair follows them. */
  predicate Roomy(body: seq<byte>) {
    && |body| >= 6
    && exists p :: 0 <= p < |body| - 6 && RoomyAt(body, p)
  }

  predicate RoomyAt(body: seq<byte>, p: nat)
    requires |body| >= 6
  {
    var rest := body[6..];
    && CountAndMcc(rest, p) && (forall i :: 0 <= i < p ==> !CountAndMcc(rest, i))
    && NoPairFrom(body, 10 + p + 7 * rest[p])
  }

  lemma FirstPlausibleInNumbers(rest: seq<byte>)
    ensures var p := FirstPlausible(rest);
      && (forall i :: 0 <= i < (if p == -1 then |rest| else p) ==> !CountAndMcc(rest, i))
      && (p != -1 ==> p < |rest| && CountAndMcc(rest, p))
  {
    hide FirstPlausible;
    forall i: nat ensures W.Plausible(rest, i) <==> CountAndMcc(rest, i) {}
  }

  lemma ImmuneIsRoomy(body: seq<byte>)
    ensures Immune(body) <==> Roomy(body)
  {
    hide FirstPlausible, CleanFrom, NoPairFrom, CountAndMcc;
    if |body| >= 6 {
      var rest := body[6..];
      FirstPlausibleInNumbers(rest);
      var p := FirstPlausible(rest);
      if p != -1 {
        CleanIsNoPair(body, 10 + p + 7 * rest[p]);
        CleanWithin(body, 10 + p + 7 * rest[p]);
        if Immune(body) { assert RoomyAt(body, p); }
      }
      if Roomy(body) {
        var q :| 0 <= q < |body| - 6 && RoomyAt(body, q);
        assert p != -1 && !(p < q) && !(q < p);
      }
    }
  }

  lemma CleanWithin(body: seq<byte>, m: nat)
    ensures CleanFrom(body, m) ==> m <= |body|
  {}

  /** What the search for a header is shown of a report: its rest, the trailer and everything behind. */
  function InView(body: seq<byte>, tail: seq<byte>): seq<byte>
    requires |body| >= 6
  {
    body[6..] + ([0x0D, 0x0A] + tail)
  }

  /** Where the trailer is searched from: behind the cells of the header that fits first, at seven bytes
      each if they fit and else at six; or behind the datetime. */
  function SearchedFrom(body: seq<byte>, tail: seq<byte>, s: int): nat
    requires |body| >= 6 && FirstFit(InView(body, tail), s)
  {
    var view := InView(body, tail);
    if s == -1 then 6
    else if s + 4 + 7 * view[s] <= |view| then 10 + s + 7 * view[s]
    else 10 + s + 6 * view[s]
  }

  lemma BoundInNumbers(proto: byte, body: seq<byte>, tail: seq<byte>, s: int)
    requires IsWifi(proto) && |body| >= 6 && FirstFit(InView(body, tail), s)
    ensures SearchFrom(proto, body + TRAILER + tail) == SearchedFrom(body, tail, s)
  {
    RestOfContent(body, tail);
    HeaderInNumbers(InView(body, tail), s);
    hide W.FindHeader;
  }

  /** Every report before every tail: it comes out right exactly when its body holds no trailer pair from
      that position on, and reaches it. */
  lemma ReportInBytes(a: byte, b: byte, proto: byte, body: seq<byte>, tail: seq<byte>, s: int)
    requires CarriesWifi(proto) && |body| >= 6 && FirstFit(InView(body, tail), s)
    ensures var raw := [0x78, 0x78, a, proto] + body + [0x0D, 0x0A];
      Extract(raw + tail) == Got(Frame(proto, body, 0, raw), |body| + 6) <==> NoPairFrom(body, SearchedFrom(body, tail, s))
    ensures var raw := [0x79, 0x79, a, b, proto] + body + [0x0D, 0x0A];
      Extract(raw + tail) == Got(Frame(proto, body, 0, raw), |body| + 7) <==> NoPairFrom(body, SearchedFrom(body, tail, s))
  {
    hide Extract, Encode, CleanFrom, NoPairFrom, SearchFrom, SearchedFrom, FirstFit;
    ProtocolNumbers(proto);
    BoundInNumbers(proto, body, tail, s);
    ShortIsEncoded(a, proto, body);
    ExtendedIsEncoded(a, b, proto, body);
    FramedIffOwnTrailer(Short, [a], proto, body, tail);
    FramedIffOwnTrailer(Ext, [a, b], proto, body, tail);
    CleanIsNoPair(body, SearchedFrom(body, tail, s));
  }

  /** A Wi-Fi/LBS frame of either kind comes out right whatever follows exactly when its body is
      roomy. */
  lemma WifiFramesInBytes(a: byte, b: byte, proto: byte, body: seq<byte>)
    requires CarriesWifi(proto)
    ensures var raw := [0x78, 0x78, a, proto] + body + [0x0D, 0x0A];
      (forall tail :: Extract(raw + tail) == Got(Frame(proto, body, 0, raw), |body| + 6)) <==> Roomy(body)
    ensures var raw := [0x79, 0x79, a, b, proto] + body + [0x0D, 0x0A];
      (forall tail :: Extract(raw + tail) == Got(Frame(proto, body, 0, raw), |body| + 7)) <==> Roomy(body)
  {
    hide Extract, Encode, Immune, Roomy;
    ProtocolNumbers(proto);
    ImmuneIsRoomy(body);
    ShortIsEncoded(a, proto, body);
    ExtendedIsEncoded(a, b, proto, body);
    FramedWhateverFollowsIffImmune(Short, [a], proto, body);
    FramedWhateverFollowsIffImmune(Ext, [a, b], proto, body);
    var short, extended := ShortBytes(a, proto, body), ExtendedBytes(a, b, proto, body);
    forall tail
      ensures Framed(Short, [a], proto, body, tail) <==>
        Extract(short + tail) == Got(Frame(proto, body, 0, short), |body| + 6)
    {}
    forall tail
      ensures Framed(Ext, [a, b], proto, body, tail) <==>
        Extract(extended + tail) == Got(Frame(proto, body, 0, extended), |body| + 7)
    {}
  }
}
