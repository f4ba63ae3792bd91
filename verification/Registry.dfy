/** The Paapeli registration cache and the lookup behind it (internal/registry/paapeli.go). Times are
    nanoseconds on one monotone clock. */
module Registry {
  import opened Types

  type Token = string

  const SECOND := 1_000_000_000

  // ----- the cache -----

  datatype Entry = Entry(registered: bool, expires: int)

  type Cache = map<Imei, Entry>

  datatype Config = Config(positiveTTL: int, negativeTTL: int)

  /** How long an answer is kept: the configured time, or a default when that is not positive. */
  function TTL(cfg: Config, registered: bool): (ttl: int)
    ensures ttl > 0
  {
    var ttl := if registered then cfg.positiveTTL else cfg.negativeTTL;
    if ttl > 0 then ttl else if registered then 30 * 60 * SECOND else 60 * SECOND
  }

  /** An entry serves until its expiry, that instant included. */
  function Hit(cache: Cache, imei: Imei, now: int): Option<bool> {
    if imei in cache && now <= cache[imei].expires then Some(cache[imei].registered) else None
  }

  function Filled(cfg: Config, cache: Cache, imei: Imei, registered: bool, now: int): Cache {
    cache[imei := Entry(registered, now + TTL(cfg, registered))]
  }

  // ----- one lookup -----

  /** Replies to the login and to the tracker request; a body that does not decode is None. */
  datatype Reply<T> = Unreachable | Reply(status: int, body: Option<T>)

  /** What the network would answer to the two requests of one attempt. */
  datatype Attempt = Attempt(login: Reply<Token>, tracker: Reply<bool>)

  datatype Outcome = Failed | Answered(registered: bool)

  datatype Request = LoginRequest | TrackerRequest(imei: Imei, token: Token)

  predicate Success(status: int) { 200 <= status < 300 }

  /** The token of a login reply, empty if the login failed. */
  function Granted(r: Reply<Token>): Token {
    if r.Reply? && Success(r.status) && r.body.Some? then r.body.value else ""
  }

  /** A tracker reply other than one that is retried. */
  function Verdict(r: Reply<bool>): Outcome {
    if r.Unreachable? then Failed
    else if r.status == 404 then Answered(false)
    else if !Success(r.status) || r.body.None? then Failed
    else Answered(r.body.value)
  }

  predicate Unauthorized(r: Reply<bool>) { r.Reply? && r.status == 401 }

  function Held(token: Token, login: Reply<Token>): Token { if token != "" then token else Granted(login) }

  /** What a lookup comes to: the verdict of the last tracker request that could be made. */
  function Result(token: Token, allowRetry: bool, first: Attempt, second: Attempt): Outcome {
    if Held(token, first.login) == "" then Failed
    else if !Unauthorized(first.tracker) || !allowRetry then Verdict(first.tracker)
    else if Granted(second.login) == "" then Failed
    else Verdict(second.tracker)
  }

  /** The token it leaves behind. */
  function TokenLeft(token: Token, allowRetry: bool, first: Attempt, second: Attempt): Token {
    if Held(token, first.login) != "" && Unauthorized(first.tracker) && allowRetry then Granted(second.login)
    else Held(token, first.login)
  }

  /** The requests it makes: a login without a token, the tracker request with one, and after a
      first 401 both again with a new token. */
  function Requests(imei: Imei, token: Token, allowRetry: bool, first: Attempt, second: Attempt): seq<Request> {
    var opening := if token != "" then [] else [LoginRequest];
    var held := Held(token, first.login);
    if held == "" then opening
    else if !Unauthorized(first.tracker) || !allowRetry then opening + [TrackerRequest(imei, held)]
    else
      var renewed := Granted(second.login);
      opening + [TrackerRequest(imei, held), LoginRequest]
      + (if renewed != "" then [TrackerRequest(imei, renewed)] else [])
  }

  /** However the network answers: at most four requests, tracker requests only with a token, and an
      answer only from a last tracker request made with the token that is left. */
  lemma RequestsAreBounded(imei: Imei, token: Token, allowRetry: bool, first: Attempt, second: Attempt)
    ensures var rs := Requests(imei, token, allowRetry, first, second);
      && |rs| <= 4
      && (forall i :: 0 <= i < |rs| && rs[i].TrackerRequest? ==> rs[i].imei == imei && rs[i].token != "")
      && (Result(token, allowRetry, first, second).Answered? ==>
            rs != [] && rs[|rs| - 1] == TrackerRequest(imei, TokenLeft(token, allowRetry, first, second)))
  {}

  // the same in status codes

  /** The reply tells whether the tracker is registered: 404 for no, or a 2xx with a body that says. */
  predicate Tells(r: Reply<bool>, registered: bool) {
    r.Reply? && ((r.status == 404 && !registered) || (200 <= r.status <= 299 && r.body == Some(registered)))
  }

  /** The login grants a token: a 2xx with a token that is not empty. */
  predicate Grants(r: Reply<Token>, token: Token) {
    r.Reply? && 200 <= r.status <= 299 && r.body == Some(token) && token != ""
  }

  predicate Refuses(r: Reply<Token>) {
    r.Reply? && 200 <= r.status <= 299 ==> r.body == None || r.body == Some("")
  }

  /** A token is held or granted, and the tracker reply tells; after a 401 both must happen anew. */
  predicate LookupTells(token: Token, first: Attempt, second: Attempt, registered: bool) {
    && (token != "" || !Refuses(first.login))
    && if first.tracker.Reply? && first.tracker.status == 401
       then !Refuses(second.login) && Tells(second.tracker, registered)
       else Tells(first.tracker, registered)
  }

  lemma ResultInStatusCodes(token: Token, first: Attempt, second: Attempt)
    ensures forall b :: Result(token, true, first, second) == Answered(b) <==> LookupTells(token, first, second, b)
  {}

  /** The requests and the token left, case by case. */
  lemma RequestsInStatusCodes(imei: Imei, token: Token, first: Attempt, second: Attempt, held: Token, renewed: Token)
    requires if token != "" then held == token else Grants(first.login, held) || (held == "" && Refuses(first.login))
    requires Grants(second.login, renewed) || (renewed == "" && Refuses(second.login))
    ensures var opening := if token != "" then [] else [LoginRequest];
      var requests, left := Requests(imei, token, true, first, second), TokenLeft(token, true, first, second);
      if held == "" then requests == opening && left == ""
      else if !(first.tracker.Reply? && first.tracker.status == 401) then
        requests == opening + [TrackerRequest(imei, held)] && left == held
      else if renewed == "" then requests == opening + [TrackerRequest(imei, held), LoginRequest] && left == ""
      else
        && requests == opening + [TrackerRequest(imei, held), LoginRequest, TrackerRequest(imei, renewed)]
        && left == renewed
  {}

  class PaapeliClient {
    const cfg: Config
    var token: Token
    var cache: Cache

    constructor (cfg: Config)
      ensures this.cfg == cfg && token == "" && cache == map[]
    {
      this.cfg, token, cache := cfg, "", map[];
    }

    method CacheGet(imei: Imei, now: int) returns (registered: bool, ok: bool)
      ensures ok <==> Hit(cache, imei, now).Some?
      ensures ok ==> registered == Hit(cache, imei, now).value
    {
      if imei !in cache || now > cache[imei].expires {
        return false, false;
      }
      return cache[imei].registered, true;
    }

    method CacheSet(imei: Imei, registered: bool, now: int)
      modifies this`cache
      ensures cache == Filled(cfg, old(cache), imei, registered, now)
    {
      var ttl := cfg.negativeTTL;
      if registered {
        ttl := cfg.positiveTTL;
      }
      if ttl <= 0 {
        if registered {
          ttl := 30 * 60 * SECOND;
        } else {
          ttl := 60 * SECOND;
        }
      }
      cache := cache[imei := Entry(registered, now + ttl)];
    }

    method EnsureToken(login: Reply<Token>) returns (ok: bool, requests: seq<Request>)
      modifies this`token
      ensures ok <==> token != ""
      ensures token == if old(token) != "" then old(token) else Granted(login)
      ensures requests == if old(token) != "" then [] else [LoginRequest]
    {
      if token != "" {
        return true, [];
      }
      if login.Reply? && Success(login.status) && login.body.Some? && login.body.value != "" {
        token := login.body.value;
        return true, [LoginRequest];
      }
      return false, [LoginRequest];
    }

    /** A reply of 401 drops the token and, the first time, asks once more with a new one. A second
        401 is an error like any other, and its token stays. */
    method Fetch(imei: Imei, allowRetry: bool, first: Attempt, second: Attempt)
      returns (out: Outcome, requests: seq<Request>)
      modifies this`token
      ensures out == Result(old(token), allowRetry, first, second)
      ensures token == TokenLeft(old(token), allowRetry, first, second)
      ensures requests == Requests(imei, old(token), allowRetry, first, second)
      decreases allowRetry
    {
      var ok;
      ok, requests := EnsureToken(first.login);
      if !ok {
        return Failed, requests;
      }
      requests := requests + [TrackerRequest(imei, token)];
      var reply := first.tracker;
      if reply.Unreachable? {
        return Failed, requests;
      }
      if reply.status == 401 && allowRetry {
        token := "";
        var more;
        out, more := Fetch(imei, false, second, second);
        return out, requests + more;
      }
      if reply.status == 404 {
        return Answered(false), requests;
      }
      if reply.status < 200 || reply.status >= 300 || reply.body.None? {
        return Failed, requests;
      }
      return Answered(reply.body.value), requests;
    }

    /** Errors answer false and are not cached; the empty identity is never looked up. */
    method IsRegistered(imei: Imei, getAt: int, setAt: int, first: Attempt, second: Attempt)
      returns (registered: bool, requests: seq<Request>)
      modifies this
      ensures imei == [] || Hit(old(cache), imei, getAt).Some? ==>
        cache == old(cache) && token == old(token) && requests == []
      ensures imei == [] ==> !registered
      ensures imei != [] && Hit(old(cache), imei, getAt).Some? ==> registered == Hit(old(cache), imei, getAt).value
      ensures imei != [] && Hit(old(cache), imei, getAt).None? ==>
        token == TokenLeft(old(token), true, first, second) && requests == Requests(imei, old(token), true, first, second)
      ensures imei != [] && Hit(old(cache), imei, getAt).None? ==>
        match Result(old(token), true, first, second)
        case Failed => !registered && cache == old(cache)
        case Answered(said) => registered == said && cache == Filled(cfg, old(cache), imei, said, setAt)
      ensures imei != [] && Hit(old(cache), imei, getAt).None? ==>
        if LookupTells(old(token), first, second, true) then
          registered && cache == Filled(cfg, old(cache), imei, true, setAt)
        else if LookupTells(old(token), first, second, false) then
          !registered && cache == Filled(cfg, old(cache), imei, false, setAt)
        else !registered && cache == old(cache)
    {
      requests := [];
      if imei == [] {
        return false, [];
      }
      var ok;
      registered, ok := CacheGet(imei, getAt);
      if ok {
        return;
      }
      var out;
      out, requests := Fetch(imei, true, first, second);
      ResultInStatusCodes(old(token), first, second);
      if out.Failed? {
        return false, requests;
      }
      CacheSet(imei, out.registered, setAt);
      registered := out.registered;
    }
  }

  // ----- any number of lookups at once -----

  /** The atomic steps of concurrent lookups: reading the cache, storing what the remote said at an
      earlier instant, and giving up. */
  datatype Step =
    | Get(imei: Imei, at: int)
    | Fill(imei: Imei, at: int, asked: int, said: bool)
    | GiveUp(imei: Imei, at: int)

  /** An answer handed to a caller. */
  datatype Answer = Answer(imei: Imei, at: int, registered: bool, failed: bool)

  function After(cfg: Config, cache: Cache, step: Step): Cache {
    if step.Fill? then Filled(cfg, cache, step.imei, step.said, step.at) else cache
  }

  function Given(cache: Cache, step: Step): seq<Answer> {
    match step
    case Get(k, at) => if Hit(cache, k, at).Some? then [Answer(k, at, Hit(cache, k, at).value, false)] else []
    case Fill(k, at, _, said) => [Answer(k, at, said, false)]
    case GiveUp(k, at) => [Answer(k, at, false, true)]
  }

  function Answers(cfg: Config, cache: Cache, steps: seq<Step>): seq<Answer>
    decreases |steps|
  {
    if steps == [] then [] else Given(cache, steps[0]) + Answers(cfg, After(cfg, cache, steps[0]), steps[1..])
  }

  /** What the remote would say of each tracker at each instant. */
  type Remote = (Imei, int) -> bool

  /** Steps in the order of the clock, each fill at most `latency` after the remote said so. */
  ghost predicate Timed(remote: Remote, latency: nat, now: int, steps: seq<Step>) {
    && (forall i :: 0 <= i < |steps| ==> now <= steps[i].at)
    && (forall i, j :: 0 <= i < j < |steps| ==> steps[i].at <= steps[j].at)
    && (forall i :: 0 <= i < |steps| && steps[i].Fill? ==> Honest(remote, latency, steps[i]))
  }

  ghost predicate Honest(remote: Remote, latency: nat, step: Step)
    requires step.Fill?
  {
    step.asked <= step.at <= step.asked + latency && step.said == remote(step.imei, step.asked)
  }

  /** The remote said so at some instant between `from` and `to`. */
  ghost predicate Said(remote: Remote, imei: Imei, registered: bool, from: int, to: int) {
    exists u :: from <= u <= to && remote(imei, u) == registered
  }

  ghost predicate Backed(cfg: Config, remote: Remote, latency: nat, now: int, cache: Cache) {
    forall k :: k in cache ==>
      var e := cache[k];
      var stored := e.expires - TTL(cfg, e.registered);
      stored <= now && Said(remote, k, e.registered, stored - latency, stored)
  }

  ghost predicate BackedAnswer(cfg: Config, remote: Remote, latency: nat, a: Answer) {
    if a.failed then !a.registered
    else Said(remote, a.imei, a.registered, a.at - TTL(cfg, a.registered) - latency, a.at)
  }

  lemma CacheStaysBacked(cfg: Config, remote: Remote, latency: nat, now: int, cache: Cache, step: Step)
    requires Backed(cfg, remote, latency, now, cache) && now <= step.at
    requires step.Fill? ==> Honest(remote, latency, step)
    ensures Backed(cfg, remote, latency, step.at, After(cfg, cache, step))
  {}

  lemma SaidStays(remote: Remote, imei: Imei, b: bool, from: int, to: int, wider: int, later: int)
    requires Said(remote, imei, b, from, to) && wider <= from && to <= later
    ensures Said(remote, imei, b, wider, later)
  {}

  lemma GivenIsBacked(cfg: Config, remote: Remote, latency: nat, now: int, cache: Cache, step: Step)
    requires Backed(cfg, remote, latency, now, cache) && now <= step.at
    requires step.Fill? ==> Honest(remote, latency, step)
    ensures forall a :: a in Given(cache, step) ==> BackedAnswer(cfg, remote, latency, a)
  {
    if step.Get? && Hit(cache, step.imei, step.at).Some? {
      hide Said;
      var e := cache[step.imei];
      var stored := e.expires - TTL(cfg, e.registered);
      SaidStays(remote, step.imei, e.registered, stored - latency, stored,
                step.at - TTL(cfg, e.registered) - latency, step.at);
    }
  }

  lemma {:induction false} AnswersAreBacked(
    cfg: Config, remote: Remote, latency: nat, now: int, cache: Cache, steps: seq<Step>, i: nat)
    requires Backed(cfg, remote, latency, now, cache) && Timed(remote, latency, now, steps)
    requires i < |Answers(cfg, cache, steps)|
    ensures BackedAnswer(cfg, remote, latency, Answers(cfg, cache, steps)[i])
    decreases |steps|
  {
    hide Backed, BackedAnswer, After, Given;
    CacheStaysBacked(cfg, remote, latency, now, cache, steps[0]);
    GivenIsBacked(cfg, remote, latency, now, cache, steps[0]);
    var given := Given(cache, steps[0]);
    if i < |given| {
      assert given[i] in given;
    } else {
      AnswersAreBacked(cfg, remote, latency, steps[0].at, After(cfg, cache, steps[0]), steps[1..], i - |given|);
    }
  }

  /** For every interleaving of lookups: a `true` at time t means that the remote called the tracker
      registered no earlier than t less the positive TTL and the latency of a fill. */
  lemma TrueIsRecent(cfg: Config, remote: Remote, latency: nat, now: int, steps: seq<Step>, i: nat)
    requires Timed(remote, latency, now, steps) && i < |Answers(cfg, map[], steps)|
    ensures var a := Answers(cfg, map[], steps)[i];
      a.registered ==> Said(remote, a.imei, true, a.at - TTL(cfg, true) - latency, a.at)
  {
    AnswersAreBacked(cfg, remote, latency, now, map[], steps, i);
  }

  /** Once the remote has settled on one answer for a tracker, every lookup that does not fail gives
      it as soon as the opposite answer's TTL and the latency of a fill have passed. */
  lemma SettledAnswersFollow(
    cfg: Config, remote: Remote, latency: nat, now: int, steps: seq<Step>, i: nat, from: int, b: bool)
    requires Timed(remote, latency, now, steps) && i < |Answers(cfg, map[], steps)|
    requires var a := Answers(cfg, map[], steps)[i];
      && !a.failed && a.at >= from + TTL(cfg, !b) + latency
      && forall u :: u >= from ==> remote(a.imei, u) == b
    ensures Answers(cfg, map[], steps)[i].registered == b
  {
    AnswersAreBacked(cfg, remote, latency, now, map[], steps, i);
  }

  /** The bound of TrueIsRecent is met: an answer of `true` can be that old. */
  lemma TrueCanBeThatOld(cfg: Config, latency: nat, k: Imei)
    ensures var remote: Remote := (j, u) => u <= 0;
      var steps := [Fill(k, latency, 0, true), Get(k, latency + TTL(cfg, true))];
      && Timed(remote, latency, 0, steps)
      && Answers(cfg, map[], steps) == [Answer(k, latency, true, false), Answer(k, latency + TTL(cfg, true), true, false)]
  {
    var last := [Get(k, latency + TTL(cfg, true))];
    var cache := Filled(cfg, map[], k, true, latency);
    assert Answers(cfg, cache, last) == Given(cache, last[0]) + Answers(cfg, cache, last[1..]);
    assert [Fill(k, latency, 0, true), last[0]][1..] == last;
  }

  // ----- the same with the configured times -----

  /** A `true` at t: the remote called the tracker registered within the positive time and the latency
      before t. With no positive time configured that is half an hour. */
  lemma TrueWithinPositiveTime(
    cfg: Config, remote: Remote, latency: nat, now: int, steps: seq<Step>, i: nat, yes: int)
    requires Timed(remote, latency, now, steps) && i < |Answers(cfg, map[], steps)|
    requires if cfg.positiveTTL > 0 then yes == cfg.positiveTTL else yes == 1_800_000_000_000
    ensures var a := Answers(cfg, map[], steps)[i];
      a.registered ==> exists u :: a.at - yes - latency <= u <= a.at && remote(a.imei, u)
  {
    hide Answers, Timed;
    TrueIsRecent(cfg, remote, latency, now, steps, i);
  }

  /** Such an answer can be that old. */
  lemma PositiveTimeIsMet(cfg: Config, latency: nat, k: Imei, yes: int)
    requires if cfg.positiveTTL > 0 then yes == cfg.positiveTTL else yes == 1_800_000_000_000
    ensures var remote: Remote := (j, u) => u <= 0;
      var steps := [Fill(k, latency, 0, true), Get(k, latency + yes)];
      && Timed(remote, latency, 0, steps)
      && Answers(cfg, map[], steps) == [Answer(k, latency, true, false), Answer(k, latency + yes, true, false)]
  {
    assert TTL(cfg, true) == yes;
    TrueCanBeThatOld(cfg, latency, k);
  }

  /** A remote settled on registered since `from` is followed once the negative time and the latency have
      passed: a minute when no negative time is configured. */
  lemma ClaimIsFollowed(
    cfg: Config, remote: Remote, latency: nat, now: int, steps: seq<Step>, i: nat, from: int, no: int)
    requires Timed(remote, latency, now, steps) && i < |Answers(cfg, map[], steps)|
    requires if cfg.negativeTTL > 0 then no == cfg.negativeTTL else no == 60_000_000_000
    requires var a := Answers(cfg, map[], steps)[i];
      !a.failed && a.at >= from + no + latency && forall u :: u >= from ==> remote(a.imei, u)
    ensures Answers(cfg, map[], steps)[i].registered
  {
    hide Answers, Timed;
    SettledAnswersFollow(cfg, remote, latency, now, steps, i, from, true);
  }

  /** And one settled on unregistered once the positive time and the latency have passed. */
  lemma ReleaseIsFollowed(
    cfg: Config, remote: Remote, latency: nat, now: int, steps: seq<Step>, i: nat, from: int, yes: int)
    requires Timed(remote, latency, now, steps) && i < |Answers(cfg, map[], steps)|
    requires if cfg.positiveTTL > 0 then yes == cfg.positiveTTL else yes == 1_800_000_000_000
    requires var a := Answers(cfg, map[], steps)[i];
      !a.failed && a.at >= from + yes + latency && forall u :: u >= from ==> !remote(a.imei, u)
    ensures !Answers(cfg, map[], steps)[i].registered
  {
    hide Answers, Timed;
    SettledAnswersFollow(cfg, remote, latency, now, steps, i, from, false);
  }

  /** The negative bound is met as well: an answer of `false` can be that old. */
  lemma NegativeTimeIsMet(cfg: Config, latency: nat, k: Imei, no: int)
    requires if cfg.negativeTTL > 0 then no == cfg.negativeTTL else no == 60_000_000_000
    ensures var remote: Remote := (j, u) => u > 0;
      var steps := [Fill(k, latency, 0, false), Get(k, latency + no)];
      && Timed(remote, latency, 0, steps)
      && Answers(cfg, map[], steps) == [Answer(k, latency, false, false), Answer(k, latency + no, false, false)]
  {
    assert TTL(cfg, false) == no;
    var last := [Get(k, latency + no)];
    var cache := Filled(cfg, map[], k, false, latency);
    assert Answers(cfg, cache, last) == Given(cache, last[0]) + Answers(cfg, cache, last[1..]);
    assert [Fill(k, latency, 0, false), last[0]][1..] == last;
  }
}
