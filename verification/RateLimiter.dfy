/**
  The sliding-window rate limiter of `/ingest`: a Redis sorted set shared by all processes, and a
  local list used whenever the Redis pipeline raises.

  `Decide` says what one request does to both stores and what becomes of it; a run is a list of
  requests in the order they are served.  The middleware's clock and the server's are one clock.
*/
module RateLimiter {
  import opened Options
  import Sequences

  datatype Config = Config(max: int, window: real)

  // A sorted set whose members are their own scores, so one instant is one member.
  datatype Key = Key(scores: set<real>, expires: Option<real>)

  // What becomes of the pipeline: it answers, or raises before or after being executed.
  datatype Net = Answered | Failed(applied: bool)

  datatype Request = Request(path: string, host: Option<string>, now: real, net: Net)
  {
    predicate Limited() { path == "/ingest" }

    function Client(): string { if host.Some? then host.value else "unknown" }

    predicate Reaches() { net.Answered? || net.applied }
  }

  datatype Outcome = Unlimited | RedisAdmits | RedisRejects | LocalAdmits | LocalRejects

  datatype World = World(redis: map<string, Key>, local: map<string, seq<real>>)

  // ---------------------------------------------------------------- one request

  function Live(redis: map<string, Key>, client: string, now: real): set<real> {
    if client in redis && (redis[client].expires.None? || now < redis[client].expires.value)
    then redis[client].scores else {}
  }

  // ZREMRANGEBYSCORE key 0 cutoff
  function Trim(scores: set<real>, cutoff: real): set<real> {
    set s | s in scores && !(0.0 <= s <= cutoff)
  }

  function Scores(cfg: Config, redis: map<string, Key>, client: string, now: real): set<real> {
    Trim(Live(redis, client, now) + {now}, now - cfg.window)
  }

  // The transaction: add, trim, count, expire.  Redis drops empty sets and keys expired at once.
  function Pipeline(cfg: Config, redis: map<string, Key>, client: string, now: real): map<string, Key> {
    var scores := Scores(cfg, redis, client, now);
    if scores == {} || cfg.window <= 0.0 then redis - {client}
    else redis[client := Key(scores, Some(now + cfg.window))]
  }

  // The instants of `ts` after `cutoff`, in order.
  function Recent(ts: seq<real>, cutoff: real): seq<real> {
    if ts == [] then []
    else
      var rest := Recent(ts[..|ts| - 1], cutoff);
      if ts[|ts| - 1] > cutoff then rest + [ts[|ts| - 1]] else rest
  }

  function Local(w: World, client: string): seq<real> {
    if client in w.local then w.local[client] else []
  }

  function DecideLocally(cfg: Config, w: World, client: string, now: real): (World, Outcome) {
    var kept := Recent(Local(w, client), now - cfg.window);
    if |kept| >= cfg.max then (w.(local := w.local[client := kept]), LocalRejects)
    else (w.(local := w.local[client := kept + [now]]), LocalAdmits)
  }

  function Decide(cfg: Config, w: World, r: Request): (World, Outcome) {
    if !r.Limited() then (w, Unlimited)
    else
      var c := r.Client();
      var w' := if r.Reaches() then w.(redis := Pipeline(cfg, w.redis, c, r.now)) else w;
      if r.net.Failed? then DecideLocally(cfg, w', c, r.now)
      else (w', if |Scores(cfg, w.redis, c, r.now)| > cfg.max then RedisRejects else RedisAdmits)
  }

  // ---------------------------------------------------------------- runs

  function After(cfg: Config, rs: seq<Request>): World {
    if rs == [] then World(map[], map[])
    else Decide(cfg, After(cfg, rs[..|rs| - 1]), rs[|rs| - 1]).0
  }

  // The outcome of the last request of a run.
  function Last(cfg: Config, rs: seq<Request>): Outcome
    requires rs != []
  {
    Decide(cfg, After(cfg, rs[..|rs| - 1]), rs[|rs| - 1]).1
  }

  predicate Mine(r: Request, c: string) {
    r.Limited() && r.Client() == c
  }

  // The instants of the requests of client `c` that `pick` selects.
  function Times(cfg: Config, rs: seq<Request>, c: string, pick: (Request, Outcome) -> bool): seq<real> {
    if rs == [] then []
    else
      var r := rs[|rs| - 1];
      var rest := Times(cfg, rs[..|rs| - 1], c, pick);
      if Mine(r, c) && pick(r, Last(cfg, rs)) then rest + [r.now] else rest
  }

  predicate ReachesRedis(r: Request, o: Outcome) { r.Reaches() }

  predicate ByRedis(r: Request, o: Outcome) { o == RedisAdmits }

  predicate ByLocal(r: Request, o: Outcome) { o == LocalAdmits }

  predicate ByEither(r: Request, o: Outcome) { o == RedisAdmits || o == LocalAdmits }

  function Applied(cfg: Config, rs: seq<Request>, c: string): seq<real> {
    Times(cfg, rs, c, ReachesRedis)
  }

  function RedisAdmitted(cfg: Config, rs: seq<Request>, c: string): seq<real> {
    Times(cfg, rs, c, ByRedis)
  }

  function LocallyAdmitted(cfg: Config, rs: seq<Request>, c: string): seq<real> {
    Times(cfg, rs, c, ByLocal)
  }

  function Admitted(cfg: Config, rs: seq<Request>, c: string): seq<real> {
    Times(cfg, rs, c, ByEither)
  }

  // Times of one client never go back, and are not before the epoch.
  ghost predicate InOrder(rs: seq<Request>, c: string) {
    && (forall i :: 0 <= i < |rs| && Mine(rs[i], c) ==> rs[i].now >= 0.0)
    && (forall i, j :: 0 <= i < j < |rs| && Mine(rs[i], c) && Mine(rs[j], c) ==> rs[i].now <= rs[j].now)
  }

  ghost predicate Strictly(rs: seq<Request>, c: string) {
    forall i, j :: 0 <= i < j < |rs| && Mine(rs[i], c) && Mine(rs[j], c) ==> rs[i].now < rs[j].now
  }

  // ---------------------------------------------------------------- lists of instants

  function SetOf(ts: seq<real>): set<real> {
    set t | t in ts
  }

  ghost predicate Rising(ts: seq<real>) {
    forall i, j :: 0 <= i < j < |ts| ==> ts[i] < ts[j]
  }

  lemma {:induction false} RecentContent(ts: seq<real>, cutoff: real)
    ensures forall t :: t in Recent(ts, cutoff) <==> t in ts && t > cutoff
  {
    if ts != [] {
      RecentContent(ts[..|ts| - 1], cutoff);
    }
  }

  lemma {:induction false} RecentTwice(ts: seq<real>, k: real, cutoff: real)
    requires k <= cutoff
    ensures Recent(Recent(ts, k), cutoff) == Recent(ts, cutoff)
  {
    if ts != [] {
      var init, t := ts[..|ts| - 1], ts[|ts| - 1];
      RecentTwice(init, k, cutoff);
      assert (Recent(init, k) + [t])[..|Recent(init, k)|] == Recent(init, k);
    }
  }

  lemma {:induction false} SetSize(ts: seq<real>)
    ensures |SetOf(ts)| <= |ts|
    ensures Rising(ts) ==> |SetOf(ts)| == |ts|
  {
    if ts == [] {
      assert SetOf(ts) == {};
    } else {
      var init, t := ts[..|ts| - 1], ts[|ts| - 1];
      SetSize(init);
      assert SetOf(ts) == SetOf(init) + {t};
    }
  }

  lemma RisingOneMore(ts: seq<real>, t: real)
    requires Rising(ts) && forall x <- ts :: x < t
    ensures Rising(ts + [t])
  {
    forall i, j | 0 <= i < j < |ts + [t]| ensures (ts + [t])[i] < (ts + [t])[j] {
      assert ts[i] in ts;
    }
  }

  lemma {:induction false} RecentRises(ts: seq<real>, cutoff: real)
    requires Rising(ts)
    ensures Rising(Recent(ts, cutoff))
  {
    if ts != [] {
      var init, t := ts[..|ts| - 1], ts[|ts| - 1];
      RecentRises(init, cutoff);
      RecentContent(init, cutoff);
      if t > cutoff {
        RisingOneMore(Recent(init, cutoff), t);
      }
    }
  }

  // ---------------------------------------------------------------- what the stores hold

  lemma InOrderInit(rs: seq<Request>, c: string)
    requires rs != [] && InOrder(rs, c)
    ensures InOrder(rs[..|rs| - 1], c)
  {
  }

  ghost predicate UpTo(ts: seq<real>, now: real) {
    forall t <- ts :: 0.0 <= t <= now
  }

  // The client's requests lie between the epoch and `now`.
  ghost predicate Earlier(rs: seq<Request>, c: string, now: real) {
    forall i :: 0 <= i < |rs| && Mine(rs[i], c) ==> 0.0 <= rs[i].now <= now
  }

  lemma {:induction false} TimesUpTo(cfg: Config, rs: seq<Request>, c: string, pick: (Request, Outcome) -> bool,
                                     now: real)
    requires Earlier(rs, c, now)
    ensures UpTo(Times(cfg, rs, c, pick), now)
  {
    if rs != [] {
      TimesUpTo(cfg, rs[..|rs| - 1], c, pick, now);
    }
  }

  ghost predicate Before(rs: seq<Request>, c: string, now: real) {
    forall i :: 0 <= i < |rs| && Mine(rs[i], c) ==> rs[i].now < now
  }

  lemma {:induction false} TimesBefore(cfg: Config, rs: seq<Request>, c: string, pick: (Request, Outcome) -> bool,
                                       now: real)
    requires Before(rs, c, now)
    ensures forall t <- Times(cfg, rs, c, pick) :: t < now
  {
    if rs != [] {
      TimesBefore(cfg, rs[..|rs| - 1], c, pick, now);
    }
  }

  lemma {:induction false} TimesRise(cfg: Config, rs: seq<Request>, c: string, pick: (Request, Outcome) -> bool)
    requires Strictly(rs, c)
    ensures Rising(Times(cfg, rs, c, pick))
  {
    if rs != [] {
      var init, r := rs[..|rs| - 1], rs[|rs| - 1];
      TimesRise(cfg, init, c, pick);
      if Mine(r, c) {
        TimesBefore(cfg, init, c, pick, r.now);
        RisingOneMore(Times(cfg, init, c, pick), r.now);
      }
    }
  }

  // The key of a client that last reached the server at the end of `applied`.
  ghost predicate Mirrors(cfg: Config, redis: map<string, Key>, c: string, applied: seq<real>) {
    if applied == [] then c !in redis
    else
      var last := applied[|applied| - 1];
      && UpTo(applied, last)
      && c in redis && redis[c] == Key(SetOf(Recent(applied, last - cfg.window)), Some(last + cfg.window))
  }

  lemma LiveIsRecent(cfg: Config, redis: map<string, Key>, c: string, applied: seq<real>, now: real)
    requires Mirrors(cfg, redis, c, applied) && UpTo(applied, now)
    ensures forall t :: t in Live(redis, c, now) && t > now - cfg.window <==> t in applied && t > now - cfg.window
    ensures forall t <- Live(redis, c, now) :: t >= 0.0
  {
    if applied != [] {
      var last := applied[|applied| - 1];
      RecentContent(applied, last - cfg.window);
      assert last in applied;
    }
  }

  // One pipeline run counts exactly the instants of the window, whether or not the key had expired.
  lemma ScoresAreTheWindow(cfg: Config, redis: map<string, Key>, c: string, applied: seq<real>, now: real)
    requires cfg.window > 0.0 && now >= 0.0 && Mirrors(cfg, redis, c, applied) && UpTo(applied, now)
    ensures Scores(cfg, redis, c, now) == SetOf(Recent(applied + [now], now - cfg.window))
    ensures now in Scores(cfg, redis, c, now)
  {
    LiveIsRecent(cfg, redis, c, applied, now);
    var cutoff := now - cfg.window;
    RecentContent(applied + [now], cutoff);
    forall t ensures t in Scores(cfg, redis, c, now) <==> (t in applied || t == now) && t > cutoff {
      assert t in Live(redis, c, now) && t > cutoff <==> t in applied && t > cutoff;
    }
  }

  lemma PipelineKey(cfg: Config, redis: map<string, Key>, c: string, now: real)
    requires cfg.window > 0.0 && now in Scores(cfg, redis, c, now)
    ensures var redis' := Pipeline(cfg, redis, c, now);
            c in redis' && redis'[c] == Key(Scores(cfg, redis, c, now), Some(now + cfg.window))
  {
  }

  lemma UpToSnoc(ts: seq<real>, now: real)
    requires UpTo(ts, now) && now >= 0.0
    ensures UpTo(ts + [now], now) && (ts + [now])[|ts + [now]| - 1] == now
  {
  }

  lemma PipelineMirrors(cfg: Config, redis: map<string, Key>, c: string, applied: seq<real>, now: real)
    requires cfg.window > 0.0 && now >= 0.0 && Mirrors(cfg, redis, c, applied) && UpTo(applied, now)
    ensures Mirrors(cfg, Pipeline(cfg, redis, c, now), c, applied + [now])
  {
    ScoresAreTheWindow(cfg, redis, c, applied, now);
    PipelineKey(cfg, redis, c, now);
    UpToSnoc(applied, now);
  }

  lemma EarlierRequests(rs: seq<Request>, c: string)
    requires rs != [] && InOrder(rs, c) && Mine(rs[|rs| - 1], c)
    ensures rs[|rs| - 1].now >= 0.0 && Earlier(rs[..|rs| - 1], c, rs[|rs| - 1].now)
  {
  }

  lemma {:induction false} RedisMirrorsTheRun(cfg: Config, rs: seq<Request>, c: string)
    requires cfg.window > 0.0 && InOrder(rs, c)
    ensures Mirrors(cfg, After(cfg, rs).redis, c, Applied(cfg, rs, c))
  {
    if rs != [] {
      var init, r := rs[..|rs| - 1], rs[|rs| - 1];
      InOrderInit(rs, c);
      RedisMirrorsTheRun(cfg, init, c);
      if Mine(r, c) && r.Reaches() {
        EarlierRequests(rs, c);
        TimesUpTo(cfg, init, c, ReachesRedis, r.now);
        PipelineMirrors(cfg, After(cfg, init).redis, c, Applied(cfg, init, c), r.now);
      }
    }
  }

  lemma LocalDecisionMirrors(cfg: Config, w: World, c: string, now: real, cutoff: real, admitted: seq<real>)
    requires Recent(Local(w, c), cutoff) == Recent(admitted, cutoff) && now - cfg.window <= cutoff
    ensures var (w', o) := DecideLocally(cfg, w, c, now);
            Recent(Local(w', c), cutoff) == Recent(if o == LocalAdmits then admitted + [now] else admitted, cutoff)
  {
    var kept := Recent(Local(w, c), now - cfg.window);
    RecentTwice(Local(w, c), now - cfg.window, cutoff);
    RecentSnoc(kept, now, cutoff);
    RecentSnoc(admitted, now, cutoff);
  }

  lemma DecisionMirrors(cfg: Config, w: World, r: Request, c: string, cutoff: real, admitted: seq<real>)
    requires Recent(Local(w, c), cutoff) == Recent(admitted, cutoff)
    requires Mine(r, c) ==> r.now - cfg.window <= cutoff
    ensures var (w', o) := Decide(cfg, w, r);
            Recent(Local(w', c), cutoff)
            == Recent(if Mine(r, c) && o == LocalAdmits then admitted + [r.now] else admitted, cutoff)
  {
    if Mine(r, c) {
      var w' := if r.Reaches() then w.(redis := Pipeline(cfg, w.redis, c, r.now)) else w;
      LocalDecisionMirrors(cfg, w', c, r.now, cutoff, admitted);
    } else {
      assert Local(Decide(cfg, w, r).0, c) == Local(w, c);
    }
  }

  lemma {:induction false} LocalMirrorsTheRun(cfg: Config, rs: seq<Request>, c: string, now: real, cutoff: real)
    requires Earlier(rs, c, now) && now - cfg.window <= cutoff
    ensures Recent(Local(After(cfg, rs), c), cutoff) == Recent(LocallyAdmitted(cfg, rs, c), cutoff)
  {
    if rs != [] {
      var init, r := rs[..|rs| - 1], rs[|rs| - 1];
      LocalMirrorsTheRun(cfg, init, c, now, cutoff);
      DecisionMirrors(cfg, After(cfg, init), r, c, cutoff, LocallyAdmitted(cfg, init, c));
    }
  }

  lemma RecentSnoc(ts: seq<real>, t: real, cutoff: real)
    ensures Recent(ts + [t], cutoff) == Recent(ts, cutoff) + if t > cutoff then [t] else []
  {
    assert (ts + [t])[..|ts|] == ts;
  }

  // ---------------------------------------------------------------- what decides a request

  // The Redis path admits a request exactly when the window ending with it holds at most `max`
  // instants at which the client reached the server, refused requests included.
  lemma RedisCountsInstants(cfg: Config, rs: seq<Request>, c: string)
    requires cfg.window > 0.0 && InOrder(rs, c) && rs != [] && Mine(rs[|rs| - 1], c) && rs[|rs| - 1].net.Answered?
    ensures var now := rs[|rs| - 1].now;
            Last(cfg, rs) == RedisAdmits <==> |SetOf(Recent(Applied(cfg, rs, c), now - cfg.window))| <= cfg.max
  {
    var init, r := rs[..|rs| - 1], rs[|rs| - 1];
    InOrderInit(rs, c);
    RedisMirrorsTheRun(cfg, init, c);
    EarlierRequests(rs, c);
    TimesUpTo(cfg, init, c, ReachesRedis, r.now);
    ScoresAreTheWindow(cfg, After(cfg, init).redis, c, Applied(cfg, init, c), r.now);
  }

  lemma LocalOutcome(cfg: Config, w: World, r: Request)
    requires r.Limited() && r.net.Failed?
    ensures Decide(cfg, w, r).1 == LocalAdmits <==> |Recent(Local(w, r.Client()), r.now - cfg.window)| < cfg.max
  {
  }

  // What the local path finds in the window is what it has admitted there.
  lemma LocalWindow(cfg: Config, rs: seq<Request>, c: string)
    requires InOrder(rs, c) && rs != [] && Mine(rs[|rs| - 1], c)
    ensures var before, cutoff := rs[..|rs| - 1], rs[|rs| - 1].now - cfg.window;
            Recent(Local(After(cfg, before), c), cutoff) == Recent(LocallyAdmitted(cfg, before, c), cutoff)
  {
    EarlierRequests(rs, c);
    LocalMirrorsTheRun(cfg, rs[..|rs| - 1], c, rs[|rs| - 1].now, rs[|rs| - 1].now - cfg.window);
  }

  // The local path admits one exactly when fewer than `max` local admissions are in the window.
  lemma {:induction false} LocalCountsAdmissions(cfg: Config, rs: seq<Request>, c: string)
    requires InOrder(rs, c) && rs != [] && Mine(rs[|rs| - 1], c) && rs[|rs| - 1].net.Failed?
    ensures var now := rs[|rs| - 1].now;
            Last(cfg, rs) == LocalAdmits
            <==> |Recent(LocallyAdmitted(cfg, rs[..|rs| - 1], c), now - cfg.window)| < cfg.max
  {
    LocalWindow(cfg, rs, c);
    LocalOutcome(cfg, After(cfg, rs[..|rs| - 1]), rs[|rs| - 1]);
  }

  // EXPIRE only ever drops what the trim of the same transaction would drop.
  lemma ExpiryNeverChangesACount(cfg: Config, rs: seq<Request>, c: string)
    requires cfg.window > 0.0 && InOrder(rs, c) && rs != [] && Mine(rs[|rs| - 1], c)
    ensures var redis, now := After(cfg, rs[..|rs| - 1]).redis, rs[|rs| - 1].now;
            c in redis ==> Scores(cfg, redis, c, now) == Trim(redis[c].scores + {now}, now - cfg.window)
  {
    var init, r := rs[..|rs| - 1], rs[|rs| - 1];
    var redis, applied := After(cfg, init).redis, Applied(cfg, init, c);
    InOrderInit(rs, c);
    RedisMirrorsTheRun(cfg, init, c);
    EarlierRequests(rs, c);
    TimesUpTo(cfg, init, c, ReachesRedis, r.now);
    if applied != [] {
      LiveIsRecent(cfg, redis, c, applied, r.now);
      RecentContent(applied, applied[|applied| - 1] - cfg.window);
    }
  }

  // ---------------------------------------------------------------- whole runs

  // The instants in (t - window, t].
  function InWindow(ts: seq<real>, t: real, window: real): seq<real> {
    if ts == [] then []
    else
      var rest := InWindow(ts[..|ts| - 1], t, window);
      if t - window < ts[|ts| - 1] <= t then rest + [ts[|ts| - 1]] else rest
  }

  lemma {:induction false} InWindowContent(ts: seq<real>, t: real, window: real)
    ensures forall x :: x in InWindow(ts, t, window) <==> x in ts && t - window < x <= t
  {
    if ts != [] {
      InWindowContent(ts[..|ts| - 1], t, window);
    }
  }

  lemma {:induction false} WindowWithinRecent(ts: seq<real>, t: real, window: real, cutoff: real)
    requires cutoff <= t - window
    ensures |InWindow(ts, t, window)| <= |Recent(ts, cutoff)|
  {
    if ts != [] {
      WindowWithinRecent(ts[..|ts| - 1], t, window, cutoff);
    }
  }

  lemma {:induction false} AdmittedReachedRedis(cfg: Config, rs: seq<Request>, c: string)
    ensures forall t <- RedisAdmitted(cfg, rs, c) :: t in Applied(cfg, rs, c)
  {
    if rs != [] {
      AdmittedReachedRedis(cfg, rs[..|rs| - 1], c);
      forall t | t in RedisAdmitted(cfg, rs, c) ensures t in Applied(cfg, rs, c) {
        if t !in RedisAdmitted(cfg, rs[..|rs| - 1], c) {
          assert t == rs[|rs| - 1].now && Applied(cfg, rs, c) == Applied(cfg, rs[..|rs| - 1], c) + [t];
        }
      }
    }
  }

  lemma SubsetIsNoLarger<T>(a: set<T>, b: set<T>)
    requires a <= b
    ensures |a| <= |b|
  {
    assert b == a + (b - a);
  }

  lemma LastAdmissionBoundsTheWindow(cfg: Config, rs: seq<Request>, c: string, t: real)
    requires cfg.window > 0.0 && InOrder(rs, c) && rs != [] && Mine(rs[|rs| - 1], c)
    requires Last(cfg, rs) == RedisAdmits && t >= rs[|rs| - 1].now
    ensures |SetOf(InWindow(RedisAdmitted(cfg, rs, c), t, cfg.window))| <= cfg.max
  {
    var cutoff := rs[|rs| - 1].now - cfg.window;
    RedisCountsInstants(cfg, rs, c);
    AdmittedReachedRedis(cfg, rs, c);
    InWindowContent(RedisAdmitted(cfg, rs, c), t, cfg.window);
    RecentContent(Applied(cfg, rs, c), cutoff);
    var admitted := SetOf(InWindow(RedisAdmitted(cfg, rs, c), t, cfg.window));
    var counted := SetOf(Recent(Applied(cfg, rs, c), cutoff));
    forall x | x in admitted ensures x in counted {
      assert x in Applied(cfg, rs, c) && x > cutoff;
    }
    SubsetIsNoLarger(admitted, counted);
  }

  // The Redis path admits at at most `max` instants of any window, whatever falls back in between.
  lemma {:induction false} RedisPathIsBounded(cfg: Config, rs: seq<Request>, c: string, t: real)
    requires cfg.window > 0.0 && cfg.max >= 0 && InOrder(rs, c)
    ensures |SetOf(InWindow(RedisAdmitted(cfg, rs, c), t, cfg.window))| <= cfg.max
  {
    if rs == [] {
      assert SetOf(InWindow([], t, cfg.window)) == {};
    } else {
      InOrderInit(rs, c);
      RedisPathIsBounded(cfg, rs[..|rs| - 1], c, t);
      if Mine(rs[|rs| - 1], c) && Last(cfg, rs) == RedisAdmits && t >= rs[|rs| - 1].now {
        LastAdmissionBoundsTheWindow(cfg, rs, c, t);
      }
    }
  }

  // The local path admits at most `max` requests in any window.
  lemma {:induction false} LocalPathIsBounded(cfg: Config, rs: seq<Request>, c: string, t: real)
    requires cfg.max >= 0 && InOrder(rs, c)
    ensures |InWindow(LocallyAdmitted(cfg, rs, c), t, cfg.window)| <= cfg.max
  {
    if rs != [] {
      var init, r := rs[..|rs| - 1], rs[|rs| - 1];
      InOrderInit(rs, c);
      LocalPathIsBounded(cfg, init, c, t);
      if Mine(r, c) && Last(cfg, rs) == LocalAdmits && t >= r.now {
        LocalCountsAdmissions(cfg, rs, c);
        WindowWithinRecent(LocallyAdmitted(cfg, init, c), t, cfg.window, r.now - cfg.window);
      }
    }
  }

  lemma {:induction false} AdmittedOneWay(cfg: Config, rs: seq<Request>, c: string, t: real)
    ensures |InWindow(Admitted(cfg, rs, c), t, cfg.window)|
         == |InWindow(RedisAdmitted(cfg, rs, c), t, cfg.window)|
            + |InWindow(LocallyAdmitted(cfg, rs, c), t, cfg.window)|
  {
    if rs != [] {
      AdmittedOneWay(cfg, rs[..|rs| - 1], c, t);
    }
  }

  // ---------------------------------------------------------------- requests that share an instant

  // How many requests of client `c` carry the time `x`.
  function Sharing(rs: seq<Request>, c: string, x: real): nat {
    if rs == [] then 0
    else Sharing(rs[..|rs| - 1], c, x) + if Mine(rs[|rs| - 1], c) && rs[|rs| - 1].now == x then 1 else 0
  }

  ghost predicate PerInstant(rs: seq<Request>, c: string, m: nat) {
    forall x: real :: Sharing(rs, c, x) <= m
  }

  lemma {:induction false} TimesShare(cfg: Config, rs: seq<Request>, c: string, pick: (Request, Outcome) -> bool,
                                      x: real)
    ensures multiset(Times(cfg, rs, c, pick))[x] <= Sharing(rs, c, x)
  {
    if rs != [] {
      TimesShare(cfg, rs[..|rs| - 1], c, pick, x);
    }
  }

  lemma {:induction false} InWindowCopies(ts: seq<real>, t: real, window: real, x: real)
    ensures multiset(InWindow(ts, t, window))[x] <= multiset(ts)[x]
  {
    if ts != [] {
      InWindowCopies(ts[..|ts| - 1], t, window, x);
      assert ts == ts[..|ts| - 1] + [ts[|ts| - 1]];
    }
  }

  lemma {:induction false} CopiesBound(copies: multiset<real>, instants: set<real>, m: nat)
    requires forall x :: x in copies ==> x in instants && copies[x] <= m
    ensures |copies| <= m * |instants|
  {
    if x :| x in instants {
      var rest := instants - {x};
      CopiesBound(copies[x := 0], rest, m);
      assert |copies| == |copies[x := 0]| + copies[x];
      assert m * |instants| == m * |rest| + m;
    } else {
      forall x ensures copies[x] == 0 { assert x !in copies; }
    }
  }

  lemma MoreInstants(m: nat, n: int, max: int)
    requires n <= max
    ensures m * n <= m * max
  {
  }

  // RATE LIMIT: when at most `m` requests of a client share an instant, the Redis path admits at
  // most `m * max` of them in every window, the local path at most `max`, and any mix of the two
  // at most the sum.
  lemma EveryRunIsLimited(cfg: Config, rs: seq<Request>, c: string, t: real, m: nat)
    requires cfg.window > 0.0 && cfg.max >= 0 && InOrder(rs, c) && PerInstant(rs, c, m)
    ensures |InWindow(RedisAdmitted(cfg, rs, c), t, cfg.window)| <= m * cfg.max
    ensures |InWindow(LocallyAdmitted(cfg, rs, c), t, cfg.window)| <= cfg.max
    ensures |InWindow(Admitted(cfg, rs, c), t, cfg.window)| <= (m + 1) * cfg.max
  {
    var admitted := InWindow(RedisAdmitted(cfg, rs, c), t, cfg.window);
    forall x | x in multiset(admitted) ensures x in SetOf(admitted) && multiset(admitted)[x] <= m {
      InWindowCopies(RedisAdmitted(cfg, rs, c), t, cfg.window, x);
      TimesShare(cfg, rs, c, ByRedis, x);
      assert Sharing(rs, c, x) <= m;
    }
    CopiesBound(multiset(admitted), SetOf(admitted), m);
    RedisPathIsBounded(cfg, rs, c, t);
    MoreInstants(m, |SetOf(admitted)|, cfg.max);
    LocalPathIsBounded(cfg, rs, c, t);
    AdmittedOneWay(cfg, rs, c, t);
  }

  // ---------------------------------------------------------------- the paths compared

  // The same requests, with Redis answering all of the first and none of the second.
  ghost predicate SameTrace(up: seq<Request>, down: seq<Request>) {
    |up| == |down|
    && forall i :: 0 <= i < |up| ==> up[i].net == Answered && down[i].net == Failed(false)
                                     && down[i] == up[i].(net := Failed(false))
  }

  lemma {:induction false} LocalWithinApplied(cfg: Config, up: seq<Request>, down: seq<Request>, c: string,
                                              cutoff: real)
    requires SameTrace(up, down)
    ensures |Recent(LocallyAdmitted(cfg, down, c), cutoff)| <= |Recent(Applied(cfg, up, c), cutoff)|
  {
    if up != [] {
      LocalWithinApplied(cfg, up[..|up| - 1], down[..|down| - 1], c, cutoff);
      assert up[|up| - 1].net == Answered;
    }
  }

  lemma WindowSize(before: seq<real>, now: real, window: real)
    requires window > 0.0 && Rising(before + [now])
    ensures |SetOf(Recent(before + [now], now - window))| == |Recent(before, now - window)| + 1
  {
    var all := before + [now];
    RecentRises(all, now - window);
    SetSize(Recent(all, now - window));
    RecentSnoc(before, now, now - window);
  }

  lemma ReachedWindowSize(cfg: Config, rs: seq<Request>, c: string)
    requires cfg.window > 0.0 && rs != [] && Strictly(rs, c) && Mine(rs[|rs| - 1], c) && rs[|rs| - 1].Reaches()
    ensures var cutoff := rs[|rs| - 1].now - cfg.window;
            |SetOf(Recent(Applied(cfg, rs, c), cutoff))| == |Recent(Applied(cfg, rs[..|rs| - 1], c), cutoff)| + 1
  {
    AppliedOneMore(cfg, rs, c);
    TimesRise(cfg, rs, c, ReachesRedis);
    WindowSize(Applied(cfg, rs[..|rs| - 1], c), rs[|rs| - 1].now, cfg.window);
  }

  lemma AppliedOneMore(cfg: Config, rs: seq<Request>, c: string)
    requires rs != [] && Mine(rs[|rs| - 1], c) && rs[|rs| - 1].Reaches()
    ensures Applied(cfg, rs, c) == Applied(cfg, rs[..|rs| - 1], c) + [rs[|rs| - 1].now]
  {
  }

  lemma SameTraceSameOrder(up: seq<Request>, down: seq<Request>, c: string)
    requires SameTrace(up, down) && InOrder(up, c)
    ensures InOrder(down, c)
  {
    assert forall i :: 0 <= i < |up| ==> Mine(down[i], c) == Mine(up[i], c) && down[i].now == up[i].now;
  }

  // What a request that Redis admits finds in its window, itself not counted.
  lemma AdmittedFindsRoom(cfg: Config, rs: seq<Request>, c: string)
    requires cfg.window > 0.0 && rs != [] && InOrder(rs, c) && Strictly(rs, c)
    requires Mine(rs[|rs| - 1], c) && rs[|rs| - 1].net == Answered && Last(cfg, rs) == RedisAdmits
    ensures |Recent(Applied(cfg, rs[..|rs| - 1], c), rs[|rs| - 1].now - cfg.window)| < cfg.max
  {
    RedisCountsInstants(cfg, rs, c);
    ReachedWindowSize(cfg, rs, c);
  }

  lemma SameTraceInit(up: seq<Request>, down: seq<Request>)
    requires SameTrace(up, down) && up != []
    ensures var n := |up| - 1;
            && SameTrace(up[..n], down[..n]) && up[n].net == Answered && down[n] == up[n].(net := Failed(false))
  {
  }

  lemma LocalFindsRoom(cfg: Config, up: seq<Request>, down: seq<Request>, c: string)
    requires cfg.window > 0.0 && SameTrace(up, down) && up != [] && InOrder(up, c) && Strictly(up, c)
    requires Mine(up[|up| - 1], c) && Last(cfg, up) == RedisAdmits
    ensures var n := |up| - 1; |Recent(LocallyAdmitted(cfg, down[..n], c), up[n].now - cfg.window)| < cfg.max
  {
    var n := |up| - 1;
    SameTraceInit(up, down);
    AdmittedFindsRoom(cfg, up, c);
    LocalWithinApplied(cfg, up[..n], down[..n], c, up[n].now - cfg.window);
  }

  // On one trace with distinct times, Redis admits only what the local path would have admitted.
  lemma RedisIsStricter(cfg: Config, up: seq<Request>, down: seq<Request>, c: string)
    requires cfg.window > 0.0 && SameTrace(up, down) && up != [] && InOrder(up, c) && Strictly(up, c)
    requires Mine(up[|up| - 1], c) && Last(cfg, up) == RedisAdmits
    ensures Last(cfg, down) == LocalAdmits
  {
    SameTraceInit(up, down);
    LocalFindsRoom(cfg, up, down, c);
    SameTraceSameOrder(up, down, c);
    LocalCountsAdmissions(cfg, down, c);
  }

  // ---------------------------------------------------------------- how sharp the bound is

  // The times of all requests of client `c`.
  function Arrivals(rs: seq<Request>, c: string): seq<real> {
    if rs == [] then []
    else Arrivals(rs[..|rs| - 1], c) + if Mine(rs[|rs| - 1], c) then [rs[|rs| - 1].now] else []
  }

  // Every request of client `c` is answered by Redis, at one of `instants`.
  ghost predicate AnsweredAt(rs: seq<Request>, c: string, instants: set<real>) {
    forall r <- rs :: Mine(r, c) ==> r.net == Answered && r.now in instants
  }

  lemma {:induction false} AppliedAt(cfg: Config, rs: seq<Request>, c: string, instants: set<real>)
    requires AnsweredAt(rs, c, instants)
    ensures forall t <- Applied(cfg, rs, c) :: t in instants
  {
    if rs != [] {
      assert rs[|rs| - 1] in rs;
      AppliedAt(cfg, rs[..|rs| - 1], c, instants);
    }
  }

  // As long as a client's requests share at most `max` instants, Redis admits them all.
  lemma FewInstantsAdmit(cfg: Config, rs: seq<Request>, c: string, instants: set<real>)
    requires cfg.window > 0.0 && InOrder(rs, c) && AnsweredAt(rs, c, instants) && |instants| <= cfg.max
    requires rs != [] && Mine(rs[|rs| - 1], c)
    ensures Last(cfg, rs) == RedisAdmits
  {
    var cutoff := rs[|rs| - 1].now - cfg.window;
    var counted := SetOf(Recent(Applied(cfg, rs, c), cutoff));
    assert rs[|rs| - 1] in rs;
    RedisCountsInstants(cfg, rs, c);
    AppliedAt(cfg, rs, c, instants);
    RecentContent(Applied(cfg, rs, c), cutoff);
    forall t | t in counted ensures t in instants {
      assert t in Applied(cfg, rs, c);
    }
    SubsetIsNoLarger(counted, instants);
  }

  lemma {:induction false} FewInstantsAreFree(cfg: Config, rs: seq<Request>, c: string, instants: set<real>)
    requires cfg.window > 0.0 && InOrder(rs, c) && AnsweredAt(rs, c, instants) && |instants| <= cfg.max
    ensures RedisAdmitted(cfg, rs, c) == Arrivals(rs, c)
  {
    if rs != [] {
      InOrderInit(rs, c);
      FewInstantsAreFree(cfg, rs[..|rs| - 1], c, instants);
      if Mine(rs[|rs| - 1], c) {
        FewInstantsAdmit(cfg, rs, c, instants);
      }
    }
  }

  const SOMEBODY := "unknown"

  ghost function Burst(now: real, n: nat): (rs: seq<Request>)
    ensures |rs| == n
  {
    seq(n, i => Request("/ingest", None, now, Answered))
  }

  // The k-th instant, `gap` apart from the next.
  function Tick(gap: real, k: nat): real {
    if k == 0 then 0.0 else Tick(gap, k - 1) + gap
  }

  lemma {:induction false} TicksRise(gap: real, i: nat, j: nat)
    requires gap > 0.0 && i <= j
    ensures 0.0 <= Tick(gap, i) <= Tick(gap, j)
    ensures i < j ==> Tick(gap, i) < Tick(gap, j)
    decreases j
  {
    if i < j {
      TicksRise(gap, i, j - 1);
    } else if j > 0 {
      TicksRise(gap, i - 1, j - 1);
    }
  }

  lemma {:induction false} TickIsProduct(gap: real, k: nat)
    ensures Tick(gap, k) == gap * k as real
  {
    if k > 0 {
      TickIsProduct(gap, k - 1);
    }
  }

  // `m` requests at each of the first `n` instants.
  ghost function Grid(n: nat, gap: real, m: nat): seq<Request> {
    if n == 0 then [] else Grid(n - 1, gap, m) + Burst(Tick(gap, n - 1), m)
  }

  function Instants(n: nat, gap: real): set<real> {
    if n == 0 then {} else Instants(n - 1, gap) + {Tick(gap, n - 1)}
  }

  lemma {:induction false} InstantsCount(n: nat, gap: real)
    ensures |Instants(n, gap)| <= n
  {
    if n > 0 {
      InstantsCount(n - 1, gap);
    }
  }

  // All requests are one client's, from the `from`-th instant on and before the `to`-th.
  ghost predicate Between(rs: seq<Request>, gap: real, from: nat, to: nat) {
    forall r <- rs :: Mine(r, SOMEBODY) && Tick(gap, from) <= r.now < Tick(gap, to)
  }

  lemma {:induction false} GridContent(n: nat, gap: real, m: nat)
    requires gap > 0.0
    ensures Between(Grid(n, gap, m), gap, 0, n)
    ensures forall r <- Grid(n, gap, m) :: r.net == Answered && r.now in Instants(n, gap)
  {
    if n > 0 {
      GridContent(n - 1, gap, m);
      TicksRise(gap, 0, n - 1);
    }
  }

  lemma InOrderConcat(a: seq<Request>, b: seq<Request>, c: string)
    requires InOrder(a, c) && InOrder(b, c)
    requires forall x <- a, y <- b :: x.now <= y.now
    ensures InOrder(a + b, c)
  {
    forall i, j | 0 <= i < j < |a + b| && Mine((a + b)[i], c) && Mine((a + b)[j], c)
      ensures (a + b)[i].now <= (a + b)[j].now
    {
      if i < |a| <= j {
        assert (a + b)[i] in a && (a + b)[j] in b;
      }
    }
  }

  lemma BurstIsInOrder(now: real, n: nat)
    requires now >= 0.0
    ensures InOrder(Burst(now, n), SOMEBODY)
  {
  }

  lemma {:induction false} GridIsInOrder(n: nat, gap: real, m: nat)
    requires gap > 0.0
    ensures InOrder(Grid(n, gap, m), SOMEBODY)
  {
    if n > 0 {
      var now := Tick(gap, n - 1);
      GridIsInOrder(n - 1, gap, m);
      GridContent(n - 1, gap, m);
      TicksRise(gap, 0, n - 1);
      BurstIsInOrder(now, m);
      forall y | y in Burst(now, m) ensures y.now == now { }
      InOrderConcat(Grid(n - 1, gap, m), Burst(now, m), SOMEBODY);
    }
  }

  lemma {:induction false} SharingConcat(a: seq<Request>, b: seq<Request>, c: string, x: real)
    ensures Sharing(a + b, c, x) == Sharing(a, c, x) + Sharing(b, c, x)
  {
    if b == [] {
      assert a + b == a;
    } else {
      SharingConcat(a, b[..|b| - 1], c, x);
      Sequences.InitOfConcat(a, b);
    }
  }

  lemma {:induction false} BurstShares(now: real, n: nat, x: real)
    ensures Sharing(Burst(now, n), SOMEBODY, x) == if x == now then n else 0
  {
    if n > 0 {
      BurstShares(now, n - 1, x);
      assert Burst(now, n)[..n - 1] == Burst(now, n - 1);
    }
  }

  lemma {:induction false} AbsentShares(rs: seq<Request>, c: string, x: real)
    requires forall r <- rs :: r.now != x
    ensures Sharing(rs, c, x) == 0
  {
    if rs != [] {
      assert rs[|rs| - 1] in rs;
      AbsentShares(rs[..|rs| - 1], c, x);
    }
  }

  lemma {:induction false} GridShares(n: nat, gap: real, m: nat, x: real)
    requires gap > 0.0
    ensures Sharing(Grid(n, gap, m), SOMEBODY, x) <= if x < Tick(gap, n) then m else 0
  {
    if n > 0 {
      var now := Tick(gap, n - 1);
      GridShares(n - 1, gap, m, x);
      SharingConcat(Grid(n - 1, gap, m), Burst(now, m), SOMEBODY, x);
      BurstShares(now, m, x);
    }
  }

  lemma {:induction false} GridLength(n: nat, gap: real, m: nat)
    ensures |Grid(n, gap, m)| == m * n
  {
    if n > 0 {
      GridLength(n - 1, gap, m);
      assert m * n == m * (n - 1) + m;
    }
  }

  lemma {:induction false} AllArrive(rs: seq<Request>, c: string, t: real, window: real)
    requires forall r <- rs :: Mine(r, c) && t - window < r.now <= t
    ensures |Arrivals(rs, c)| == |rs| == |InWindow(Arrivals(rs, c), t, window)|
  {
    if rs != [] {
      assert rs[|rs| - 1] in rs;
      AllArrive(rs[..|rs| - 1], c, t, window);
      InWindowSnoc(Arrivals(rs[..|rs| - 1], c), rs[|rs| - 1].now, t, window);
    }
  }

  lemma InWindowSnoc(ts: seq<real>, x: real, t: real, window: real)
    ensures InWindow(ts + [x], t, window) == InWindow(ts, t, window) + if t - window < x <= t then [x] else []
  {
    assert (ts + [x])[..|ts|] == ts;
  }

  // `n` instants this far apart are all in one window.
  function Gap(window: real, n: nat): real {
    window / (n + 1) as real
  }

  lemma GapSpansTheWindow(window: real, n: nat)
    requires window > 0.0
    ensures Gap(window, n) > 0.0 && Tick(Gap(window, n), n) < window
  {
    var gap := Gap(window, n);
    assert gap * (n + 1) as real == window;
    assert gap * (n + 1) as real == gap * n as real + gap;
    TickIsProduct(gap, n);
  }

  lemma AllInOneWindow(rs: seq<Request>, gap: real, n: nat, window: real)
    requires gap > 0.0 && Tick(gap, n) < window && Between(rs, gap, 0, n)
    ensures |Arrivals(rs, SOMEBODY)| == |rs| == |InWindow(Arrivals(rs, SOMEBODY), Tick(gap, n), window)|
  {
    AllArrive(rs, SOMEBODY, Tick(gap, n), window);
  }

  // `rs` is a run of one client at no more than `max` instants, at most `m` requests to each.
  ghost predicate Gridded(cfg: Config, rs: seq<Request>, m: nat) {
    && InOrder(rs, SOMEBODY) && PerInstant(rs, SOMEBODY, m)
    && exists instants: set<real> :: AnsweredAt(rs, SOMEBODY, instants) && |instants| <= cfg.max
  }

  lemma GridIsGridded(cfg: Config, gap: real, m: nat)
    requires cfg.max > 0 && gap > 0.0
    ensures Gridded(cfg, Grid(cfg.max, gap, m), m)
  {
    var rs := Grid(cfg.max, gap, m);
    GridIsInOrder(cfg.max, gap, m);
    forall x: real ensures Sharing(rs, SOMEBODY, x) <= m { GridShares(cfg.max, gap, m, x); }
    GridContent(cfg.max, gap, m);
    InstantsCount(cfg.max, gap);
    assert AnsweredAt(rs, SOMEBODY, Instants(cfg.max, gap));
  }

  lemma GriddedIsFree(cfg: Config, rs: seq<Request>, m: nat)
    requires cfg.window > 0.0 && Gridded(cfg, rs, m)
    ensures RedisAdmitted(cfg, rs, SOMEBODY) == Arrivals(rs, SOMEBODY)
  {
    var instants :| AnsweredAt(rs, SOMEBODY, instants) && |instants| <= cfg.max;
    FewInstantsAreFree(cfg, rs, SOMEBODY, instants);
  }

  // A run that fills the window ending at `FullAt`.
  ghost function Full(cfg: Config, m: nat): seq<Request>
    requires cfg.max > 0
  {
    Grid(cfg.max, Gap(cfg.window, cfg.max), m)
  }

  ghost function FullAt(cfg: Config): real
    requires cfg.max > 0
  {
    Tick(Gap(cfg.window, cfg.max), cfg.max)
  }

  lemma GridFillsOneWindow(cfg: Config, m: nat)
    requires cfg.window > 0.0 && cfg.max > 0
    ensures var arrivals := Arrivals(Full(cfg, m), SOMEBODY);
            |InWindow(arrivals, FullAt(cfg), cfg.window)| == |arrivals| == m * cfg.max
  {
    var gap := Gap(cfg.window, cfg.max);
    GapSpansTheWindow(cfg.window, cfg.max);
    GridContent(cfg.max, gap, m);
    GridLength(cfg.max, gap, m);
    AllInOneWindow(Full(cfg, m), gap, cfg.max, cfg.window);
  }

  // The bound is attained: `m` requests at each of `max` instants of one window are all admitted.
  lemma GridIsAdmitted(cfg: Config, m: nat)
    requires cfg.window > 0.0 && cfg.max > 0
    ensures InOrder(Full(cfg, m), SOMEBODY) && PerInstant(Full(cfg, m), SOMEBODY, m)
    ensures |InWindow(RedisAdmitted(cfg, Full(cfg, m), SOMEBODY), FullAt(cfg), cfg.window)| == m * cfg.max
  {
    FullIsGridded(cfg, m);
    GriddedIsFree(cfg, Full(cfg, m), m);
    GridFillsOneWindow(cfg, m);
  }

  ghost predicate LimitsRedis(cfg: Config, m: nat) {
    forall rs: seq<Request>, c: string, t: real :: InOrder(rs, c) && PerInstant(rs, c, m) ==>
      |InWindow(RedisAdmitted(cfg, rs, c), t, cfg.window)| <= cfg.max
  }

  // The Redis path keeps every window of every run with at most `m` requests to an instant within
  // `max` exactly when `m` is at most 1: requests of one instant share a member of the set.
  lemma LimitHoldsIff(cfg: Config, m: nat)
    requires cfg.window > 0.0 && cfg.max > 0
    ensures LimitsRedis(cfg, m) <==> m <= 1
  {
    if m <= 1 {
      forall rs: seq<Request>, c: string, t: real | InOrder(rs, c) && PerInstant(rs, c, m)
        ensures |InWindow(RedisAdmitted(cfg, rs, c), t, cfg.window)| <= cfg.max
      {
        EveryRunIsLimited(cfg, rs, c, t, m);
      }
    } else {
      GridIsAdmitted(cfg, m);
      MoreThanMax(m, cfg.max);
      assert |InWindow(RedisAdmitted(cfg, Full(cfg, m), SOMEBODY), FullAt(cfg), cfg.window)| > cfg.max;
    }
  }

  // ---------------------------------------------------------------- and with fallbacks

  ghost function Fallback(now: real): Request {
    Request("/ingest", None, now, Failed(false))
  }

  // `n` requests whose pipeline fails, one at each instant from the `from`-th on.
  ghost function Fallbacks(from: nat, n: nat, gap: real): seq<Request> {
    if n == 0 then [] else Fallbacks(from, n - 1, gap) + [Fallback(Tick(gap, from + n - 1))]
  }

  lemma {:induction false} FallbacksContent(from: nat, n: nat, gap: real)
    requires gap > 0.0
    ensures |Fallbacks(from, n, gap)| == n && Between(Fallbacks(from, n, gap), gap, from, from + n)
  {
    if n > 0 {
      FallbacksContent(from, n - 1, gap);
      TicksRise(gap, from, from + n - 1);
    }
  }

  lemma OneIsInOrder(r: Request)
    requires r.now >= 0.0
    ensures InOrder([r], SOMEBODY)
  {
  }

  lemma {:induction false} FallbacksAreInOrder(from: nat, n: nat, gap: real)
    requires gap > 0.0
    ensures InOrder(Fallbacks(from, n, gap), SOMEBODY)
  {
    if n > 0 {
      var r := Fallback(Tick(gap, from + n - 1));
      FallbacksAreInOrder(from, n - 1, gap);
      FallbacksContent(from, n - 1, gap);
      TicksRise(gap, 0, from + n - 1);
      OneIsInOrder(r);
      InOrderConcat(Fallbacks(from, n - 1, gap), [r], SOMEBODY);
    }
  }

  lemma ShareSnoc(rs: seq<Request>, r: Request, x: real)
    requires Mine(r, SOMEBODY)
    ensures Sharing(rs + [r], SOMEBODY, x) == Sharing(rs, SOMEBODY, x) + if r.now == x then 1 else 0
  {
    assert (rs + [r])[..|rs|] == rs;
  }

  lemma {:induction false} FallbacksShare(from: nat, n: nat, gap: real, x: real)
    requires gap > 0.0
    ensures Sharing(Fallbacks(from, n, gap), SOMEBODY, x) <= 1
  {
    if n > 0 {
      var before, now := Fallbacks(from, n - 1, gap), Tick(gap, from + n - 1);
      ShareSnoc(before, Fallback(now), x);
      if x == now {
        FallbacksContent(from, n - 1, gap);
        AbsentShares(before, SOMEBODY, x);
      } else {
        FallbacksShare(from, n - 1, gap, x);
      }
    }
  }

  // `m` requests that Redis answers at each of `n` instants, then `k` that fall back.
  ghost function Mix(n: nat, gap: real, m: nat, k: nat): seq<Request> {
    Grid(n, gap, m) + Fallbacks(n, k, gap)
  }

  lemma BetweenWidens(rs: seq<Request>, gap: real, from: nat, to: nat, wide: nat)
    requires gap > 0.0 && Between(rs, gap, from, to) && to <= wide
    ensures Between(rs, gap, 0, wide)
  {
    TicksRise(gap, 0, from);
    TicksRise(gap, to, wide);
  }

  lemma MixIsInOrder(n: nat, gap: real, m: nat, k: nat)
    requires gap > 0.0
    ensures InOrder(Mix(n, gap, m, k), SOMEBODY)
  {
    GridIsInOrder(n, gap, m);
    FallbacksAreInOrder(n, k, gap);
    GridContent(n, gap, m);
    FallbacksContent(n, k, gap);
    InOrderConcat(Grid(n, gap, m), Fallbacks(n, k, gap), SOMEBODY);
  }

  lemma MixSharing(n: nat, gap: real, m: nat, k: nat, x: real)
    requires gap > 0.0 && m > 0
    ensures Sharing(Mix(n, gap, m, k), SOMEBODY, x) <= m
  {
    SharingConcat(Grid(n, gap, m), Fallbacks(n, k, gap), SOMEBODY, x);
    GridShares(n, gap, m, x);
    if x < Tick(gap, n) {
      FallbacksContent(n, k, gap);
      AbsentShares(Fallbacks(n, k, gap), SOMEBODY, x);
    } else {
      FallbacksShare(n, k, gap, x);
    }
  }

  lemma {:induction false} RecentIsNoLonger(ts: seq<real>, cutoff: real)
    ensures |Recent(ts, cutoff)| <= |ts|
  {
    if ts != [] {
      RecentIsNoLonger(ts[..|ts| - 1], cutoff);
    }
  }

  lemma {:induction false} AnsweredIsNotLocal(cfg: Config, rs: seq<Request>, c: string)
    requires forall r <- rs :: r.net == Answered
    ensures LocallyAdmitted(cfg, rs, c) == []
  {
    if rs != [] {
      assert rs[|rs| - 1] in rs;
      AnsweredIsNotLocal(cfg, rs[..|rs| - 1], c);
    }
  }

  lemma TimesSnoc(cfg: Config, rs: seq<Request>, r: Request, c: string, pick: (Request, Outcome) -> bool)
    ensures Times(cfg, rs + [r], c, pick)
            == Times(cfg, rs, c, pick) + if Mine(r, c) && pick(r, Last(cfg, rs + [r])) then [r.now] else []
  {
    assert (rs + [r])[..|rs + [r]| - 1] == rs;
  }

  lemma FallbackOutcome(cfg: Config, rs: seq<Request>)
    requires InOrder(rs, SOMEBODY) && rs != [] && Mine(rs[|rs| - 1], SOMEBODY) && rs[|rs| - 1].net.Failed?
    requires |LocallyAdmitted(cfg, rs[..|rs| - 1], SOMEBODY)| < cfg.max
    ensures Last(cfg, rs) == LocalAdmits
  {
    LocalCountsAdmissions(cfg, rs, SOMEBODY);
    RecentIsNoLonger(LocallyAdmitted(cfg, rs[..|rs| - 1], SOMEBODY), rs[|rs| - 1].now - cfg.window);
  }

  lemma NextFallbackIsAdmitted(cfg: Config, before: seq<Request>, now: real)
    requires InOrder(before + [Fallback(now)], SOMEBODY) && |LocallyAdmitted(cfg, before, SOMEBODY)| < cfg.max
    ensures var rs := before + [Fallback(now)];
            && LocallyAdmitted(cfg, rs, SOMEBODY) == LocallyAdmitted(cfg, before, SOMEBODY) + [now]
            && RedisAdmitted(cfg, rs, SOMEBODY) == RedisAdmitted(cfg, before, SOMEBODY)
  {
    Sequences.InitOfSnoc(before, Fallback(now));
    FallbackOutcome(cfg, before + [Fallback(now)]);
    TimesSnoc(cfg, before, Fallback(now), SOMEBODY, ByLocal);
    TimesSnoc(cfg, before, Fallback(now), SOMEBODY, ByRedis);
  }

  lemma ArrivalsSnoc(rs: seq<Request>, r: Request)
    requires Mine(r, SOMEBODY)
    ensures Arrivals(rs + [r], SOMEBODY) == Arrivals(rs, SOMEBODY) + [r.now]
  {
    assert (rs + [r])[..|rs|] == rs;
  }

  lemma MixSnoc(n: nat, gap: real, m: nat, k: nat)
    requires k > 0
    ensures Mix(n, gap, m, k) == Mix(n, gap, m, k - 1) + [Fallback(Tick(gap, n + k - 1))]
  {
  }

  // The first `max` fallbacks are admitted, whatever Redis admitted before them.
  lemma {:induction false} FallbacksAreAdmitted(cfg: Config, n: nat, gap: real, m: nat, k: nat)
    requires gap > 0.0 && k <= cfg.max
    ensures var rs := Mix(n, gap, m, k);
            && LocallyAdmitted(cfg, rs, SOMEBODY) == Arrivals(Fallbacks(n, k, gap), SOMEBODY)
            && |LocallyAdmitted(cfg, rs, SOMEBODY)| == k
            && RedisAdmitted(cfg, rs, SOMEBODY) == RedisAdmitted(cfg, Grid(n, gap, m), SOMEBODY)
  {
    if k == 0 {
      assert Mix(n, gap, m, 0) == Grid(n, gap, m);
      GridContent(n, gap, m);
      AnsweredIsNotLocal(cfg, Grid(n, gap, m), SOMEBODY);
    } else {
      FallbacksAreAdmitted(cfg, n, gap, m, k - 1);
      MixSnoc(n, gap, m, k);
      MixIsInOrder(n, gap, m, k);
      NextFallbackIsAdmitted(cfg, Mix(n, gap, m, k - 1), Tick(gap, n + k - 1));
      ArrivalsSnoc(Fallbacks(n, k - 1, gap), Fallback(Tick(gap, n + k - 1)));
    }
  }

  // `m` requests at each of `max` instants, answered by Redis, then `max` that are not, all of
  // them in the window ending at `BothAt`.
  ghost function Both(cfg: Config, m: nat): seq<Request>
    requires cfg.max > 0
  {
    Mix(cfg.max, Gap(cfg.window, cfg.max + cfg.max), m, cfg.max)
  }

  ghost function BothAt(cfg: Config): real
    requires cfg.max > 0
  {
    Tick(Gap(cfg.window, cfg.max + cfg.max), cfg.max + cfg.max)
  }

  lemma GridInWideWindow(n: nat, gap: real, m: nat, window: real)
    requires gap > 0.0 && Tick(gap, n + n) < window
    ensures |InWindow(Arrivals(Grid(n, gap, m), SOMEBODY), Tick(gap, n + n), window)| == m * n
  {
    GridContent(n, gap, m);
    BetweenWidens(Grid(n, gap, m), gap, 0, n, n + n);
    GridLength(n, gap, m);
    AllInOneWindow(Grid(n, gap, m), gap, n + n, window);
  }

  lemma RedisPartOfMix(cfg: Config, gap: real, m: nat, n: nat)
    requires cfg.window > 0.0 && gap > 0.0 && 0 < n == cfg.max && Tick(gap, n + n) < cfg.window
    ensures |InWindow(RedisAdmitted(cfg, Mix(n, gap, m, n), SOMEBODY), Tick(gap, n + n), cfg.window)| == m * n
  {
    FallbacksAreAdmitted(cfg, n, gap, m, n);
    GridIsGridded(cfg, gap, m);
    GriddedIsFree(cfg, Grid(n, gap, m), m);
    GridInWideWindow(n, gap, m, cfg.window);
  }

  lemma FallbacksInOneWindow(n: nat, gap: real, window: real)
    requires gap > 0.0 && Tick(gap, n + n) < window
    ensures |InWindow(Arrivals(Fallbacks(n, n, gap), SOMEBODY), Tick(gap, n + n), window)| == n
  {
    FallbacksContent(n, n, gap);
    BetweenWidens(Fallbacks(n, n, gap), gap, n, n + n, n + n);
    AllInOneWindow(Fallbacks(n, n, gap), gap, n + n, window);
  }

  lemma LocalPartOfMix(cfg: Config, gap: real, m: nat, n: nat)
    requires gap > 0.0 && n == cfg.max && Tick(gap, n + n) < cfg.window
    ensures |InWindow(LocallyAdmitted(cfg, Mix(n, gap, m, n), SOMEBODY), Tick(gap, n + n), cfg.window)| == n
  {
    FallbacksAreAdmitted(cfg, n, gap, m, n);
    FallbacksInOneWindow(n, gap, cfg.window);
  }

  // The bound on a mix is attained too: `m * max` by Redis and `max` more by the local path.  With
  // one request to an instant that is twice the promised limit.
  lemma FallbacksAddTheirOwn(cfg: Config, m: nat)
    requires cfg.window > 0.0 && cfg.max > 0 && m > 0
    ensures InOrder(Both(cfg, m), SOMEBODY) && PerInstant(Both(cfg, m), SOMEBODY, m)
    ensures |InWindow(Admitted(cfg, Both(cfg, m), SOMEBODY), BothAt(cfg), cfg.window)| == (m + 1) * cfg.max
  {
    var gap := Gap(cfg.window, cfg.max + cfg.max);
    GapSpansTheWindow(cfg.window, cfg.max + cfg.max);
    MixIsInOrder(cfg.max, gap, m, cfg.max);
    forall x: real ensures Sharing(Both(cfg, m), SOMEBODY, x) <= m { MixSharing(cfg.max, gap, m, cfg.max, x); }
    RedisPartOfMix(cfg, gap, m, cfg.max);
    LocalPartOfMix(cfg, gap, m, cfg.max);
    AdmittedOneWay(cfg, Both(cfg, m), SOMEBODY, BothAt(cfg));
    OneMoreTime(m, cfg.max);
  }

  lemma OneMoreTime(m: nat, max: int)
    ensures (m + 1) * max == m * max + max
  {
  }

  // No window of any run with at most `m` requests to an instant holds more than `bound`.
  ghost predicate LimitsAll(cfg: Config, m: nat, bound: int) {
    forall rs: seq<Request>, c: string, t: real :: InOrder(rs, c) && PerInstant(rs, c, m) ==>
      |InWindow(Admitted(cfg, rs, c), t, cfg.window)| <= bound
  }

  // With fallbacks the least such bound is `(m + 1) * max`; so the promised one fails even when no
  // two requests share an instant.
  lemma LimitsAllIff(cfg: Config, m: nat, bound: int)
    requires cfg.window > 0.0 && cfg.max > 0 && m > 0
    ensures LimitsAll(cfg, m, bound) <==> bound >= (m + 1) * cfg.max
  {
    if bound >= (m + 1) * cfg.max {
      forall rs: seq<Request>, c: string, t: real | InOrder(rs, c) && PerInstant(rs, c, m)
        ensures |InWindow(Admitted(cfg, rs, c), t, cfg.window)| <= bound
      {
        EveryRunIsLimited(cfg, rs, c, t, m);
      }
    } else {
      FallbacksAddTheirOwn(cfg, m);
      assert |InWindow(Admitted(cfg, Both(cfg, m), SOMEBODY), BothAt(cfg), cfg.window)| > bound;
    }
  }

  lemma MoreThanMax(m: nat, max: int)
    requires m >= 2 && max > 0
    ensures m * max > max
  {
    assert m * max == (m - 1) * max + max;
    assert (m - 1) * max > 0;
  }

  lemma {:induction false} TwoShare(rs: seq<Request>, c: string, i: nat, j: nat)
    requires i < j < |rs| && Mine(rs[i], c) && Mine(rs[j], c) && rs[i].now == rs[j].now
    ensures Sharing(rs, c, rs[i].now) >= 2
  {
    var n := |rs| - 1;
    if j < n {
      TwoShare(rs[..n], c, i, j);
    } else {
      OneShares(rs[..n], c, i);
    }
  }

  lemma {:induction false} OneShares(rs: seq<Request>, c: string, i: nat)
    requires i < |rs| && Mine(rs[i], c)
    ensures Sharing(rs, c, rs[i].now) >= 1
  {
    if i < |rs| - 1 {
      OneShares(rs[..|rs| - 1], c, i);
    }
  }

  lemma OnePerInstantIsStrict(rs: seq<Request>, c: string, m: nat)
    requires InOrder(rs, c) && PerInstant(rs, c, m) && m <= 1
    ensures Strictly(rs, c)
  {
    forall i, j | 0 <= i < j < |rs| && Mine(rs[i], c) && Mine(rs[j], c) ensures rs[i].now < rs[j].now {
      assert Sharing(rs, c, rs[i].now) <= m;
      if rs[i].now == rs[j].now {
        TwoShare(rs, c, i, j);
      }
    }
  }

  ghost predicate RedisWithinLocal(cfg: Config, m: nat) {
    forall up: seq<Request>, down: seq<Request>, c: string ::
      (SameTrace(up, down) && up != [] && InOrder(up, c) && PerInstant(up, c, m)
       && Mine(up[|up| - 1], c) && Last(cfg, up) == RedisAdmits)
      ==> Last(cfg, down) == LocalAdmits
  }

  function Down(rs: seq<Request>): seq<Request> {
    seq(|rs|, i requires 0 <= i < |rs| => rs[i].(net := Failed(false)))
  }

  lemma TimesUnfold(cfg: Config, rs: seq<Request>, c: string, pick: (Request, Outcome) -> bool)
    requires rs != []
    ensures var r := rs[|rs| - 1];
            |Times(cfg, rs, c, pick)|
            == |Times(cfg, rs[..|rs| - 1], c, pick)| + if Mine(r, c) && pick(r, Last(cfg, rs)) then 1 else 0
  {
  }

  lemma {:induction false} FindLocalReject(cfg: Config, rs: seq<Request>, c: string) returns (k: nat)
    requires |LocallyAdmitted(cfg, rs, c)| < |Arrivals(rs, c)|
    ensures 0 < k <= |rs| && Mine(rs[k - 1], c) && Last(cfg, rs[..k]) != LocalAdmits
  {
    var n := |rs| - 1;
    if Mine(rs[n], c) && Last(cfg, rs) != LocalAdmits {
      k := n + 1;
      assert rs[..k] == rs;
    } else {
      assert |LocallyAdmitted(cfg, rs[..n], c)| < |Arrivals(rs[..n], c)| by { TimesUnfold(cfg, rs, c, ByLocal); }
      k := FindLocalReject(cfg, rs[..n], c);
      assert rs[..n][..k] == rs[..k];
    }
  }

  lemma {:induction false} DownArrives(rs: seq<Request>, c: string)
    ensures Arrivals(Down(rs), c) == Arrivals(rs, c)
  {
    if rs != [] {
      DownArrives(rs[..|rs| - 1], c);
      assert Down(rs)[..|rs| - 1] == Down(rs[..|rs| - 1]);
    }
  }

  lemma {:induction false} SharingPrefix(rs: seq<Request>, c: string, x: real, k: nat)
    requires k <= |rs|
    ensures Sharing(rs[..k], c, x) <= Sharing(rs, c, x)
  {
    if k < |rs| {
      SharingPrefix(rs[..|rs| - 1], c, x, k);
      assert rs[..|rs| - 1][..k] == rs[..k];
    } else {
      assert rs[..k] == rs;
    }
  }

  lemma {:induction false} LocalWithinArrivals(cfg: Config, rs: seq<Request>, c: string)
    ensures |LocallyAdmitted(cfg, rs, c)| <= |Arrivals(rs, c)|
    ensures |LocallyAdmitted(cfg, rs, c)| == |Arrivals(rs, c)| ==> LocallyAdmitted(cfg, rs, c) == Arrivals(rs, c)
  {
    if rs != [] {
      LocalWithinArrivals(cfg, rs[..|rs| - 1], c);
    }
  }

  // On one trace, Redis admits only what the local path would have admitted, for all traces with
  // at most `m` requests to an instant, exactly when `m` is at most 1.
  lemma RedisIsStricterIff(cfg: Config, m: nat)
    requires cfg.window > 0.0 && cfg.max > 0
    ensures RedisWithinLocal(cfg, m) <==> m <= 1
  {
    if m <= 1 {
      forall up: seq<Request>, down: seq<Request>, c: string
        | SameTrace(up, down) && up != [] && InOrder(up, c) && PerInstant(up, c, m)
          && Mine(up[|up| - 1], c) && Last(cfg, up) == RedisAdmits
        ensures Last(cfg, down) == LocalAdmits
      {
        OnePerInstantIsStrict(up, c, m);
        RedisIsStricter(cfg, up, down, c);
      }
    } else {
      SharedInstantsDisagree(cfg, m);
    }
  }

  // A prefix of a gridded run is gridded, and Redis admits all of it.
  lemma GriddedPrefix(cfg: Config, rs: seq<Request>, m: nat, k: nat)
    requires cfg.window > 0.0 && Gridded(cfg, rs, m) && 0 < k <= |rs| && Mine(rs[k - 1], SOMEBODY)
    ensures InOrder(rs[..k], SOMEBODY) && PerInstant(rs[..k], SOMEBODY, m)
    ensures Last(cfg, rs[..k]) == RedisAdmits
  {
    var instants :| AnsweredAt(rs, SOMEBODY, instants) && |instants| <= cfg.max;
    forall x: real ensures Sharing(rs[..k], SOMEBODY, x) <= m {
      SharingPrefix(rs, SOMEBODY, x, k);
      assert Sharing(rs, SOMEBODY, x) <= m;
    }
    assert AnsweredAt(rs[..k], SOMEBODY, instants);
    FewInstantsAdmit(cfg, rs[..k], SOMEBODY, instants);
  }

  // Of the same requests, the local path refuses some.
  lemma LocalRefusesSome(cfg: Config, m: nat) returns (k: nat)
    requires cfg.window > 0.0 && cfg.max > 0 && m >= 2
    ensures var down := Down(Full(cfg, m));
            0 < k <= |down| && Mine(down[k - 1], SOMEBODY) && Last(cfg, down[..k]) != LocalAdmits
  {
    var rs := Full(cfg, m);
    GridIsAdmitted(cfg, m);
    GridFillsOneWindow(cfg, m);
    MoreThanMax(m, cfg.max);
    DownIsInOrder(rs, SOMEBODY);
    LocalPathIsBounded(cfg, Down(rs), SOMEBODY, FullAt(cfg));
    DownArrives(rs, SOMEBODY);
    LocalWithinArrivals(cfg, Down(rs), SOMEBODY);
    k := FindLocalReject(cfg, Down(rs), SOMEBODY);
  }

  lemma DownIsInOrder(rs: seq<Request>, c: string)
    requires InOrder(rs, c)
    ensures InOrder(Down(rs), c)
  {
    assert forall i :: 0 <= i < |rs| ==> Mine(Down(rs)[i], c) == Mine(rs[i], c) && Down(rs)[i].now == rs[i].now;
  }

  lemma DownIsSameTrace(rs: seq<Request>, k: nat)
    requires k <= |rs| && forall r <- rs :: r.net == Answered
    ensures SameTrace(rs[..k], Down(rs)[..k])
  {
  }

  // A trace on which Redis admits what the local path refuses.
  ghost predicate Disagree(cfg: Config, up: seq<Request>, down: seq<Request>, m: nat) {
    && SameTrace(up, down) && up != [] && InOrder(up, SOMEBODY) && PerInstant(up, SOMEBODY, m)
    && Mine(up[|up| - 1], SOMEBODY) && Last(cfg, up) == RedisAdmits && Last(cfg, down) != LocalAdmits
  }

  lemma FullIsGridded(cfg: Config, m: nat)
    requires cfg.window > 0.0 && cfg.max > 0
    ensures Gridded(cfg, Full(cfg, m), m)
    ensures forall r <- Full(cfg, m) :: r.net == Answered && Mine(r, SOMEBODY)
  {
    GapSpansTheWindow(cfg.window, cfg.max);
    GridIsGridded(cfg, Gap(cfg.window, cfg.max), m);
    GridContent(cfg.max, Gap(cfg.window, cfg.max), m);
  }

  lemma GridPrefixDisagrees(cfg: Config, m: nat) returns (up: seq<Request>, down: seq<Request>)
    requires cfg.window > 0.0 && cfg.max > 0 && m >= 2
    ensures Disagree(cfg, up, down, m)
  {
    var rs := Full(cfg, m);
    var k := LocalRefusesSome(cfg, m);
    up, down := rs[..k], Down(rs)[..k];
    FullIsGridded(cfg, m);
    assert rs[k - 1] in rs && up[|up| - 1] == rs[k - 1];
    DownIsSameTrace(rs, k);
    GriddedPrefix(cfg, rs, m, k);
  }

  lemma SharedInstantsDisagree(cfg: Config, m: nat)
    requires cfg.window > 0.0 && cfg.max > 0 && m >= 2
    ensures !RedisWithinLocal(cfg, m)
  {
    var up, down := GridPrefixDisagrees(cfg, m);
    assert Disagree(cfg, up, down, m);
  }

  // Requests of one instant are all admitted, however many.
  lemma OneInstantIsFree(cfg: Config, now: real, n: nat)
    requires cfg.window > 0.0 && cfg.max >= 1 && now >= 0.0
    ensures |InWindow(RedisAdmitted(cfg, Burst(now, n), SOMEBODY), now, cfg.window)| == n
  {
    var rs := Burst(now, n);
    assert forall r <- rs :: Mine(r, SOMEBODY) && r.now == now;
    FewInstantsAreFree(cfg, rs, SOMEBODY, {now});
    AllArrive(rs, SOMEBODY, now, cfg.window);
  }

  // ---------------------------------------------------------------- the middleware

  // The sorted sets of the server; a key without an expiry is only seen inside the transaction.
  class Server {
    var keys: map<string, Key>

    constructor ()
      ensures keys == map[]
    {
      keys := map[];
    }

    method ZAdd(key: string, now: real)
      modifies this
      ensures keys == WithNow(old(keys), key, now)
    {
      if key in keys && (keys[key].expires.None? || now < keys[key].expires.value) && keys[key].scores != {} {
        keys := keys[key := keys[key].(scores := keys[key].scores + {now})];
      } else {
        assert Live(keys, key, now) + {now} == {now};
        keys := keys[key := Key({now}, None)];
      }
    }

    method ZRemRangeByScore(key: string, cutoff: real)
      modifies this
      ensures key in old(keys) ==>
                keys == var left := Trim(old(keys)[key].scores, cutoff);
                        if left == {} then old(keys) - {key} else old(keys)[key := old(keys)[key].(scores := left)]
      ensures key !in old(keys) ==> keys == old(keys)
    {
      if key in keys {
        var left := set s | s in keys[key].scores && !(0.0 <= s <= cutoff);
        if left == {} {
          keys := keys - {key};
        } else {
          keys := keys[key := keys[key].(scores := left)];
        }
      }
    }

    method ZCard(key: string) returns (n: nat)
      ensures n == if key in keys then |keys[key].scores| else 0
    {
      n := if key in keys then |keys[key].scores| else 0;
    }

    method Expire(key: string, now: real, ttl: real)
      modifies this
      ensures keys == if key !in old(keys) then old(keys)
                      else if ttl <= 0.0 then old(keys) - {key}
                      else old(keys)[key := old(keys)[key].(expires := Some(now + ttl))]
    {
      if key in keys {
        if ttl <= 0.0 {
          keys := keys - {key};
        } else {
          keys := keys[key := keys[key].(expires := Some(now + ttl))];
        }
      }
    }
  }

  // The keys after ZADD and after ZREMRANGEBYSCORE.
  ghost function WithNow(redis: map<string, Key>, client: string, now: real): map<string, Key> {
    var live := Live(redis, client, now);
    redis[client := Key(live + {now}, if live == {} then None else redis[client].expires)]
  }

  ghost function WithTrim(cfg: Config, redis: map<string, Key>, client: string, now: real): map<string, Key> {
    var added, left := WithNow(redis, client, now), Scores(cfg, redis, client, now);
    if left == {} then added - {client} else added[client := added[client].(scores := left)]
  }

  lemma Trimmed(cfg: Config, redis: map<string, Key>, client: string, now: real)
    ensures var added := WithNow(redis, client, now);
            Trim(added[client].scores, now - cfg.window) == Scores(cfg, redis, client, now)
    ensures var trimmed := WithTrim(cfg, redis, client, now);
            Pipeline(cfg, redis, client, now)
            == if client !in trimmed then trimmed
               else if cfg.window <= 0.0 then trimmed - {client}
               else trimmed[client := trimmed[client].(expires := Some(now + cfg.window))]
  {
    assert WithNow(redis, client, now) - {client} == redis - {client};
  }

  class Middleware {
    const cfg: Config
    const redis: Server
    var requests: map<string, seq<real>>

    ghost function State(): World
      reads this, redis
    {
      World(redis.keys, requests)
    }

    constructor (cfg: Config, redis: Server)
      ensures this.cfg == cfg && this.redis == redis && requests == map[]
    {
      this.cfg := cfg;
      this.redis := redis;
      requests := map[];
    }

    // The transaction of the Redis path, and the third of its results.
    method RunPipeline(client: string, now: real) returns (recent: nat)
      modifies redis
      ensures redis.keys == Pipeline(cfg, old(redis.keys), client, now)
      ensures recent == |Scores(cfg, old(redis.keys), client, now)|
    {
      ghost var before := redis.keys;
      redis.ZAdd(client, now);
      redis.ZRemRangeByScore(client, now - cfg.window);
      Trimmed(cfg, before, client, now);
      recent := redis.ZCard(client);
      redis.Expire(client, now, cfg.window);
    }

    method Prune(client: string, cutoff: real) returns (kept: seq<real>)
      ensures kept == Recent(if client in requests then requests[client] else [], cutoff)
    {
      var all := if client in requests then requests[client] else [];
      kept := [];
      for i := 0 to |all|
        invariant kept == Recent(all[..i], cutoff)
      {
        assert all[..i + 1][..i] == all[..i];
        if all[i] > cutoff {
          kept := kept + [all[i]];
        }
      }
      assert all[..|all|] == all;
    }

    method FallBack(client: string, now: real) returns (passed: bool)
      modifies this
      ensures State() == DecideLocally(cfg, old(State()), client, now).0
      ensures passed <==> DecideLocally(cfg, old(State()), client, now).1 == LocalAdmits
    {
      var kept := Prune(client, now - cfg.window);
      requests := requests[client := kept];
      if |kept| >= cfg.max {
        return false;
      }
      requests := requests[client := kept + [now]];
      return true;
    }

    // `dispatch`: true when the request is passed on, false for a 429.
    method Dispatch(r: Request) returns (passed: bool)
      modifies this, redis
      ensures State() == Decide(cfg, old(State()), r).0
      ensures passed <==> Decide(cfg, old(State()), r).1 !in {RedisRejects, LocalRejects}
    {
      if r.path != "/ingest" {
        return true;
      }
      var client := if r.host.Some? then r.host.value else "unknown";
      var recent := 0;
      if r.net.Answered? || r.net.applied {
        recent := RunPipeline(client, r.now);
      }
      if r.net.Answered? {
        return recent <= cfg.max;
      }
      passed := FallBack(client, r.now);
    }
  }
}
