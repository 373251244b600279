/**
  Whom the rate limiter limits, in terms of the path and the host of the requests alone: other paths
  pass, and what becomes of a host's requests depends on that host's earlier ones only.
*/
module RateLimiterClients {
  import opened Options
  import opened RateLimiter
  import Sequences

  // A request to /ingest from the host `c`; one without a host counts as "unknown".
  predicate From(r: Request, c: string) {
    r.path == "/ingest" && (r.host == Some(c) || (r.host == None && c == "unknown"))
  }

  function Own(rs: seq<Request>, c: string): seq<Request> {
    if rs == [] then []
    else Own(rs[..|rs| - 1], c) + if From(rs[|rs| - 1], c) then [rs[|rs| - 1]] else []
  }

  // The two stores hold the same for client `c`.
  ghost predicate SameFor(w: World, w': World, c: string) {
    && (c in w.redis <==> c in w'.redis)
    && (c in w.redis ==> w.redis[c] == w'.redis[c])
    && Local(w, c) == Local(w', c)
  }

  lemma AfterSnoc(cfg: Config, rs: seq<Request>, r: Request)
    ensures After(cfg, rs + [r]) == Decide(cfg, After(cfg, rs), r).0
    ensures Last(cfg, rs + [r]) == Decide(cfg, After(cfg, rs), r).1
  {
    Sequences.InitOfSnoc(rs, r);
  }

  // A request to another path passes and leaves both stores as they are; one to /ingest is
  // admitted or rejected.
  lemma OtherPathsPass(cfg: Config, rs: seq<Request>, r: Request)
    ensures r.path != "/ingest" ==> Last(cfg, rs + [r]) == Unlimited && After(cfg, rs + [r]) == After(cfg, rs)
    ensures r.path == "/ingest" ==> Last(cfg, rs + [r]) != Unlimited
  {
    AfterSnoc(cfg, rs, r);
  }

  lemma OwnPipeline(cfg: Config, w: World, w': World, c: string, now: real)
    requires SameFor(w, w', c)
    ensures Scores(cfg, w.redis, c, now) == Scores(cfg, w'.redis, c, now)
    ensures SameFor(w.(redis := Pipeline(cfg, w.redis, c, now)), w'.(redis := Pipeline(cfg, w'.redis, c, now)), c)
  {
    assert Live(w.redis, c, now) == Live(w'.redis, c, now);
  }

  lemma OwnFallback(cfg: Config, w: World, w': World, c: string, now: real)
    requires SameFor(w, w', c)
    ensures SameFor(DecideLocally(cfg, w, c, now).0, DecideLocally(cfg, w', c, now).0, c)
    ensures DecideLocally(cfg, w, c, now).1 == DecideLocally(cfg, w', c, now).1
  {
  }

  lemma OwnDecision(cfg: Config, w: World, w': World, r: Request, c: string)
    requires SameFor(w, w', c) && From(r, c)
    ensures SameFor(Decide(cfg, w, r).0, Decide(cfg, w', r).0, c)
    ensures Decide(cfg, w, r).1 == Decide(cfg, w', r).1
  {
    assert r.Limited() && r.Client() == c;
    OwnPipeline(cfg, w, w', c, r.now);
    if r.net.Failed? {
      var v := if r.Reaches() then w.(redis := Pipeline(cfg, w.redis, c, r.now)) else w;
      var v' := if r.Reaches() then w'.(redis := Pipeline(cfg, w'.redis, c, r.now)) else w';
      OwnFallback(cfg, v, v', c, r.now);
    }
  }

  lemma OtherDecision(cfg: Config, w: World, r: Request, c: string)
    requires !From(r, c)
    ensures SameFor(Decide(cfg, w, r).0, w, c)
  {
  }

  lemma {:induction false} OthersLeaveNoTrace(cfg: Config, rs: seq<Request>, c: string)
    ensures SameFor(After(cfg, rs), After(cfg, Own(rs, c)), c)
  {
    if rs != [] {
      var init, r := rs[..|rs| - 1], rs[|rs| - 1];
      OthersLeaveNoTrace(cfg, init, c);
      if From(r, c) {
        OwnDecision(cfg, After(cfg, init), After(cfg, Own(init, c)), r, c);
        AfterSnoc(cfg, Own(init, c), r);
      } else {
        OtherDecision(cfg, After(cfg, init), r, c);
        assert Own(rs, c) == Own(init, c);
      }
    }
  }

  // ISOLATION: what becomes of a request is what would become of it had only its own host's
  // requests to /ingest come before it.
  lemma OnlyOwnRequestsCount(cfg: Config, rs: seq<Request>, r: Request, c: string)
    requires From(r, c)
    ensures Last(cfg, rs + [r]) == Last(cfg, Own(rs, c) + [r])
  {
    OthersLeaveNoTrace(cfg, rs, c);
    OwnDecision(cfg, After(cfg, rs), After(cfg, Own(rs, c)), r, c);
    AfterSnoc(cfg, rs, r);
    AfterSnoc(cfg, Own(rs, c), r);
  }

  // A client's admissions are those of a run of its own requests.
  lemma {:induction false} OnlyOwnAreAdmitted(cfg: Config, rs: seq<Request>, c: string)
    ensures Admitted(cfg, rs, c) == Admitted(cfg, Own(rs, c), c)
  {
    if rs != [] {
      var init, r := rs[..|rs| - 1], rs[|rs| - 1];
      OnlyOwnAreAdmitted(cfg, init, c);
      Sequences.TakeOneMore(rs, |rs|);
      assert rs[..|rs|] == rs;
      if From(r, c) {
        OnlyOwnRequestsCount(cfg, init, r, c);
        Sequences.InitOfSnoc(Own(init, c), r);
      } else {
        assert Own(rs, c) == Own(init, c);
      }
    }
  }

  // What a fallback leaves in a client's list is in the window, and the instant itself is the last
  // of it when it is admitted.
  lemma FallbackForgets(cfg: Config, w: World, r: Request, c: string)
    requires From(r, c) && r.net.Failed? && cfg.window > 0.0
    ensures var (w', outcome) := Decide(cfg, w, r);
            && (forall t <- Local(w', c) :: t > r.now - cfg.window)
            && (outcome == LocalAdmits ==> Local(w', c) != [] && Local(w', c)[|Local(w', c)| - 1] == r.now)
            && (outcome == LocalRejects ==> |Local(w', c)| >= cfg.max)
  {
    RecentContent(Local(w, c), r.now - cfg.window);
  }
}
