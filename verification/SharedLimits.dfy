/** Several limiters counting in one cache, and which labels keep them out of one another's counters. */
module SharedLimits {
  import opened Text
  import opened RateLimit

  // The windows and maxima of the service's two limiters, one by address and one by user.

  const LOGIN_LIMIT := Config(5, 60_000, "auth:login")
  const BOOKING_LIMIT := Config(10, 60_000, "bookings:create")

  // Labels -----------------------------------------------------------------------------------------

  predicate EndsWith(s: string, end: string) {
    |end| <= |s| && s[|s| - |end|..] == end
  }

  /** Neither label, after its ":", is the end of the other. */
  predicate LabelsApart(a: Config, b: Config) {
    !EndsWith(":" + a.route, ":" + b.route) && !EndsWith(":" + b.route, ":" + a.route)
  }

  /** No counter of the one limiter is ever a counter of the other. */
  ghost predicate KeysApart(a: Config, b: Config) {
    forall x, v: nat, y, w: nat :: x != "" && y != "" ==> Key(a, x, v) != Key(b, y, w)
  }

  lemma ShorterEndsLonger(p: string, a: string, q: string, b: string)
    requires p + a == q + b && |a| <= |b|
    ensures EndsWith(b, a)
  {
    var d := |b| - |a|;
    assert |p| == |q| + d;
    forall k | 0 <= k < |a| ensures b[d + k] == a[k] {
      assert (p + a)[|p| + k] == a[k] && (q + b)[|q| + (d + k)] == b[d + k];
    }
    assert b[d..] == a;
  }

  lemma EqualKeysShareEnds(a: Config, x: string, v: nat, b: Config, y: string, w: nat)
    requires Key(a, x, v) == Key(b, y, w) && |a.route| <= |b.route|
    ensures EndsWith(":" + b.route, ":" + a.route)
  {
    LastSplit("rl:" + x + (":" + a.route), Decimal(v), "rl:" + y + (":" + b.route), Decimal(w), ':');
    ShorterEndsLonger("rl:" + x, ":" + a.route, "rl:" + y, ":" + b.route);
  }

  lemma SharedEndsCollide(a: Config, b: Config)
    requires EndsWith(":" + b.route, ":" + a.route)
    ensures !KeysApart(a, b)
  {
    var rest := (":" + b.route)[..|b.route| - |a.route|];
    assert ":" + b.route == rest + (":" + a.route);
    assert "rl:" + ("u" + rest) + (":" + a.route) == "rl:" + "u" + (":" + b.route);
    assert Key(a, "u" + rest, 0) == Key(b, "u", 0);
  }

  lemma ApartIsSymmetric(a: Config, b: Config)
    ensures KeysApart(a, b) ==> KeysApart(b, a)
  {
  }

  /** Two limiters never share a counter, whatever characters identities have, if and only if neither label
      ends the other. */
  lemma KeysApartIff(a: Config, b: Config)
    ensures KeysApart(a, b) <==> LabelsApart(a, b)
  {
    ApartIsSymmetric(a, b);
    ApartIsSymmetric(b, a);
    if EndsWith(":" + b.route, ":" + a.route) {
      SharedEndsCollide(a, b);
    } else if EndsWith(":" + a.route, ":" + b.route) {
      SharedEndsCollide(b, a);
    } else {
      forall x, v: nat, y, w: nat ensures Key(a, x, v) != Key(b, y, w) {
        if Key(a, x, v) == Key(b, y, w) {
          if |a.route| <= |b.route| {
            EqualKeysShareEnds(a, x, v, b, y, w);
          } else {
            EqualKeysShareEnds(b, y, w, a, x, v);
          }
        }
      }
    }
  }

  /** As the labels of the service are. */
  lemma ServiceLimitsApart()
    ensures KeysApart(LOGIN_LIMIT, BOOKING_LIMIT) && KeysApart(BOOKING_LIMIT, LOGIN_LIMIT)
  {
    var s, t := ":" + LOGIN_LIMIT.route, ":" + BOOKING_LIMIT.route;
    assert s[10] == 'n' && t[5..][10] == 'e';
    KeysApartIff(LOGIN_LIMIT, BOOKING_LIMIT);
    ApartIsSymmetric(LOGIN_LIMIT, BOOKING_LIMIT);
  }

  // One cache --------------------------------------------------------------------------------------

  /** A request to one of the limiters. */
  datatype Call = Call(cfg: Config, request: Request)

  predicate AllTick(calls: seq<Call>) {
    forall i :: 0 <= i < |calls| ==> calls[i].cfg.windowMs > 0
  }

  function SharedStore(calls: seq<Call>): Store
    requires AllTick(calls)
  {
    if calls == [] then map[]
    else
      var c := calls[|calls| - 1];
      var store := SharedStore(calls[..|calls| - 1]);
      if c.request.identity == "" then store else Counted(c.cfg, store, c.request.identity, c.request.at)
  }

  function Mine(calls: seq<Call>, cfg: Config): seq<Request> {
    if calls == [] then []
    else
      var c := calls[|calls| - 1];
      Mine(calls[..|calls| - 1], cfg) + if c.cfg == cfg then [c.request] else []
  }

  /** How many of the requests of this identity to this limiter are let through, all limiters counting in the
      one cache. */
  function SharedAdmitted(calls: seq<Call>, cfg: Config, identity: string, from: int, to: int): nat
    requires AllTick(calls) && cfg.windowMs > 0
  {
    if calls == [] then 0
    else
      var c, before := calls[|calls| - 1], calls[..|calls| - 1];
      var r := c.request;
      SharedAdmitted(before, cfg, identity, from, to)
      + (if c.cfg == cfg && r.identity == identity && from <= r.at < to
            && (r.identity == "" || Hits(cfg, SharedStore(before), r.identity, r.at) <= cfg.max) then 1 else 0)
  }

  predicate Agree(s: Store, t: Store, key: string) {
    (key in s <==> key in t) && (key in s ==> s[key] == t[key])
  }

  lemma CountingAgrees(cfg: Config, s: Store, t: Store, identity: string, at: nat, key: string)
    requires cfg.windowMs > 0
    requires Agree(s, t, Key(cfg, identity, Window(cfg.windowMs, at))) && Agree(s, t, key)
    ensures Agree(Counted(cfg, s, identity, at), Counted(cfg, t, identity, at), key)
    ensures Hits(cfg, s, identity, at) == Hits(cfg, t, identity, at)
  {
  }

  ghost predicate OthersApart(calls: seq<Call>, cfg: Config) {
    forall i :: 0 <= i < |calls| && calls[i].cfg != cfg ==> KeysApart(calls[i].cfg, cfg)
  }

  /** In the shared cache the counters of a limiter are those it would have by itself. */
  lemma {:induction false} StoresAgree(calls: seq<Call>, cfg: Config, identity: string, w: nat)
    requires AllTick(calls) && cfg.windowMs > 0 && OthersApart(calls, cfg) && identity != ""
    ensures Agree(SharedStore(calls), StoreAfter(cfg, Mine(calls, cfg)), Key(cfg, identity, w))
    decreases |calls|
  {
    if calls != [] {
      var c, before := calls[|calls| - 1], calls[..|calls| - 1];
      var r := c.request;
      StoresAgree(before, cfg, identity, w);
      if c.cfg == cfg && r.identity != "" {
        var s, t := SharedStore(before), StoreAfter(cfg, Mine(before, cfg));
        StoresAgree(before, cfg, r.identity, Window(cfg.windowMs, r.at));
        CountingAgrees(cfg, s, t, r.identity, r.at, Key(cfg, identity, w));
      }
      assert c.cfg == cfg ==> Mine(calls, cfg)[..|Mine(calls, cfg)| - 1] == Mine(before, cfg);
      assert c.cfg != cfg ==> Mine(calls, cfg) == Mine(before, cfg);
    }
  }

  /** So sharing the cache is invisible: each limiter lets through what it would let through by itself. */
  lemma {:induction false} SharingIsInvisible(calls: seq<Call>, cfg: Config, identity: string, from: int, to: int)
    requires AllTick(calls) && cfg.windowMs > 0 && OthersApart(calls, cfg)
    ensures SharedAdmitted(calls, cfg, identity, from, to) == Admitted(cfg, Mine(calls, cfg), identity, from, to)
    decreases |calls|
  {
    if calls != [] {
      var c, before := calls[|calls| - 1], calls[..|calls| - 1];
      var r, mine := c.request, Mine(before, cfg);
      SharingIsInvisible(before, cfg, identity, from, to);
      if c.cfg == cfg {
        assert Mine(calls, cfg)[..|mine|] == mine;
        if r.identity != "" {
          var key := Key(cfg, r.identity, Window(cfg.windowMs, r.at));
          StoresAgree(before, cfg, r.identity, Window(cfg.windowMs, r.at));
          CountingAgrees(cfg, SharedStore(before), StoreAfter(cfg, mine), r.identity, r.at, key);
        }
      } else {
        assert Mine(calls, cfg) == mine;
      }
    }
  }

  /** With both limiters of the service on one cache, each window of each lets each identity through exactly
      as often as its own maximum allows: an address logs in five times a minute, a user books ten times. */
  lemma SharedWindowIsExact(calls: seq<Call>, cfg: Config, identity: string, w: nat)
    requires forall i :: 0 <= i < |calls| ==>
               calls[i].cfg == Config(5, 60_000, "auth:login") || calls[i].cfg == Config(10, 60_000, "bookings:create")
    requires (cfg == LOGIN_LIMIT || cfg == BOOKING_LIMIT) && identity != ""
    ensures var n := Asked(Mine(calls, cfg), identity, w * cfg.windowMs, w * cfg.windowMs + cfg.windowMs);
            SharedAdmitted(calls, cfg, identity, w * cfg.windowMs, w * cfg.windowMs + cfg.windowMs)
              == if n < cfg.max then n else cfg.max
    ensures cfg.windowMs == 60_000
    ensures var n := Asked(Mine(calls, cfg), identity, w * 60_000, w * 60_000 + 60_000);
            var max := if cfg == LOGIN_LIMIT then 5 else 10;
            SharedAdmitted(calls, cfg, identity, w * 60_000, w * 60_000 + 60_000) == if n < max then n else max
  {
    ServiceLimitsApart();
    SharingIsInvisible(calls, cfg, identity, w * cfg.windowMs, w * cfg.windowMs + cfg.windowMs);
    WindowIsExact(cfg, Mine(calls, cfg), identity, w);
  }
}
