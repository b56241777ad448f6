/** The fixed-window limiter: a counter per identity and window, and what it lets through. */
module RateLimit {
  import opened Wrappers
  import opened Text

  datatype Config = Config(max: nat, windowMs: nat, route: string)

  type Count = n: nat | n > 0 witness 1

  /** A counter in the cache; without an expiry it stays. */
  datatype Slot = Slot(count: Count, expires: Option<int>)

  type Store = map<string, Slot>

  function WindowSec(windowMs: nat): nat {
    (windowMs + 999) / 1000
  }

  function Window(windowMs: nat, at: nat): nat
    requires windowMs > 0
  {
    at / windowMs
  }

  function Key(cfg: Config, identity: string, window: nat): string {
    ("rl:" + identity + (":" + cfg.route)) + [':'] + Decimal(window)
  }

  function RetryAfter(windowMs: nat, at: nat): int
    requires windowMs > 0
  {
    var r := WindowSec(windowMs) - (at / 1000) % WindowSec(windowMs);
    if r < 1 then 1 else r
  }

  predicate Alive(store: Store, key: string, at: int) {
    key in store && (store[key].expires.Some? ==> at < store[key].expires.value)
  }

  /** INCR, then EXPIRE NX if this was the first hit. */
  function Counted(cfg: Config, store: Store, identity: string, at: nat): Store
    requires cfg.windowMs > 0
  {
    var key := Key(cfg, identity, Window(cfg.windowMs, at));
    if Alive(store, key, at)
    then store[key := store[key].(count := store[key].count + 1)]
    else store[key := Slot(1, Some(at + WindowSec(cfg.windowMs) * 1000))]
  }

  /** The count that the request is told. */
  function Hits(cfg: Config, store: Store, identity: string, at: nat): nat
    requires cfg.windowMs > 0
  {
    Counted(cfg, store, identity, at)[Key(cfg, identity, Window(cfg.windowMs, at))].count
  }

  datatype Fault = NoFault | NotReady | IncrFails | ExpireFails

  datatype Verdict = Pass | TooMany(retryAfterSec: int)

  class Limiter {
    const cfg: Config
    var store: Store

    constructor (cfg: Config)
      requires cfg.windowMs > 0
      ensures this.cfg == cfg && store == map[]
    {
      this.cfg := cfg;
      store := map[];
    }

    /** One request, with the clock as it is read first (`now`) and, if the request is refused, again
        (`later`). With the cache up it is refused exactly when its count is over the maximum, and told
        to wait between one second and a window; with the cache down, or no identity, it passes. An EXPIRE
        is sent for a first hit alone: if it fails the request passes and its counter has no expiry. */
    method Handle(identity: string, now: nat, later: nat, fault: Fault) returns (verdict: Verdict)
      requires cfg.windowMs > 0
      modifies `store
      ensures fault.NotReady? || fault.IncrFails? || identity == "" ==> verdict == Pass && store == old(store)
      ensures var key := Key(cfg, identity, Window(cfg.windowMs, now));
              fault.ExpireFails? && identity != "" && !Alive(old(store), key, now) ==>
                verdict == Pass && store == old(store)[key := Slot(1, None)]
      ensures var key := Key(cfg, identity, Window(cfg.windowMs, now));
              (fault.NoFault? || (fault.ExpireFails? && Alive(old(store), key, now))) && identity != "" ==>
                && store == Counted(cfg, old(store), identity, now)
                && verdict == if Hits(cfg, old(store), identity, now) > cfg.max
                           then TooMany(RetryAfter(cfg.windowMs, later)) else Pass
      ensures verdict.TooMany? ==> 1 <= verdict.retryAfterSec <= WindowSec(cfg.windowMs)
    {
      if fault.NotReady? || identity == "" {
        return Pass;
      }
      var window := now / cfg.windowMs;
      var key := Key(cfg, identity, window);
      if fault.IncrFails? {
        return Pass;
      }
      var count := 1;
      if Alive(store, key, now) {
        count := store[key].count + 1;
        store := store[key := store[key].(count := count)];
      } else {
        store := store[key := Slot(1, None)];
      }
      if count == 1 {
        if fault.ExpireFails? {
          return Pass;
        }
        store := store[key := store[key].(expires := Some(now + WindowSec(cfg.windowMs) * 1000))];
      }
      if count > cfg.max {
        var windowSec := WindowSec(cfg.windowMs);
        var retryAfter := windowSec - (later / 1000) % windowSec;
        return TooMany(if retryAfter < 1 then 1 else retryAfter);
      }
      return Pass;
    }
  }

  // Runs of requests -------------------------------------------------------------------------------

  datatype Request = Request(identity: string, at: nat)

  function StoreAfter(cfg: Config, reqs: seq<Request>): Store
    requires cfg.windowMs > 0
  {
    if reqs == [] then map[]
    else
      var r := reqs[|reqs| - 1];
      var store := StoreAfter(cfg, reqs[..|reqs| - 1]);
      if r.identity == "" then store else Counted(cfg, store, r.identity, r.at)
  }

  /** Whether the last of these requests is let through. */
  predicate LastAdmitted(cfg: Config, reqs: seq<Request>)
    requires cfg.windowMs > 0 && reqs != []
  {
    var r := reqs[|reqs| - 1];
    r.identity == "" || Hits(cfg, StoreAfter(cfg, reqs[..|reqs| - 1]), r.identity, r.at) <= cfg.max
  }

  /** How many requests this identity made at times `from <= at < to`. */
  function Asked(reqs: seq<Request>, identity: string, from: int, to: int): nat {
    if reqs == [] then 0
    else
      var r := reqs[|reqs| - 1];
      Asked(reqs[..|reqs| - 1], identity, from, to) + (if r.identity == identity && from <= r.at < to then 1 else 0)
  }

  /** And how many of them were let through. */
  function Admitted(cfg: Config, reqs: seq<Request>, identity: string, from: int, to: int): nat
    requires cfg.windowMs > 0
  {
    if reqs == [] then 0
    else
      var r := reqs[|reqs| - 1];
      Admitted(cfg, reqs[..|reqs| - 1], identity, from, to)
      + (if r.identity == identity && from <= r.at < to && LastAdmitted(cfg, reqs) then 1 else 0)
  }

  lemma KeySpelt(cfg: Config, identity: string, window: nat)
    ensures Key(cfg, identity, window) == "rl:" + identity + ":" + cfg.route + ":" + Decimal(window)
  {
  }

  lemma KeyInjective(cfg: Config, a: string, v: nat, b: string, w: nat)
    requires Key(cfg, a, v) == Key(cfg, b, w)
    ensures a == b && v == w
  {
    var x, y := "rl:" + a + (":" + cfg.route), "rl:" + b + (":" + cfg.route);
    LastSplit(x, Decimal(v), y, Decimal(w), ':');
    DecimalInjective(v, w);
    assert a == x[3..|x| - |cfg.route| - 1] && b == y[3..|y| - |cfg.route| - 1];
  }

  lemma WindowBounds(windowMs: nat, at: nat)
    requires windowMs > 0
    ensures var w := Window(windowMs, at);
            w * windowMs <= at < w * windowMs + windowMs <= at + WindowSec(windowMs) * 1000 < at + windowMs + 1000
  {
  }

  lemma MulMonotone(a: nat, b: nat, m: nat)
    requires a <= b
    ensures a * m <= b * m
    ensures (a + 1) * m == a * m + m
  {
  }

  lemma InWindow(windowMs: nat, at: nat, w: nat)
    requires windowMs > 0
    ensures w * windowMs <= at < w * windowMs + windowMs <==> Window(windowMs, at) == w
  {
    WindowBounds(windowMs, at);
    var v := Window(windowMs, at);
    if v < w {
      MulMonotone(v, v, windowMs);
      MulMonotone(v + 1, w, windowMs);
    } else if w < v {
      MulMonotone(w, w, windowMs);
      MulMonotone(w + 1, v, windowMs);
    }
  }

  /** The counter of a window is the number of requests so far; it outlives the window, by no more than a window
      and a second. */
  lemma {:induction false} CounterIsExact(cfg: Config, reqs: seq<Request>, identity: string, w: nat)
    requires cfg.windowMs > 0 && identity != ""
    ensures var n := Asked(reqs, identity, w * cfg.windowMs, w * cfg.windowMs + cfg.windowMs);
            var key := Key(cfg, identity, w);
            var store := StoreAfter(cfg, reqs);
            if n == 0 then key !in store
            else key in store && store[key].count == n
                 && store[key].expires.Some?
                 && w * cfg.windowMs + cfg.windowMs <= store[key].expires.value
                      < w * cfg.windowMs + 2 * cfg.windowMs + 1000
    decreases |reqs|
  {
    if reqs != [] {
      var r := reqs[|reqs| - 1];
      CounterIsExact(cfg, reqs[..|reqs| - 1], identity, w);
      InWindow(cfg.windowMs, r.at, w);
      WindowBounds(cfg.windowMs, r.at);
      if r.identity != "" && Key(cfg, r.identity, Window(cfg.windowMs, r.at)) == Key(cfg, identity, w) {
        KeyInjective(cfg, r.identity, Window(cfg.windowMs, r.at), identity, w);
      }
    }
  }

  /** Exactness: in each window each identity is let through min(max, requests) times, whatever other
      identities ask meanwhile. */
  lemma {:induction false} WindowIsExact(cfg: Config, reqs: seq<Request>, identity: string, w: nat)
    requires cfg.windowMs > 0 && identity != ""
    ensures var n := Asked(reqs, identity, w * cfg.windowMs, w * cfg.windowMs + cfg.windowMs);
            Admitted(cfg, reqs, identity, w * cfg.windowMs, w * cfg.windowMs + cfg.windowMs)
              == if n < cfg.max then n else cfg.max
    decreases |reqs|
  {
    if reqs != [] {
      var r := reqs[|reqs| - 1];
      var before := reqs[..|reqs| - 1];
      WindowIsExact(cfg, before, identity, w);
      InWindow(cfg.windowMs, r.at, w);
      if r.identity == identity && Window(cfg.windowMs, r.at) == w {
        CounterIsExact(cfg, before, identity, w);
        CounterIsExact(cfg, reqs, identity, w);
      }
    }
  }

  lemma {:induction false} AdmittedAdds(cfg: Config, reqs: seq<Request>, identity: string, x: int, y: int, z: int)
    requires cfg.windowMs > 0 && x <= y <= z
    ensures Admitted(cfg, reqs, identity, x, z)
              == Admitted(cfg, reqs, identity, x, y) + Admitted(cfg, reqs, identity, y, z)
    decreases |reqs|
  {
    if reqs != [] {
      AdmittedAdds(cfg, reqs[..|reqs| - 1], identity, x, y, z);
    }
  }

  lemma {:induction false} WindowsBound(cfg: Config, reqs: seq<Request>, identity: string, w: nat, k: nat)
    requires cfg.windowMs > 0 && identity != ""
    ensures Admitted(cfg, reqs, identity, w * cfg.windowMs, (w + k) * cfg.windowMs) <= cfg.max * k
    decreases k
  {
    var m := cfg.windowMs;
    if k == 0 {
      NothingInEmptyInterval(cfg, reqs, identity, w * m);
    } else {
      WindowsBound(cfg, reqs, identity, w, k - 1);
      WindowIsExact(cfg, reqs, identity, w + k - 1);
      assert (w + k) * m == (w + k - 1) * m + m;
      assert w * m <= (w + k - 1) * m;
      AdmittedAdds(cfg, reqs, identity, w * m, (w + k - 1) * m, (w + k) * m);
      assert cfg.max * k == cfg.max * (k - 1) + cfg.max;
    }
  }

  lemma {:induction false} NothingInEmptyInterval(cfg: Config, reqs: seq<Request>, identity: string, x: int)
    requires cfg.windowMs > 0
    ensures Admitted(cfg, reqs, identity, x, x) == 0
    decreases |reqs|
  {
    if reqs != [] {
      NothingInEmptyInterval(cfg, reqs[..|reqs| - 1], identity, x);
    }
  }

  function CeilDiv(a: nat, b: nat): nat
    requires b > 0
  {
    (a + b - 1) / b
  }

  lemma CeilDivCovers(a: nat, b: nat)
    requires b > 0
    ensures a <= CeilDiv(a, b) * b
  {
  }

  /** The burst bound: in any interval of `len` milliseconds, however it lies across the windows, one
      identity is let through at most max times (the windows that fit, rounded up, and one more). */
  lemma BurstBound(cfg: Config, reqs: seq<Request>, identity: string, start: nat, len: nat)
    requires cfg.windowMs > 0 && identity != ""
    ensures Admitted(cfg, reqs, identity, start, start + len) <= cfg.max * (CeilDiv(len, cfg.windowMs) + 1)
  {
    var m, w, k := cfg.windowMs, Window(cfg.windowMs, start), CeilDiv(len, cfg.windowMs) + 1;
    WindowBounds(m, start);
    CeilDivCovers(len, m);
    assert (w + k) * m == w * m + m + CeilDiv(len, m) * m;
    WindowsBound(cfg, reqs, identity, w, k);
    AdmittedAdds(cfg, reqs, identity, w * m, start, (w + k) * m);
    AdmittedAdds(cfg, reqs, identity, start, start + len, (w + k) * m);
  }

  /** In particular at most twice the maximum in any interval as long as a window. */
  lemma BurstOfOneWindow(cfg: Config, reqs: seq<Request>, identity: string, start: nat)
    requires cfg.windowMs > 0 && identity != ""
    ensures Admitted(cfg, reqs, identity, start, start + cfg.windowMs) <= 2 * cfg.max
  {
    BurstBound(cfg, reqs, identity, start, cfg.windowMs);
    assert CeilDiv(cfg.windowMs, cfg.windowMs) == 1 by {
      assert cfg.windowMs + cfg.windowMs - 1 == cfg.windowMs * 1 + (cfg.windowMs - 1);
      DivIs(cfg.windowMs + cfg.windowMs - 1, cfg.windowMs, 1, cfg.windowMs - 1);
    }
  }

  // When to come back ------------------------------------------------------------------------------

  /** A client that waits as told lands in the window right after the one it was refused in. */
  predicate LandsInNextWindow(windowMs: nat, at: nat)
    requires windowMs > 0
  {
    Window(windowMs, at + 1000 * RetryAfter(windowMs, at)) == Window(windowMs, at) + 1
  }

  lemma DivIs(a: nat, b: nat, q: nat, r: nat)
    requires b > 0 && a == b * q + r && r < b
    ensures a / b == q && a % b == r
  {
    InWindow(b, a, q);
  }

  lemma WholeSecondsLand(windowSec: nat, at: nat)
    requires windowSec > 0
    ensures LandsInNextWindow(1000 * windowSec, at)
  {
    var m := 1000 * windowSec;
    var s, f := at / 1000, at % 1000;
    var q, r := s / windowSec, s % windowSec;
    assert WindowSec(m) == windowSec;
    assert s == windowSec * q + r;
    assert at == m * q + (1000 * r + f);
    DivIs(at, m, q, 1000 * r + f);
    assert RetryAfter(m, at) == windowSec - r;
    assert m * (q + 1) == m * q + m;
    DivIs(at + 1000 * (windowSec - r), m, q + 1, f);
  }

  /** From time 0, obeying the limiter again and again moves by one window a time only if it always lands. */
  lemma {:induction false} RetriesDrift(windowMs: nat, k: nat)
    requires windowMs > 0 && forall at: nat :: LandsInNextWindow(windowMs, at)
    ensures Window(windowMs, 1000 * (WindowSec(windowMs) * k)) == k
  {
    var sec := WindowSec(windowMs);
    if k == 0 {
      assert sec * k == 0;
      DivIs(0, windowMs, 0, 0);
    } else {
      RetriesDrift(windowMs, k - 1);
      var at: nat := 1000 * (sec * (k - 1));
      DivIs(sec * (k - 1), sec, k - 1, 0);
      assert RetryAfter(windowMs, at) == sec;
      assert sec * k == sec * (k - 1) + sec;
      assert at + 1000 * sec == 1000 * (sec * k);
      assert LandsInNextWindow(windowMs, at);
    }
  }

  /** The advice, of any window of `sec` seconds, the last perhaps begun: the least positive number of seconds after
      which the clock shows a multiple of `sec`. */
  lemma AdviceIsExact(windowMs: nat, sec: nat, at: nat)
    requires 1000 * sec - 1000 < windowMs <= 1000 * sec && sec > 0
    ensures 1 <= RetryAfter(windowMs, at) <= sec && (at / 1000 + RetryAfter(windowMs, at)) % sec == 0
  {
    var s := at / 1000;
    assert WindowSec(windowMs) == sec;
    assert s == sec * (s / sec) + s % sec;
    assert sec * (s / sec + 1) == sec * (s / sec) + sec;
    DivIs(s + (sec - s % sec), sec, s / sec + 1, 0);
  }

  /** When it is right it is also the shortest: a client that waits a second less, or any less, is still in the
      window it was refused in. */
  lemma AdviceIsShortest(windowSec: nat, at: nat, wait: nat)
    requires windowSec > 0 && wait < RetryAfter(1000 * windowSec, at)
    ensures Window(1000 * windowSec, at + 1000 * wait) == Window(1000 * windowSec, at)
  {
    var m := 1000 * windowSec;
    var s, f := at / 1000, at % 1000;
    var q, r := s / windowSec, s % windowSec;
    assert WindowSec(m) == windowSec;
    assert s == windowSec * q + r;
    assert at == m * q + (1000 * r + f) by {
      assert at == 1000 * s + f;
      assert 1000 * (windowSec * q) == m * q;
    }
    DivIs(at, m, q, 1000 * r + f);
    DivIs(at + 1000 * wait, m, q, 1000 * (r + wait) + f);
  }

  lemma AlwaysLandingIsWhole(windowMs: nat)
    requires windowMs > 0 && forall at: nat :: LandsInNextWindow(windowMs, at)
    ensures windowMs == 1000 * WindowSec(windowMs)
  {
    var sec := WindowSec(windowMs);
    RetriesDrift(windowMs, windowMs);
    var far: nat := 1000 * (sec * windowMs);
    assert far == windowMs * (1000 * sec) + 0;
    DivIs(far, windowMs, 1000 * sec, 0);
  }

  /** With a window of a second and a half, a client refused at 3 s is told to wait 1 s, and at 4 s is still
      in the window it was refused in. */
  lemma RaggedWindow()
    ensures RetryAfter(1500, 3000) == 1 && Window(1500, 3000 + 1000) == Window(1500, 3000)
    ensures !LandsInNextWindow(1500, 3000)
  {
  }

  /** The advice is always right if and only if the window is a whole number of seconds. */
  lemma RetryLandsIff(windowMs: nat)
    requires windowMs > 0
    ensures (forall at: nat :: LandsInNextWindow(windowMs, at)) <==> windowMs % 1000 == 0
  {
    if windowMs % 1000 == 0 {
      forall at: nat ensures LandsInNextWindow(windowMs, at) {
        WholeSecondsLand(windowMs / 1000, at);
      }
    } else if forall at: nat :: LandsInNextWindow(windowMs, at) {
      AlwaysLandingIsWhole(windowMs);
    }
  }
}
