/** How old an answer can be when reads, fetches, expiries, invalidations and database writes interleave
    freely, as they do in the running service. */
module CacheStaleness {
  import opened Wrappers
  import opened EventKeys
  import opened EventRows
  import opened SingleFlight

  /** Pages are texts. */
  type Value = Cached<string>

  /** What a fetch for a cache key reads from the database, if there is anything to read. */
  type Reader = (Rows, string) -> Option<Value>

  /** What a fetch read, and when. */
  datatype Sample = Sample(value: Option<Value>, at: int)

  datatype Entry = Entry(sample: Sample, expires: int)

  datatype Instant = Instant(time: int, db: Rows)

  /** `log` is the history of the database: what it held at each instant up to now. */
  datatype State = State(log: seq<Instant>, cache: map<string, Entry>, flights: Flights<Sample>,
                         asked: map<Caller, string>)

  const MIN_TTL_MS: int := 60_000
  const MAX_TTL_MS: int := 74_000

  function Now(s: State): int
    requires s.log != []
  {
    s.log[|s.log| - 1].time
  }

  function Db(s: State): Rows
    requires s.log != []
  {
    s.log[|s.log| - 1].db
  }

  datatype Step =
    | Tick(ms: nat)
    | Write(db: Rows)
    | Evict(keys: set<string>)
    | Hit(key: string, c: Caller)
    | Miss(key: string, c: Caller)
    | ReadRow(p: nat)
    | StoreEntry(p: nat, ttl: int)
    | Deliver(p: nat)
    | CleanUp(p: nat)

  /** A fetch holds a sample from its read until it is removed from the map. */
  predicate Holds(ph: Phase<Sample>) {
    ph.HasRead? || ph.Settled?
  }

  /** Time passes only as long as no fetch is held up longer than `D` after its read. Writes and evictions
      (an invalidation is one) come at any time and in any order. */
  ghost predicate Next(read: Reader, D: nat, s: State, step: Step, s': State)
    requires s.log != []
  {
    var now := Now(s);
    var f := s.flights;
    match step
    case Tick(ms) =>
      && (forall p :: 0 <= p < |f.fetches| && Holds(f.fetches[p].phase) ==>
            now + ms <= f.fetches[p].phase.outcome.at + D)
      && s' == s.(log := s.log + [Instant(now + ms, Db(s))])
    case Write(db) => s' == s.(log := s.log + [Instant(now, db)])
    case Evict(keys) => s' == s.(cache := s.cache - keys)
    case Hit(key, c) =>
      && c !in f.joined && c !in f.answers && c !in s.asked
      && key in s.cache && now < s.cache[key].expires
      && s' == s.(flights := f.(answers := f.answers[c := Answer(s.cache[key].sample, now)]),
                  asked := s.asked[c := key])
    case Miss(key, c) =>
      && Enabled(f, Coalesce(key, c)) && c !in s.asked
      && s' == s.(flights := Act(f, Coalesce(key, c), now), asked := s.asked[c := key])
    case ReadRow(p) =>
      && p < |f.fetches| && f.fetches[p].phase.Running?
      && s' == s.(flights := Act(f, Read(p, Sample(read(Db(s), f.fetches[p].key), now)), now))
    case StoreEntry(p, ttl) =>
      && p < |f.fetches| && f.fetches[p].phase.HasRead? && f.fetches[p].phase.outcome.value.Some?
      && MIN_TTL_MS <= ttl <= MAX_TTL_MS
      && s' == s.(cache := s.cache[f.fetches[p].key := Entry(f.fetches[p].phase.outcome, now + ttl)])
    case Deliver(p) =>
      Enabled(f, Settle(p)) && s' == s.(flights := Act(f, Settle(p), now))
    case CleanUp(p) =>
      Enabled(f, Clean(p)) && s' == s.(flights := Act(f, Clean(p), now))
  }

  ghost predicate Run(read: Reader, D: nat, t: seq<State>, steps: seq<Step>) {
    && |t| == |steps| + 1
    && |t[0].log| == 1 && t[0].cache == map[] && t[0].flights == After([]) && t[0].asked == map[]
    && forall i {:trigger steps[i]} :: 0 <= i < |steps| ==>
         t[i].log != [] && Next(read, D, t[i], steps[i], t[i + 1])
  }

  // The invariant ----------------------------------------------------------------------------------

  /** The database held this at the instant of the sample. */
  ghost predicate Genuine(read: Reader, log: seq<Instant>, key: string, sample: Sample) {
    exists i :: 0 <= i < |log| && log[i].time == sample.at && read(log[i].db, key) == sample.value
  }

  ghost predicate FetchesFresh(read: Reader, D: nat, log: seq<Instant>, fetches: seq<Fetch<Sample>>) {
    log != [] && forall p :: 0 <= p < |fetches| && !fetches[p].phase.Running? ==>
      && Genuine(read, log, fetches[p].key, fetches[p].phase.outcome)
      && fetches[p].phase.outcome.at <= log[|log| - 1].time
      && (Holds(fetches[p].phase) ==> log[|log| - 1].time <= fetches[p].phase.outcome.at + D)
  }

  ghost predicate EntriesFresh(read: Reader, D: nat, log: seq<Instant>, cache: map<string, Entry>) {
    log != [] && forall key :: key in cache ==>
      && Genuine(read, log, key, cache[key].sample)
      && cache[key].sample.at <= log[|log| - 1].time
      && cache[key].expires <= cache[key].sample.at + D + MAX_TTL_MS
  }

  ghost predicate AnswersFresh(read: Reader, D: nat, log: seq<Instant>, asked: map<Caller, string>,
                               answers: map<Caller, Answer<Sample>>)
  {
    forall c :: c in answers ==>
      && c in asked
      && Genuine(read, log, asked[c], answers[c].outcome)
      && answers[c].at - MAX_TTL_MS - D <= answers[c].outcome.at <= answers[c].at
  }

  ghost predicate JoinersAsked(f: Flights<Sample>, asked: map<Caller, string>) {
    forall c :: c in f.joined ==>
      c in asked && f.joined[c] < |f.fetches| && f.fetches[f.joined[c]].key == asked[c]
  }

  /** Samples are genuine and not from the future, held fetches are young, entries expire in time. */
  ghost predicate Fresh(read: Reader, D: nat, s: State) {
    && Sound(s.flights)
    && FetchesFresh(read, D, s.log, s.flights.fetches)
    && EntriesFresh(read, D, s.log, s.cache)
    && AnswersFresh(read, D, s.log, s.asked, s.flights.answers)
    && JoinersAsked(s.flights, s.asked)
  }

  lemma LogGrows(read: Reader, log: seq<Instant>, more: Instant)
    ensures forall key, sample :: Genuine(read, log, key, sample) ==> Genuine(read, log + [more], key, sample)
  {
    forall key, sample | Genuine(read, log, key, sample) ensures Genuine(read, log + [more], key, sample) {
      var i :| 0 <= i < |log| && log[i].time == sample.at && read(log[i].db, key) == sample.value;
      assert (log + [more])[i] == log[i];
    }
  }

  lemma AskingKeepsAnswers(read: Reader, D: nat, log: seq<Instant>, asked: map<Caller, string>,
                           answers: map<Caller, Answer<Sample>>, c: Caller, key: string)
    requires AnswersFresh(read, D, log, asked, answers) && c !in asked
    ensures AnswersFresh(read, D, log, asked[c := key], answers)
  {
  }

  lemma AnsweringKeepsAnswers(read: Reader, D: nat, log: seq<Instant>, asked: map<Caller, string>,
                              answers: map<Caller, Answer<Sample>>, c: Caller, answer: Answer<Sample>)
    requires AnswersFresh(read, D, log, asked, answers)
    requires c in asked && Genuine(read, log, asked[c], answer.outcome)
    requires answer.at - MAX_TTL_MS - D <= answer.outcome.at <= answer.at
    ensures AnswersFresh(read, D, log, asked, answers[c := answer])
  {
  }

  lemma AskingKeepsJoiners(f: Flights<Sample>, asked: map<Caller, string>, c: Caller, key: string)
    requires JoinersAsked(f, asked) && c !in asked
    ensures JoinersAsked(f, asked[c := key])
  {
  }

  lemma StartingKeepsFetches(read: Reader, D: nat, log: seq<Instant>, fetches: seq<Fetch<Sample>>, key: string)
    requires FetchesFresh(read, D, log, fetches)
    ensures FetchesFresh(read, D, log, fetches + [Fetch(key, Running)])
  {
  }

  lemma StartKeepsFresh(read: Reader, D: nat, s: State, key: string, c: Caller, s': State)
    requires Fresh(read, D, s) && Next(read, D, s, Step.Miss(key, c), s') && key !in s.flights.inflight
    ensures Fresh(read, D, s')
  {
    CoalesceKeepsSound(s.flights, key, c, Now(s));
    StartingKeepsFetches(read, D, s.log, s.flights.fetches, key);
    AskingKeepsAnswers(read, D, s.log, s.asked, s.flights.answers, c, key);
    AskingKeepsJoiners(s.flights, s.asked, c, key);
  }

  lemma JoinKeepsFresh(read: Reader, D: nat, s: State, key: string, c: Caller, s': State)
    requires Fresh(read, D, s) && Next(read, D, s, Step.Miss(key, c), s') && key in s.flights.inflight
    ensures Fresh(read, D, s')
  {
    CoalesceKeepsSound(s.flights, key, c, Now(s));
    AskingKeepsAnswers(read, D, s.log, s.asked, s.flights.answers, c, key);
    AskingKeepsJoiners(s.flights, s.asked, c, key);
    var fetch := s.flights.fetches[s.flights.inflight[key]];
    if fetch.phase.Settled? {
      AnsweringKeepsAnswers(read, D, s.log, s'.asked, s.flights.answers, c, Answer(fetch.phase.outcome, Now(s)));
    }
  }

  lemma AnsweringKeepsSound(f: Flights<Sample>, c: Caller, answer: Answer<Sample>)
    requires Sound(f) && c !in f.joined
    ensures Sound(f.(answers := f.answers[c := answer]))
  {
  }

  lemma HitKeepsFresh(read: Reader, D: nat, s: State, key: string, c: Caller, s': State)
    requires Fresh(read, D, s) && Next(read, D, s, Step.Hit(key, c), s')
    ensures Fresh(read, D, s')
  {
    var answer := Answer(s.cache[key].sample, Now(s));
    AnsweringKeepsSound(s.flights, c, answer);
    AskingKeepsAnswers(read, D, s.log, s.asked, s.flights.answers, c, key);
    AnsweringKeepsAnswers(read, D, s.log, s'.asked, s.flights.answers, c, answer);
    AskingKeepsJoiners(s.flights, s.asked, c, key);
  }

  lemma ReadKeepsFresh(read: Reader, D: nat, s: State, p: nat, s': State)
    requires Fresh(read, D, s) && Next(read, D, s, Step.ReadRow(p), s')
    ensures Fresh(read, D, s')
  {
    ActKeepsSound(s.flights, Read(p, s'.flights.fetches[p].phase.outcome), Now(s));
    assert s.log[|s.log| - 1] == Instant(Now(s), Db(s));
  }

  /** Those who joined are given a sample that is genuine for the key they asked for, and young. */
  lemma DeliveryKeepsAnswers(read: Reader, D: nat, s: State, p: nat, s': State)
    requires Fresh(read, D, s) && Next(read, D, s, Step.Deliver(p), s')
    ensures AnswersFresh(read, D, s'.log, s'.asked, s'.flights.answers)
  {
    var fetch := s.flights.fetches[p];
    forall c | c in s.flights.joined && s.flights.joined[c] == p ensures s.asked[c] == fetch.key {
    }
  }

  lemma DeliveryKeepsFresh(read: Reader, D: nat, s: State, p: nat, s': State)
    requires Fresh(read, D, s) && Next(read, D, s, Step.Deliver(p), s')
    ensures Fresh(read, D, s')
  {
    SettleKeepsSound(s.flights, p, Now(s));
    DeliveryKeepsAnswers(read, D, s, p, s');
  }

  lemma CleanUpKeepsFresh(read: Reader, D: nat, s: State, p: nat, s': State)
    requires Fresh(read, D, s) && Next(read, D, s, Step.CleanUp(p), s')
    ensures Fresh(read, D, s')
  {
    CleanKeepsSound(s.flights, p);
  }

  lemma StoreKeepsFresh(read: Reader, D: nat, s: State, p: nat, ttl: int, s': State)
    requires Fresh(read, D, s) && Next(read, D, s, Step.StoreEntry(p, ttl), s')
    ensures Fresh(read, D, s')
  {
  }

  lemma LogStepKeepsFresh(read: Reader, D: nat, s: State, more: Instant, s': State)
    requires Fresh(read, D, s) && s' == s.(log := s.log + [more]) && Now(s) <= more.time
    requires forall p :: 0 <= p < |s.flights.fetches| && Holds(s.flights.fetches[p].phase) ==>
               more.time <= s.flights.fetches[p].phase.outcome.at + D
    ensures Fresh(read, D, s')
  {
    LogGrows(read, s.log, more);
  }

  lemma StepKeepsFresh(read: Reader, D: nat, s: State, step: Step, s': State)
    requires Fresh(read, D, s) && Next(read, D, s, step, s')
    ensures Fresh(read, D, s')
  {
    match step {
      case Tick(ms) => LogStepKeepsFresh(read, D, s, Instant(Now(s) + ms, Db(s)), s');
      case Write(db) => LogStepKeepsFresh(read, D, s, Instant(Now(s), db), s');
      case Evict(_) =>
      case Hit(key, c) => HitKeepsFresh(read, D, s, key, c, s');
      case Miss(key, c) =>
        if key in s.flights.inflight {
          JoinKeepsFresh(read, D, s, key, c, s');
        } else {
          StartKeepsFresh(read, D, s, key, c, s');
        }
      case ReadRow(p) => ReadKeepsFresh(read, D, s, p, s');
      case StoreEntry(p, ttl) => StoreKeepsFresh(read, D, s, p, ttl, s');
      case Deliver(p) => DeliveryKeepsFresh(read, D, s, p, s');
      case CleanUp(p) => CleanUpKeepsFresh(read, D, s, p, s');
    }
  }

  lemma {:induction false} RunStaysFresh(read: Reader, D: nat, t: seq<State>, steps: seq<Step>, i: nat)
    requires Run(read, D, t, steps) && i < |t|
    ensures Fresh(read, D, t[i])
  {
    if i > 0 {
      RunStaysFresh(read, D, t, steps, i - 1);
      var step := steps[i - 1];
      StepKeepsFresh(read, D, t[i - 1], step, t[i]);
    }
  }

  // Bounded staleness ------------------------------------------------------------------------------

  /** Bounded staleness, in every interleaving and for whatever is read under a key: what a caller is given,
      by a hit, its own fetch or a fetch it joined, was what the database held at some instant between 74
      seconds and `D` before it was given and the moment it was given. */
  lemma BoundedStaleness(read: Reader, D: nat, t: seq<State>, steps: seq<Step>, i: nat, c: Caller)
    requires Run(read, D, t, steps) && i < |t| && c in t[i].flights.answers
    ensures c in t[i].asked
    ensures var answer := t[i].flights.answers[c];
            exists k :: 0 <= k < |t[i].log|
                        && answer.at - 74_000 - D <= t[i].log[k].time <= answer.at
                        && read(t[i].log[k].db, t[i].asked[c]) == answer.outcome.value
  {
    RunStaysFresh(read, D, t, steps, i);
    var answer := t[i].flights.answers[c];
    assert Genuine(read, t[i].log, t[i].asked[c], answer.outcome);
  }

  // The bound is reached ---------------------------------------------------------------------------

  lemma RunExtends(read: Reader, D: nat, t: seq<State>, steps: seq<Step>, step: Step, s: State)
    requires Run(read, D, t, steps) && t[|t| - 1].log != [] && Next(read, D, t[|t| - 1], step, s)
    ensures Run(read, D, t + [s], steps + [step])
  {
    var t', steps' := t + [s], steps + [step];
    forall i: nat | i < |steps'| ensures t'[i].log != [] && Next(read, D, t'[i], steps'[i], t'[i + 1]) {
      if i < |steps| {
        assert steps'[i] == steps[i] && t'[i] == t[i] && t'[i + 1] == t[i + 1];
      } else {
        assert steps'[i] == step && t'[i] == t[|t| - 1] && t'[i + 1] == s;
      }
    }
  }

  /** Caller 0 has asked for a key, and its one fetch is in the given phase. */
  function OneFetch(log: seq<Instant>, cache: map<string, Entry>, key: string, phase: Phase<Sample>,
                    answers: map<Caller, Answer<Sample>>): State
  {
    State(log, cache,
          Flights(if phase.Cleaned? then map[] else map[key := 0], [Fetch(key, phase)], map[0 := 0], answers),
          map[0 := key])
  }

  /** The fetch has read the row. */
  lemma ReadFetch(read: Reader, D: nat, key: string, before: Rows) returns (t: seq<State>, steps: seq<Step>)
    ensures Run(read, D, t, steps)
    ensures t[|t| - 1] ==
              OneFetch([Instant(0, before)], map[], key, HasRead(Sample(read(before, key), 0)), map[])
  {
    var none: Flights<Sample> := After([]);
    var log := [Instant(0, before)];
    t, steps := [State(log, map[], none, map[])], [];
    var s := OneFetch(log, map[], key, Running, map[]);
    RunExtends(read, D, t, steps, Step.Miss(key, 0), s);
    t, steps := t + [s], steps + [Step.Miss(key, 0)];
    s := OneFetch(log, map[], key, HasRead(Sample(read(before, key), 0)), map[]);
    RunExtends(read, D, t, steps, ReadRow(0), s);
    t, steps := t + [s], steps + [ReadRow(0)];
  }

  /** Then the row is written, and the fetch is held up for as long as it may be. */
  lemma HeldUpFetch(read: Reader, D: nat, key: string, before: Rows, after: Rows)
    returns (t: seq<State>, steps: seq<Step>)
    ensures Run(read, D, t, steps)
    ensures t[|t| - 1] == OneFetch([Instant(0, before), Instant(0, after), Instant(D, after)], map[], key,
                                   HasRead(Sample(read(before, key), 0)), map[])
  {
    t, steps := ReadFetch(read, D, key, before);
    var s := t[|t| - 1];
    var s1 := s.(log := [Instant(0, before), Instant(0, after)]);
    assert s.log + [Instant(0, after)] == s1.log;
    RunExtends(read, D, t, steps, Write(after), s1);
    t, steps := t + [s1], steps + [Write(after)];
    var s2 := s.(log := [Instant(0, before), Instant(0, after), Instant(D, after)]);
    assert s1.log + [Instant(D, after)] == s2.log;
    RunExtends(read, D, t, steps, Tick(D), s2);
    t, steps := t + [s2], steps + [Tick(D)];
  }

  /** It stores what it read, for a while within the bounds. */
  lemma LateStore(read: Reader, D: nat, key: string, before: Rows, after: Rows, ttl: int)
    returns (t: seq<State>, steps: seq<Step>, entry: Entry)
    requires read(before, key).Some? && 60_000 <= ttl <= 74_000
    ensures Run(read, D, t, steps) && entry == Entry(Sample(read(before, key), 0), D + ttl)
    ensures t[|t| - 1] == OneFetch([Instant(0, before), Instant(0, after), Instant(D, after)], map[key := entry], key,
                                   HasRead(entry.sample), map[])
  {
    t, steps := HeldUpFetch(read, D, key, before, after);
    entry := Entry(Sample(read(before, key), 0), D + ttl);
    var s := t[|t| - 1].(cache := map[key := entry]);
    RunExtends(read, D, t, steps, StoreEntry(0, ttl), s);
    t, steps := t + [s], steps + [StoreEntry(0, ttl)];
  }

  /** It delivers what it read, and is done. */
  lemma LateDelivery(read: Reader, D: nat, key: string, before: Rows, after: Rows, ttl: int)
    returns (t: seq<State>, steps: seq<Step>, entry: Entry)
    requires read(before, key).Some? && 60_000 <= ttl <= 74_000
    ensures Run(read, D, t, steps) && entry == Entry(Sample(read(before, key), 0), D + ttl)
    ensures t[|t| - 1] == OneFetch([Instant(0, before), Instant(0, after), Instant(D, after)], map[key := entry], key,
                                   Cleaned(entry.sample), map[0 := Answer(entry.sample, D)])
  {
    t, steps, entry := LateStore(read, D, key, before, after, ttl);
    var log := t[|t| - 1].log;
    var s := OneFetch(log, map[key := entry], key, Settled(entry.sample), map[0 := Answer(entry.sample, D)]);
    RunExtends(read, D, t, steps, Deliver(0), s);
    t, steps := t + [s], steps + [Deliver(0)];
    s := OneFetch(log, map[key := entry], key, Cleaned(entry.sample), map[0 := Answer(entry.sample, D)]);
    assert t[|t| - 1].flights.inflight - {key} == map[];
    RunExtends(read, D, t, steps, CleanUp(0), s);
    t, steps := t + [s], steps + [CleanUp(0)];
  }

  /** The bound is reached to the millisecond: whatever two tables the key reads differently from, however long
      fetches may be held up, and whatever life from 60 to 74 seconds the entry is given, a caller can be given what
      nothing after the instant of the read has held, a millisecond before that life and `D` are over. */
  lemma BoundIsReached(read: Reader, D: nat, key: string, before: Rows, after: Rows, ttl: int)
    returns (t: seq<State>, steps: seq<Step>)
    requires read(before, key).Some? && read(after, key) != read(before, key) && 60_000 <= ttl <= 74_000
    ensures Run(read, D, t, steps)
    ensures var s := t[|t| - 1];
            && 1 in s.flights.answers && 1 in s.asked && s.asked[1] == key
            && s.flights.answers[1] == Answer(Sample(read(before, key), 0), D + ttl - 1)
            && s.log != [] && s.log[0] == Instant(0, before)
            && forall k :: 0 < k < |s.log| ==> read(s.log[k].db, key) != s.flights.answers[1].outcome.value
  {
    var entry;
    t, steps, entry := LateDelivery(read, D, key, before, after, ttl);
    var s := t[|t| - 1];
    var s1 := s.(log := s.log + [Instant(D + ttl - 1, after)]);
    RunExtends(read, D, t, steps, Tick(ttl - 1), s1);
    t, steps := t + [s1], steps + [Tick(ttl - 1)];
    var answer := Answer(entry.sample, D + ttl - 1);
    var s2 := s1.(flights := s1.flights.(answers := s1.flights.answers[1 := answer]), asked := s1.asked[1 := key]);
    RunExtends(read, D, t, steps, Hit(key, 1), s2);
    t, steps := t + [s2], steps + [Hit(key, 1)];
  }

  // What the service reads -------------------------------------------------------------------------

  ghost predicate IsListKey(key: string, v: nat, q: Query) {
    Valid(q) && key == ListKey(v, q)
  }

  /** What the service reads: the row of an event key, or the page of a list key, whatever its version. */
  ghost function ServiceRead(run: Lister<string>, db: Rows, key: string): Option<Value> {
    if id :| key == EventKey(id) then
      if id in db then Some(CachedEvent(db[id])) else None
    else if v: nat, q :| IsListKey(key, v, q) then Some(CachedPage(run(db, Normal(q))))
    else None
  }

  ghost function ServiceReader(run: Lister<string>): Reader {
    (db, key) => ServiceRead(run, db, key)
  }

  lemma ReadsRow(run: Lister<string>, db: Rows, id: string)
    ensures ServiceRead(run, db, EventKey(id)) == if id in db then Some(CachedEvent(db[id])) else None
  {
    forall other | EventKey(id) == EventKey(other) ensures other == id {
      EventKeyInjective(id, other);
    }
  }

  lemma ReadsPage(run: Lister<string>, db: Rows, v: nat, q: Query)
    requires Valid(q)
    ensures ServiceRead(run, db, ListKey(v, q)) == Some(CachedPage(run(db, Normal(q))))
  {
    forall id ensures ListKey(v, q) != EventKey(id) {
      FamiliesDisjoint(id, v, q);
    }
    assert IsListKey(ListKey(v, q), v, q);
    forall w: nat, r | IsListKey(ListKey(v, q), w, r) ensures Normal(r) == Normal(q) {
      ListKeyInjective(v, q, w, r);
    }
  }

  /** An event answer is the row itself as it was at most 74 seconds and `D` before. */
  lemma EventStaleness(run: Lister<string>, D: nat, t: seq<State>, steps: seq<Step>, i: nat, c: Caller, id: string)
    requires Run(ServiceReader(run), D, t, steps) && i < |t| && c in t[i].flights.answers
    requires c in t[i].asked && t[i].asked[c] == EventKey(id)
    ensures var answer, log := t[i].flights.answers[c], t[i].log;
            exists k :: 0 <= k < |log|
                        && answer.at - 74_000 - D <= log[k].time <= answer.at
                        && answer.outcome.value == if id in log[k].db then Some(CachedEvent(log[k].db[id])) else None
  {
    BoundedStaleness(ServiceReader(run), D, t, steps, i, c);
    forall k | 0 <= k < |t[i].log| {
      ReadsRow(run, t[i].log[k].db, id);
    }
  }

  /** And a list page is what the query answered then, even if the version it was asked under was stale. */
  lemma PageStaleness(run: Lister<string>, D: nat, t: seq<State>, steps: seq<Step>, i: nat, c: Caller, v: nat, q: Query)
    requires Run(ServiceReader(run), D, t, steps) && i < |t| && c in t[i].flights.answers
    requires Valid(q) && c in t[i].asked && t[i].asked[c] == ListKey(v, q)
    ensures var answer, log := t[i].flights.answers[c], t[i].log;
            exists k :: 0 <= k < |log|
                        && answer.at - 74_000 - D <= log[k].time <= answer.at
                        && answer.outcome.value == Some(CachedPage(run(log[k].db, Normal(q))))
  {
    BoundedStaleness(ServiceReader(run), D, t, steps, i, c);
    forall k | 0 <= k < |t[i].log| {
      ReadsPage(run, t[i].log[k].db, v, q);
    }
  }
}
