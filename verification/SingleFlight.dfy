/** Coalescing of concurrent cache misses: one fetch per key, shared by all who ask while it is in flight. */
module SingleFlight {

  type Caller = nat

  /** A fetch runs, reads its outcome, settles, and is then removed from the map of fetches in flight. */
  datatype Phase<V> = Running | HasRead(outcome: V) | Settled(outcome: V) | Cleaned(outcome: V)

  datatype Fetch<V> = Fetch(key: string, phase: Phase<V>)

  datatype Answer<V> = Answer(outcome: V, at: int)

  /** The map of fetches in flight, every fetch ever started, who joined which, and who was answered. */
  datatype Flights<V> = Flights(inflight: map<string, nat>, fetches: seq<Fetch<V>>, joined: map<Caller, nat>,
                                answers: map<Caller, Answer<V>>)

  predicate Unsettled<V>(ph: Phase<V>) {
    ph.Running? || ph.HasRead?
  }

  /** Joins the fetch in flight under this key, or starts one. */
  function Coalesced<V>(f: Flights<V>, key: string, c: Caller, now: int): Flights<V> {
    if key in f.inflight then
      var p := f.inflight[key];
      f.(joined := f.joined[c := p],
         answers := if p < |f.fetches| && f.fetches[p].phase.Settled?
                    then f.answers[c := Answer(f.fetches[p].phase.outcome, now)] else f.answers)
    else
      f.(inflight := f.inflight[key := |f.fetches|],
         fetches := f.fetches + [Fetch(key, Running)],
         joined := f.joined[c := |f.fetches|])
  }

  function WithPhase<V>(f: Flights<V>, p: nat, ph: Phase<V>): Flights<V>
    requires p < |f.fetches|
  {
    f.(fetches := f.fetches[p := f.fetches[p].(phase := ph)])
  }

  /** Everyone who has joined the fetch gets its outcome. */
  function SettledAt<V>(f: Flights<V>, p: nat, now: int): Flights<V>
    requires p < |f.fetches| && f.fetches[p].phase.HasRead?
  {
    var v := f.fetches[p].phase.outcome;
    WithPhase(f, p, Settled(v)).(
      answers := f.answers + map c | c in f.joined && f.joined[c] == p :: Answer(v, now))
  }

  /** The clean-up deletes by key, whatever fetch the map then holds under it. */
  function CleanedUp<V>(f: Flights<V>, p: nat): Flights<V>
    requires p < |f.fetches| && f.fetches[p].phase.Settled?
  {
    WithPhase(f, p, Cleaned(f.fetches[p].phase.outcome)).(inflight := f.inflight - {f.fetches[p].key})
  }

  datatype Action<V> =
    | Coalesce(key: string, c: Caller)
    | Read(p: nat, outcome: V)
    | Settle(p: nat)
    | Clean(p: nat)

  predicate Enabled<V>(f: Flights<V>, a: Action<V>) {
    match a
    case Coalesce(_, c) => c !in f.joined && c !in f.answers
    case Read(p, _) => p < |f.fetches| && f.fetches[p].phase.Running?
    case Settle(p) => p < |f.fetches| && f.fetches[p].phase.HasRead?
    case Clean(p) => p < |f.fetches| && f.fetches[p].phase.Settled?
  }

  function Act<V>(f: Flights<V>, a: Action<V>, now: int): Flights<V>
    requires Enabled(f, a)
  {
    match a
    case Coalesce(key, c) => Coalesced(f, key, c, now)
    case Read(p, v) => WithPhase(f, p, HasRead(v))
    case Settle(p) => SettledAt(f, p, now)
    case Clean(p) => CleanedUp(f, p)
  }

  predicate InFlight<V>(f: Flights<V>, p: nat) {
    p < |f.fetches| && !f.fetches[p].phase.Cleaned?
  }

  /** The map holds exactly the fetches that are not cleaned up, each under its own key. */
  ghost predicate MapIsExact<V>(f: Flights<V>) {
    && (forall key :: key in f.inflight ==>
          && f.inflight[key] < |f.fetches|
          && f.fetches[f.inflight[key]].key == key
          && !f.fetches[f.inflight[key]].phase.Cleaned?)
    && (forall p :: 0 <= p < |f.fetches| && !f.fetches[p].phase.Cleaned? ==>
          f.fetches[p].key in f.inflight && f.inflight[f.fetches[p].key] == p)
  }

  /** Whoever joined a fetch is answered once it settles, with its outcome, and not before. */
  ghost predicate AnswersAgree<V>(f: Flights<V>) {
    forall c :: c in f.joined ==>
      && f.joined[c] < |f.fetches|
      && var ph := f.fetches[f.joined[c]].phase;
         if Unsettled(ph) then c !in f.answers else c in f.answers && f.answers[c].outcome == ph.outcome
  }

  ghost predicate Sound<V>(f: Flights<V>) {
    MapIsExact(f) && AnswersAgree(f)
  }

  lemma JoinKeepsSound<V>(f: Flights<V>, key: string, c: Caller, now: int)
    requires Sound(f) && Enabled(f, Coalesce(key, c)) && key in f.inflight
    ensures Sound(Coalesced(f, key, c, now))
  {
    var f' := Coalesced(f, key, c, now);
    assert f'.inflight == f.inflight && f'.fetches == f.fetches;
  }

  lemma StartKeepsSound<V>(f: Flights<V>, key: string, c: Caller, now: int)
    requires Sound(f) && Enabled(f, Coalesce(key, c)) && key !in f.inflight
    ensures Sound(Coalesced(f, key, c, now))
  {
    var f' := Coalesced(f, key, c, now);
    assert f'.fetches[|f.fetches|] == Fetch(key, Running);
    assert MapIsExact(f');
  }

  lemma CoalesceKeepsSound<V>(f: Flights<V>, key: string, c: Caller, now: int)
    requires Sound(f) && Enabled(f, Coalesce(key, c))
    ensures Sound(Coalesced(f, key, c, now))
  {
    if key in f.inflight {
      JoinKeepsSound(f, key, c, now);
    } else {
      StartKeepsSound(f, key, c, now);
    }
  }

  lemma SettleKeepsSound<V>(f: Flights<V>, p: nat, now: int)
    requires Sound(f) && Enabled(f, Settle(p))
    ensures Sound(SettledAt(f, p, now))
  {
  }

  lemma CleanKeepsSound<V>(f: Flights<V>, p: nat)
    requires Sound(f) && Enabled(f, Clean(p))
    ensures Sound(CleanedUp(f, p))
  {
  }

  lemma ActKeepsSound<V>(f: Flights<V>, a: Action<V>, now: int)
    requires Sound(f) && Enabled(f, a)
    ensures Sound(Act(f, a, now))
  {
    match a
    case Coalesce(key, c) => CoalesceKeepsSound(f, key, c, now);
    case Read(_, _) =>
    case Settle(p) => SettleKeepsSound(f, p, now);
    case Clean(p) => CleanKeepsSound(f, p);
  }

  /** A clean-up removes the entry of its own fetch and no other. */
  lemma CleanUpRemovesOwnEntry<V>(f: Flights<V>, p: nat)
    requires Sound(f) && Enabled(f, Clean(p))
    ensures var key := f.fetches[p].key;
            && key in f.inflight && f.inflight[key] == p
            && CleanedUp(f, p).inflight == map k | k in f.inflight && f.inflight[k] != p :: f.inflight[k]
  {
  }

  /** The state after a run of callers and settlements, in any order; a step that is not enabled is no step. */
  function After<V>(actions: seq<(Action<V>, int)>): (f: Flights<V>)
    ensures Sound(f)
  {
    if actions == [] then Flights(map[], [], map[], map[])
    else
      var f := After(actions[..|actions| - 1]);
      var (a, now) := actions[|actions| - 1];
      if Enabled(f, a) then
        ActKeepsSound(f, a, now);
        Act(f, a, now)
      else f
  }

  /** Single flight: in every interleaving a key has at most one fetch that is not yet cleaned up, none
      if the key is not in the map, and two callers who joined one fetch are given one outcome. */
  lemma AtMostOneFetch<V>(actions: seq<(Action<V>, int)>, p: nat, q: nat, c: Caller, d: Caller)
    ensures var f := After(actions);
            && (InFlight(f, p) && InFlight(f, q) && f.fetches[p].key == f.fetches[q].key ==> p == q)
            && (p < |f.fetches| && f.fetches[p].key !in f.inflight ==> f.fetches[p].phase.Cleaned?)
            && (c in f.joined && d in f.joined && f.joined[c] == f.joined[d] ==>
                  (c in f.answers <==> d in f.answers)
                  && (c in f.answers ==> f.answers[c].outcome == f.answers[d].outcome))
  {
  }

  /** The map itself, as the service updates it. */
  class Coalescer<V> {
    var inflight: map<string, nat>
    var fetches: seq<Fetch<V>>
    var joined: map<Caller, nat>
    var answers: map<Caller, Answer<V>>

    constructor ()
      ensures View() == After<V>([])
    {
      inflight, fetches, joined, answers := map[], [], map[], map[];
    }

    function View(): Flights<V>
      reads this
    {
      Flights(inflight, fetches, joined, answers)
    }

    method Coalesce(key: string, c: Caller, now: int) returns (p: nat)
      requires Sound(View()) && Enabled(View(), Action.Coalesce(key, c))
      modifies this
      ensures Sound(View()) && View() == Coalesced(old(View()), key, c, now)
      ensures p < |fetches| && fetches[p].key == key && joined[c] == p
      ensures if key in old(inflight) then p == old(inflight)[key] && fetches == old(fetches) else p == |old(fetches)|
    {
      ActKeepsSound(View(), Action.Coalesce(key, c), now);
      if key in inflight {
        p := inflight[key];
        if fetches[p].phase.Settled? {
          answers := answers[c := Answer(fetches[p].phase.outcome, now)];
        }
      } else {
        p := |fetches|;
        fetches := fetches + [Fetch(key, Running)];
        inflight := inflight[key := p];
      }
      joined := joined[c := p];
    }

    method Clean(p: nat)
      requires Sound(View()) && Enabled(View(), Action<V>.Clean(p))
      modifies this
      ensures Sound(View()) && View() == CleanedUp(old(View()), p)
      ensures forall k :: k in inflight <==> k in old(inflight) && old(inflight)[k] != p
    {
      ActKeepsSound(View(), Action<V>.Clean(p), 0);
      inflight := inflight - {fetches[p].key};
      fetches := fetches[p := fetches[p].(phase := Cleaned(fetches[p].phase.outcome))];
    }
  }
}
