/** The cache-aside reads and invalidating writes of events, beside the database they must agree with. */
module EventCache {
  import opened Wrappers
  import opened EventKeys
  import opened EventRows
  import opened Principal

  datatype World<P> = World(db: Rows, cache: map<string, Cached<P>>, listVersion: nat)

  /** Which of the cache operations of one read find the cache reachable. */
  datatype Ready = Ready(refresh: bool, get: bool, set_: bool)

  datatype Answer<P> = Found(event: Event) | NotFound | Forbidden | Listed(page: P) | Written | Rejected

  predicate MayModify(event: Event, actor: Actor) {
    actor.isAdmin || event.organizerId == actor.sub
  }

  function Version<P>(w: World<P>): nat {
    if LIST_VERSION_KEY in w.cache && w.cache[LIST_VERSION_KEY].Counter? then w.cache[LIST_VERSION_KEY].n else 0
  }

  function Store<P>(w: World<P>, key: string, value: Cached<P>, reachable: bool): World<P> {
    if reachable then w.(cache := w.cache[key := value]) else w
  }

  function Get<P>(w: World<P>, id: string, ready: Ready): (World<P>, Answer<P>) {
    var key := EventKey(id);
    if ready.get && key in w.cache && w.cache[key].CachedEvent? then (w, Found(w.cache[key].event))
    else if id in w.db then (Store(w, key, CachedEvent(w.db[id]), ready.set_), Found(w.db[id]))
    else (w, NotFound)
  }

  function List<P>(run: Lister<P>, w: World<P>, q: Query, ready: Ready): (World<P>, Answer<P>) {
    var w1 := if ready.refresh then w.(listVersion := Version(w)) else w;
    var key := ListKey(w1.listVersion, q);
    if ready.get && key in w1.cache && w1.cache[key].CachedPage? then (w1, Listed(w1.cache[key].page))
    else
      var page := run(w1.db, Normal(q));
      (Store(w1, key, CachedPage(page), ready.set_), Listed(page))
  }

  function Bump<P>(w: World<P>): World<P> {
    w.(cache := w.cache[LIST_VERSION_KEY := Counter(Version(w) + 1)])
  }

  function Invalidate<P>(w: World<P>, id: string): World<P> {
    Bump(w.(cache := w.cache - {EventKey(id)}))
  }

  /** A change of one row, as the database would make it; it may refuse. */
  datatype Change = Patch(apply: Event -> Event) | Remove

  function Changed(db: Rows, id: string, change: Change, accepted: bool): Rows {
    if !accepted || id !in db then db
    else if change.Remove? then db - {id}
    else db[id := change.apply(db[id])]
  }

  /** `updateEvent` and `deleteEvent`: look up through the cache, as far as it is reachable, check the actor,
      invalidate, then write. */
  function Modify<P>(w: World<P>, id: string, change: Change, actor: Actor, accepted: bool, ready: Ready)
    : (World<P>, Answer<P>)
  {
    var (w1, found) := Get(w, id, ready);
    if !found.Found? then (w1, NotFound)
    else if !MayModify(found.event, actor) then (w1, Forbidden)
    else
      var w2 := Invalidate(w1, id);
      (w2.(db := Changed(w2.db, id, change, accepted)), if accepted then Written else Rejected)
  }

  function Create<P>(w: World<P>, id: string, event: Event): (World<P>, Answer<P>) {
    if id in w.db then (w, Rejected) else (Bump(w.(db := w.db[id := event])), Written)
  }

  // Runs -------------------------------------------------------------------------------------------

  /** `Expire` drops any names from the cache but the version counter. */
  datatype Op =
    | GetEvent(id: string, ready: Ready)
    | ListEvents(q: Query, ready: Ready)
    | CreateEvent(id: string, event: Event)
    | ModifyEvent(id: string, change: Change, actor: Actor, accepted: bool, ready: Ready)
    | Expire(keys: set<string>)

  /** A validated query, and a list read that does not miss the version only to find the cache after. */
  predicate Allowed(op: Op) {
    op.ListEvents? ==> Valid(op.q) && (op.ready.get ==> op.ready.refresh)
  }

  function Exec<P>(run: Lister<P>, w: World<P>, op: Op): (World<P>, seq<Answer<P>>) {
    match op
    case GetEvent(id, ready) => var r := Get(w, id, ready); (r.0, [r.1])
    case ListEvents(q, ready) => var r := List(run, w, q, ready); (r.0, [r.1])
    case CreateEvent(id, event) => var r := Create(w, id, event); (r.0, [r.1])
    case ModifyEvent(id, change, actor, accepted, ready) =>
      var r := Modify(w, id, change, actor, accepted, ready); (r.0, [r.1])
    case Expire(keys) => (w.(cache := w.cache - (keys - {LIST_VERSION_KEY})), [])
  }

  /** The same calls with no cache at all, spelt out: who may write, what is written and what is asked. */
  function DbExec<P>(run: Lister<P>, db: Rows, op: Op): (Rows, seq<Answer<P>>) {
    match op
    case GetEvent(id, _) => (db, [if id in db then Found(db[id]) else NotFound])
    case ListEvents(q, _) =>
      var page := if q.page.Some? then q.page.value else 1;
      var limit := if q.limit.Some? then q.limit.value else 20;
      (db, [Listed(run(db, Query(Some(page), Some(limit), q.venue, q.from, q.to)))])
    case CreateEvent(id, event) => if id in db then (db, [Rejected]) else (db[id := event], [Written])
    case ModifyEvent(id, change, actor, accepted, _) =>
      if id !in db then (db, [NotFound])
      else if !actor.isAdmin && db[id].organizerId != actor.sub then (db, [Forbidden])
      else if !accepted then (db, [Rejected])
      else (match change case Patch(apply) => db[id := apply(db[id])] case Remove => db - {id}, [Written])
    case Expire(_) => (db, [])
  }

  function Answers<P>(run: Lister<P>, w: World<P>, ops: seq<Op>): seq<Answer<P>>
    decreases |ops|
  {
    if ops == [] then [] else var r := Exec(run, w, ops[0]); r.1 + Answers(run, r.0, ops[1..])
  }

  function DbAnswers<P>(run: Lister<P>, db: Rows, ops: seq<Op>): seq<Answer<P>>
    decreases |ops|
  {
    if ops == [] then [] else var r := DbExec<P>(run, db, ops[0]); r.1 + DbAnswers(run, r.0, ops[1..])
  }

  // Coherence --------------------------------------------------------------------------------------

  /** Event entries equal their row. */
  ghost predicate EventsCoherent<P>(w: World<P>) {
    forall id :: EventKey(id) in w.cache ==> id in w.db && w.cache[EventKey(id)] == CachedEvent(w.db[id])
  }

  /** No page is of a later version than the counter, and pages of its version equal the query. */
  ghost predicate PagesCoherent<P(!new)>(run: Lister<P>, w: World<P>) {
    forall v: nat, q :: Valid(q) && ListKey(v, q) in w.cache ==>
      && v <= Version(w)
      && w.cache[ListKey(v, q)].CachedPage?
      && (v == Version(w) ==> w.cache[ListKey(v, q)].page == run(w.db, Normal(q)))
  }

  ghost predicate Coherent<P(!new)>(run: Lister<P>, w: World<P>) {
    && (LIST_VERSION_KEY in w.cache ==> w.cache[LIST_VERSION_KEY].Counter?)
    && w.listVersion <= Version(w)
    && EventsCoherent(w)
    && PagesCoherent(run, w)
  }

  const ANY_QUERY := Query(None, None, None, None, None)

  /** The three families of names, apart from one another, ready to be used on any of their members. */
  lemma NamesApart()
    ensures forall id :: EventKey(id) != LIST_VERSION_KEY
    ensures forall v: nat, q :: ListKey(v, q) != LIST_VERSION_KEY
    ensures forall id, v: nat, q :: EventKey(id) != ListKey(v, q)
  {
    forall id, v: nat, q ensures EventKey(id) != ListKey(v, q) {
      FamiliesDisjoint(id, v, q);
    }
    forall id ensures EventKey(id) != LIST_VERSION_KEY { FamiliesDisjoint(id, 0, ANY_QUERY); }
    forall v: nat, q ensures ListKey(v, q) != LIST_VERSION_KEY { FamiliesDisjoint("", v, q); }
  }

  lemma StoringEventKeepsCoherent<P(!new)>(run: Lister<P>, w: World<P>, id: string)
    requires Coherent(run, w) && id in w.db
    ensures Coherent(run, w.(cache := w.cache[EventKey(id) := CachedEvent(w.db[id])]))
  {
    NamesApart();
    forall other | EventKey(other) == EventKey(id) ensures other == id {
      EventKeyInjective(id, other);
    }
  }

  lemma StoringPageKeepsPages<P(!new)>(run: Lister<P>, w: World<P>, v: nat, q: Query, key: string)
    requires PagesCoherent(run, w) && Valid(q) && v <= Version(w)
    requires key == ListKey(v, q) && key != LIST_VERSION_KEY
    ensures PagesCoherent(run, w.(cache := w.cache[key := CachedPage(run(w.db, Normal(q)))]))
  {
    forall u: nat, r | Valid(r) && ListKey(u, r) == key ensures u == v && Normal(r) == Normal(q) {
      ListKeyInjective(u, r, v, q);
    }
  }

  lemma StoringPageKeepsCoherent<P(!new)>(run: Lister<P>, w: World<P>, v: nat, q: Query)
    requires Coherent(run, w) && Valid(q) && v <= Version(w)
    ensures Coherent(run, w.(cache := w.cache[ListKey(v, q) := CachedPage(run(w.db, Normal(q)))]))
  {
    NamesApart();
    var key := ListKey(v, q);
    StoringPageKeepsPages(run, w, v, q, key);
  }

  lemma GetIsTransparent<P(!new)>(run: Lister<P>, w: World<P>, id: string, ready: Ready)
    requires Coherent(run, w)
    ensures var (w', a) := Get(w, id, ready);
            && Coherent(run, w') && w'.db == w.db
            && a == (if id in w.db then Found(w.db[id]) else NotFound)
  {
    if id in w.db {
      StoringEventKeepsCoherent(run, w, id);
    }
  }

  lemma ListIsTransparent<P(!new)>(run: Lister<P>, w: World<P>, q: Query, ready: Ready)
    requires Coherent(run, w) && Valid(q) && (ready.get ==> ready.refresh)
    ensures var (w', a) := List(run, w, q, ready);
            Coherent(run, w') && w'.db == w.db && a == Listed(run(w.db, Normal(q)))
  {
    var w1 := if ready.refresh then w.(listVersion := Version(w)) else w;
    StoringPageKeepsCoherent(run, w1, w1.listVersion, q);
  }

  /** One increment puts every cached page out of reach, whatever then happens to the rows: afterwards
      it is enough that the remaining event entries equal theirs. */
  lemma BumpForgetsPages<P(!new)>(run: Lister<P>, w: World<P>, w': World<P>, db': Rows)
    requires Coherent(run, w)
    requires w'.cache.Keys <= w.cache.Keys && (forall k :: k in w'.cache ==> w'.cache[k] == w.cache[k])
    requires LIST_VERSION_KEY in w.cache ==> LIST_VERSION_KEY in w'.cache
    requires w'.listVersion == w.listVersion
    requires EventsCoherent(w'.(db := db'))
    ensures Coherent(run, Bump(w').(db := db'))
  {
    var w'' := Bump(w').(db := db');
    NamesApart();
    assert Version(w'') == Version(w) + 1;
  }

  lemma CreateIsTransparent<P(!new)>(run: Lister<P>, w: World<P>, id: string, event: Event)
    requires Coherent(run, w)
    ensures Coherent(run, Create(w, id, event).0)
  {
    if id !in w.db {
      BumpForgetsPages(run, w, w, w.db[id := event]);
    }
  }

  lemma ModifyIsTransparent<P(!new)>(run: Lister<P>, w: World<P>, op: Op)
    requires Coherent(run, w) && op.ModifyEvent?
    ensures Coherent(run, Exec(run, w, op).0)
    ensures Exec(run, w, op).0.db == DbExec<P>(run, w.db, op).0
    ensures Exec(run, w, op).1 == DbExec(run, w.db, op).1
  {
    var id := op.id;
    GetIsTransparent(run, w, id, op.ready);
    var w1 := Get(w, id, op.ready).0;
    if id in w.db && MayModify(w.db[id], op.actor) {
      var w2 := w1.(cache := w1.cache - {EventKey(id)});
      var db' := Changed(w1.db, id, op.change, op.accepted);
      NamesApart();
      assert EventsCoherent(w2.(db := db'));
      BumpForgetsPages(run, w1, w2, db');
    }
  }

  /** `db'` is `db` but for the row of `id`. */
  ghost predicate SameBut(db: Rows, db': Rows, id: string) {
    forall other :: other != id ==> (other in db' <==> other in db) && (other in db' ==> db'[other] == db[other])
  }

  /** What a row reads as after a change that was answered so. */
  function RowAfter<P(==)>(db: Rows, id: string, change: Change, answer: Answer<P>): Answer<P> {
    if id !in db || (answer.Written? && change.Remove?) then NotFound
    else if answer.Written? then Found(change.apply(db[id]))
    else Found(db[id])
  }

  lemma DatabaseWrites<P>(run: Lister<P>, db: Rows, op: Op, answer: Answer<P>)
    requires op.ModifyEvent? && DbExec(run, db, op).1 == [answer]
    ensures var db' := DbExec(run, db, op).0;
            && (if op.id in db' then Found(db'[op.id]) else NotFound) == RowAfter(db, op.id, op.change, answer)
            && SameBut(db, db', op.id)
  {
  }

  lemma ModifyWrites<P(!new)>(run: Lister<P>, w: World<P>, op: Op)
    requires Coherent(run, w) && op.ModifyEvent?
    ensures var (w', answer) := Modify(w, op.id, op.change, op.actor, op.accepted, op.ready);
            && Coherent(run, w')
            && (if op.id in w'.db then Found(w'.db[op.id]) else NotFound) == RowAfter(w.db, op.id, op.change, answer)
            && SameBut(w.db, w'.db, op.id)
  {
    ModifyIsTransparent(run, w, op);
    var r := Exec(run, w, op);
    DatabaseWrites(run, w.db, op, r.1[0]);
  }

  lemma ModifyAnswers<P(!new)>(run: Lister<P>, w: World<P>, op: Op)
    requires Coherent(run, w) && op.ModifyEvent?
    ensures Modify(w, op.id, op.change, op.actor, op.accepted, op.ready).1 ==
              (if op.id !in w.db then NotFound
               else if !op.actor.isAdmin && w.db[op.id].organizerId != op.actor.sub then Forbidden
               else if op.accepted then Written else Rejected)
  {
    ModifyIsTransparent(run, w, op);
  }

  /** What a writer leaves, as the next read tells it: an accepted patch of somebody who may modify shows the
      patched row, an accepted removal no row, and anything else the row as it was. No other row changes. */
  lemma ModifyThenRead<P(!new)>(run: Lister<P>, w: World<P>, id: string, change: Change, actor: Actor,
                                accepted: bool, ready: Ready, again: Ready)
    requires Coherent(run, w)
    ensures var (w', answer) := Modify(w, id, change, actor, accepted, ready);
            && Coherent(run, w')
            && answer == (if id !in w.db then NotFound
                          else if !actor.isAdmin && w.db[id].organizerId != actor.sub then Forbidden
                          else if accepted then Written else Rejected)
            && Get(w', id, again).1 ==
                 (if id !in w.db || (answer.Written? && change.Remove?) then NotFound
                  else if answer.Written? then Found(change.apply(w.db[id]))
                  else Found(w.db[id]))
            && SameBut(w.db, w'.db, id)
  {
    var op, w' := ModifyEvent(id, change, actor, accepted, ready), Modify(w, id, change, actor, accepted, ready).0;
    ModifyAnswers(run, w, op);
    ModifyWrites(run, w, op);
    GetIsTransparent(run, w', id, again);
  }

  /** A created event is what the next read answers; an id that is taken keeps its row. */
  lemma CreateThenRead<P(!new)>(run: Lister<P>, w: World<P>, id: string, event: Event, again: Ready)
    requires Coherent(run, w)
    ensures var (w', answer) := Create(w, id, event);
            && answer == (if id in w.db then Rejected else Written)
            && Get(w', id, again).1 == Found(if id in w.db then w.db[id] else event)
            && SameBut(w.db, w'.db, id)
  {
    CreateIsTransparent(run, w, id, event);
    GetIsTransparent(run, Create(w, id, event).0, id, again);
  }

  lemma ExpiryIsTransparent<P(!new)>(run: Lister<P>, w: World<P>, keys: set<string>)
    requires Coherent(run, w)
    ensures Coherent(run, w.(cache := w.cache - (keys - {LIST_VERSION_KEY})))
  {
  }

  lemma StepIsTransparent<P(!new)>(run: Lister<P>, w: World<P>, op: Op)
    requires Coherent(run, w) && Allowed(op)
    ensures Coherent(run, Exec(run, w, op).0)
    ensures Exec(run, w, op).0.db == DbExec<P>(run, w.db, op).0
    ensures Exec(run, w, op).1 == DbExec(run, w.db, op).1
  {
    match op
    case GetEvent(id, ready) => GetIsTransparent(run, w, id, ready);
    case ListEvents(q, ready) => ListIsTransparent(run, w, q, ready);
    case CreateEvent(id, event) => CreateIsTransparent(run, w, id, event);
    case ModifyEvent(_, _, _, _, _) => ModifyIsTransparent(run, w, op);
    case Expire(keys) => ExpiryIsTransparent(run, w, keys);
  }

  /** Cache transparency: over every sequential run, with any expiries and any outage of the cache under
      reads, a writer's own lookup included, every call answers what the database alone would have answered. */
  lemma {:induction false} CacheIsTransparent<P(!new)>(run: Lister<P>, w: World<P>, ops: seq<Op>)
    requires Coherent(run, w)
    requires forall i :: 0 <= i < |ops| && ops[i].ListEvents? ==>
               Valid(ops[i].q) && (ops[i].ready.get ==> ops[i].ready.refresh)
    ensures Answers(run, w, ops) == DbAnswers(run, w.db, ops)
    decreases |ops|
  {
    if ops != [] {
      var op := ops[0];
      StepIsTransparent(run, w, op);
      CacheIsTransparent(run, Exec(run, w, op).0, ops[1..]);
    }
  }

  /** And a service that starts with an empty cache starts coherent. */
  lemma EmptyCacheIsCoherent<P(!new)>(run: Lister<P>, db: Rows)
    ensures Coherent(run, World(db, map[], 0))
  {
  }

  // What the cache is for --------------------------------------------------------------------------

  /** A read of an existing row leaves it in the cache, where the next read finds it whatever has become of
      the database; a missing row is never cached. */
  lemma GetFillsCache<P(!new)>(run: Lister<P>, w: World<P>, id: string, ready: Ready, db': Rows, again: Ready)
    requires Coherent(run, w) && ready.set_ && again.get
    ensures var w' := Get(w, id, ready).0;
            if id in w.db then Get(w'.(db := db'), id, again) == (w'.(db := db'), Found(w.db[id])) else w' == w
  {
  }

  /** And so with a page, for as long as the version stands. */
  lemma ListFillsCache<P(!new)>(run: Lister<P>, w: World<P>, q: Query, ready: Ready, db': Rows, again: Ready)
    requires Coherent(run, w) && Valid(q) && ready.refresh && ready.set_ && again.refresh && again.get
    ensures var w' := List(run, w, q, ready).0;
            List(run, w'.(db := db'), q, again).1 == List(run, w, q, ready).1
  {
  }

  /** An invalidation leaves nothing to be found: not the event, nor any page at all. */
  lemma InvalidationHidesAll<P(!new)>(run: Lister<P>, w: World<P>, id: string)
    requires Coherent(run, w)
    ensures var w' := Invalidate(w, id);
            && EventKey(id) !in w'.cache
            && forall q :: Valid(q) ==> ListKey(Version(w'), q) !in w'.cache
  {
    NamesApart();
    assert LIST_VERSION_KEY != EventKey(id);
    assert Version(Invalidate(w, id)) == Version(w) + 1;
  }

  // Where transparency ends ------------------------------------------------------------------------

  predicate GetsRightly<P(==)>(w: World<P>, id: string, ready: Ready) {
    Get(w, id, ready).1 == if id in w.db then Found(w.db[id]) else NotFound
  }

  /** All reads by id are right, whatever they reach, if and only if the entries equal their rows. */
  lemma GetsRightlyIffCoherent<P(!new)>(w: World<P>)
    requires forall id :: EventKey(id) in w.cache ==> w.cache[EventKey(id)].CachedEvent?
    ensures EventsCoherent(w) <==> forall id, ready :: GetsRightly(w, id, ready)
  {
    if forall id, ready :: GetsRightly(w, id, ready) {
      forall id | EventKey(id) in w.cache ensures id in w.db && w.cache[EventKey(id)] == CachedEvent(w.db[id]) {
        assert GetsRightly(w, id, Ready(true, true, true));
      }
    }
  }

  /** The entry of the row, if there is one, is that of the row as written. */
  predicate EntryStands<P(==)>(w: World<P>, id: string, db': Rows) {
    EventKey(id) in w.cache ==> id in db' && id in w.db && db'[id] == w.db[id]
  }

  lemma CoherentIffEntryStands<P>(w: World<P>, id: string, db': Rows)
    requires EventsCoherent(w) && SameBut(w.db, db', id)
    ensures EventsCoherent(w.(db := db')) <==> EntryStands(w, id, db')
  {
  }

  /** After a write whose invalidation does not reach the cache, all reads by id stay right if and only if the
      write found no entry of its row or did not alter it. */
  lemma UnseenWriteIff<P(!new)>(run: Lister<P>, w: World<P>, id: string, db': Rows)
    requires Coherent(run, w) && SameBut(w.db, db', id)
    ensures (forall other, ready :: GetsRightly(w.(db := db'), other, ready)) <==> EntryStands(w, id, db')
    ensures EventsCoherent(w.(db := db')) <==> EntryStands(w, id, db')
  {
    CoherentIffEntryStands(w, id, db');
    GetsRightlyIffCoherent(w.(db := db'));
  }

  ghost predicate ListsRightly<P(!new)>(run: Lister<P>, w: World<P>, q: Query, ready: Ready) {
    List(run, w, q, ready).1 == Listed(run(w.db, Normal(q)))
  }

  /** And all list reads that look up no page without its version stay right if and only if the write alters
      the answer to no query that is cached at the version the counter still stands at. */
  lemma UnseenWritePagesIff<P(!new)>(run: Lister<P>, w: World<P>, db': Rows)
    requires Coherent(run, w)
    ensures var w' := w.(db := db');
            var harmless := forall q :: Valid(q) && ListKey(Version(w), q) in w.cache ==>
                              run(db', Normal(q)) == run(w.db, Normal(q));
            && (PagesCoherent(run, w') <==> harmless)
            && ((forall q, ready: Ready :: Valid(q) && (ready.get ==> ready.refresh) ==>
                   ListsRightly(run, w', q, ready)) <==> harmless)
  {
    var w' := w.(db := db');
    assert Version(w') == Version(w);
    forall q | Valid(q) && ListKey(Version(w), q) in w.cache
      ensures ListsRightly(run, w', q, Ready(true, true, true)) <==> run(db', Normal(q)) == run(w.db, Normal(q))
    {
    }
  }

  /** List reads that look up no page without its version are right if and only if the pages at the version the
      counter stands at are. */
  lemma ListsRightlyIffPages<P(!new)>(run: Lister<P>, w: World<P>)
    requires forall q :: Valid(q) && ListKey(Version(w), q) in w.cache ==> w.cache[ListKey(Version(w), q)].CachedPage?
    ensures (forall q, ready: Ready :: Valid(q) && (ready.get ==> ready.refresh) ==> ListsRightly(run, w, q, ready))
            <==> forall q :: Valid(q) && ListKey(Version(w), q) in w.cache ==>
                   w.cache[ListKey(Version(w), q)] == CachedPage(run(w.db, Normal(q)))
  {
    forall q | Valid(q) && ListKey(Version(w), q) in w.cache
      ensures ListsRightly(run, w, q, Ready(true, true, true)) <==>
                w.cache[ListKey(Version(w), q)] == CachedPage(run(w.db, Normal(q)))
    {
    }
  }

  function Bumps<P>(w: World<P>, n: nat): World<P> {
    if n == 0 then w else Bump(Bumps(w, n - 1))
  }

  /** The counter is gone from the cache, and nothing else. */
  function CounterLost<P>(w: World<P>): World<P> {
    w.(cache := w.cache - {LIST_VERSION_KEY})
  }

  lemma {:induction false} BumpsCountFromZero<P>(w: World<P>, n: nat)
    ensures var w' := Bumps(CounterLost(w), n);
            && Version(w') == n
            && forall k :: k != LIST_VERSION_KEY ==>
                 (k in w'.cache <==> k in w.cache) && (k in w.cache ==> w'.cache[k] == w.cache[k])
  {
    if n > 0 {
      BumpsCountFromZero(w, n - 1);
    }
  }

  /** If the counter is lost, it counts from zero again, and the pages that were cached when it stood at `n` are
      current again after `n` increments: list reads are then right, on the rows of that time, if and only if
      those pages happen to be. */
  lemma LostCounterIff<P(!new)>(run: Lister<P>, w: World<P>, n: nat, db': Rows)
    requires Coherent(run, w)
    ensures var w' := Bumps(CounterLost(w), n).(db := db');
            (forall q, ready: Ready :: Valid(q) && (ready.get ==> ready.refresh) ==> ListsRightly(run, w', q, ready))
            <==> forall q :: Valid(q) && ListKey(n, q) in w.cache ==>
                   w.cache[ListKey(n, q)] == CachedPage(run(db', Normal(q)))
  {
    var w' := Bumps(CounterLost(w), n).(db := db');
    NamesApart();
    BumpsCountFromZero(w, n);
    assert Version(w') == n;
    ListsRightlyIffPages(run, w');
  }

  /** Because the writers invalidate first, a reader who comes between the invalidation and the write
      leaves a stale entry if and only if it reaches the cache and the write alters the row. */
  lemma ReaderBetweenIff<P(!new)>(run: Lister<P>, w: World<P>, id: string, ready: Ready, change: Change)
    requires Coherent(run, w) && id in w.db
    ensures var w1 := Get(Invalidate(w, id), id, ready).0;
            var altered := change.Remove? || change.apply(w.db[id]) != w.db[id];
            EventsCoherent(w1.(db := Changed(w1.db, id, change, true))) <==> !(ready.set_ && altered)
  {
    NamesApart();
    var w0 := w.(cache := w.cache - {EventKey(id)});
    BumpForgetsPages(run, w, w0, w.db);
    GetIsTransparent(run, Invalidate(w, id), id, ready);
    var w1 := Get(Invalidate(w, id), id, ready).0;
    UnseenWriteIff(run, w1, id, Changed(w1.db, id, change, true));
  }

  function CountRows(db: Rows, q: Query): nat {
    |db|
  }

  /** One event was listed at version 0, then deleted; this process has not read the counter since. */
  function Behind(): World<nat> {
    World(map[], map[ListKey(0, ANY_QUERY) := CachedPage(1), LIST_VERSION_KEY := Counter(1)], 0)
  }

  lemma BehindIsCoherent()
    ensures Coherent(CountRows, Behind())
  {
    var w := Behind();
    NamesApart();
    forall v: nat, q | Valid(q) && ListKey(v, q) in w.cache ensures v == 0 {
      ListKeyInjective(v, q, 0, ANY_QUERY);
    }
  }

  /** A list read answers rightly from every coherent state if and only if it does not reach the cache
      for the page after failing to reach it for the version. */
  lemma ListTransparentIff(ready: Ready)
    ensures (forall w: World<nat>, q :: Coherent(CountRows, w) && Valid(q) ==> ListsRightly(CountRows, w, q, ready))
            <==> (ready.get ==> ready.refresh)
  {
    if ready.get ==> ready.refresh {
      forall w: World<nat>, q | Coherent(CountRows, w) && Valid(q) ensures ListsRightly(CountRows, w, q, ready) {
        ListIsTransparent(CountRows, w, q, ready);
      }
    } else {
      BehindIsCoherent();
      NamesApart();
      assert !ListsRightly(CountRows, Behind(), ANY_QUERY, ready);
    }
  }

  /** A run: an event is created and listed, and another created. */
  function ListedThenGrown(q: Query, event: Event): World<nat> {
    var w1 := Create<nat>(World(map[], map[], 0), "a", event).0;
    var w2 := List(CountRows, w1, q, Ready(true, true, true)).0;
    Create(w2, "b", event).0
  }

  lemma GrownIsCoherent(q: Query, event: Event)
    requires Valid(q)
    ensures Coherent(CountRows, ListedThenGrown(q, event))
  {
    var w0: World<nat> := World(map[], map[], 0);
    var w1 := Create(w0, "a", event).0;
    EmptyCacheIsCoherent(CountRows, map[]);
    CreateIsTransparent(CountRows, w0, "a", event);
    ListIsTransparent(CountRows, w1, q, Ready(true, true, true));
    CreateIsTransparent(CountRows, List(CountRows, w1, q, Ready(true, true, true)).0, "b", event);
  }

  lemma PageOfOne(q: Query, event: Event)
    ensures var w := ListedThenGrown(q, event);
            && w.db == map["a" := event, "b" := event]
            && ListKey(1, q) in w.cache && w.cache[ListKey(1, q)] == CachedPage(1)
  {
    var w1 := Create<nat>(World(map[], map[], 0), "a", event).0;
    FamiliesDisjoint("", 1, q);
    assert w1.db == map["a" := event] && Version(w1) == 1 && ListKey(1, q) !in w1.cache;
  }

  /** If the counter is lost then, the next creation revives the page that listed one event, beside three. */
  lemma LostCounterRevives(q: Query, event: Event)
    requires Valid(q)
    ensures Coherent(CountRows, ListedThenGrown(q, event))
    ensures var w := Create(CounterLost(ListedThenGrown(q, event)), "c", event).0;
            && CountRows(w.db, Normal(q)) == 3
            && List(CountRows, w, q, Ready(true, true, true)).1 == Listed(1)
  {
    GrownIsCoherent(q, event);
    PageOfOne(q, event);
    FamiliesDisjoint("", 1, q);
    var w := Create(CounterLost(ListedThenGrown(q, event)), "c", event).0;
    assert w.db == map["a" := event, "b" := event, "c" := event];
    assert Version(w) == 1 && w.cache[ListKey(1, q)] == CachedPage(1);
  }
}
