/** The events service as it runs: one cache, one database and the list version this process last read. */
module EventsService {
  import opened Wrappers
  import opened EventKeys
  import opened EventRows
  import opened EventCache
  import opened Principal

  class Service<P(!new)> {
    const run: Lister<P>
    var db: Rows
    var cache: map<string, Cached<P>>
    var listVersion: nat
    var hits: nat
    var misses: nat

    constructor (run: Lister<P>, db: Rows)
      ensures this.run == run && View() == World(db, map[], 0) && Coherent(run, View())
    {
      this.run := run;
      this.db, cache, listVersion, hits, misses := db, map[], 0, 0, 0;
      new;
      EmptyCacheIsCoherent(run, db);
    }

    function View(): World<P>
      reads this
    {
      World(db, cache, listVersion)
    }

    method RefreshListVersion(reachable: bool)
      modifies `listVersion
      ensures listVersion == if reachable then old(Version(View())) else old(listVersion)
    {
      if reachable {
        if LIST_VERSION_KEY in cache && cache[LIST_VERSION_KEY].Counter? {
          listVersion := cache[LIST_VERSION_KEY].n;
        } else {
          listVersion := 0;
        }
      }
    }

    method BumpListVersion()
      modifies `cache
      ensures View() == Bump(old(View()))
    {
      var n := 0;
      if LIST_VERSION_KEY in cache && cache[LIST_VERSION_KEY].Counter? {
        n := cache[LIST_VERSION_KEY].n;
      }
      cache := cache[LIST_VERSION_KEY := Counter(n + 1)];
    }

    /** A hit, or one read of the row that fills the cache; a missing row is never cached. From a coherent
        state the answer is the row itself. */
    method GetEventById(id: string, ready: Ready) returns (answer: Answer<P>)
      modifies `cache, `hits, `misses
      ensures (View(), answer) == Get(old(View()), id, ready)
      ensures var hit := ready.get && EventKey(id) in old(cache) && old(cache)[EventKey(id)].CachedEvent?;
              hits == old(hits) + (if hit then 1 else 0) && misses == old(misses) + (if hit then 0 else 1)
      ensures old(Coherent(run, View())) ==>
                Coherent(run, View()) && answer == if id in db then Found(db[id]) else NotFound
    {
      if Coherent(run, View()) {
        GetIsTransparent(run, View(), id, ready);
      }
      var key := EventKey(id);
      if ready.get {
        if key in cache && cache[key].CachedEvent? {
          hits := hits + 1;
          return Found(cache[key].event);
        }
      }
      misses := misses + 1;
      if id !in db {
        return NotFound;
      }
      if ready.set_ {
        cache := cache[key := CachedEvent(db[id])];
      }
      return Found(db[id]);
    }

    method ListEvents(q: Query, ready: Ready) returns (answer: Answer<P>)
      modifies `cache, `listVersion, `hits, `misses
      ensures (View(), answer) == List(run, old(View()), q, ready)
      ensures var key := ListKey(listVersion, q);
              var hit := ready.get && key in old(cache) && old(cache)[key].CachedPage?;
              hits == old(hits) + (if hit then 1 else 0) && misses == old(misses) + (if hit then 0 else 1)
      ensures old(Coherent(run, View())) && Valid(q) && (ready.get ==> ready.refresh) ==>
                && Coherent(run, View())
                && answer == Listed(run(db, Query(if q.page.None? then Some(1) else q.page,
                                                  if q.limit.None? then Some(20) else q.limit,
                                                  q.venue, q.from, q.to)))
    {
      if Coherent(run, View()) && Valid(q) && (ready.get ==> ready.refresh) {
        ListIsTransparent(run, View(), q, ready);
      }
      RefreshListVersion(ready.refresh);
      var key := ListKey(listVersion, q);
      if ready.get {
        if key in cache && cache[key].CachedPage? {
          hits := hits + 1;
          return Listed(cache[key].page);
        }
      }
      misses := misses + 1;
      var page := run(db, Normal(q));
      if ready.set_ {
        cache := cache[key := CachedPage(page)];
      }
      return Listed(page);
    }

    method CreateEvent(id: string, event: Event) returns (answer: Answer<P>)
      modifies `db, `cache
      ensures (View(), answer) == Create(old(View()), id, event)
      ensures old(Coherent(run, View())) ==> Coherent(run, View())
    {
      if Coherent(run, View()) {
        CreateIsTransparent(run, View(), id, event);
      }
      if id in db {
        return Rejected;
      }
      db := db[id := event];
      BumpListVersion();
      return Written;
    }

    method InvalidateEvent(id: string)
      modifies `cache
      ensures View() == Invalidate(old(View()), id)
    {
      cache := cache - {EventKey(id)};
      BumpListVersion();
    }

    /** Both writers: the invalidation comes before the write to the database. */
    method ModifyEvent(id: string, change: Change, actor: Actor, accepted: bool, ready: Ready)
      returns (answer: Answer<P>)
      modifies `db, `cache, `hits, `misses
      ensures (View(), answer) == Modify(old(View()), id, change, actor, accepted, ready)
      ensures old(Coherent(run, View())) ==>
                && Coherent(run, View())
                && (db, [answer]) == DbExec(run, old(db), EventCache.Op.ModifyEvent(id, change, actor, accepted, ready))
                && answer == (if id !in old(db) then NotFound
                              else if !actor.isAdmin && old(db)[id].organizerId != actor.sub then Forbidden
                              else if accepted then Written else Rejected)
                && (forall again :: Get(View(), id, again).1 ==
                      (if id !in old(db) || (answer.Written? && change.Remove?) then NotFound
                       else if answer.Written? then Found(change.apply(old(db)[id]))
                       else Found(old(db)[id])))
                && SameBut(old(db), db, id)
    {
      if Coherent(run, View()) {
        ModifyIsTransparent(run, View(), EventCache.Op.ModifyEvent(id, change, actor, accepted, ready));
        forall again { ModifyThenRead(run, View(), id, change, actor, accepted, ready, again); }
      }
      var found := GetEventById(id, ready);
      if !found.Found? {
        return NotFound;
      }
      if !MayModify(found.event, actor) {
        return Forbidden;
      }
      InvalidateEvent(id);
      db := Changed(db, id, change, accepted);
      return if accepted then Written else Rejected;
    }
  }
}
