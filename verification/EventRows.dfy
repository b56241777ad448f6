/** Events as the database holds them, and what the cache may hold of them. */
module EventRows {
  import opened EventKeys

  /** `details` stands for every column but the organizer. */
  datatype Event = Event(organizerId: string, details: string)

  type Rows = map<string, Event>

  /** How the database answers a list query: any function of its rows and the query. */
  type Lister<P> = (Rows, Query) -> P

  /** What one cache name may hold. */
  datatype Cached<P> = CachedEvent(event: Event) | CachedPage(page: P) | Counter(n: nat)
}
