/** The names under which the events service caches, and why no two of them collide. */
module EventKeys {
  import opened Wrappers
  import opened Text

  datatype Query = Query(page: Option<nat>, limit: Option<nat>, venue: Option<string>, from: Option<string>,
                         to: Option<string>)

  const EVENT_KEY_PREFIX := "event:"
  const LIST_KEY_PREFIX := "events:list:"
  const LIST_VERSION_KEY := "events:list:v"

  function OrElse<T>(o: Option<T>, default: T): T {
    if o.Some? then o.value else default
  }

  function EventKey(id: string): string {
    EVENT_KEY_PREFIX + id
  }

  // The parts p, l, v, f and t joined by ":", the last three grouped as they can be told apart.

  function PagePart(q: Query): string {
    "p" + Decimal(OrElse(q.page, 1))
  }

  function LimitPart(q: Query): string {
    "l" + Decimal(OrElse(q.limit, 20))
  }

  function VenueFromParts(q: Query): string {
    ("v" + OrElse(q.venue, "") + [':']) + ['f'] + (OrElse(q.from, "") + [':'])
  }

  function FilterParts(q: Query): string {
    VenueFromParts(q) + ['t'] + OrElse(q.to, "")
  }

  function QueryPart(q: Query): string {
    PagePart(q) + [':'] + (LimitPart(q) + [':'] + FilterParts(q))
  }

  function ListKey(version: nat, q: Query): string {
    LIST_KEY_PREFIX + (Decimal(version) + [':'] + QueryPart(q))
  }

  predicate NoLowerCase(s: string) {
    forall i :: 0 <= i < |s| ==> !('a' <= s[i] <= 'z')
  }

  predicate IsTimestamp(o: Option<string>) {
    o.Some? ==> o.value != "" && NoLowerCase(o.value)
  }

  /** What request validation lets through: a non-empty venue, of any characters, and bounds that are
      UTC date-times and so free of lower-case letters. */
  predicate Valid(q: Query) {
    (q.venue.Some? ==> q.venue.value != "") && IsTimestamp(q.from) && IsTimestamp(q.to)
  }

  /** The query with its defaults filled in: what the database is asked. */
  function Normal(q: Query): Query {
    q.(page := Some(OrElse(q.page, 1)), limit := Some(OrElse(q.limit, 20)))
  }

  /** A query with its page and limit is asked as it stands; a missing page is asked as 1, a missing limit as 20,
      and nothing else is touched. */
  lemma NormalFillsDefaults(q: Query)
    ensures q.page.Some? && q.limit.Some? ==> Normal(q) == q
    ensures Normal(q) == Query(if q.page.None? then Some(1) else q.page, if q.limit.None? then Some(20) else q.limit,
                               q.venue, q.from, q.to)
  {
  }

  /** Queries of any venue, and of date-times as validation demands them, are valid. */
  lemma ValidatedQueries(q: Query)
    requires q.venue.Some? ==> q.venue.value != ""
    requires q.from.Some? ==> q.from.value != "" && forall c :: c in q.from.value ==> c in "0123456789-:.TZ"
    requires q.to.Some? ==> q.to.value != "" && forall c :: c in q.to.value ==> c in "0123456789-:.TZ"
    ensures Valid(q)
  {
    DateTimesAreUpper(OrElse(q.from, ""));
    DateTimesAreUpper(OrElse(q.to, ""));
  }

  lemma DateTimesAreUpper(s: string)
    requires forall c :: c in s ==> c in "0123456789-:.TZ"
    ensures NoLowerCase(s)
  {
    forall i | 0 <= i < |s| ensures !('a' <= s[i] <= 'z') {
      assert s[i] in s;
    }
  }

  lemma FilterPartsInjective(q: Query, r: Query)
    requires Valid(q) && Valid(r) && FilterParts(q) == FilterParts(r)
    ensures q.venue == r.venue && q.from == r.from && q.to == r.to
  {
    LastSplit(VenueFromParts(q), OrElse(q.to, ""), VenueFromParts(r), OrElse(r.to, ""), 't');
    var qf, rf := OrElse(q.from, ""), OrElse(r.from, "");
    var qv, rv := "v" + OrElse(q.venue, "") + [':'], "v" + OrElse(r.venue, "") + [':'];
    LastSplit(qv, qf + [':'], rv, rf + [':'], 'f');
    assert qf == (qf + [':'])[..|qf|] && rf == (rf + [':'])[..|rf|];
    assert OrElse(q.venue, "") == qv[1..|qv| - 1] && OrElse(r.venue, "") == rv[1..|rv| - 1];
  }

  lemma LabelledDecimalInjective(mark: char, a: nat, b: nat)
    requires [mark] + Decimal(a) == [mark] + Decimal(b)
    ensures a == b
  {
    assert Decimal(a) == ([mark] + Decimal(a))[1..] && Decimal(b) == ([mark] + Decimal(b))[1..];
    DecimalInjective(a, b);
  }

  lemma QueryPartInjective(q: Query, r: Query)
    requires Valid(q) && Valid(r) && QueryPart(q) == QueryPart(r)
    ensures Normal(q) == Normal(r)
  {
    var q2, r2 := LimitPart(q) + [':'] + FilterParts(q), LimitPart(r) + [':'] + FilterParts(r);
    FirstSplit(PagePart(q), q2, PagePart(r), r2, ':');
    FirstSplit(LimitPart(q), FilterParts(q), LimitPart(r), FilterParts(r), ':');
    LabelledDecimalInjective('p', OrElse(q.page, 1), OrElse(r.page, 1));
    LabelledDecimalInjective('l', OrElse(q.limit, 20), OrElse(r.limit, 20));
    FilterPartsInjective(q, r);
  }

  /** Equal list keys come from one version and one query, the page and limit after their defaults, however the
      venue is spelt. */
  lemma ListKeyInjective(v: nat, q: Query, w: nat, r: Query)
    requires Valid(q) && Valid(r) && ListKey(v, q) == ListKey(w, r)
    ensures v == w && Normal(q) == Normal(r)
    ensures q.venue == r.venue && q.from == r.from && q.to == r.to
    ensures (if q.page.Some? then q.page.value else 1) == (if r.page.Some? then r.page.value else 1)
    ensures (if q.limit.Some? then q.limit.value else 20) == (if r.limit.Some? then r.limit.value else 20)
  {
    NormalFillsDefaults(q);
    NormalFillsDefaults(r);
    var k := |LIST_KEY_PREFIX|;
    var s, t := Decimal(v) + [':'] + QueryPart(q), Decimal(w) + [':'] + QueryPart(r);
    assert s == ListKey(v, q)[k..] && t == ListKey(w, r)[k..];
    FirstSplit(Decimal(v), QueryPart(q), Decimal(w), QueryPart(r), ':');
    DecimalInjective(v, w);
    QueryPartInjective(q, r);
  }

  lemma FiltersSpelt(venue: string, from: string, to: string)
    ensures (("v" + venue + [':']) + ['f'] + (from + [':'])) + ['t'] + to ==
              "v" + venue + ":f" + from + ":t" + to
  {
    assert ("v" + venue + [':']) + ['f'] + (from + [':']) == "v" + venue + ":f" + from + ":";
  }

  lemma Joined(p: string, l: string, rest: string)
    ensures "p" + p + [':'] + ("l" + l + [':'] + rest) == "p" + p + ":l" + l + ":" + rest
  {
  }

  /** The keys as other processes on the same cache spell them, for any query. */
  lemma KeysSpelt(id: string, v: nat, q: Query)
    ensures EventKey(id) == "event:" + id && LIST_VERSION_KEY == "events:list:v"
    ensures ListKey(v, q) ==
              "events:list:" + (Decimal(v) + [':']
                + ("p" + Decimal(if q.page.Some? then q.page.value else 1)
                   + ":l" + Decimal(if q.limit.Some? then q.limit.value else 20)
                   + ":" + ("v" + (if q.venue.Some? then q.venue.value else "")
                            + ":f" + (if q.from.Some? then q.from.value else "")
                            + ":t" + (if q.to.Some? then q.to.value else ""))))
  {
    FiltersSpelt(OrElse(q.venue, ""), OrElse(q.from, ""), OrElse(q.to, ""));
    Joined(Decimal(OrElse(q.page, 1)), Decimal(OrElse(q.limit, 20)), FilterParts(q));
  }

  lemma EventKeyInjective(id: string, other: string)
    requires EventKey(id) == EventKey(other)
    ensures id == other
  {
    assert EventKey(id)[|EVENT_KEY_PREFIX|..] == id && EventKey(other)[|EVENT_KEY_PREFIX|..] == other;
  }

  /** The three families of keys are disjoint. */
  lemma FamiliesDisjoint(id: string, version: nat, q: Query)
    ensures EventKey(id) != ListKey(version, q)
    ensures EventKey(id) != LIST_VERSION_KEY
    ensures ListKey(version, q) != LIST_VERSION_KEY
  {
    assert EventKey(id)[5] == ':' && ListKey(version, q)[5] == 's' && LIST_VERSION_KEY[5] == 's';
    assert IsDigit(Decimal(version)[0]);
    assert ListKey(version, q)[12] == Decimal(version)[0] && LIST_VERSION_KEY[12] == 'v';
  }
}
