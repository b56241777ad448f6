/** Promotion after promotion equals one batch taken from the front of the waitlist. */
module WaitlistOrder {
  import opened Wrappers
  import opened BookingTable

  /** `q` lists the rows waiting for `e`, each once, oldest first. */
  ghost predicate IsQueue(rows: Table, e: EventId, q: seq<BookingId>) {
    && (forall i :: 0 <= i < |q| ==> q[i] in WithStatus(rows, e, Waitlisted))
    && (forall id :: id in WithStatus(rows, e, Waitlisted) ==> id in q)
    && (forall i, j :: 0 <= i < j < |q| ==> rows[q[i]].createdAt < rows[q[j]].createdAt)
  }

  /** Consecutive promotions of one event: the answers they give and the table they leave. */
  ghost predicate Promotions(rows: Table, capacity: int, e: EventId, answers: seq<Option<BookingId>>, after: Table) {
    if answers == [] then after == rows
    else
      && Picks(rows, capacity, e, answers[0])
      && Promotions(Promoted(rows, answers[0]), capacity, e, answers[1..], after)
  }

  function ConfirmAll(rows: Table, ids: seq<BookingId>): Table {
    map id | id in rows :: if id in ids then rows[id].(status := Confirmed) else rows[id]
  }

  function BatchSize(k: nat, free: int, waiting: nat): nat {
    var seats := if free < 0 then 0 else free;
    var n := if seats < waiting then seats else waiting;
    if k < n then k else n
  }

  /** Distinct creation times are what a queue needs to exist. */
  lemma QueueExists(rows: Table, e: EventId, waiting: set<BookingId>) returns (q: seq<BookingId>)
    requires waiting <= WithStatus(rows, e, Waitlisted)
    requires forall i, j :: i in waiting && j in waiting && i != j ==> rows[i].createdAt != rows[j].createdAt
    ensures forall id :: id in waiting <==> id in q
    ensures forall i, j :: 0 <= i < j < |q| ==>
              q[i] in rows && q[j] in rows && rows[q[i]].createdAt < rows[q[j]].createdAt
    ensures waiting == WithStatus(rows, e, Waitlisted) ==> IsQueue(rows, e, q)
    decreases waiting
  {
    if waiting == {} {
      q := [];
    } else {
      var first := SomebodyIsOldest(rows, e, waiting);
      var rest := QueueExists(rows, e, waiting - {first});
      q := [first] + rest;
      forall j | 0 < j < |q| ensures q[j] in waiting && rows[first].createdAt < rows[q[j]].createdAt {
        assert q[j] == rest[j - 1] && rest[j - 1] in rest;
      }
    }
  }

  lemma PromotionsExist(rows: Table, capacity: int, e: EventId, k: nat)
    returns (answers: seq<Option<BookingId>>, after: Table)
    ensures |answers| == k && Promotions(rows, capacity, e, answers, after)
    decreases k
  {
    if k == 0 {
      answers, after := [], rows;
    } else {
      var waiting := WithStatus(rows, e, Waitlisted);
      var who: Option<BookingId> := None;
      if Seats(rows, e) < capacity && waiting != {} {
        var id := SomebodyIsOldest(rows, e, waiting);
        who := Some(id);
      }
      var rest;
      rest, after := PromotionsExist(Promoted(rows, who), capacity, e, k - 1);
      answers := [who] + rest;
      assert answers[1..] == rest;
    }
  }

  lemma PromotionTakesHead(rows: Table, capacity: int, e: EventId, q: seq<BookingId>, who: Option<BookingId>)
    requires IsQueue(rows, e, q) && Picks(rows, capacity, e, who)
    ensures who == if Seats(rows, e) < capacity && q != [] then Some(q[0]) else None
    ensures who.Some? ==> IsQueue(Promoted(rows, who), e, q[1..]) && Seats(Promoted(rows, who), e) == Seats(rows, e) + 1
    ensures who.None? ==> Promoted(rows, who) == rows
  {
    assert q != [] <==> WithStatus(rows, e, Waitlisted) != {} by {
      if q != [] { assert q[0] in WithStatus(rows, e, Waitlisted); }
    }
    if who.Some? {
      var i :| 0 <= i < |q| && q[i] == who.value;
      assert q[0] in WithStatus(rows, e, Waitlisted);
      assert i == 0;
      FlipMovesOneRow(rows, who.value, Confirmed);
      FlipCounts(rows, who.value, Confirmed, e);
      var after := Promoted(rows, who);
      forall id | id in WithStatus(after, e, Waitlisted) ensures id in q[1..] {
        var j :| 0 <= j < |q| && q[j] == id;
        assert q[1..][j - 1] == id;
      }
      forall j | 0 <= j < |q| - 1 ensures q[1..][j] in WithStatus(after, e, Waitlisted) {
        assert q[j + 1] in WithStatus(rows, e, Waitlisted) && q[j + 1] != q[0];
      }
    }
  }

  /** The first min(k, free seats, waiting) rows of the queue are confirmed and answered in order; the
      remaining calls answer nothing, and no other row is touched. */
  ghost predicate IsBatch(rows: Table, free: int, q: seq<BookingId>, answers: seq<Option<BookingId>>, after: Table) {
    var n := BatchSize(|answers|, free, |q|);
    && (forall i :: 0 <= i < |answers| ==> answers[i] == if i < n then Some(q[i]) else None)
    && after == ConfirmAll(rows, q[..n])
  }

  lemma BatchGrows(rows: Table, free: int, q: seq<BookingId>, answers: seq<Option<BookingId>>, after: Table)
    requires free > 0 && q != [] && q[0] in rows
    requires answers != [] && answers[0] == Some(q[0])
    requires IsBatch(Promoted(rows, answers[0]), free - 1, q[1..], answers[1..], after)
    ensures IsBatch(rows, free, q, answers, after)
  {
  }

  lemma BatchStays(rows: Table, free: int, q: seq<BookingId>, answers: seq<Option<BookingId>>, after: Table)
    requires free <= 0 || q == []
    requires answers != [] && answers[0] == None
    requires IsBatch(rows, free, q, answers[1..], after)
    ensures IsBatch(rows, free, q, answers, after)
  {
  }

  /** k promotions in a row do exactly what one batch does, for every k, capacity and waitlist. */
  lemma {:induction false} RepeatedIsBatch(rows: Table, capacity: int, e: EventId, q: seq<BookingId>,
                                           answers: seq<Option<BookingId>>, after: Table)
    requires IsQueue(rows, e, q) && Promotions(rows, capacity, e, answers, after)
    ensures IsBatch(rows, capacity - Seats(rows, e), q, answers, after)
    decreases |answers|
  {
    var free := capacity - Seats(rows, e);
    if answers == [] {
      assert q[..0] == [];
    } else {
      var who := answers[0];
      PromotionTakesHead(rows, capacity, e, q, who);
      RepeatedIsBatch(Promoted(rows, who), capacity, e, if who.Some? then q[1..] else q, answers[1..], after);
      if who.Some? {
        BatchGrows(rows, free, q, answers, after);
      } else {
        BatchStays(rows, free, q, answers, after);
      }
    }
  }
}
