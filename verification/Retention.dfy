/** How long the records of orders are kept: closed orders are purged in two generations. */
module Retention {
  import opened Types

  /** A table of numbered records. Its lowest number is known from recovery only: `None` is past every number. */
  class Table {
    /** The committed records; that of a closed order names the record the order was open under. */
    var held: map<nat, nat>
    /** Deleted records that are still on file. */
    var deleted: set<nat>
    var nextRN: nat
    var minRN: Option<nat>

    /** Recovers the records found on file. */
    constructor (held: map<nat, nat>, deleted: set<nat>)
      ensures Valid() && this.held == held && this.deleted == deleted && forall rn <- held.Keys + deleted :: rn < nextRN
      ensures minRN.None? <==> held == map[] && deleted == {}
    {
      var lowest, next := Bounds(held.Keys + deleted);
      this.held, this.deleted, nextRN, minRN := held, deleted, next, lowest;
    }

    ghost predicate Valid()
      reads this
    {
      && (forall rn <- held :: rn < nextRN)
      && (forall rn <- deleted :: rn < nextRN)
      && (minRN.Some? ==> minRN.value <= nextRN && forall rn <- held :: minRN.value <= rn)
    }

    lemma {:induction false} Lowest()
      requires Valid()
      ensures minRN.Some? ==> forall rn <- held :: minRN.value <= rn
    {
    }

    method Push(openRN: nat) returns (rn: nat)
      requires Valid()
      modifies this`held, this`nextRN
      ensures Valid() && rn == old(nextRN) && nextRN == rn + 1
      ensures held == old(held)[rn := openRN]
    {
      rn := nextRN;
      held := held[rn := openRN];
      nextRN := nextRN + 1;
    }

    /** Deletes a record; the deletion takes a number of its own. */
    method Delete(rn: nat)
      requires Valid() && rn in held
      modifies this`held, this`deleted, this`nextRN
      ensures Valid() && nextRN >= old(nextRN)
      ensures held == old(held) - {rn}
    {
      held := held - {rn};
      deleted := deleted + {rn, nextRN};
      nextRN := nextRN + 1;
    }

    /** Deletes all records numbered below `upTo`, from the lowest known on. */
    method Purge(upTo: nat)
      requires Valid()
      modifies this`held, this`deleted, this`minRN
      ensures Valid() && minRN.Some? == old(minRN.Some?)
      ensures held == if minRN.None? then old(held) else From(old(held), upTo)
    {
      if minRN.None? { return; }
      var rn := minRN.value;
      while rn < upTo
        invariant Valid() && minRN.Some?
        invariant held == map k | k in old(held) && (k >= rn || k >= upTo) :: old(held)[k]
        decreases upTo - rn
      {
        if rn >= nextRN { return; }
        if rn in held || rn in deleted {
          minRN := Some(rn);
          held := held - {rn};
          deleted := deleted + {rn};
        }
        rn := rn + 1;
      }
    }
  }

  ghost predicate NamedIn(closed: map<nat, nat>, o: nat, lo: nat, hi: nat) {
    exists rn <- closed :: lo <= rn < hi && closed[rn] == o
  }

  ghost function Unnamed(orders: map<nat, nat>, closed: map<nat, nat>, lo: nat, hi: nat): map<nat, nat> {
    map o | o in orders && !NamedIn(closed, o, lo, hi) :: orders[o]
  }

  ghost function From(held: map<nat, nat>, lo: nat): map<nat, nat> {
    map rn | rn in held && rn >= lo :: held[rn]
  }

  /** The least of some numbers, and the first beyond them. */
  method Bounds(found: set<nat>) returns (lowest: Option<nat>, next: nat)
    ensures lowest.None? <==> found == {}
    ensures lowest.Some? ==> lowest.value <= next
    ensures forall rn <- found :: rn < next && lowest.Some? && lowest.value <= rn
  {
    lowest, next := None, 0;
    var todo := found;
    while todo != {}
      invariant todo <= found
      invariant forall rn <- found :: rn in todo || (rn < next && lowest.Some? && lowest.value <= rn)
      invariant lowest.None? <==> todo == found
      invariant lowest.Some? ==> lowest.value <= next
      decreases |todo|
    {
      var rn :| rn in todo;
      if lowest.None? || rn < lowest.value { lowest := Some(rn); }
      if next <= rn { next := rn + 1; }
      todo := todo - {rn};
    }
  }

  /** The numbers of all orders' records are below `n`. */
  ghost predicate Numbered(everOpen: map<nat, nat>, named: map<nat, nat>, n: nat) {
    (forall o <- everOpen :: o < n) && forall rn <- named :: named[rn] < n
  }

  lemma {:induction false} NumberedMore(everOpen: map<nat, nat>, named: map<nat, nat>, n: nat, m: nat)
    requires n <= m && Numbered(everOpen, named, n)
    ensures Numbered(everOpen, named, m)
  {
  }

  // ---- what is to be kept; the table of closed orders is listed if it was not empty at recovery

  /** The open record of an order closed `at` that many purges is to go at the second purge after that. It never
      goes if the table of closed orders is not listed and the order closed before the first purge. */
  predicate OpenDue(at: nat, purges: nat, listed: bool) {
    at + 2 <= purges && (listed || at > 0)
  }

  /** The closed record is to go at the third, but never if the table is not listed. */
  predicate ClosedDue(at: nat, purges: nat, listed: bool) {
    at + 3 <= purges && listed
  }

  ghost function ClosedKept(named: map<nat, nat>, closedAt: map<nat, nat>, purges: nat, listed: bool): map<nat, nat>
    requires closedAt.Keys == named.Keys
  {
    map rn | rn in named && !ClosedDue(closedAt[rn], purges, listed) :: named[rn]
  }

  ghost function OpenKept(everOpen: map<nat, nat>, named: map<nat, nat>, closedAt: map<nat, nat>, purges: nat,
                          listed: bool): map<nat, nat>
    requires closedAt.Keys == named.Keys
  {
    map o | o in everOpen && !Due(o, named, closedAt, purges, listed) :: everOpen[o]
  }

  ghost predicate Due(o: nat, named: map<nat, nat>, closedAt: map<nat, nat>, purges: nat, listed: bool)
    requires closedAt.Keys == named.Keys
  {
    exists rn <- named :: named[rn] == o && OpenDue(closedAt[rn], purges, listed)
  }

  lemma {:induction false} KeptAfterOpen(everOpen: map<nat, nat>, named: map<nat, nat>, closedAt: map<nat, nat>,
                                         purges: nat, listed: bool, o: nat)
    requires closedAt.Keys == named.Keys && forall rn <- named :: named[rn] < o
    ensures OpenKept(everOpen[o := 0], named, closedAt, purges, listed)
      == OpenKept(everOpen, named, closedAt, purges, listed)[o := 0]
  {
  }

  lemma {:induction false} KeptAfterClose(everOpen: map<nat, nat>, named: map<nat, nat>, closedAt: map<nat, nat>,
                                          purges: nat, listed: bool, rn: nat, o: nat)
    requires closedAt.Keys == named.Keys && rn !in named
    ensures closedAt[rn := purges].Keys == named[rn := o].Keys
    ensures OpenKept(everOpen, named[rn := o], closedAt[rn := purges], purges, listed)
      == OpenKept(everOpen, named, closedAt, purges, listed)
    ensures ClosedKept(named[rn := o], closedAt[rn := purges], purges, listed)
      == ClosedKept(named, closedAt, purges, listed)[rn := o]
  {
    var named', closedAt' := named[rn := o], closedAt[rn := purges];
    forall x <- everOpen ensures Due(x, named', closedAt', purges, listed) == Due(x, named, closedAt, purges, listed) {
      if Due(x, named, closedAt, purges, listed) {
        var k :| k in named && named[k] == x && OpenDue(closedAt[k], purges, listed);
        assert k in named' && named'[k] == x && OpenDue(closedAt'[k], purges, listed);
      }
    }
  }

  ghost predicate Divides(mark: Option<nat>, closedAt: map<nat, nat>, purges: nat, n: nat) {
    && (mark.Some? <==> purges >= n)
    && (mark.Some? ==> forall rn <- closedAt :: rn < mark.value <==> closedAt[rn] + n <= purges)
  }

  lemma {:induction false} MarksMoveOn(mark: Option<nat>, closedAt: map<nat, nat>, purges: nat, next: nat)
    requires Divides(mark, closedAt, purges, 1) && forall rn <- closedAt :: rn < next && closedAt[rn] <= purges
    ensures Divides(mark, closedAt, purges + 1, 2) && Divides(Some(next), closedAt, purges + 1, 1)
  {
  }

  lemma {:induction false} ClosedAfterPurge(named: map<nat, nat>, closedAt: map<nat, nat>, purges: nat, listed: bool,
                                            mark: Option<nat>)
    requires closedAt.Keys == named.Keys && Divides(mark, closedAt, purges, 2)
    ensures ClosedKept(named, closedAt, purges + 1, listed) ==
      var kept := ClosedKept(named, closedAt, purges, listed);
      if listed && mark.Some? then From(kept, mark.value) else kept
  {
  }

  /** The first number looked at for open records to delete: from the last mark on, or from the lowest known. */
  /** What is due to be purged now was so before, or its number is between the two dividers. */
  lemma {:induction false} DueNext(
    named: map<nat, nat>, closedAt: map<nat, nat>, purges: nat, minRN: Option<nat>,
    newer: Option<nat>, older: Option<nat>, closed: map<nat, nat>
  )
    requires closedAt.Keys == named.Keys && closed == ClosedKept(named, closedAt, purges + 1, minRN.Some?)
    requires Divides(newer, closedAt, purges, 1) && Divides(older, closedAt, purges, 2)
    requires minRN.Some? ==> forall rn <- closed :: minRN.value <= rn
    ensures var min := if older.Some? then older else minRN;
      forall rn <- named :: OpenDue(closedAt[rn], purges + 1, minRN.Some?) <==>
        || OpenDue(closedAt[rn], purges, minRN.Some?)
        || (newer.Some? && min.Some? && rn in closed && min.value <= rn < newer.value)
    ensures forall rn <- closed :: rn in named && closed[rn] == named[rn]
  {
    forall rn | rn in named
      ensures var min := if older.Some? then older else minRN; OpenDue(closedAt[rn], purges + 1, minRN.Some?) <==>
        || OpenDue(closedAt[rn], purges, minRN.Some?)
        || (newer.Some? && min.Some? && rn in closed && min.value <= rn < newer.value)
    {
      assert rn in closedAt.Keys;
      assert rn in closed <==> !ClosedDue(closedAt[rn], purges + 1, minRN.Some?);
    }
  }

  lemma {:induction false} OpenAfterPurge(
    everOpen: map<nat, nat>, named: map<nat, nat>, closedAt: map<nat, nat>, purges: nat, minRN: Option<nat>,
    newer: Option<nat>, older: Option<nat>, closed: map<nat, nat>
  )
    requires closedAt.Keys == named.Keys && closed == ClosedKept(named, closedAt, purges + 1, minRN.Some?)
    requires Divides(newer, closedAt, purges, 1) && Divides(older, closedAt, purges, 2)
    requires minRN.Some? ==> forall rn <- closed :: minRN.value <= rn
    ensures OpenKept(everOpen, named, closedAt, purges + 1, minRN.Some?) ==
      var kept := OpenKept(everOpen, named, closedAt, purges, minRN.Some?);
      var min := if older.Some? then older else minRN;
      if newer.Some? && min.Some? then Unnamed(kept, closed, min.value, newer.value) else kept
  {
    hide OpenDue, ClosedKept, Divides;
    var listed := minRN.Some?;
    var min := if older.Some? then older else minRN;
    DueNext(named, closedAt, purges, minRN, newer, older, closed);
    forall o <- everOpen
      ensures Due(o, named, closedAt, purges + 1, listed) <==>
        Due(o, named, closedAt, purges, listed) || (newer.Some? && min.Some?
          && NamedIn(closed, o, min.value, newer.value))
    {
      if newer.Some? && min.Some? && NamedIn(closed, o, min.value, newer.value) {
        var rn :| rn in closed && min.value <= rn < newer.value && closed[rn] == o;
        assert rn in named && OpenDue(closedAt[rn], purges + 1, listed);
      }
      if Due(o, named, closedAt, purges, listed) {
        var rn :| rn in named && named[rn] == o && OpenDue(closedAt[rn], purges, listed);
        assert OpenDue(closedAt[rn], purges + 1, listed);
      }
    }
  }

  /** No closed record is dropped while the order's open record is still there. */
  lemma {:induction false} DroppedInOrder(everOpen: map<nat, nat>, named: map<nat, nat>, closedAt: map<nat, nat>,
                                          purges: nat, listed: bool, rn: nat)
    requires closedAt.Keys == named.Keys && rn in named && rn !in ClosedKept(named, closedAt, purges, listed)
    ensures named[rn] !in OpenKept(everOpen, named, closedAt, purges, listed)
  {
    assert OpenDue(closedAt[rn], purges, listed);
  }

  /** An order closed now is beyond all marks. */
  lemma {:induction false} ClosedNow(mark: Option<nat>, closedAt: map<nat, nat>, purges: nat, n: nat, rn: nat)
    requires Divides(mark, closedAt, purges, n) && n > 0 && (mark.Some? ==> mark.value <= rn)
    ensures Divides(mark, closedAt[rn := purges], purges, n)
  {
  }

  lemma {:induction false} NumberedOne(everOpen: map<nat, nat>, named: map<nat, nat>, n: nat, rn: nat, o: nat)
    requires Numbered(everOpen, named, n) && o < n
    ensures Numbered(everOpen, named[rn := o], n)
  {
  }

  /** Before the first purge nothing is due. */
  lemma {:induction false} AllKept(everOpen: map<nat, nat>, named: map<nat, nat>, closedAt: map<nat, nat>, listed: bool)
    requires closedAt.Keys == named.Keys
    ensures ClosedKept(named, closedAt, 0, listed) == named
      && OpenKept(everOpen, named, closedAt, 0, listed) == everOpen
    ensures Divides(None, closedAt, 0, 1) && Divides(None, closedAt, 0, 2)
  {
  }

  lemma {:induction false} NumberedAt(orders: map<nat, nat>, closed: map<nat, nat>, known: set<nat>, n: nat)
    requires (forall o <- known :: o < n) && orders.Keys <= known
    requires forall rn <- closed :: exists o <- known :: closed[rn] <= o
    ensures Numbered(orders, closed, n)
  {
  }

  class OrderDB {
    const orders: Table
    const closed: Table
    var purgeOrderRN: Option<nat>
    var purgeClosedRN: Option<nat>
    /** How often `Purge` was called, and how often it had been when each order was closed. */
    ghost var purges: nat
    ghost var closedAt: map<nat, nat>
    /** The records of all orders that were ever open, and those that closed records name. */
    ghost var everOpen: map<nat, nat>
    ghost var named: map<nat, nat>

    constructor (orders_: map<nat, nat>, closed_: map<nat, nat>, deletedOrders: set<nat>, deletedClosed: set<nat>)
      requires forall rn <- closed_ :: exists o <- orders_.Keys + deletedOrders :: closed_[rn] <= o
      ensures Retained() && fresh(orders) && fresh(closed) && purges == 0
      ensures closed.minRN.None? <==> closed_ == map[] && deletedClosed == {}
      ensures everOpen == orders_ && named == closed_ && closedAt == map rn | rn in closed_ :: 0
    {
      hide OpenKept, ClosedKept, Numbered, Divides;
      orders := new Table(orders_, deletedOrders);
      closed := new Table(closed_, deletedClosed);
      purgeOrderRN, purgeClosedRN := None, None;
      purges, closedAt, everOpen, named := 0, map rn | rn in closed_ :: 0, orders_, closed_;
      new;
      AllKept(everOpen, named, closedAt, closed.minRN.Some?);
      NumberedAt(orders_, closed_, orders_.Keys + deletedOrders, orders.nextRN);
    }

    ghost predicate Valid()
      reads this, orders, closed
    {
      && orders != closed && orders.Valid() && closed.Valid() && closedAt.Keys == named.Keys
      && (forall rn <- closedAt :: rn < closed.nextRN && closedAt[rn] <= purges)
      && Numbered(everOpen, named, orders.nextRN)
      && Marked(purgeOrderRN, 1) && Marked(purgeClosedRN, 2)
    }

    /** A mark divides the orders closed `n` purges ago and earlier from the later ones. */
    ghost predicate Marked(mark: Option<nat>, n: nat)
      reads this`purges, this`closedAt, closed`nextRN
    {
      Divides(mark, closedAt, purges, n) && (mark.Some? ==> mark.value <= closed.nextRN)
    }

    /** Each record is kept until it is due, and no longer. */
    ghost predicate Retained()
      reads this, orders, closed
    {
      && Valid()
      && closed.held == ClosedKept(named, closedAt, purges, closed.minRN.Some?)
      && orders.held == OpenKept(everOpen, named, closedAt, purges, closed.minRN.Some?)
    }

    method Open() returns (rn: nat)
      requires Retained()
      modifies this`everOpen, orders
      ensures Retained() && everOpen == old(everOpen)[rn := 0] && rn !in old(everOpen)
    {
      hide OpenKept, ClosedKept;
      rn := orders.Push(0);
      KeptAfterOpen(everOpen, named, closedAt, purges, closed.minRN.Some?, rn);
      everOpen := everOpen[rn := 0];
    }

    lemma {:induction false} Below(o: nat)
      requires orders.Valid() && o in orders.held
      ensures o < orders.nextRN
    {
    }

    method Close(o: nat) returns (rn: nat)
      requires Retained() && o in orders.held
      modifies this`closedAt, this`named, closed`held, closed`nextRN
      ensures Retained() && closedAt == old(closedAt)[rn := purges] && named == old(named)[rn := o] && rn !in old(named)
    {
      hide OpenKept, ClosedKept, Table.Valid, Divides, Numbered;
      Below(o);
      rn := closed.Push(o);
      KeptAfterClose(everOpen, named, closedAt, purges, closed.minRN.Some?, rn, o);
      ClosedNow(purgeOrderRN, closedAt, purges, 1, rn);
      ClosedNow(purgeClosedRN, closedAt, purges, 2, rn);
      NumberedOne(everOpen, named, orders.nextRN, rn, o);
      closedAt := closedAt[rn := purges];
      named := named[rn := o];
    }

    method Purge()
      requires Retained()
      modifies this`purges, this`purgeOrderRN, this`purgeClosedRN, orders, closed
      ensures Retained() && purges == old(purges) + 1 && closed.minRN.Some? == old(closed.minRN.Some?)
    {
      hide OpenKept, ClosedKept, Divides, From, Unnamed, Numbered, Table.Valid;
      ghost var next := orders.nextRN;
      MarksMoveOn(purgeOrderRN, closedAt, purges, closed.nextRN);
      ClosedAfterPurge(named, closedAt, purges, closed.minRN.Some?, purgeClosedRN);
      PurgeTables();
      closed.Lowest();
      OpenAfterPurge(everOpen, named, closedAt, purges, closed.minRN, purgeOrderRN, purgeClosedRN, closed.held);
      NumberedMore(everOpen, named, next, orders.nextRN);
      purgeClosedRN := purgeOrderRN;
      purgeOrderRN := Some(closed.nextRN);
      purges := purges + 1;
    }

    /** Deletes what the marks say: closed records first, then the open records that newer ones name. */
    method PurgeTables()
      requires orders != closed && orders.Valid() && closed.Valid()
      modifies orders, closed`held, closed`deleted, closed`minRN
      ensures orders.Valid() && closed.Valid() && orders.nextRN >= old(orders.nextRN)
      ensures closed.minRN.Some? == old(closed.minRN.Some?)
      ensures closed.held ==
        if closed.minRN.Some? && purgeClosedRN.Some? then From(old(closed.held), purgeClosedRN.value)
          else old(closed.held)
      ensures var min := if purgeClosedRN.Some? then purgeClosedRN else closed.minRN;
        orders.held ==
          if purgeOrderRN.Some? && min.Some? then Unnamed(old(orders.held), closed.held, min.value, purgeOrderRN.value)
          else old(orders.held)
    {
      hide *;
      if purgeClosedRN.Some? { closed.Purge(purgeClosedRN.value); }
      if purgeOrderRN.Some? { PurgeOpen(if purgeClosedRN.Some? then purgeClosedRN else closed.minRN,
        purgeOrderRN.value); }
    }

    /** Deletes the open records named by the closed ones from `min` up to `max`. */
    method PurgeOpen(min: Option<nat>, max: nat)
      requires orders != closed && orders.Valid()
      modifies orders
      ensures orders.Valid() && orders.nextRN >= old(orders.nextRN)
      ensures orders.held == if min.Some? then Unnamed(old(orders.held), closed.held, min.value, max)
        else old(orders.held)
    {
      if min.None? { return; }
      var rn := min.value;
      while rn < max
        invariant min.value <= rn && orders.Valid() && orders.nextRN >= old(orders.nextRN)
        invariant rn <= max || rn == min.value
        invariant orders.held == Unnamed(old(orders.held), closed.held, min.value, rn)
        decreases max - rn
      {
        if rn in closed.held && closed.held[rn] in orders.held {
          orders.Delete(closed.held[rn]);
        }
        rn := rn + 1;
      }
    }
  }

  /** If the table of closed orders was empty at recovery, an order closed before the first purge leaves both its
      records, however often `Purge` is called. */
  method NeverPurged(n: nat) returns (db: OrderDB, o: nat, rn: nat)
    ensures db.Retained() && db.purges == n && rn in db.closedAt && db.closedAt[rn] == 0
    ensures o in db.orders.held && rn in db.closed.held && db.closed.held[rn] == o
  {
    hide OpenKept, ClosedKept, Divides, Table.Valid;
    db := new OrderDB(map[], map[], {}, {});
    o := db.Open();
    Retains(map[], db.everOpen, o, db.purges);
    rn := db.Close(o);
    for k := 0 to n
      invariant db.Retained() && fresh(db) && fresh(db.orders) && fresh(db.closed)
      invariant db.purges == k && db.closed.minRN.None?
      invariant db.closedAt == map[rn := 0] && db.named == map[rn := o] && db.everOpen == map[o := 0]
    {
      db.Purge();
    }
    Unlisted(o, rn, n);
  }

  lemma {:induction false} Retains(named: map<nat, nat>, everOpen: map<nat, nat>, o: nat, purges: nat)
    requires named == map[] && o in everOpen
    ensures o in OpenKept(everOpen, named, map[], purges, false)
  {
  }

  lemma {:induction false} Unlisted(o: nat, rn: nat, purges: nat)
    ensures OpenKept(map[o := 0], map[rn := o], map[rn := 0], purges, false) == map[o := 0]
    ensures ClosedKept(map[rn := o], map[rn := 0], purges, false) == map[rn := o]
  {
  }
}
