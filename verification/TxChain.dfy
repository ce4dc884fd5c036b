/** The transmit log of the links: one table of records, in which each link keeps a chain back to its first. */
module TxChain {
  import opened Types

  /** What is known of a sent message: its number, and where and as what it was stored. */
  datatype Sent = Sent(seqNo: int, msgRN: nat, msgType: int)

  /** A record points back to the one before it, or to itself if it is the first. */
  datatype Record = Record(sent: Sent, prevRN: nat)

  /** A message that could be loaded again. */
  datatype Message = Message(sent: Sent, body: int)

  type Loader = Sent -> Option<int>

  ghost predicate Backwards(db: map<nat, Record>) {
    forall rn <- db :: db[rn].prevRN <= rn
  }

  /** What is reached from record `rn`, newest first; it ends at a first record or where one is gone. */
  ghost function Chain(db: map<nat, Record>, rn: nat): seq<Sent>
    requires Backwards(db)
    decreases rn
  {
    if rn !in db then []
    else [db[rn].sent] + if db[rn].prevRN == rn then [] else Chain(db, db[rn].prevRN)
  }

  /** A new record leaves all chains of earlier ones as they are. */
  lemma {:induction false} ChainGrows(db: map<nat, Record>, at: nat, r: Record, rn: nat)
    requires Backwards(db) && at !in db && r.prevRN <= at && rn < at
    ensures Backwards(db[at := r]) && Chain(db[at := r], rn) == Chain(db, rn)
    decreases rn
  {
    if rn in db && db[rn].prevRN != rn {
      ChainGrows(db, at, r, db[rn].prevRN);
    }
  }

  lemma {:induction false} ChainStep(db: map<nat, Record>, rn: nat)
    requires Backwards(db) && rn in db
    ensures var r, chain := db[rn], Chain(db, rn);
      && chain != [] && chain[0] == r.sent
      && chain[1..] == if r.prevRN == rn || r.prevRN !in db then [] else Chain(db, r.prevRN)
  {
  }

  // ---- what a retrieval comes to

  /** The messages numbered strictly between `lo` and `hi` that load, oldest first, of a chain given newest first. */
  ghost function Between(chain: seq<Sent>, lo: int, hi: int, load: Loader): seq<Message> {
    if chain == [] then [] else
      Between(chain[1..], lo, hi, load)
      + if lo < chain[0].seqNo < hi then Loaded(chain[0], load) else []
  }

  function Loaded(s: Sent, load: Loader): seq<Message> {
    match load(s) case None => [] case Some(body) => [Message(s, body)]
  }

  ghost predicate Descending(chain: seq<Sent>) {
    forall i, j | 0 <= i < j < |chain| :: chain[i].seqNo > chain[j].seqNo
  }

  lemma {:induction false} BetweenConcat(a: seq<Sent>, b: seq<Sent>, lo: int, hi: int, load: Loader)
    ensures Between(a + b, lo, hi, load) == Between(b, lo, hi, load) + Between(a, lo, hi, load)
  {
    if a == [] {
      assert a + b == b;
    } else {
      assert (a + b)[1..] == a[1..] + b;
      BetweenConcat(a[1..], b, lo, hi, load);
    }
  }

  lemma {:induction false} BetweenNone(chain: seq<Sent>, lo: int, hi: int, load: Loader)
    requires forall s <- chain :: s.seqNo <= lo
    ensures Between(chain, lo, hi, load) == []
  {
    if chain != [] {
      assert chain[0] in chain;
      assert forall s <- chain[1..] :: s in chain;
      BetweenNone(chain[1..], lo, hi, load);
    }
  }

  /** They are exactly the loadable messages of the chain in the gap, in ascending order. */
  lemma {:induction false} BetweenIs(chain: seq<Sent>, lo: int, hi: int, load: Loader)
    requires Descending(chain)
    ensures var got := Between(chain, lo, hi, load);
      && (forall i, j | 0 <= i < j < |got| :: got[i].sent.seqNo < got[j].sent.seqNo)
      && (forall m :: m in got <==> m.sent in chain && lo < m.sent.seqNo < hi && load(m.sent) == Some(m.body))
  {
    if chain != [] {
      var s, older := chain[0], chain[1..];
      BetweenIs(older, lo, hi, load);
      assert chain == [s] + older;
      var rest, now := Between(older, lo, hi, load), Between(chain, lo, hi, load);
      if lo < s.seqNo < hi && load(s).Some? {
        assert now == rest + [Message(s, load(s).value)];
        forall i | 0 <= i < |rest| ensures rest[i].sent.seqNo < s.seqNo {
          assert rest[i] in rest;
          assert rest[i].sent in older;
        }
      } else {
        assert now == rest;
      }
    }
  }

  // ---- storing and retrieving

  function Reversed(s: seq<Sent>): (r: seq<Sent>)
    ensures |r| == |s| && forall i | 0 <= i < |s| :: r[i] == s[|s| - 1 - i]
  {
    if s == [] then [] else Reversed(s[1..]) + [s[0]]
  }

  lemma {:induction false} ReversedAdd(s: seq<Sent>, x: Sent)
    ensures Reversed(s + [x]) == [x] + Reversed(s)
  {
  }

  lemma {:induction false} ReversedHas(s: seq<Sent>)
    ensures forall x :: x in Reversed(s) <==> x in s
  {
    if s != [] {
      ReversedHas(s[1..]);
      assert s == [s[0]] + s[1..];
    }
  }

  // ---- what a run of stores keeps

  /** A message offered for storage, and whether the table has room for it. */
  datatype Offer = Offer(sent: Sent, room: bool)

  /** The number of the message is beyond the last one kept. */
  predicate Beyond(kept: seq<Sent>, o: Offer) {
    kept != [] ==> o.sent.seqNo > kept[|kept| - 1].seqNo
  }

  function Keep(kept: seq<Sent>, o: Offer): seq<Sent> {
    if !Beyond(kept, o) then kept else if o.room then kept + [o.sent] else []
  }

  function KeepAll(os: seq<Offer>): seq<Sent> {
    if os == [] then [] else Keep(KeepAll(os[..|os| - 1]), os[|os| - 1])
  }

  /** The i-th message went into the table; or it was to go there, and there was no room. */
  predicate Accepted(os: seq<Offer>, i: nat)
    requires i < |os|
  {
    Beyond(KeepAll(os[..i]), os[i]) && os[i].room
  }

  predicate Failed(os: seq<Offer>, i: nat)
    requires i < |os|
  {
    Beyond(KeepAll(os[..i]), os[i]) && !os[i].room
  }

  /** The i-th message is in the chain yet: it went in, and nothing has failed to since. */
  ghost predicate Survives(os: seq<Offer>, i: nat)
    requires i < |os|
  {
    Accepted(os, i) && forall j | i < j < |os| :: !Failed(os, j)
  }

  /** After any run of stores, a message is kept if and only if it was accepted and no later one failed. */
  lemma {:induction false} KeptIff(os: seq<Offer>, s: Sent)
    ensures s in KeepAll(os) <==> exists i :: 0 <= i < |os| && os[i].sent == s && Survives(os, i)
  {
    if os != [] {
      var n := |os| - 1;
      var rest, last := os[..n], os[n];
      KeptIff(rest, s);
      forall i | 0 <= i < n ensures rest[..i] == os[..i] && rest[i] == os[i] {}
      hide KeepAll, Keep, Beyond;
      forall i | 0 <= i < n ensures Survives(os, i) <==> Survives(rest, i) && !Failed(os, n) {
        SurvivesLonger(os, i);
      }
      KeptLast(os, s);
    }
  }

  lemma {:induction false} SurvivesLonger(os: seq<Offer>, i: nat)
    requires i < |os| - 1
    ensures Survives(os, i) <==> Survives(os[..|os| - 1], i) && !Failed(os, |os| - 1)
  {
    hide KeepAll, Beyond;
    var n, rest := |os| - 1, os[..|os| - 1];
    forall j | 0 <= j < n ensures Accepted(rest, j) == Accepted(os, j) && Failed(rest, j) == Failed(os, j) {
      assert rest[..j] == os[..j] && rest[j] == os[j];
    }
  }

  lemma {:induction false} KeptLast(os: seq<Offer>, s: Sent)
    requires os != []
    ensures var n := |os| - 1;
      s in KeepAll(os) <==> (s in KeepAll(os[..n]) && !Failed(os, n)) || (Accepted(os, n) && os[n].sent == s)
  {
  }

  // ---- what is accepted, said of all that is kept

  ghost predicate Ascending(kept: seq<Sent>) {
    forall i, j | 0 <= i < j < |kept| :: kept[i].seqNo < kept[j].seqNo
  }

  lemma {:induction false} KeptAscend(os: seq<Offer>)
    ensures Ascending(KeepAll(os))
  {
    if os != [] {
      KeptAscend(os[..|os| - 1]);
    }
  }

  /** A message is ignored if one of its number or a later one is kept; otherwise it goes behind all that is kept or, if
      there is no room for it, nothing is kept. */
  lemma {:induction false} KeptNext(os: seq<Offer>, o: Offer)
    ensures var kept := KeepAll(os);
      KeepAll(os + [o]) ==
        if exists s <- kept :: s.seqNo >= o.sent.seqNo then kept else if o.room then kept + [o.sent] else []
  {
    KeptAscend(os);
    var kept := KeepAll(os);
    assert (os + [o])[..|os|] == os;
    if kept != [] { assert kept[|kept| - 1] in kept; }
  }

  class TxDB {
    var records: map<nat, Record>
    var nextRN: nat

    constructor ()
      ensures Valid() && records == map[] && nextRN == 0
    {
      records, nextRN := map[], 0;
    }

    ghost predicate Valid()
      reads this
    {
      Backwards(records) && forall rn <- records :: rn < nextRN
    }

    /** Adds a record; `prev` is the one it follows in its chain. */
    method Put(sent: Sent, prev: Option<nat>) returns (rn: nat)
      requires Valid() && (prev.Some? ==> prev.value < nextRN)
      modifies this
      ensures Valid() && rn == old(nextRN) && nextRN == rn + 1
      ensures Chain(records, rn) == [sent] + if prev.None? then [] else old(Chain(records, prev.value))
      ensures rn in records && records[rn].sent == sent
      ensures forall other <- old(records) :: other in records && records[other] == old(records)[other]
      ensures forall other | 0 <= other < rn :: Chain(records, other) == old(Chain(records, other))
    {
      rn := nextRN;
      var r := Record(sent, if prev.Some? then prev.value else rn);
      forall other | 0 <= other < rn
        ensures Backwards(records[rn := r]) && Chain(records[rn := r], other) == Chain(records, other)
      {
        ChainGrows(records, rn, r, other);
      }
      records := records[rn := r];
      nextRN := rn + 1;
    }
  }

  class Link {
    /** The link's newest record. */
    var tx: Option<nat>
    var queue: seq<Message>
    /** What was stored since the chain was begun, oldest first. */
    ghost var stored: seq<Sent>

    constructor ()
      ensures tx == None && stored == [] && queue == []
    {
      tx, stored, queue := None, [], [];
    }

    /** The link's chain is what was stored, and it goes down in number from the newest. */
    ghost predicate Keeps(db: TxDB)
      requires db.Valid()
      reads this`tx, this`stored, db
    {
      && (tx.None? ==> stored == [])
      && (tx.Some? ==> tx.value in db.records && Chain(db.records, tx.value) == Reversed(stored))
      && Descending(Reversed(stored))
    }

    /** Stores a message, unless it is not beyond the last one; `room` says whether the table had room for it. */
    method Store(db: TxDB, sent: Sent, room: bool)
      requires db.Valid() && Keeps(db)
      modifies db, this`tx, this`stored
      ensures db.Valid() && Keeps(db) && old(db.nextRN) <= db.nextRN
      ensures stored == Keep(old(stored), Offer(sent, room))
      ensures forall rn | 0 <= rn < old(db.nextRN) :: Chain(db.records, rn) == old(Chain(db.records, rn))
      ensures forall rn <- old(db.records) :: rn in db.records && db.records[rn] == old(db.records)[rn]
    {
      ghost var chain := Reversed(stored);
      ReversedAdd(stored, sent);
      if tx.Some? {
        assert chain[0] == db.records[tx.value].sent;
        if sent.seqNo <= db.records[tx.value].sent.seqNo { return; }
      }
      if !room {
        tx, stored := None, [];
        return;
      }
      var rn := db.Put(sent, tx);
      tx := Some(rn);
      stored := stored + [sent];
    }

    /** Looks for message `seqNo`; the loadable ones from there up to `available` are put back in the queue. */
    method Retrieve(db: TxDB, seqNo: int, available: int, load: Loader) returns (found: Option<Message>)
      requires db.Valid() && Keeps(db)
      modifies this`queue
      ensures found.Some? <==> exists s <- stored :: s.seqNo == seqNo && load(s).Some?
      ensures found.Some? ==>
        found.value.sent in stored && found.value.sent.seqNo == seqNo
          && load(found.value.sent) == Some(found.value.body)
      ensures queue == Between(Reversed(stored), seqNo, available, load) + old(queue)
    {
      hide Reversed, Chain, Between, Descending;
      ghost var chain := Reversed(stored);
      ReversedHas(stored);
      assert [] + chain == chain && Between([], seqNo, available, load)
        == [] by { BetweenNone([], seqNo, available, load); }
      ghost var seen: seq<Sent>, rest := [], chain;
      var at := tx;
      while at.Some?
        invariant chain == seen + rest
        invariant at.None? ==> rest == []
        invariant at.Some? ==> at.value in db.records && rest == Chain(db.records, at.value)
        invariant forall s <- seen :: s.seqNo > seqNo || (s.seqNo == seqNo && load(s).None?)
        invariant queue == Between(seen, seqNo, available, load) + old(queue)
        decreases |rest|
      {
        var r := db.records[at.value];
        var s := r.sent;
        ChainStep(db.records, at.value);
        assert s == chain[|seen|];
        if s.seqNo < seqNo {
          Ended(seen, rest, seqNo, available, load);
          return None;
        }
        if s.seqNo == seqNo || s.seqNo < available {
          var message := load(s);
          if message.Some? {
            if s.seqNo == seqNo {
              Ended(seen, rest, seqNo, available, load);
              return Some(Message(s, message.value));
            }
            Joined(Loaded(s, load), Between(seen, seqNo, available, load), old(queue));
            queue := [Message(s, message.value)] + queue;
          }
        }
        NotLoaded(s, load, Between(seen, seqNo, available, load));
        OneSeen(seen, s, seqNo, available, load);
        seen, rest := seen + [s], rest[1..];
        at := if r.prevRN == at.value || r.prevRN !in db.records then None else Some(r.prevRN);
      }
      assert seen + [] == seen;
      return None;
    }
  }

  lemma {:induction false} OneSeen(seen: seq<Sent>, s: Sent, lo: int, hi: int, load: Loader)
    ensures Between(seen + [s], lo, hi, load) == (if lo < s.seqNo < hi then Loaded(s, load) else [])
      + Between(seen, lo, hi, load)
  {
    BetweenConcat(seen, [s], lo, hi, load);
  }

  lemma {:induction false} Joined(a: seq<Message>, b: seq<Message>, c: seq<Message>)
    ensures a + (b + c) == (a + b) + c
  {
  }

  lemma {:induction false} NotLoaded(s: Sent, load: Loader, got: seq<Message>)
    ensures [] + got == got && (load(s).None? ==> Loaded(s, load) == [])
  {
  }

  lemma {:induction false} Ended(seen: seq<Sent>, rest: seq<Sent>, lo: int, hi: int, load: Loader)
    requires Descending(seen + rest) && rest != [] && rest[0].seqNo <= lo
    ensures Between(seen + rest, lo, hi, load) == Between(seen, lo, hi, load)
    ensures forall s <- rest[1..] :: s.seqNo < lo
  {
    var chain := seen + rest;
    forall s <- rest ensures s.seqNo <= lo && (s in rest[1..] ==> s.seqNo < lo) {
      var i :| 0 <= i < |rest| && rest[i] == s;
      assert chain[|seen| + i] == s && chain[|seen|] == rest[0];
      if s in rest[1..] {
        var j :| 0 <= j < |rest[1..]| && rest[1..][j] == s;
        assert chain[|seen| + j + 1] == s;
      }
    }
    BetweenConcat(seen, rest, lo, hi, load);
    BetweenNone(rest, lo, hi, load);
  }

  /** Over any run of stores and a retrieval: message `seqNo` is found if and only if it was accepted, loads, and no
      later message failed for want of room. */
  method FoundAfter(os: seq<Offer>, seqNo: int, available: int, load: Loader) returns (found: Option<Message>)
    ensures found.Some? <==>
      exists i :: 0 <= i < |os| && os[i].sent.seqNo == seqNo && load(os[i].sent).Some? && Survives(os, i)
  {
    hide Survives, KeepAll, Between;
    var db := new TxDB();
    var link := new Link();
    KeepNone();
    for i := 0 to |os|
      invariant db.Valid() && link.Keeps(db) && link.stored == KeepAll(os[..i])
    {
      KeepNext(os, i);
      link.Store(db, os[i].sent, os[i].room);
    }
    assert os[..|os|] == os;
    found := link.Retrieve(db, seqNo, available, load);
    if s :| s in link.stored && s.seqNo == seqNo && load(s).Some? {
      KeptIff(os, s);
    }
    if i :| 0 <= i < |os| && os[i].sent.seqNo == seqNo && load(os[i].sent).Some? && Survives(os, i) {
      KeptIff(os, os[i].sent);
    }
  }

  lemma {:induction false} KeepNone()
    ensures KeepAll([]) == []
  {
  }

  lemma {:induction false} KeepNext(os: seq<Offer>, i: nat)
    requires i < |os|
    ensures KeepAll(os[..i + 1]) == Keep(KeepAll(os[..i]), os[i])
  {
    assert os[..i + 1][..i] == os[..i];
  }

  /** A message whose record cannot be allocated begins the chain anew: those before it are found no more. */
  method LostByFailure() returns (before: Option<Message>, after: Option<Message>)
    ensures before == Some(Message(Sent(1, 7, 0), 70)) && after == None
  {
    var load: Loader := (s: Sent) => Some(10 * s.msgRN);
    var db := new TxDB();
    var link := new Link();
    var first := Sent(1, 7, 0);
    link.Store(db, first, true);
    assert first in link.stored;
    before := link.Retrieve(db, 1, 2, load);
    link.Store(db, Sent(2, 8, 0), false);
    link.Store(db, Sent(3, 9, 0), true);
    after := link.Retrieve(db, 1, 4, load);
  }
}
