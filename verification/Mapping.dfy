/** Mapping of order books into consolidated books: the intrusive list in which each book keeps its
    inputs, and the recursive walk over the books at the leaves of such a mapping. */
module Mapping {
  import opened Sequences

  /** Where an input stands in a list: its rank, and when it was mapped. */
  datatype Key = Key(rank: nat, stamp: nat) {
    predicate Ahead(k: Key) {
      rank < k.rank || (rank == k.rank && stamp < k.stamp)
    }
  }

  class Node {
    const id: int
    /** Head of this book's list of inputs. */
    var first: Node?
    var rank: nat
    /** Next in the list this book is an input of. */
    var next: Node?
    var out: Node?
    /** The list of inputs, and where each stands. */
    ghost var inputs: seq<Node>
    ghost var keys: seq<Key>

    constructor (id: int)
      ensures this.id == id && first == null && next == null && out == null && inputs == [] && keys == []
    {
      this.id, rank := id, 0;
      first, next, out := null, null, null;
      inputs, keys := [], [];
    }

    /** The list of inputs runs through exactly `inputs` and ends, in order of rank and, among equals, of
        mapping. */
    ghost predicate ListOk()
      reads this`first, this`inputs, this`keys, inputs`next, inputs`rank, inputs`out
    {
      && first == At(inputs, 0)
      && |keys| == |inputs| && InOrder(keys) && Distinct(inputs)
      && (forall i {:trigger inputs[i].next} | 0 <= i < |inputs| :: inputs[i].next == At(inputs, i + 1))
      && (forall i | 0 <= i < |inputs| :: inputs[i].out == this && inputs[i].rank == keys[i].rank)
    }
  }

  function At(s: seq<Node>, i: nat): Node? {
    if i < |s| then s[i] else null
  }

  ghost predicate InOrder(keys: seq<Key>) {
    forall i, j | 0 <= i < j < |keys| :: keys[i].Ahead(keys[j])
  }

  /** Every book's list is sound and holds exactly the books that are mapped to it. */
  ghost predicate Valid(world: set<Node>)
    reads world
  {
    && (forall b, i | b in world && 0 <= i < |b.inputs| :: b.inputs[i] in world)
    && (forall b <- world :: b.ListOk())
    && (forall n <- world | n.out != null :: n.out in world && n in n.out.inputs)
  }

  /** The same, but for one book that is in no list. */
  ghost predicate Loose(world: set<Node>, n: Node)
    reads world
  {
    && (forall b, i | b in world && 0 <= i < |b.inputs| :: b.inputs[i] in world && b.inputs[i] != n)
    && (forall b <- world :: b.ListOk())
    && (forall m <- world | m != n && m.out != null :: m.out in world && m in m.out.inputs)
  }

  lemma {:induction false} WithoutFacts(s: seq<Node>, keys: seq<Key>, k: nat)
    requires Distinct(s) && InOrder(keys) && |s| == |keys| && k < |s|
    ensures Distinct(Without(s, k)) && InOrder(Without(keys, k)) && s[k] !in Without(s, k)
    ensures forall x <- s :: x == s[k] || x in Without(s, k)
  {
    var t := Without(s, k);
    forall x | x in s && x != s[k] ensures x in t {
      var i :| 0 <= i < |s| && s[i] == x;
      assert t[if i < k then i else i - 1] == x;
    }
  }

  /** Finds a book in a list. */
  method Find(o: Node, n: Node) returns (k: nat, prev: Node?)
    requires o.ListOk() && n in o.inputs
    ensures k < |o.inputs| && o.inputs[k] == n && prev == if k == 0 then null else o.inputs[k - 1]
  {
    hide Distinct, InOrder;
    var p: Node? := o.first;
    prev, k := null, 0;
    while p != n
      invariant 0 <= k < |o.inputs|
      invariant p == o.inputs[k] && prev == if k == 0 then null else o.inputs[k - 1]
      invariant forall i | 0 <= i < k :: o.inputs[i] != n
      decreases |o.inputs| - k
    {
      prev, p := p, p.next;
      k := k + 1;
    }
  }

  lemma {:induction false} Opened(o: Node)
    requires o.ListOk()
    ensures |o.keys| == |o.inputs| && o.first == At(o.inputs, 0)
    ensures forall i {:trigger o.inputs[i].next} | 0 <= i < |o.inputs| :: o.inputs[i].next == At(o.inputs, i + 1)
    ensures forall i | 0 <= i < |o.inputs| :: o.inputs[i].out == o && o.inputs[i].rank == o.keys[i].rank
  {
  }

  lemma {:induction false} OnlyAt(o: Node, k: nat)
    requires o.ListOk() && k < |o.inputs|
    ensures forall i | 0 <= i < |o.inputs| && i != k :: o.inputs[i] != o.inputs[k]
  {
    DistinctAt(o.inputs, k);
  }

  /** Takes the k-th book, behind `prev`, out of a list. */
  method Splice(o: Node, n: Node, ghost k: nat, prev: Node?)
    requires o.ListOk()
    requires k < |o.inputs| && o.inputs[k] == n && prev == if k == 0 then null else o.inputs[k - 1]
    modifies o`first, o`inputs, o`keys, o.inputs`next
    ensures o.ListOk() && n.next == null
    ensures o.inputs == Without(old(o.inputs), k) && |old(o.keys)| == |old(o.inputs)|
      && o.keys == Without(old(o.keys), k)
  {
    hide Node.ListOk, Distinct, InOrder, Without;
    Opened(o);
    WithoutOk(o, k);
    OnlyAt(o, k);
    if k > 0 { OnlyAt(o, k - 1); }
    ghost var s, ks := o.inputs, o.keys;
    assert n.next == At(s, k + 1) by { assert s[k].next == At(s, k + 1); }
    if prev == null {
      o.first := n.next;
    } else {
      prev.next := n.next;
    }
    n.next := null;
    o.inputs, o.keys := Without(s, k), Without(ks, k);
    SplicedOk(o, k, s, ks);
  }

  lemma {:induction false} WithoutOk(o: Node, k: nat)
    requires o.ListOk() && k < |o.inputs|
    ensures |o.keys| == |o.inputs| && Distinct(Without(o.inputs, k)) && InOrder(Without(o.keys, k))
  {
    WithoutFacts(o.inputs, o.keys, k);
  }

  lemma {:induction false} SplicedOk(o: Node, k: nat, s: seq<Node>, ks: seq<Key>)
    requires k < |s| == |ks| && o.inputs == Without(s, k) && o.keys == Without(ks, k)
    requires Distinct(o.inputs) && InOrder(o.keys)
    requires o.first == (if k == 0 then At(s, 1) else s[0])
    requires forall i {:trigger s[i].next} | 0 <= i < |s| && i != k ::
      s[i].next == At(s, if i + 1 == k then i + 2 else i + 1)
    requires forall i | 0 <= i < |s| :: s[i].out == o && s[i].rank == ks[i].rank
    ensures o.ListOk()
  {
    hide Distinct, InOrder;
    forall i {:trigger o.inputs[i].next} | 0 <= i < |o.inputs| ensures o.inputs[i].next == At(o.inputs, i + 1) {
      assert s[if i < k then i else i + 1] == o.inputs[i];
    }
    forall i | 0 <= i < |o.inputs| ensures o.inputs[i].out == o && o.inputs[i].rank == o.keys[i].rank {
      assert s[if i < k then i else i + 1] == o.inputs[i];
    }
  }

  /** Finds where a book of rank `rank` goes: behind those of the same rank. */
  method Seek(o: Node, rank: nat) returns (k: nat, prev: Node?, p: Node?)
    requires o.ListOk()
    ensures k <= |o.inputs| && p == At(o.inputs, k) && prev == if k == 0 then null else o.inputs[k - 1]
    ensures k == Position(o.keys, rank)
  {
    hide Distinct, InOrder;
    p, prev, k := o.first, null, 0;
    while p != null && p.rank <= rank
      invariant k <= |o.inputs| && p == At(o.inputs, k) && prev == if k == 0 then null else o.inputs[k - 1]
      invariant forall i | 0 <= i < k :: o.keys[i].rank <= rank
      decreases |o.inputs| - k
    {
      assert o.inputs[k].next == At(o.inputs, k + 1);
      prev, p := p, p.next;
      k := k + 1;
    }
    PositionIs(o.keys, rank, k);
  }

  /** Puts a book at the k-th place, behind `prev` and ahead of `p`. */
  method Place(o: Node, n: Node, ghost k: nat, prev: Node?, p: Node?, ghost now: nat)
    requires o.ListOk() && n !in o.inputs && n.out == o
    requires k == Position(o.keys, n.rank) && forall key <- o.keys :: key.stamp < now
    requires k <= |o.inputs| && p == At(o.inputs, k) && prev == if k == 0 then null else o.inputs[k - 1]
    modifies o`first, o`inputs, o`keys, o.inputs`next, n`next
    ensures o.ListOk() && o.inputs == With(old(o.inputs), k, n) && o.keys == With(old(o.keys), k, Key(n.rank, now))
  {
    hide Node.ListOk, Distinct, InOrder, Position, With;
    Opened(o);
    WithOk(o, k, n, Key(n.rank, now));
    if k > 0 { OnlyAt(o, k - 1); }
    n.next := p;
    if prev == null {
      o.first := n;
    } else {
      prev.next := n;
    }
    ghost var s, ks := o.inputs, o.keys;
    o.inputs := With(s, k, n);
    o.keys := With(ks, k, Key(n.rank, now));
    PlacedOk(o, n, k, s, ks, Key(n.rank, now));
  }

  lemma {:induction false} WithOk(o: Node, k: nat, n: Node, key: Key)
    requires o.ListOk() && n !in o.inputs && k == Position(o.keys, key.rank) && forall x <- o.keys ::
      x.stamp < key.stamp
    ensures k <= |o.inputs| == |o.keys| && Distinct(With(o.inputs, k, n)) && InOrder(With(o.keys, k, key))
  {
    WithFacts(o.inputs, o.keys, k, n, key);
  }

  lemma {:induction false} PlacedOk(o: Node, n: Node, k: nat, s: seq<Node>, ks: seq<Key>, key: Key)
    requires k <= |s| == |ks| && o.inputs == With(s, k, n) && o.keys == With(ks, k, key)
    requires Distinct(o.inputs) && InOrder(o.keys)
    requires o.first == (if k == 0 then n else s[0]) && n.next == At(s, k) && n.out == o && n.rank == key.rank
    requires forall i {:trigger s[i].next} | 0 <= i < |s| :: s[i].next == if i + 1 == k then n else At(s, i + 1)
    requires forall i | 0 <= i < |s| :: s[i].out == o && s[i].rank == ks[i].rank
    ensures o.ListOk()
  {
    hide Distinct, InOrder;
    forall i {:trigger o.inputs[i].next} | 0 <= i < |o.inputs| ensures o.inputs[i].next == At(o.inputs, i + 1) {
      assert i < k ==> s[i] == o.inputs[i];
      assert i > k ==> s[i - 1] == o.inputs[i];
    }
    forall i | 0 <= i < |o.inputs| ensures o.inputs[i].out == o && o.inputs[i].rank == o.keys[i].rank {
      assert i < k ==> s[i] == o.inputs[i];
      assert i > k ==> s[i - 1] == o.inputs[i];
    }
  }

  /** How many keys of a list are of rank `rank` or less. */
  function Position(keys: seq<Key>, rank: nat): nat {
    if keys == [] || keys[0].rank > rank then 0 else 1 + Position(keys[1..], rank)
  }

  lemma {:induction false} PositionIs(keys: seq<Key>, rank: nat, k: nat)
    requires k <= |keys| && forall i | 0 <= i < k :: keys[i].rank <= rank
    requires k < |keys| ==> keys[k].rank > rank
    ensures Position(keys, rank) == k
  {
    if k > 0 {
      PositionIs(keys[1..], rank, k - 1);
    }
  }

  lemma {:induction false} PositionBounds(keys: seq<Key>, rank: nat)
    ensures var k := Position(keys, rank);
      && k <= |keys| && (forall i | 0 <= i < k :: keys[i].rank <= rank) && (k < |keys| ==> keys[k].rank > rank)
  {
    if keys != [] && keys[0].rank <= rank {
      PositionBounds(keys[1..], rank);
    }
  }

  lemma {:induction false} WithFacts(s: seq<Node>, keys: seq<Key>, k: nat, n: Node, key: Key)
    requires Distinct(s) && InOrder(keys) && |s| == |keys| && n !in s
    requires k == Position(keys, key.rank) && forall x <- keys :: x.stamp < key.stamp
    ensures k <= |s| && Distinct(With(s, k, n)) && InOrder(With(keys, k, key)) && n in With(s, k, n)
    ensures forall x <- s :: x in With(s, k, n)
  {
    PositionBounds(keys, key.rank);
    var t, u := With(s, k, n), With(keys, k, key);
    assert t[k] == n;
    forall x | x in s ensures x in t {
      var i :| 0 <= i < |s| && s[i] == x;
      assert t[if i < k then i else i + 1] == x;
    }
    forall i, j | 0 <= i < j < |u| ensures u[i].Ahead(u[j]) {
      if j == k {
        assert u[i] == keys[i] && keys[i] in keys;
      } else if i == k {
        assert u[j] == keys[j - 1] && (j - 1 > k ==> keys[k].Ahead(keys[j - 1]));
      } else {
        assert u[i] == keys[if i < k then i else i - 1] && u[j] == keys[if j < k then j else j - 1];
      }
    }
  }

  lemma {:induction false} ListsApart(b: Node, o: Node)
    requires b.ListOk() && o.ListOk() && b != o
    ensures forall i | 0 <= i < |b.inputs| :: b.inputs[i] !in o.inputs
  {
  }

  lemma {:induction false} WithoutOne(o: Node, k: nat)
    requires o.ListOk() && k < |o.inputs|
    ensures |o.keys| == |o.inputs|
    ensures EntriesOf(Without(o.inputs, k), Without(o.keys, k)) == Except(Entries(o), o.inputs[k])
    ensures var s, t := o.inputs, Without(o.inputs, k);
      && (forall x <- s :: x == s[k] || x in t)
      && (forall i | 0 <= i < |t| :: t[i] in s && t[i] != s[k])
  {
    WithoutFacts(o.inputs, o.keys, k);
    DistinctAt(o.inputs, k);
    var s, ks, t, kt := o.inputs, o.keys, Without(o.inputs, k), Without(o.keys, k);
    forall e | e in Except(Entries(o), s[k]) ensures e in EntriesOf(t, kt) {
      var i :| 0 <= i < |s| && (s[i], ks[i]) == e;
      var j := if i < k then i else i - 1;
      assert (t[j], kt[j]) == e;
    }
    forall e | e in EntriesOf(t, kt) ensures e in Except(Entries(o), s[k]) {
      var i :| 0 <= i < |t| && (t[i], kt[i]) == e;
      assert (s[if i < k then i else i + 1], ks[if i < k then i else i + 1]) == e;
    }
  }

  /** Takes a mapped book out of the list it is in. */
  method Unlink(n: Node, ghost world: set<Node>)
    requires Valid(world) && n in world && n.out != null
    modifies world`first, world`inputs, world`keys, world`next
    ensures Loose(world, n)
    ensures forall b <- world :: Entries(b) == Except(old(Entries(b)), n)
  {
    hide Node.ListOk, Distinct, InOrder, Without;
    var o := n.out;
    var k, prev := Find(o, n);
    WithoutOne(o, k);
    forall b | b in world && b != o
      ensures forall i | 0 <= i < |b.inputs| :: b.inputs[i] !in o.inputs
      ensures Except(Entries(b), n) == Entries(b)
    {
      ListsApart(b, o);
      EntriesWithoutNone(b, n);
    }
    Splice(o, n, k, prev);
  }

  /** Which books are in a list, and where they stand. */
  ghost function Entries(b: Node): set<(Node, Key)>
    reads b`inputs, b`keys
  {
    EntriesOf(b.inputs, b.keys)
  }

  ghost function EntriesOf(s: seq<Node>, ks: seq<Key>): set<(Node, Key)> {
    set i | 0 <= i < |s| && i < |ks| :: (s[i], ks[i])
  }

  ghost function Except(es: set<(Node, Key)>, n: Node): set<(Node, Key)> {
    set e | e in es && e.0 != n
  }

  lemma {:induction false} EntriesWithoutNone(b: Node, n: Node)
    requires n !in b.inputs
    ensures Except(Entries(b), n) == Entries(b)
  {
  }

  /** Puts a book that is in no list into the list of `o`, at its rank. */
  method Link(n: Node, o: Node, ghost world: set<Node>, ghost now: nat)
    requires Loose(world, n) && n in world && o in world && n.out == o
    requires forall e <- Entries(o) :: e.1.stamp < now
    modifies world`first, world`inputs, world`keys, world`next
    ensures Valid(world)
    ensures forall b <- world ::
      Entries(b) == old(Entries(b)) + if b == o then {(n, Key(n.rank, now))} else {}
  {
    hide Node.ListOk, Distinct, InOrder, With, Position, Entries;
    var k, prev, p := Seek(o, n.rank);
    forall b | b in world && b != o
      ensures forall i | 0 <= i < |b.inputs| :: b.inputs[i] !in o.inputs
    {
      ListsApart(b, o);
    }
    WithOne(o.inputs, k, n);
    KeysBefore(o, now);
    EntriesWith(o, k, n, Key(n.rank, now));
    Place(o, n, k, prev, p, now);
    EntriesAre(o);
  }

  lemma {:induction false} EntriesAre(o: Node)
    ensures Entries(o) == EntriesOf(o.inputs, o.keys)
  {
  }

  lemma {:induction false} KeysBefore(o: Node, now: nat)
    requires o.ListOk() && forall e <- Entries(o) :: e.1.stamp < now
    ensures forall key <- o.keys :: key.stamp < now
  {
    forall key | key in o.keys ensures key.stamp < now {
      var i :| 0 <= i < |o.keys| && o.keys[i] == key;
      assert (o.inputs[i], o.keys[i]) in Entries(o);
    }
  }

  lemma {:induction false} WithOne<T>(s: seq<T>, k: nat, x: T)
    requires k <= |s|
    ensures var t := With(s, k, x);
      && x in t && (forall y <- s :: y in t)
      && (forall i | 0 <= i < |t| :: t[i] in s || t[i] == x)
  {
    var t := With(s, k, x);
    assert t[k] == x;
    forall y | y in s ensures y in t {
      var i :| 0 <= i < |s| && s[i] == y;
      assert t[if i < k then i else i + 1] == y;
    }
  }

  lemma {:induction false} EntriesWith(o: Node, k: nat, n: Node, key: Key)
    requires o.ListOk() && k <= |o.inputs|
    ensures |o.keys| == |o.inputs|
    ensures EntriesOf(With(o.inputs, k, n), With(o.keys, k, key)) == Entries(o) + {(n, key)}
  {
    var s, ks := o.inputs, o.keys;
    var t, kt := With(s, k, n), With(ks, k, key);
    forall e | e in EntriesOf(s, ks) + {(n, key)} ensures e in EntriesOf(t, kt) {
      if e == (n, key) {
        assert (t[k], kt[k]) == e;
      } else {
        var i :| 0 <= i < |s| && (s[i], ks[i]) == e;
        var j := if i < k then i else i + 1;
        assert (t[j], kt[j]) == e;
      }
    }
    forall e | e in EntriesOf(t, kt) ensures e in EntriesOf(s, ks) + {(n, key)} {
      var i :| 0 <= i < |t| && (t[i], kt[i]) == e;
      if i != k {
        var j := if i < k then i else i - 1;
        assert (s[j], ks[j]) == e;
      }
    }
  }

  /** A book that has never been mapped is in no list. */
  lemma {:induction false} NotIn(n: Node, world: set<Node>)
    requires Valid(world) && n.out == null
    ensures Loose(world, n)
    ensures forall b <- world :: Entries(b) == Except(Entries(b), n)
  {
    forall b, i | b in world && 0 <= i < |b.inputs| ensures b.inputs[i] != n {
      assert b.ListOk();
    }
    forall b | b in world ensures Entries(b) == Except(Entries(b), n) {
      EntriesWithoutNone(b, n);
    }
  }

  method Relabel(n: Node, inRank: nat, o: Node, ghost world: set<Node>)
    requires Loose(world, n) && n in world
    modifies n`rank, n`out
    ensures Loose(world, n) && n.rank == inRank && n.out == o
  {
    hide Node.ListOk;
    n.rank := inRank;
    n.out := o;
  }

  /** Maps a book, at a rank, to the book it feeds from now on. */
  method MapTo(n: Node, inRank: nat, o: Node, ghost world: set<Node>, ghost now: nat)
    requires Valid(world) && n in world && o in world
    requires forall b <- world, e <- Entries(b) :: e.1.stamp < now
    modifies world
    ensures Valid(world) && n.out == o && n.rank == inRank
    ensures forall b <- world :: b != n ==> b.out == old(b.out) && b.rank == old(b.rank)
    ensures forall b <- world ::
      Entries(b) == Except(old(Entries(b)), n) + if b == o then {(n, Key(inRank, now))} else {}
  {
    hide Entries, Node.ListOk;
    if n.out != null {
      Unlink(n, world);
    } else {
      NotIn(n, world);
    }
    Relabel(n, inRank, o, world);
    Link(n, o, world, now);
  }

  lemma {:induction false} Unmapped(n: Node)
    requires n.first == null && n.inputs == [] && n.keys == []
    ensures n.ListOk() && Entries(n) == {}
  {
  }

  // ---- runs of map calls

  datatype Call = Call(book: Node, rank: nat, out: Node)

  /** All the books of a venue, and the map calls made so far. */
  class Mappings {
    ghost var world: set<Node>
    ghost var log: seq<Call>

    /** No books, no calls. */
    constructor ()
      ensures world == {} && log == [] && Consistent()
    {
      world, log := {}, [];
    }

    /** Every list is sound; every entry of a list is the last call of its book; and every book that was
        ever mapped has an entry. */
    ghost predicate Consistent()
      reads this, world
    {
      && Valid(world)
      && (forall b <- world, e <- Entries(b) :: LastCall(e.0, e.1.stamp) && log[e.1.stamp] == Call(e.0, e.1.rank, b))
      && (forall i | 0 <= i < |log| :: log[i].book in world && log[i].book.out != null)
    }

    ghost predicate LastCall(n: Node, i: nat)
      reads this
    {
      i < |log| && log[i].book == n && forall j | i < j < |log| :: log[j].book != n
    }

    method Add(n: Node)
      requires Consistent() && n.first == null && n.out == null && n.inputs == [] && n.keys == [] && n !in world
      modifies this
      ensures Consistent() && world == old(world) + {n} && log == old(log)
    {
      hide Node.ListOk, Entries;
      Unmapped(n);
      world := world + {n};
    }

    method Map(n: Node, rank: nat, o: Node)
      requires Consistent() && n in world && o in world
      modifies this`log, world
      ensures Consistent() && log == old(log) + [Call(n, rank, o)]
    {
      hide Entries, Valid;
      MapTo(n, rank, o, world, |log|);
      log := log + [Call(n, rank, o)];
    }

    /** Wherever the calls have led, a book's list holds exactly the books whose last call names it. */
    lemma {:induction false} HoldsLastCalls(n: Node, b: Node, i: nat)
      requires Consistent() && n in world && b in world && LastCall(n, i)
      ensures n in b.inputs <==> log[i].out == b
    {
      Entry(n, n.out);
      if n in b.inputs { Entry(n, b); }
    }

    lemma {:induction false} Entry(n: Node, b: Node)
      requires Consistent() && b in world && n in b.inputs
      ensures exists e :: e in Entries(b) && e.0 == n
    {
      assert b.ListOk();
      var i :| 0 <= i < |b.inputs| && b.inputs[i] == n;
      assert (b.inputs[i], b.keys[i]) in Entries(b);
    }

    /** Ahead in a list are the books mapped at a lower rank, or at the same rank by an earlier call. */
    lemma {:induction false} OrderedByCalls(b: Node, i: nat, j: nat)
      requires Consistent() && b in world && i < j < |b.inputs|
      ensures exists p: nat, q: nat :: LastCall(b.inputs[i], p) && LastCall(b.inputs[j], q) &&
                                       (log[p].rank < log[q].rank || (log[p].rank == log[q].rank && p < q))
    {
      assert b.ListOk();
      assert (b.inputs[i], b.keys[i]) in Entries(b) && (b.inputs[j], b.keys[j]) in Entries(b);
      assert b.keys[i].Ahead(b.keys[j]);
      assert LastCall(b.inputs[i], b.keys[i].stamp) && LastCall(b.inputs[j], b.keys[j].stamp);
    }
  }

  // ---- matching across a mapping

  /** What matching comes to, and the state it leaves the books in. */
  datatype Outcome<+S> = Outcome(state: S, leaves: int, cum: int, aborted: bool)

  /** Matching on one book without inputs: in a state of all books, on the book of an ID, a quantity that is left and
      one that is executed. */
  type Trade<!S> = (S, int, int, int) -> Outcome<S>

  /** No book feeds, however indirectly, itself: heights drop from every book to its inputs. */
  ghost predicate Acyclic(world: set<Node>, height: map<Node, nat>)
    reads world
  {
    forall b <- world :: b in height && forall i | 0 <= i < |b.inputs| ::
      b.inputs[i] in height && height[b.inputs[i]] < height[b]
  }

  /** The books without inputs that feed `b`, however indirectly, in the order of the lists. */
  ghost function Leaves(b: Node, world: set<Node>, height: map<Node, nat>): seq<Node>
    requires Valid(world) && Acyclic(world, height) && b in world
    reads world
    decreases height[b], 1, 0
  {
    if b.inputs == [] then [b] else LeavesFrom(b, 0, world, height)
  }

  /** The leaves under the inputs of `b` from the k-th on. */
  ghost function LeavesFrom(b: Node, k: nat, world: set<Node>, height: map<Node, nat>): seq<Node>
    requires Valid(world) && Acyclic(world, height) && b in world && k <= |b.inputs|
    reads world
    decreases height[b], 0, |b.inputs| - k
  {
    if k == |b.inputs| then []
    else Leaves(b.inputs[k], world, height) + LeavesFrom(b, k + 1, world, height)
  }

  /** `n` feeds `b`, directly or through others, or is `b`. */
  ghost predicate Feeds(n: Node, b: Node, world: set<Node>, height: map<Node, nat>)
    requires Valid(world) && Acyclic(world, height) && n in world && b in world
    reads world
    decreases if height[n] <= height[b] then height[b] - height[n] else 0
  {
    n == b || (n.out != null && height[n] < height[b] && Above(n, world, height) && Feeds(n.out, b, world, height))
  }

  /** A book is an input, of lesser height, of the book it is mapped to. */
  ghost predicate Above(n: Node, world: set<Node>, height: map<Node, nat>)
    requires n in world && n.out != null
    reads world
  {
    n.out in world && n in height && n.out in height && height[n] < height[n.out]
  }

  lemma {:induction false} OutIsAbove(n: Node, world: set<Node>, height: map<Node, nat>)
    requires Valid(world) && Acyclic(world, height) && n in world && n.out != null
    ensures Above(n, world, height) && exists i :: 0 <= i < |n.out.inputs| && n.out.inputs[i] == n
  {
    var i :| 0 <= i < |n.out.inputs| && n.out.inputs[i] == n;
  }

  lemma {:induction false} FeedsHeight(n: Node, b: Node, world: set<Node>, height: map<Node, nat>)
    requires Valid(world) && Acyclic(world, height) && n in world && b in world && Feeds(n, b, world, height)
    ensures height[n] <= height[b]
  {
  }

  /** What feeds a book, other than the book itself, feeds one of its inputs. */
  lemma {:induction false} ThroughInput(n: Node, b: Node, world: set<Node>, height: map<Node, nat>) returns (i: nat)
    requires Valid(world) && Acyclic(world, height) && n in world && b in world && n != b
    requires Feeds(n, b, world, height)
    ensures i < |b.inputs| && Feeds(n, b.inputs[i], world, height)
    decreases height[b] - height[n]
  {
    if n.out == b {
      OutIsAbove(n, world, height);
      i :| 0 <= i < |b.inputs| && b.inputs[i] == n;
    } else {
      i := ThroughInput(n.out, b, world, height);
      FeedsHeight(n.out, b.inputs[i], world, height);
    }
  }

  lemma {:induction false} InputFeeds(n: Node, b: Node, i: nat, world: set<Node>, height: map<Node, nat>)
    requires Valid(world) && Acyclic(world, height) && n in world && b in world && i < |b.inputs|
    requires Feeds(n, b.inputs[i], world, height)
    ensures Feeds(n, b, world, height)
    decreases height[b] - height[n]
  {
    assert b.ListOk() && b.inputs[i].out == b;
    FeedsHeight(n, b.inputs[i], world, height);
    OutIsAbove(b.inputs[i], world, height);
    if n != b.inputs[i] {
      InputFeeds(n.out, b, i, world, height);
    }
  }

  /** Of two books that one book feeds, one feeds the other. */
  lemma {:induction false} OneChain(n: Node, x: Node, y: Node, world: set<Node>, height: map<Node, nat>)
    requires Valid(world) && Acyclic(world, height) && n in world && x in world && y in world
    requires Feeds(n, x, world, height) && Feeds(n, y, world, height)
    ensures Feeds(x, y, world, height) || Feeds(y, x, world, height)
    decreases height[x] + height[y] - 2 * height[n]
  {
    FeedsHeight(n, x, world, height);
    FeedsHeight(n, y, world, height);
    if n != x && n != y {
      FeedsHeight(n.out, x, world, height);
      FeedsHeight(n.out, y, world, height);
      OneChain(n.out, x, y, world, height);
    }
  }

  /** No book feeds two inputs of the same book. */
  lemma {:induction false} OneInput(n: Node, b: Node, i: nat, j: nat, world: set<Node>, height: map<Node, nat>)
    requires Valid(world) && Acyclic(world, height) && n in world && b in world && i < |b.inputs| && j < |b.inputs|
    requires Feeds(n, b.inputs[i], world, height) && Feeds(n, b.inputs[j], world, height)
    ensures i == j
  {
    var x, y := b.inputs[i], b.inputs[j];
    OneChain(n, x, y, world, height);
    assert b.ListOk() && x.out == b && y.out == b;
    if x != y {
      if Feeds(x, y, world, height) { FeedsHeight(b, y, world, height); } else { FeedsHeight(b, x, world, height); }
    } else {
      assert Distinct(b.inputs);
    }
  }

  /** The walk meets exactly the books without inputs that feed `b`, each once. */
  lemma {:induction false} LeavesAre(b: Node, world: set<Node>, height: map<Node, nat>)
    requires Valid(world) && Acyclic(world, height) && b in world
    ensures Distinct(Leaves(b, world, height))
    ensures forall n <- world ::
      n in Leaves(b, world, height) <==> n.inputs == [] && Feeds(n, b, world, height)
    ensures forall n <- Leaves(b, world, height) :: n in world
    decreases height[b], 1, 0
  {
    if b.inputs == [] {
      forall n | n in world && n.inputs == [] && Feeds(n, b, world, height) ensures n == b {
        if n != b { var i := ThroughInput(n, b, world, height); }
      }
    } else {
      LeavesFromAre(b, 0, world, height);
      forall n | n in world && n.inputs == [] && Feeds(n, b, world, height)
        ensures exists i :: 0 <= i < |b.inputs| && Feeds(n, b.inputs[i], world, height)
      {
        var i := ThroughInput(n, b, world, height);
      }
      forall n, i | n in world && 0 <= i < |b.inputs| && Feeds(n, b.inputs[i], world, height)
        ensures Feeds(n, b, world, height)
      {
        InputFeeds(n, b, i, world, height);
      }
    }
  }

  lemma {:induction false} Inside(b: Node, world: set<Node>, height: map<Node, nat>)
    requires Valid(world) && Acyclic(world, height) && b in world
    ensures b in height
    ensures forall i | 0 <= i < |b.inputs| ::
      b.inputs[i] in world && b.inputs[i] in height && height[b.inputs[i]] < height[b]
  {
  }

  lemma {:induction false} LeavesFromAre(b: Node, k: nat, world: set<Node>, height: map<Node, nat>)
    requires Valid(world) && Acyclic(world, height) && b in world && k <= |b.inputs|
    ensures Distinct(LeavesFrom(b, k, world, height))
    ensures forall n <- world :: n in LeavesFrom(b, k, world, height) <==>
      n.inputs == [] && exists i :: k <= i < |b.inputs| && Feeds(n, b.inputs[i], world, height)
    ensures forall n <- LeavesFrom(b, k, world, height) :: n in world
    decreases height[b], 0, |b.inputs| - k
  {
    hide Valid, Acyclic, Feeds, Leaves, Above;
    if k < |b.inputs| {
      Inside(b, world, height);
      LeavesAre(b.inputs[k], world, height);
      LeavesFromAre(b, k + 1, world, height);
      var s, t := Leaves(b.inputs[k], world, height), LeavesFrom(b, k + 1, world, height);
      forall n | n in s ensures n !in t {
        if n in t {
          var i :| k + 1 <= i < |b.inputs| && Feeds(n, b.inputs[i], world, height);
          OneInput(n, b, k, i, world, height);
        }
      }
      DistinctConcat(s, t);
    }
  }

  /** Books that feed an earlier input are met before those that feed a later one. */
  lemma {:induction false} LeavesInOrder(b: Node, i: nat, j: nat, n: Node, m: Node, world: set<Node>,
                                         height: map<Node, nat>) returns (p: nat, q: nat)
    requires Valid(world) && Acyclic(world, height) && b in world && i < j < |b.inputs|
    requires forall k | 0 <= k < |b.inputs| :: b.inputs[k] in world
    requires n in world && n.inputs == [] && Feeds(n, b.inputs[i], world, height)
    requires m in world && m.inputs == [] && Feeds(m, b.inputs[j], world, height)
    ensures var ns := Leaves(b, world, height); p < q < |ns| && ns[p] == n && ns[q] == m
  {
    p, q := LeavesFromInOrder(b, 0, i, j, n, m, world, height);
    assert Leaves(b, world, height) == LeavesFrom(b, 0, world, height);
  }

  lemma {:induction false} LeavesFromInOrder(b: Node, k: nat, i: nat, j: nat, n: Node, m: Node, world: set<Node>,
                                             height: map<Node, nat>) returns (p: nat, q: nat)
    requires Valid(world) && Acyclic(world, height) && b in world && k <= i < j < |b.inputs|
    requires forall k | 0 <= k < |b.inputs| :: b.inputs[k] in world
    requires n in world && n.inputs == [] && Feeds(n, b.inputs[i], world, height)
    requires m in world && m.inputs == [] && Feeds(m, b.inputs[j], world, height)
    ensures var ns := LeavesFrom(b, k, world, height); p < q < |ns| && ns[p] == n && ns[q] == m
    decreases i - k
  {
    hide Valid, Acyclic, Feeds, Above, Leaves;
    Inside(b, world, height);
    var s, t := Leaves(b.inputs[k], world, height), LeavesFrom(b, k + 1, world, height);
    if k < i {
      p, q := LeavesFromInOrder(b, k + 1, i, j, n, m, world, height);
      p, q := |s| + p, |s| + q;
    } else {
      LeavesAre(b.inputs[k], world, height);
      LeavesFromAre(b, k + 1, world, height);
      assert n in s && m in t;
      p :| 0 <= p < |s| && s[p] == n;
      var r :| 0 <= r < |t| && t[r] == m;
      q := |s| + r;
    }
  }

  lemma {:induction false} DistinctConcat<T>(s: seq<T>, t: seq<T>)
    requires Distinct(s) && Distinct(t) && forall x <- s :: x !in t
    ensures Distinct(s + t)
  {
    forall i, j | 0 <= i < j < |s + t| ensures (s + t)[i] != (s + t)[j] {
      if i < |s| <= j {
        assert s[i] in s && t[j - |s|] in t;
      }
    }
  }

  /** Matching on books one after the other, until one aborts or nothing is left. */
  ghost function Visit<S>(ns: seq<Node>, state: S, qty: int, cum: int, trade: Trade<S>): Outcome<S> {
    if ns == [] then Outcome(state, qty, cum, false) else
      var o := trade(state, ns[0].id, qty, cum);
      if o.aborted || o.leaves == 0 then o else Visit(ns[1..], o.state, o.leaves, o.cum, trade)
  }

  lemma {:induction false} VisitConcat<S>(a: seq<Node>, b: seq<Node>, state: S, qty: int, cum: int, trade: Trade<S>)
    requires a != []
    ensures var o := Visit(a, state, qty, cum, trade);
      Visit(a + b, state, qty, cum, trade) ==
        if o.aborted || o.leaves == 0 then o else Visit(b, o.state, o.leaves, o.cum, trade)
    decreases |a|
  {
    var o := trade(state, a[0].id, qty, cum);
    assert (a + b)[1..] == a[1..] + b;
    if !o.aborted && o.leaves != 0 {
      if |a| == 1 {
        assert a[1..] + b == b;
      } else {
        VisitConcat(a[1..], b, o.state, o.leaves, o.cum, trade);
      }
    }
  }

  lemma {:induction false} SomeLeaf(b: Node, world: set<Node>, height: map<Node, nat>)
    requires Valid(world) && Acyclic(world, height) && b in world
    ensures Leaves(b, world, height) != []
    decreases height[b]
  {
    if b.inputs != [] {
      SomeLeaf(b.inputs[0], world, height);
      assert LeavesFrom(b, 0, world, height) == Leaves(b.inputs[0], world, height) + LeavesFrom(b, 1, world, height);
    }
  }

  /** The recursive walk: matches on a book without inputs, or walks its inputs in turn. */
  method Walk<S>(b: Node, state: S, qty: int, cum: int, trade: Trade<S>, ghost world: set<Node>,
                 ghost height: map<Node, nat>)
    returns (o: Outcome<S>)
    requires Valid(world) && Acyclic(world, height) && b in world
    ensures o == Visit(Leaves(b, world, height), state, qty, cum, trade)
    decreases height[b]
  {
    assert b.ListOk();
    if b.first == null {
      o := trade(state, b.id, qty, cum);
      return;
    }
    o := Outcome(state, qty, cum, false);
    var p := b.first;
    ghost var k := 0;
    while p != null
      invariant k <= |b.inputs| && p == At(b.inputs, k) && !o.aborted
      invariant k > 0 && k < |b.inputs| ==> o.leaves != 0
      invariant Visit(Leaves(b, world, height), state, qty, cum, trade) ==
        if k > 0 && o.leaves == 0 then o else Visit(LeavesFrom(b, k, world, height), o.state, o.leaves, o.cum, trade)
      decreases |b.inputs| - k
    {
      SomeLeaf(p, world, height);
      VisitConcat(Leaves(p, world, height), LeavesFrom(b, k + 1, world, height), o.state, o.leaves, o.cum, trade);
      assert b.inputs[k].next == At(b.inputs, k + 1);
      o := Walk(p, o.state, o.leaves, o.cum, trade, world, height);
      if o.aborted || o.leaves == 0 { return; }
      p := p.next;
      k := k + 1;
    }
  }
}
