/** Links and their engine under every interleaving: a link reacts under its own lock, and reports to the
    engine later, in any order. The counters account for every report that is still under way. */
module Census {
  import opened Types
  import opened Connectivity
  import Sums

  // ---- the system

  /** A link, and the state that its creation reported, once it has. */
  datatype Tracked = Tracked(link: Link, announced: Option<LinkState>)

  type Links = map<nat, Tracked>

  datatype System = System(links: Links, flight: seq<Note>, engine: Engine, calls: seq<Call>)

  const INITIAL := System(map[], [], NEW_ENGINE, [])

  datatype Step =
    | Create(id: nat)
    | Announce(id: nat)
    | Happen(id: nat, event: Event)
    | Arrive(i: nat)
    | Start
    | Stop

  function Called(s: System, r: (Engine, Option<Call>)): System {
    s.(engine := r.0, calls := if r.1.Some? then s.calls + [r.1.value] else s.calls)
  }

  /** A link that is brought up sees the engine starting or running only once it has been: the first thing the engine
      then did was to call for its links. */
  predicate Possible(s: System, event: Event) {
    event.BringUp? && event.running ==> s.calls != []
  }

  /** One step; a step that is not possible changes nothing. */
  function Next(s: System, step: Step): System {
    match step
    case Create(id) =>
      if id in s.links then s else s.(links := s.links[id := Tracked(NEW_LINK, None)])
    case Announce(id) =>
      if id !in s.links || s.links[id].announced.Some? then s else
        var t := s.links[id];
        s.(links := s.links[id := t.(announced := Some(t.link.state))], flight := s.flight + [Note(None, t.link.state)])
    case Happen(id, event) =>
      if id !in s.links || !Possible(s, event) then s else
        var t := s.links[id];
        var l := React(t.link, event).0;
        s.(links := s.links[id := t.(link := l)],
           flight := if l.state == t.link.state then s.flight else s.flight + [Note(Some(t.link.state), l.state)])
    case Arrive(i) =>
      if i >= |s.flight| then s else
        Called(s.(flight := s.flight[..i] + s.flight[i + 1..]), OnNote(s.engine, s.flight[i]))
    case Start => Called(s, OnStart(s.engine))
    case Stop => Called(s, OnStop(s.engine))
  }

  function Run(s: System, steps: seq<Step>): System
    decreases |steps|
  {
    if steps == [] then s else Run(Next(s, steps[0]), steps[1..])
  }

  // ---- what the counters must account for

  function In(s: LinkState, c: Class): int {
    if ClassOf(s) == c then 1 else 0
  }

  /** What a report adds to a counter. */
  function Change(n: Note, c: Class): int {
    In(n.next, c) - if n.prev.Some? then In(n.prev.value, c) else 0
  }

  function UnderWay(ns: seq<Note>, c: Class): int {
    if ns == [] then 0 else Change(ns[0], c) + UnderWay(ns[1..], c)
  }

  /** What a link has reported, or has under way, in all: where it is now, had it started out as it was
      announced. */
  function Share(t: Tracked, c: Class): int {
    In(t.link.state, c) - In(Down, c) + if t.announced.Some? then In(t.announced.value, c) else 0
  }

  function Shares(links: Links, c: Class): map<nat, int> {
    map id | id in links :: Share(links[id], c)
  }

  ghost function Owed(links: Links, c: Class): int {
    Sums.Sum(Shares(links, c))
  }

  predicate Congruent(a: int, b: int) {
    (a - b) % WORD == 0
  }

  /** Every counter, with the reports still under way, comes to what the links owe it. */
  ghost predicate Balanced(s: System) {
    forall c: Class :: Congruent(s.engine.counts.Get(c) + UnderWay(s.flight, c), Owed(s.links, c))
  }

  ghost predicate Words(k: Counts) {
    forall c: Class :: 0 <= k.Get(c) < WORD
  }

  lemma {:induction false} AddWords(k: Counts, c: Class, d: int)
    requires Words(k)
    ensures Words(k.Add(c, d))
  {
    forall c2: Class ensures 0 <= k.Add(c, d).Get(c2) < WORD {
      assert 0 <= k.Get(c2) < WORD;
    }
  }

  lemma {:induction false} UnderWayConcat(a: seq<Note>, b: seq<Note>, c: Class)
    ensures UnderWay(a + b, c) == UnderWay(a, c) + UnderWay(b, c)
  {
    if a == [] {
      assert a + b == b;
    } else {
      assert (a + b)[1..] == a[1..] + b;
      UnderWayConcat(a[1..], b, c);
    }
  }

  lemma {:induction false} UnderWayOne(n: Note, c: Class)
    ensures UnderWay([n], c) == Change(n, c)
  {
    assert [n][1..] == [];
  }

  lemma {:induction false} Arrived(ns: seq<Note>, i: nat, c: Class)
    requires i < |ns|
    ensures UnderWay(ns[..i] + ns[i + 1..], c) == UnderWay(ns, c) - Change(ns[i], c)
  {
    assert ns == ns[..i] + ([ns[i]] + ns[i + 1..]);
    UnderWayConcat(ns[..i], [ns[i]] + ns[i + 1..], c);
    UnderWayConcat([ns[i]], ns[i + 1..], c);
    UnderWayConcat(ns[..i], ns[i + 1..], c);
    UnderWayOne(ns[i], c);
  }

  lemma {:induction false} OwedPut(links: Links, id: nat, t: Tracked, c: Class)
    ensures Owed(links[id := t], c) == Owed(links, c) + Share(t, c) - if id in links then Share(links[id], c) else 0
  {
    hide Share;
    assert Shares(links[id := t], c) == Shares(links, c)[id := Share(t, c)];
    Sums.SumUpdate(Shares(links, c), id, Share(t, c));
  }

  // ---- arithmetic of words

  lemma {:induction false} Wrapped(a: int, d: int)
    ensures Congruent((a + d) % WORD, a + d)
  {
  }

  lemma {:induction false} CongruentSum(a: int, b: int, d: int)
    requires Congruent(a, b)
    ensures Congruent(a + d, b + d)
  {
  }

  lemma {:induction false} CongruentChain(a: int, b: int, c: int)
    requires Congruent(a, b) && Congruent(b, c)
    ensures Congruent(a, c)
  {
  }

  lemma {:induction false} AddOne(k: Counts, c: Class, d: int, c2: Class)
    ensures Congruent(k.Add(c, d).Get(c2), k.Get(c2) + if c == c2 then d else 0)
  {
    Wrapped(k.Get(c), d);
  }

  /** A report changes the counters by exactly what it should. */
  lemma {:induction false} CountedChange(k: Counts, n: Note, c: Class)
    ensures Congruent(Counted(k, n).Get(c), k.Get(c) + Change(n, c))
  {
    var k1 := if n.prev.Some? then k.Add(ClassOf(n.prev.value), -1) else k;
    if n.prev.Some? { AddOne(k, ClassOf(n.prev.value), -1, c); }
    AddOne(k1, ClassOf(n.next), 1, c);
    CongruentSum(k1.Get(c), k.Get(c) - (if n.prev.Some? then In(n.prev.value, c) else 0), In(n.next, c));
    CongruentChain(Counted(k, n).Get(c), k1.Get(c) + In(n.next, c), k.Get(c) + Change(n, c));
  }

  lemma {:induction false} NoteCounts(e: Engine, n: Note)
    ensures OnNote(e, n).0.counts == if Ignored(n) then e.counts else Counted(e.counts, n)
  {
  }

  /** Leaving a report aside loses nothing. */
  lemma {:induction false} IgnoredChange(n: Note, c: Class)
    requires Ignored(n)
    ensures Change(n, c) == 0
  {
  }

  // ---- the census

  lemma {:induction false} ArriveBalanced(s: System, i: nat)
    requires Balanced(s) && i < |s.flight|
    ensures Balanced(Next(s, Arrive(i)))
  {
    hide Counted, Ignored;
    var n, s' := s.flight[i], Next(s, Arrive(i));
    NoteCounts(s.engine, n);
    forall c: Class ensures Congruent(s'.engine.counts.Get(c) + UnderWay(s'.flight, c), Owed(s'.links, c)) {
      assert Congruent(s.engine.counts.Get(c) + UnderWay(s.flight, c), Owed(s.links, c));
      Arrived(s.flight, i, c);
      if Ignored(n) {
        IgnoredChange(n, c);
      } else {
        CountedChange(s.engine.counts, n, c);
        CongruentSum(Counted(s.engine.counts, n).Get(c), s.engine.counts.Get(c) + Change(n, c), UnderWay(s'.flight, c));
        CongruentChain(s'.engine.counts.Get(c) + UnderWay(s'.flight, c),
          s.engine.counts.Get(c) + UnderWay(s.flight, c), Owed(s.links, c));
      }
    }
  }

  /** Whatever happens, in whatever order, the counters stay balanced. */
  lemma {:induction false} StepBalanced(s: System, step: Step)
    requires Balanced(s)
    ensures Balanced(Next(s, step))
  {
    var s' := Next(s, step);
    if step.Arrive? {
      if step.i < |s.flight| { ArriveBalanced(s, step.i); }
    } else {
      forall c: Class ensures Congruent(s'.engine.counts.Get(c) + UnderWay(s'.flight, c), Owed(s'.links, c)) {
        assert Congruent(s.engine.counts.Get(c) + UnderWay(s.flight, c), Owed(s.links, c));
        Issued(s, step, c);
      }
    }
  }

  /** A step other than an arrival owes exactly what it sends on its way. */
  lemma {:induction false} Issued(s: System, step: Step, c: Class)
    requires !step.Arrive?
    ensures var s' := Next(s, step);
      && UnderWay(s'.flight, c) - UnderWay(s.flight, c) == Owed(s'.links, c) - Owed(s.links, c)
      && s'.engine.counts == s.engine.counts
  {
    match step
    case Create(id) =>
      OwedPut(s.links, id, Tracked(NEW_LINK, None), c);
    case Announce(id) =>
      if id in s.links {
        var t := s.links[id];
        OwedPut(s.links, id, t.(announced := Some(t.link.state)), c);
        UnderWayConcat(s.flight, [Note(None, t.link.state)], c);
        UnderWayOne(Note(None, t.link.state), c);
      }
    case Happen(id, event) =>
      if id in s.links && Possible(s, event) {
        var t := s.links[id];
        var l := React(t.link, event).0;
        OwedPut(s.links, id, t.(link := l), c);
        UnderWayConcat(s.flight, [Note(Some(t.link.state), l.state)], c);
        UnderWayOne(Note(Some(t.link.state), l.state), c);
      }
    case _ =>
  }

  lemma {:induction false} RunBalanced(s: System, steps: seq<Step>)
    requires Balanced(s)
    ensures Balanced(Run(s, steps))
    decreases |steps|
  {
    if steps != [] {
      StepBalanced(s, steps[0]);
      RunBalanced(Next(s, steps[0]), steps[1..]);
    }
  }

  lemma {:induction false} InitialBalanced()
    ensures Balanced(INITIAL) && Words(INITIAL.engine.counts)
  {
    forall c: Class ensures Congruent(NO_LINKS.Get(c) + UnderWay([], c), Owed(map[], c)) {
      assert Shares(map[], c) == map[];
    }
  }

  lemma {:induction false} StepWords(s: System, step: Step)
    requires Words(s.engine.counts)
    ensures Words(Next(s, step).engine.counts)
  {
    if step.Arrive? && step.i < |s.flight| {
      var n := s.flight[step.i];
      NoteCounts(s.engine, n);
      if n.prev.Some? {
        AddWords(s.engine.counts, ClassOf(n.prev.value), -1);
        AddWords(s.engine.counts.Add(ClassOf(n.prev.value), -1), ClassOf(n.next), 1);
      } else {
        AddWords(s.engine.counts, ClassOf(n.next), 1);
      }
    }
  }

  lemma {:induction false} RunWords(s: System, steps: seq<Step>)
    requires Words(s.engine.counts)
    ensures Words(Run(s, steps).engine.counts)
    decreases |steps|
  {
    if steps != [] {
      StepWords(s, steps[0]);
      RunWords(Next(s, steps[0]), steps[1..]);
    }
  }

  // ---- when the counters are exact

  /** The links whose state is in a class. */
  function Members(links: Links, c: Class): set<nat> {
    set id | id in links && ClassOf(links[id].link.state) == c
  }

  /** The links that were announced in a class. */
  function AnnouncedIn(links: Links, c: Class): set<nat> {
    set id | id in links && links[id].announced.Some? && ClassOf(links[id].announced.value) == c
  }

  /** Every counter shows the number of links in its class. */
  ghost predicate Exact(s: System) {
    forall c: Class :: s.engine.counts.Get(c) == |Members(s.links, c)|
  }

  predicate AllAnnounced(links: Links) {
    forall id <- links.Keys :: links[id].announced.Some?
  }

  /** What the links owe, counted: those in the class now, less those that should have been announced as
      down, and those that were announced in it. */
  lemma {:induction false} OwedIs(links: Links, c: Class)
    requires AllAnnounced(links)
    ensures Owed(links, c) == |Members(links, c)| - (if c == CDown then |links| else 0) + |AnnouncedIn(links, c)|
    decreases |links|
  {
    if links == map[] {
      assert Shares(links, c) == map[];
    } else {
      var id :| id in links;
      var rest, t := links - {id}, links[id];
      RestSmaller(links, id);
      OwedIs(rest, c);
      OwedPut(rest, id, t, c);
      assert rest[id := t] == links;
      MembersPut(rest, id, t, c);
    }
  }

  lemma {:induction false} RestSmaller(links: Links, id: nat)
    requires id in links
    ensures |links - {id}| == |links| - 1
  {
    assert (links - {id}).Keys == links.Keys - {id};
    assert |links.Keys| == |links|;
    assert |(links - {id}).Keys| == |links - {id}|;
  }

  lemma {:induction false} MembersPut(rest: Links, id: nat, t: Tracked, c: Class)
    requires id !in rest && t.announced.Some?
    ensures |Members(rest[id := t], c)| == |Members(rest, c)| + In(t.link.state, c)
    ensures |AnnouncedIn(rest[id := t], c)| == |AnnouncedIn(rest, c)| + In(t.announced.value, c)
  {
    NowIn(rest, id, t, c);
    NowAnnounced(rest, id, t, c);
  }

  lemma {:induction false} NowIn(rest: Links, id: nat, t: Tracked, c: Class)
    requires id !in rest
    ensures id !in Members(rest, c)
    ensures Members(rest[id := t], c) == Members(rest, c) + if ClassOf(t.link.state) == c then {id} else {}
  {
    hide ClassOf;
  }

  lemma {:induction false} NowAnnounced(rest: Links, id: nat, t: Tracked, c: Class)
    requires id !in rest && t.announced.Some?
    ensures id !in AnnouncedIn(rest, c)
    ensures AnnouncedIn(rest[id := t], c) == AnnouncedIn(rest, c) + if ClassOf(t.announced.value) == c then {id} else {}
  {
    hide ClassOf;
  }

  lemma {:induction false} MembersFew(links: Links, c: Class)
    ensures |Members(links, c)| <= |links| && |AnnouncedIn(links, c)| <= |links|
  {
    SubsetSize(Members(links, c), links.Keys);
    SubsetSize(AnnouncedIn(links, c), links.Keys);
    assert |links.Keys| == |links|;
  }

  lemma {:induction false} SubsetSize<T>(a: set<T>, b: set<T>)
    requires a <= b
    ensures |a| <= |b| && (|a| == |b| ==> a == b)
    decreases |a|
  {
    if x :| x in a {
      SubsetSize(a - {x}, b - {x});
      if |a| == |b| {
        assert a == a - {x} + {x} && b == b - {x} + {x};
      }
    } else {
      assert a == {};
      if |b| == 0 { assert b == {}; }
    }
  }

  /** Words that are congruent are equal. */
  lemma {:induction false} WordsEqual(a: int, b: int)
    requires 0 <= a < WORD && 0 <= b < WORD && Congruent(a, b)
    ensures a == b
  {
  }

  /** With nothing under way, the counters of a run are exact if and only if every link was still down when
      it was announced: a link that is brought up between its creation and its announcement is counted
      twice, for good. */
  lemma {:induction false} ExactIffAnnouncedDown(steps: seq<Step>)
    requires var s := Run(INITIAL, steps); s.flight == [] && AllAnnounced(s.links) && |s.links| < WORD / 2
    ensures var s := Run(INITIAL, steps);
      Exact(s) <==> forall id <- s.links.Keys :: s.links[id].announced == Some(Down)
  {
    hide Balanced, Words, Exact;
    var s := Run(INITIAL, steps);
    InitialBalanced();
    RunBalanced(INITIAL, steps);
    RunWords(INITIAL, steps);
    if forall id <- s.links.Keys :: s.links[id].announced == Some(Down) {
      DownIsExact(s);
    }
    if Exact(s) {
      ExactIsDown(s);
    }
  }

  /** The links in one of these states. */
  function StatesIn(links: Links, states: set<LinkState>): set<nat> {
    set id | id in links && links[id].link.state in states
  }

  /** State by state: what the six counters then show. */
  lemma {:induction false} CountersAre(steps: seq<Step>)
    requires var s := Run(INITIAL, steps);
      s.flight == [] && |s.links| < WORD / 2 && forall id <- s.links.Keys :: s.links[id].announced == Some(Down)
    ensures var s := Run(INITIAL, steps); var k := s.engine.counts;
      && k.down == |StatesIn(s.links, {Down})| && k.disabled == |StatesIn(s.links, {Disabled})|
      && k.transient == |StatesIn(s.links, {Connecting, Disconnecting, ConnectPending, DisconnectPending})|
      && k.up == |StatesIn(s.links, {Up})| && k.reconn == |StatesIn(s.links, {ReconnectPending, Reconnecting})|
      && k.failed == |StatesIn(s.links, {Failed})|
  {
    hide Run, Members, StatesIn;
    ExactIffAnnouncedDown(steps);
    var s := Run(INITIAL, steps);
    StatesOf(s.links);
    assert s.engine.counts.Get(CDown) == |Members(s.links, CDown)|;
    assert s.engine.counts.Get(CDisabled) == |Members(s.links, CDisabled)|;
    assert s.engine.counts.Get(CTransient) == |Members(s.links, CTransient)|;
    assert s.engine.counts.Get(CUp) == |Members(s.links, CUp)|;
    assert s.engine.counts.Get(CReconn) == |Members(s.links, CReconn)|;
    assert s.engine.counts.Get(CFailed) == |Members(s.links, CFailed)|;
  }

  lemma {:induction false} StatesOf(links: Links)
    ensures Members(links, CDown) == StatesIn(links, {Down})
    ensures Members(links, CDisabled) == StatesIn(links, {Disabled})
    ensures Members(links, CTransient)
         == StatesIn(links, {Connecting, Disconnecting, ConnectPending, DisconnectPending})
    ensures Members(links, CUp) == StatesIn(links, {Up})
    ensures Members(links, CReconn) == StatesIn(links, {ReconnectPending, Reconnecting})
    ensures Members(links, CFailed) == StatesIn(links, {Failed})
  {
  }

  lemma {:induction false} DownIsExact(s: System)
    requires Balanced(s) && Words(s.engine.counts) && s.flight == [] && |s.links| < WORD / 2
    requires forall id <- s.links.Keys :: s.links[id].announced == Some(Down)
    ensures Exact(s)
  {
    hide Balanced, Words;
    forall c: Class ensures s.engine.counts.Get(c) == |Members(s.links, c)| {
      AllAnnouncedDown(s.links, c);
      MembersFew(s.links, c);
      QuietCount(s, c);
    }
  }

  lemma {:induction false} ExactIsDown(s: System)
    requires Balanced(s) && Words(s.engine.counts) && s.flight == [] && AllAnnounced(s.links) && |s.links| < WORD / 2
    requires Exact(s)
    ensures forall id <- s.links.Keys :: s.links[id].announced == Some(Down)
  {
    hide Balanced, Words;
    assert s.engine.counts.Get(CDown) == |Members(s.links, CDown)|;
    QuietCount(s, CDown);
    MembersFew(s.links, CDown);
    WordsEqual(|AnnouncedIn(s.links, CDown)|, |s.links|);
    AnnouncedAll(s.links);
  }

  lemma {:induction false} AnnouncedAll(links: Links)
    requires AllAnnounced(links) && |AnnouncedIn(links, CDown)| == |links|
    ensures forall id <- links.Keys :: links[id].announced == Some(Down)
  {
    assert |links.Keys| == |links|;
    SubsetSize(AnnouncedIn(links, CDown), links.Keys);
    forall id | id in links ensures links[id].announced == Some(Down) {
      assert id in AnnouncedIn(links, CDown);
    }
  }

  lemma {:induction false} AllAnnouncedDown(links: Links, c: Class)
    requires forall id <- links.Keys :: links[id].announced == Some(Down)
    ensures |AnnouncedIn(links, c)| == if c == CDown then |links| else 0
  {
    assert AnnouncedIn(links, c) == if c == CDown then links.Keys else {};
    assert |links.Keys| == |links|;
  }

  /** A counter at rest. */
  lemma {:induction false} QuietCount(s: System, c: Class)
    requires Balanced(s) && Words(s.engine.counts) && s.flight == [] && AllAnnounced(s.links) && |s.links| < WORD / 2
    ensures var m := |Members(s.links, c)| - (if c == CDown then |s.links| else 0) + |AnnouncedIn(s.links, c)|;
      Congruent(s.engine.counts.Get(c), m) && (0 <= m < WORD ==> s.engine.counts.Get(c) == m)
  {
    var m := |Members(s.links, c)| - (if c == CDown then |s.links| else 0) + |AnnouncedIn(s.links, c)|;
    OwedIs(s.links, c);
    assert Congruent(s.engine.counts.Get(c) + UnderWay(s.flight, c), Owed(s.links, c));
    if 0 <= m < WORD {
      WordsEqual(s.engine.counts.Get(c), m);
    }
  }

  /** A link that the engine, on starting, brings up before it is announced. */
  function HastySteps(): seq<Step> {
    [Create(0), Start, Happen(0, BringUp(false, true)), Announce(0), Arrive(0), Arrive(0)]
  }

  /** One link, reported twice as connecting and once, by way of wrap-around, as not being down; and an engine that
      runs while that link is still connecting. */
  lemma {:induction false} HastyLinkMiscounted()
    ensures var s := Run(INITIAL, HastySteps());
      && s.flight == [] && s.links.Keys == {0} && s.links[0].link.state == Connecting
      && s.engine.counts.transient == 2 && s.engine.counts.down == WORD - 1
      && s.engine.state == Running
  {
    var a, b := Note(Some(Down), Connecting), Note(None, Connecting);
    var quiet, hasty := Tracked(NEW_LINK, None), Tracked(Link(Connecting, true, 0), Some(Connecting));
    var on := [StartLinks];
    HastyStart();
    var s2 := System(map[0 := quiet], [], Engine(Starting, NO_LINKS), on);
    var s3 := System(map[0 := hasty.(announced := None)], [a], s2.engine, on);
    var s4 := System(map[0 := hasty], [a, b], s2.engine, on);
    var s5 := System(s4.links, [b], Engine(Running, Counts(WORD - 1, 0, 1, 0, 0, 0)), on);
    var s6 := System(s4.links, [], Engine(Running, Counts(WORD - 1, 0, 2, 0, 0, 0)), on);
    assert Next(s2, Happen(0, BringUp(false, true))) == s3 by {
      assert s2.links[0 := hasty.(announced := None)] == s3.links;
    }
    assert Next(s3, Announce(0)) == s4 by { assert s3.links[0 := hasty] == s4.links; }
    FirstArrives(s4, a, b);
    assert Next(s5, Arrive(0)) == s6 by { assert [b][..0] + [b][1..] == []; }
    RunSix(INITIAL, HastySteps());
  }

  lemma {:induction false} HastyStart()
    ensures Next(Next(INITIAL, Create(0)), Start)
         == System(map[0 := Tracked(NEW_LINK, None)], [], Engine(Starting, NO_LINKS), [StartLinks])
  {
    assert INITIAL.links[0 := Tracked(NEW_LINK, None)] == map[0 := Tracked(NEW_LINK, None)];
  }

  /** No counter shows the link down any more, and none shows it in transit yet: together they wrap around. */
  lemma {:induction false} FirstArrives(s: System, a: Note, b: Note)
    requires s.flight == [a, b] && s.engine == Engine(Starting, NO_LINKS) && a == Note(Some(Down), Connecting)
    ensures Next(s, Arrive(0)) == s.(flight := [b], engine := Engine(Running, Counts(WORD - 1, 0, 1, 0, 0, 0)))
  {
    assert [a, b][..0] + [a, b][1..] == [b];
  }

  lemma {:induction false} RunSix(s: System, steps: seq<Step>)
    requires |steps| == 6
    ensures Run(s, steps) ==
      Next(Next(Next(Next(Next(Next(s, steps[0]), steps[1]), steps[2]), steps[3]), steps[4]), steps[5])
  {
    hide Next;
    var s2 := Next(Next(s, steps[0]), steps[1]);
    var s4 := Next(Next(s2, steps[2]), steps[3]);
    RunTwo(s, steps);
    RunTwo(s2, steps[2..]);
    RunTwo(s4, steps[4..]);
    assert steps[2..][2..] == steps[4..] && steps[4..][2..] == [];
    assert Run(Next(Next(s4, steps[4]), steps[5]), []) == Next(Next(s4, steps[4]), steps[5]);
  }

  lemma {:induction false} RunTwo(s: System, steps: seq<Step>)
    requires |steps| >= 2
    ensures Run(s, steps) == Run(Next(Next(s, steps[0]), steps[1]), steps[2..])
  {
    hide Next;
    assert steps[1..][0] == steps[1] && steps[1..][1..] == steps[2..];
  }
}
