/** When the engine moves on: at every report, exactly when it lets the last link out of those the counters show; and
    over whole runs, in whatever order reports arrive, once its links have done what it waits for. */
module Progress {
  import opened Types
  import opened Connectivity
  import opened Census
  import opened Lifecycle

  // ---- what the engine waits for

  /** The engine waits for its links: for none to be down any more, or for none to be up. */
  predicate Waiting(e: EngineState) {
    e == Starting || e == StopPending || e == Stopping || e == StartPending
  }

  predicate ForNoneUp(e: EngineState) {
    e == Stopping || e == StartPending
  }

  /** Where an engine that has waited goes on to. */
  function Onward(e: EngineState): EngineState {
    match e
    case Starting => Running
    case StopPending => Stopping
    case Stopping => Stopped
    case StartPending => Starting
    case _ => e
  }

  /** The class of links that must be left, besides those in transit. */
  function Waited(up: bool): Class {
    if up then CUp else CDown
  }

  /** A link reports where it has come from, other than from one transient state to another: from where the engine waits
      for links to leave, or from transit. */
  predicate Leaving(n: Note, up: bool) {
    !Ignored(n) && n.prev.Some? && ClassOf(n.prev.value) in {Waited(up), CTransient}
  }

  /** The counters show none left. */
  predicate NoneShown(k: Counts, up: bool) {
    (k.Get(Waited(up)) + k.Get(CTransient)) % WORD == 0
  }

  // ---- one report

  /** A waiting engine moves on with a report exactly if the report is that of a link leaving and the counters then show
      none left; it moves to where it was to go, and brings its links up or down if that is due. */
  lemma {:induction false} MovesIff(s: System, i: nat)
    requires i < |s.flight| && Waiting(s.engine.state)
    ensures var e, up, s' := s.engine.state, ForNoneUp(s.engine.state), Next(s, Arrive(i));
      if Leaving(s.flight[i], up) && NoneShown(s'.engine.counts, up) then
        && s'.engine.state == Onward(e)
        && s'.calls == s.calls + (if e == StopPending then [StopLinks] else if e == StartPending then [StartLinks]
          else [])
      else
        s'.engine.state == e && s'.calls == s.calls
  {
    hide Counted;
  }

  /** An engine that does not wait does not move with any report. */
  lemma {:induction false} StandsStill(s: System, i: nat)
    requires !Waiting(s.engine.state)
    ensures Next(s, Arrive(i)).engine.state == s.engine.state && Next(s, Arrive(i)).calls == s.calls
  {
  }

  /** Starting and stopping: what a caller sees at once. */
  lemma {:induction false} AtOnce(s: System)
    ensures var e, started := s.engine.state, Next(s, Start);
      && started.engine == s.engine.(state := if e == Stopped then Starting
        else if e == Stopping then StartPending else e)
      && started.calls == s.calls + if e == Stopped then [StartLinks] else []
    ensures var e, stopped := s.engine.state, Next(s, Stop);
      && stopped.engine == s.engine.(state := if e == Running then Stopping
        else if e == Starting then StopPending else e)
      && stopped.calls == s.calls + if e == Running then [StopLinks] else []
  {
  }

  // ---- how many are left

  /** The links still where the engine waits for them to leave, as far as it has been told. */
  ghost function Remain(s: System, up: bool): int {
    Owed(s.links, Waited(up)) - UnderWay(s.flight, Waited(up)) + Owed(s.links, CTransient)
      - UnderWay(s.flight, CTransient)
  }

  lemma {:induction false} ShownIs(s: System, up: bool)
    requires Balanced(s)
    ensures NoneShown(s.engine.counts, up) <==> Remain(s, up) % WORD == 0
  {
    var k, c := s.engine.counts, Waited(up);
    assert Congruent(k.Get(c) + UnderWay(s.flight, c), Owed(s.links, c));
    assert Congruent(k.Get(CTransient) + UnderWay(s.flight, CTransient), Owed(s.links, CTransient));
    var a := k.Get(c) + UnderWay(s.flight, c) - Owed(s.links, c);
    var b := k.Get(CTransient) + UnderWay(s.flight, CTransient) - Owed(s.links, CTransient);
    SameRemainder(k.Get(c) + k.Get(CTransient), Remain(s, up), a, b);
  }

  lemma {:induction false} SameRemainder(x: int, y: int, a: int, b: int)
    requires a % WORD == 0 && b % WORD == 0 && x - y == a + b
    ensures x % WORD == 0 <==> y % WORD == 0
  {
  }

  /** What a report takes away: one if its link leaves, nothing if it comes from elsewhere or stays. */
  lemma {:induction false} TakesAway(n: Note, up: bool)
    ensures -1 <= Change(n, Waited(up)) + Change(n, CTransient) <= 1
    ensures Change(n, Waited(up)) + Change(n, CTransient) < 0 ==> Leaving(n, up)
  {
  }

  lemma {:induction false} StepRemain(s: System, step: Step, up: bool)
    ensures var s' := Next(s, step);
      if step.Arrive? && step.i < |s.flight| then
        var n := s.flight[step.i];
        Remain(s', up) == Remain(s, up) + Change(n, Waited(up)) + Change(n, CTransient)
      else
        Remain(s', up) == Remain(s, up)
  {
    hide Owed, UnderWay, Change;
    if step.Arrive? {
      if step.i < |s.flight| {
        Arrived(s.flight, step.i, Waited(up));
        Arrived(s.flight, step.i, CTransient);
      }
    } else {
      Issued(s, step, Waited(up));
      Issued(s, step, CTransient);
    }
  }

  // ---- whole runs

  /** Nobody starts an engine that waits for links to leave up, or stops one that waits for them to leave down. */
  predicate Undisturbed(steps: seq<Step>, up: bool) {
    forall i | 0 <= i < |steps| :: if up then !steps[i].Start? else !steps[i].Stop?
  }

  /** Where an engine can be once it has moved on. */
  predicate Beyond(e: EngineState, now: EngineState) {
    match e
    case Starting => now == Running
    case Stopping => now == Stopped
    case _ => now != e
  }

  lemma {:induction false} StaysBeyond(s: System, steps: seq<Step>, e: EngineState)
    requires Waiting(e) && Beyond(e, s.engine.state) && Undisturbed(steps, ForNoneUp(e))
    ensures Beyond(e, Run(s, steps).engine.state)
    decreases |steps|
  {
    if steps != [] {
      OneBeyond(s, steps[0], e);
      assert forall i | 0 <= i < |steps[1..]| :: steps[1..][i] == steps[i + 1];
      StaysBeyond(Next(s, steps[0]), steps[1..], e);
    }
  }

  lemma {:induction false} OneBeyond(s: System, step: Step, e: EngineState)
    requires Waiting(e) && Beyond(e, s.engine.state) && if ForNoneUp(e) then !step.Start? else !step.Stop?
    ensures Beyond(e, Next(s, step).engine.state)
  {
    hide Counted, Ignored;
  }

  /** An engine that waits for some links, and is told in the end that none remain, has moved on. */
  lemma {:induction false} MovesOn(s: System, steps: seq<Step>)
    requires Balanced(s) && Waiting(s.engine.state) && Undisturbed(steps, ForNoneUp(s.engine.state))
    requires Remain(s, ForNoneUp(s.engine.state)) > 0 && Remain(Run(s, steps), ForNoneUp(s.engine.state)) <= 0
    ensures Beyond(s.engine.state, Run(s, steps).engine.state)
    decreases |steps|
  {
    hide Next, Remain, Balanced, Leaving, NoneShown, Beyond;
    var e, up := s.engine.state, ForNoneUp(s.engine.state);
    var s', rest := Next(s, steps[0]), steps[1..];
    assert forall i | 0 <= i < |rest| :: rest[i] == steps[i + 1];
    StepBalanced(s, steps[0]);
    StepRemain(s, steps[0], up);
    if s'.engine.state == e {
      StillSome(s, steps[0]);
      MovesOn(s', rest);
    } else {
      HasMoved(s, steps[0]);
      StaysBeyond(s', rest, e);
    }
  }

  lemma {:induction false} HasMoved(s: System, step: Step)
    requires Waiting(s.engine.state) && Next(s, step).engine.state != s.engine.state
    requires if ForNoneUp(s.engine.state) then !step.Start? else !step.Stop?
    ensures Beyond(s.engine.state, Next(s, step).engine.state)
  {
    hide Counted, Ignored;
  }

  /** As long as the engine has not moved on, some remain. */
  lemma {:induction false} StillSome(s: System, step: Step)
    requires Balanced(s) && Waiting(s.engine.state) && Next(s, step).engine.state == s.engine.state
    requires Remain(s, ForNoneUp(s.engine.state)) > 0
    ensures Remain(Next(s, step), ForNoneUp(s.engine.state)) > 0
  {
    hide Next, Remain, Balanced, Leaving, NoneShown, Change;
    var up := ForNoneUp(s.engine.state);
    StepBalanced(s, step);
    StepRemain(s, step, up);
    ShownIs(Next(s, step), up);
    if step.Arrive? && step.i < |s.flight| {
      TakesAway(s.flight[step.i], up);
      MovesIff(s, step.i);
    }
  }

  lemma {:induction false} RunBoth(s: System, a: seq<Step>, b: seq<Step>)
    ensures Run(s, a + b) == Run(Run(s, a), b)
    decreases |a|
  {
    hide Next;
    if a == [] {
      assert a + b == b;
    } else {
      assert (a + b)[1..] == a[1..] + b;
      RunBoth(Next(s, a[0]), a[1..], b);
    }
  }

  /** When all has been reported, those that remain are the links there are. */
  lemma {:induction false} SettledRemain(s: System, up: bool)
    requires Settled(s)
    ensures Remain(s, up) == |Members(s.links, Waited(up))| + |Members(s.links, CTransient)|
  {
    forall c: Class ensures Owed(s.links, c) == |Members(s.links, c)| {
      OwedIs(s.links, c);
      if c == CDown {
        assert AnnouncedIn(s.links, c) == s.links.Keys;
      } else {
        assert AnnouncedIn(s.links, c) == {};
      }
    }
  }

  /** The counters show how many remain, as long as links and reports under way are few. */
  predicate Few(s: System) {
    |s.flight| + 2 * |s.links| < WORD / 4
  }

  predicate SomeShown(k: Counts, up: bool) {
    0 < (k.Get(Waited(up)) + k.Get(CTransient)) % WORD < WORD / 2
  }

  lemma {:induction false} OwedFew(links: Links, c: Class)
    ensures -|links| <= Owed(links, c) <= 2 * |links|
    decreases |links|
  {
    if links == map[] {
      assert Shares(links, c) == map[];
    } else {
      var id :| id in links;
      RestSmaller(links, id);
      OwedFew(links - {id}, c);
      OwedPut(links - {id}, id, links[id], c);
      assert (links - {id})[id := links[id]] == links;
    }
  }

  lemma {:induction false} UnderWayFew(ns: seq<Note>, c: Class)
    ensures -|ns| <= UnderWay(ns, c) <= |ns|
  {
    if ns != [] {
      UnderWayFew(ns[1..], c);
    }
  }

  lemma {:induction false} SomeRemain(s: System, up: bool)
    requires Balanced(s) && Few(s) && SomeShown(s.engine.counts, up)
    ensures Remain(s, up) > 0
  {
    var k, c := s.engine.counts, Waited(up);
    assert Congruent(k.Get(c) + UnderWay(s.flight, c), Owed(s.links, c));
    assert Congruent(k.Get(CTransient) + UnderWay(s.flight, CTransient), Owed(s.links, CTransient));
    OwedFew(s.links, c);
    OwedFew(s.links, CTransient);
    UnderWayFew(s.flight, c);
    UnderWayFew(s.flight, CTransient);
    var a := k.Get(c) + UnderWay(s.flight, c) - Owed(s.links, c);
    var b := k.Get(CTransient) + UnderWay(s.flight, CTransient) - Owed(s.links, CTransient);
    PositiveWord(k.Get(c) + k.Get(CTransient), Remain(s, up), a, b);
  }

  lemma {:induction false} PositiveWord(x: int, y: int, a: int, b: int)
    requires a % WORD == 0 && b % WORD == 0 && x - y == a + b
    requires 0 < x % WORD < WORD / 2 && -(WORD / 2) < y < WORD / 2
    ensures y > 0
  {
    assert x % WORD == y % WORD;
  }

  /** Whatever happens, and in whatever order it is reported: an engine whose counters show links where it waits for
      them
      to leave has moved on once everything has been reported and no such link is left. A stopping engine has stopped, a
      starting one runs. */
  lemma {:induction false} Arrives(steps: seq<Step>, more: seq<Step>)
    requires var s := Run(INITIAL, steps);
      && Waiting(s.engine.state) && Few(s) && SomeShown(s.engine.counts, ForNoneUp(s.engine.state))
      && Undisturbed(more, ForNoneUp(s.engine.state))
    requires var up, s' := ForNoneUp(Run(INITIAL, steps).engine.state), Run(INITIAL, steps + more);
      Settled(s') && Members(s'.links, Waited(up)) == {} && Members(s'.links, CTransient) == {}
    ensures var e, e' := Run(INITIAL, steps).engine.state, Run(INITIAL, steps + more).engine.state;
      Beyond(e, e') && (e == Stopping ==> e' == Stopped) && (e == Starting ==> e' == Running)
  {
    var s := Run(INITIAL, steps);
    InitialBalanced();
    RunBalanced(INITIAL, steps);
    RunBoth(INITIAL, steps, more);
    SettledRemain(Run(s, more), ForNoneUp(s.engine.state));
    SomeRemain(s, ForNoneUp(s.engine.state));
    hide Run, Balanced, Remain, Members, Settled, Few, SomeShown;
    MovesOn(s, more);
  }

  /** With the last report, if it is of a link leaving, a waiting engine moves on if and only if no link is left. */
  lemma {:induction false} MovesWithLast(steps: seq<Step>, i: nat)
    requires var s := Run(INITIAL, steps);
      Waiting(s.engine.state) && i < |s.flight| && Leaving(s.flight[i], ForNoneUp(s.engine.state))
    requires Settled(Run(INITIAL, steps + [Arrive(i)]))
    ensures var s, s' := Run(INITIAL, steps), Run(INITIAL, steps + [Arrive(i)]);
      var up := ForNoneUp(s.engine.state);
      s'.engine.state == (if Members(s'.links, Waited(up)) == {} && Members(s'.links, CTransient) == {}
                          then Onward(s.engine.state) else s.engine.state)
  {
    hide Run, Next, Balanced, Remain, Leaving, NoneShown, Settled, Members;
    var s, s' := Run(INITIAL, steps), Run(INITIAL, steps + [Arrive(i)]);
    RunLast(INITIAL, steps, Arrive(i));
    InitialBalanced();
    RunBalanced(INITIAL, steps + [Arrive(i)]);
    NoneLeftIff(s', ForNoneUp(s.engine.state));
    MovesIff(s, i);
  }

  lemma {:induction false} NoneLeftIff(s: System, up: bool)
    requires Balanced(s) && Settled(s)
    ensures NoneShown(s.engine.counts, up) <==> Members(s.links, Waited(up)) == {} && Members(s.links, CTransient) == {}
  {
    hide Balanced, Remain, NoneShown, Members;
    ShownIs(s, up);
    SettledRemain(s, up);
    MembersFew(s.links, Waited(up));
    MembersFew(s.links, CTransient);
  }

  // ---- engines that wait for good

  /** Over any run a waiting engine waits on if and only if no report lets it go. */
  lemma {:induction false} WaitsOn(s: System, steps: seq<Step>)
    requires Waiting(s.engine.state) && Undisturbed(steps, ForNoneUp(s.engine.state))
    ensures Run(s, steps).engine.state == s.engine.state <==> !LetsGo(s, steps)
    decreases |steps|
  {
    if steps != [] {
      hide Next, Leaving, NoneShown;
      var s', rest := Next(s, steps[0]), steps[1..];
      assert forall i | 0 <= i < |rest| :: rest[i] == steps[i + 1];
      if steps[0].Arrive? && steps[0].i < |s.flight| {
        MovesIff(s, steps[0].i);
      } else {
        NotMoved(s, steps[0]);
      }
      if s'.engine.state == s.engine.state {
        WaitsOn(s', rest);
      } else {
        HasMoved(s, steps[0]);
        StaysBeyond(s', rest, s.engine.state);
      }
    }
  }

  /** Some report that arrives is of a link leaving, after which the counters show none left. */
  ghost predicate LetsGo(s: System, steps: seq<Step>)
    decreases |steps|
  {
    && steps != []
    && (|| (&& steps[0].Arrive? && steps[0].i < |s.flight|
            && Leaving(s.flight[steps[0].i], ForNoneUp(s.engine.state))
            && NoneShown(Next(s, steps[0]).engine.counts, ForNoneUp(s.engine.state)))
        || LetsGo(Next(s, steps[0]), steps[1..]))
  }

  lemma {:induction false} NotMoved(s: System, step: Step)
    requires Waiting(s.engine.state) && (step.Arrive? ==> step.i >= |s.flight|)
    requires if ForNoneUp(s.engine.state) then !step.Start? else !step.Stop?
    ensures Next(s, step).engine.state == s.engine.state
  {
  }

  /** An engine without links never runs. */
  lemma {:induction false} NeverRuns()
    ensures var s := Run(INITIAL, [Start]); s.engine.state == Starting && Settled(s) && s.links == map[]
  {
    assert [Start][1..] == [];
  }

  /** A link that is brought up and fails while its engine runs; the engine is stopped, and brings the link down. */
  function FailedSteps(): seq<Step> {
    [Create(0), Announce(0), Arrive(0), Start, Happen(0, BringUp(false, true))]
    + [Arrive(0), Happen(0, OnDisconnected), Arrive(0), Stop, Happen(0, BringDown(false))]
  }

  function OneLink(state: LinkState, flight: seq<Note>, e: EngineState, k: Counts, calls: seq<Call>): System {
    System(map[0 := Tracked(Link(state, true, 0), Some(Down))], flight, Engine(e, k), calls)
  }

  /** The engine whose links have all failed never stops: everything has been reported, and no link is up or in
      transit. */
  lemma {:induction false} NeverStops()
    ensures var s := Run(INITIAL, FailedSteps());
      && s.engine.state == Stopping && Settled(s)
      && Members(s.links, CUp) == {} && Members(s.links, CTransient) == {}
  {
    var a := [Create(0), Announce(0), Arrive(0), Start, Happen(0, BringUp(false, true))];
    var b := [Arrive(0), Happen(0, OnDisconnected), Arrive(0), Stop, Happen(0, BringDown(false))];
    hide Next, Run, Members;
    RunBoth(INITIAL, a, b);
    FirstFive();
    LastFive();
    NoneOf(Run(INITIAL, FailedSteps()).links);
  }

  lemma {:induction false} NoneOf(links: Links)
    requires links == map[0 := Tracked(Link(Failed, true, 0), Some(Down))]
    ensures Members(links, CUp) == {} && Members(links, CTransient) == {}
  {
  }

  lemma {:induction false} FirstFive()
    ensures Run(INITIAL, [Create(0), Announce(0), Arrive(0), Start, Happen(0, BringUp(false, true))])
         == OneLink(Connecting, [Note(Some(Down), Connecting)], Starting, Counts(1, 0, 0, 0, 0, 0), [StartLinks])
  {
    var n := Note(None, Down);
    var quiet := System(map[0 := Tracked(NEW_LINK, None)], [], NEW_ENGINE, []);
    assert Next(INITIAL, Create(0)) == quiet;
    assert Next(quiet, Announce(0)) == OneLink(Down, [n], Stopped, NO_LINKS, []);
    var down := Counts(1, 0, 0, 0, 0, 0);
    assert Next(OneLink(Down, [n], Stopped, NO_LINKS, []), Arrive(0)) == OneLink(Down, [], Stopped, down, []) by {
      assert [n][..0] + [n][1..] == [];
    }
    assert Next(OneLink(Down, [], Stopped, down, []), Start) == OneLink(Down, [], Starting, down, [StartLinks]);
    assert Next(OneLink(Down, [], Starting, down, [StartLinks]), Happen(0, BringUp(false, true)))
        == OneLink(Connecting, [Note(Some(Down), Connecting)], Starting, down, [StartLinks]);
    hide Next;
    RunFive(INITIAL, Create(0), Announce(0), Arrive(0), Start, Happen(0, BringUp(false, true)));
  }

  lemma {:induction false} LastFive()
    ensures Run(OneLink(Connecting, [Note(Some(Down), Connecting)], Starting, Counts(1, 0, 0, 0, 0, 0), [StartLinks]),
                [Arrive(0), Happen(0, OnDisconnected), Arrive(0), Stop, Happen(0, BringDown(false))])
         == OneLink(Failed, [], Stopping, Counts(0, 0, 0, 0, 0, 1), [StartLinks, StopLinks])
  {
    var n, m, on := Note(Some(Down), Connecting), Note(Some(Connecting), Failed), [StartLinks];
    var s0 := OneLink(Connecting, [n], Starting, Counts(1, 0, 0, 0, 0, 0), on);
    var s1 := OneLink(Connecting, [], Starting, Counts(0, 0, 1, 0, 0, 0), on);
    var s2 := OneLink(Failed, [m], Starting, Counts(0, 0, 1, 0, 0, 0), on);
    var s3 := OneLink(Failed, [], Running, Counts(0, 0, 0, 0, 0, 1), on);
    var s4 := OneLink(Failed, [], Stopping, Counts(0, 0, 0, 0, 0, 1), [StartLinks, StopLinks]);
    hide Next;
    Fails(n, m, on);
    RunsAndStops(m, on);
    assert on + [StopLinks] == [StartLinks, StopLinks];
    RunFive(s0, Arrive(0), Happen(0, OnDisconnected), Arrive(0), Stop, Happen(0, BringDown(false)));
  }

  lemma {:induction false} Fails(n: Note, m: Note, on: seq<Call>)
    requires n == Note(Some(Down), Connecting) && m == Note(Some(Connecting), Failed)
    ensures Next(OneLink(Connecting, [n], Starting, Counts(1, 0, 0, 0, 0, 0), on), Arrive(0))
         == OneLink(Connecting, [], Starting, Counts(0, 0, 1, 0, 0, 0), on)
    ensures Next(OneLink(Connecting, [], Starting, Counts(0, 0, 1, 0, 0, 0), on), Happen(0, OnDisconnected))
         == OneLink(Failed, [m], Starting, Counts(0, 0, 1, 0, 0, 0), on)
  {
    assert [n][..0] + [n][1..] == [];
  }

  lemma {:induction false} RunsAndStops(m: Note, on: seq<Call>)
    requires m == Note(Some(Connecting), Failed)
    ensures Next(OneLink(Failed, [m], Starting, Counts(0, 0, 1, 0, 0, 0), on), Arrive(0))
         == OneLink(Failed, [], Running, Counts(0, 0, 0, 0, 0, 1), on)
    ensures Next(OneLink(Failed, [], Running, Counts(0, 0, 0, 0, 0, 1), on), Stop)
         == OneLink(Failed, [], Stopping, Counts(0, 0, 0, 0, 0, 1), on + [StopLinks])
    ensures var s := OneLink(Failed, [], Stopping, Counts(0, 0, 0, 0, 0, 1), on + [StopLinks]);
      Next(s, Happen(0, BringDown(false))) == s
  {
    assert [m][..0] + [m][1..] == [];
  }

  lemma {:induction false} RunFive(s: System, a: Step, b: Step, c: Step, d: Step, e: Step)
    ensures Run(s, [a, b, c, d, e]) == Next(Next(Next(Next(Next(s, a), b), c), d), e)
  {
    hide Next;
    var r := [a, b, c, d, e];
    assert r[1..] == [b, c, d, e] && [b, c, d, e][1..] == [c, d, e] && [c, d, e][1..] == [d, e] && [d, e][1..] == [e];
    assert [e][1..] == [];
    var s1 := Next(s, a);
    var s2 := Next(s1, b);
    var s3 := Next(s2, c);
    assert Run(s, r) == Run(s1, [b, c, d, e]) == Run(s2, [c, d, e]) == Run(s3, [d, e]) == Run(Next(s3, d), [e]);
  }
}
