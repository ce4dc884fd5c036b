/** The life of the engine over whole runs: it brings its links up and down in turn, and moves on only when
    its counters say that its links have done so. */
module Lifecycle {
  import opened Types
  import opened Connectivity
  import opened Census

  /** Links are brought up first, and then down and up in turn. */
  ghost predicate Alternating(calls: seq<Call>) {
    forall i | 0 <= i < |calls| :: calls[i] == if i % 2 == 0 then StartLinks else StopLinks
  }

  /** The links were last brought up. */
  predicate WantedUp(e: EngineState) {
    e == Starting || e == Running || e == StopPending
  }

  ghost predicate InTurn(s: System) {
    Alternating(s.calls) && (|s.calls| % 2 == 1 <==> WantedUp(s.engine.state))
  }

  lemma {:induction false} StepInTurn(s: System, step: Step)
    requires InTurn(s)
    ensures InTurn(Next(s, step))
  {
  }

  /** Over every run the engine brings its links up and down strictly in turn, up first; and it is starting,
      running or waiting to stop exactly while the last thing it did was to bring them up. */
  lemma {:induction false} RunInTurn(steps: seq<Step>)
    ensures InTurn(Run(INITIAL, steps))
  {
    RunsInTurn(INITIAL, steps);
  }

  lemma {:induction false} RunsInTurn(s: System, steps: seq<Step>)
    requires InTurn(s)
    ensures InTurn(Run(s, steps))
    decreases |steps|
  {
    if steps != [] {
      hide InTurn, Next;
      StepInTurn(s, steps[0]);
      RunsInTurn(Next(s, steps[0]), steps[1..]);
    }
  }

  /** The counters say that no link is down or in transit; or up or in transit. */
  predicate NoneDown(k: Counts) {
    Word(k.down + k.transient) == 0
  }

  predicate NoneUp(k: Counts) {
    Word(k.up + k.transient) == 0
  }

  /** The moves the engine makes, and what each takes. */
  predicate MayMove(step: Step, prev: EngineState, next: EngineState, k: Counts) {
    || (prev == Stopped && next == Starting && step.Start?)
    || (prev == Stopping && next == StartPending && step.Start?)
    || (prev == Running && next == Stopping && step.Stop?)
    || (prev == Starting && next == StopPending && step.Stop?)
    || (prev == Starting && next == Running && step.Arrive? && NoneDown(k))
    || (prev == StopPending && next == Stopping && step.Arrive? && NoneDown(k))
    || (prev == Stopping && next == Stopped && step.Arrive? && NoneUp(k))
    || (prev == StartPending && next == Starting && step.Arrive? && NoneUp(k))
  }

  /** The engine moves in no other way. */
  lemma {:induction false} MovesOnlySo(s: System, step: Step)
    ensures var s' := Next(s, step);
      s'.engine.state != s.engine.state ==> MayMove(step, s.engine.state, s'.engine.state, s'.engine.counts)
  {
  }

  /** Everything has been reported: nothing is under way, and every link was announced as it was created. */
  predicate Settled(s: System) {
    s.flight == [] && |s.links| < WORD / 2 && forall id <- s.links.Keys :: s.links[id].announced == Some(Down)
  }

  /** Counters that add up to zero, and are exact, are zero. */
  lemma {:induction false} NoneLeft(s: System, c: Class)
    requires Exact(s) && |s.links| < WORD / 2
    requires Word(s.engine.counts.Get(c) + s.engine.counts.Get(CTransient)) == 0
    ensures Members(s.links, c) == {} && Members(s.links, CTransient) == {}
  {
    assert s.engine.counts.Get(c) == |Members(s.links, c)|;
    assert s.engine.counts.Get(CTransient) == |Members(s.links, CTransient)|;
    MembersFew(s.links, c);
    MembersFew(s.links, CTransient);
  }

  lemma {:induction false} SettledExact(steps: seq<Step>)
    requires Settled(Run(INITIAL, steps))
    ensures Exact(Run(INITIAL, steps))
  {
    ExactIffAnnouncedDown(steps);
  }

  lemma {:induction false} RunLast(s: System, steps: seq<Step>, step: Step)
    ensures Run(s, steps + [step]) == Next(Run(s, steps), step)
    decreases |steps|
  {
    hide Next;
    if steps == [] {
      assert steps + [step] == [step] && [step][1..] == [];
    } else {
      assert (steps + [step])[1..] == steps[1..] + [step];
      RunLast(Next(s, steps[0]), steps[1..], step);
    }
  }

  /** If the report that lets the engine move on is the last one under way, the engine is right: when it
      starts to run or to stop, no link is down or in transit, and when it has stopped or starts again, no
      link is up or in transit. */
  lemma {:induction false} MovesOnTruth(steps: seq<Step>, step: Step)
    requires Settled(Run(INITIAL, steps + [step])) && step.Arrive?
    requires Run(INITIAL, steps).engine.state != Run(INITIAL, steps + [step]).engine.state
    ensures var s, s' := Run(INITIAL, steps), Run(INITIAL, steps + [step]);
      && Members(s'.links, CTransient) == {}
      && Members(s'.links, if WantedUp(s.engine.state) then CDown else CUp) == {}
  {
    var s, s' := Run(INITIAL, steps), Run(INITIAL, steps + [step]);
    RunLast(INITIAL, steps, step);
    MovesOnlySo(s, step);
    SettledExact(steps + [step]);
    hide Run, Next, Exact;
    NoneLeft(s', if WantedUp(s.engine.state) then CDown else CUp);
  }
}
