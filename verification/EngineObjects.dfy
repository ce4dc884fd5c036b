/** Links and their engine as objects. Each method is one critical section: a link acts under its own lock,
    and what it then reports to the engine is a method of the engine, under the engine's. A network of such objects
    refines the census, so that what holds of all its runs holds of the objects. */
module EngineObjects {
  import opened Types
  import opened Connectivity
  import opened Census
  import Lifecycle

  class AnyLink {
    const id: nat
    var state: LinkState
    var reconnects: nat
    var enabled: bool

    constructor (id: nat)
      ensures Value() == NEW_LINK && this.id == id
    {
      this.id := id;
      state, reconnects, enabled := Down, 0, true;
    }

    function Value(): Link
      reads this
    {
      Link(state, enabled, reconnects)
    }

    method Up_(enable: bool, running: bool) returns (note: Note, action: Action)
      modifies this
      ensures (Value(), action) == React(old(Value()), BringUp(enable, running))
      ensures note == Note(Some(old(state)), state)
    {
      var prev := state;
      action := Nothing;
      if enable { enabled := true; }
      match prev {
        case Disabled | Down | Failed =>
          if running {
            state := Connecting;
            action := Connect;
          } else {
            state := Down;
          }
        case Disconnecting => if running && enabled { state := ConnectPending; }
        case DisconnectPending => if enabled { state := Connecting; }
        case _ =>
      }
      note := Note(Some(prev), state);
    }

    method Down_(disable: bool) returns (note: Note, action: Action)
      modifies this
      ensures (Value(), action) == React(old(Value()), BringDown(disable))
      ensures note == Note(Some(old(state)), state)
    {
      var prev := state;
      action := Nothing;
      if disable { enabled := false; }
      match prev {
        case Down => if !enabled { state := Disabled; }
        case Up | ReconnectPending | Reconnecting =>
          state := Disconnecting;
          action := Disconnect;
        case Connecting => state := DisconnectPending;
        case ConnectPending => state := Disconnecting;
        case _ =>
      }
      note := Note(Some(prev), state);
    }

    method Connected() returns (note: Note, action: Action)
      modifies this
      ensures (Value(), action) == React(old(Value()), OnConnected)
      ensures note == Note(Some(old(state)), state)
    {
      var prev := state;
      action := Nothing;
      match prev {
        case Connecting | ReconnectPending | Reconnecting | Up =>
          state := Up;
          reconnects := 0;
        case DisconnectPending =>
          state := Disconnecting;
          action := Disconnect;
          reconnects := 0;
        case _ =>
      }
      note := Note(Some(prev), state);
    }

    method Disconnected() returns (note: Note, action: Action)
      modifies this
      ensures (Value(), action) == React(old(Value()), OnDisconnected)
      ensures note == Note(Some(old(state)), state)
    {
      var prev := state;
      action := Nothing;
      match prev {
        case Connecting | DisconnectPending | ReconnectPending | Reconnecting | Up =>
          state := if enabled then Failed else Disabled;
          reconnects := 0;
        case Disconnecting =>
          state := if enabled then Down else Disabled;
          reconnects := 0;
        case ConnectPending =>
          if enabled {
            state := Connecting;
            action := Connect;
          } else {
            state := Disabled;
          }
          reconnects := 0;
        case _ =>
      }
      note := Note(Some(prev), state);
    }

    method Reconnecting_() returns (note: Note)
      modifies this
      ensures (Value(), Nothing) == React(old(Value()), OnReconnecting)
      ensures note == Note(Some(old(state)), state)
    {
      var prev := state;
      if prev == Up { state := Connecting; }
      note := Note(Some(prev), state);
    }

    method Reconnect_(immediate: bool) returns (note: Note, action: Action)
      modifies this
      ensures (Value(), action) == React(old(Value()), Reconnect(immediate))
      ensures note == Note(Some(old(state)), state)
    {
      var prev := state;
      action := Nothing;
      match prev {
        case Connecting | Reconnecting | Up =>
          state := ReconnectPending;
          reconnects := reconnects + 1;
          action := Schedule(immediate, reconnects);
        case DisconnectPending => action := Disconnect;
        case _ =>
      }
      note := Note(Some(prev), state);
    }

    /** What the reconnection timer runs. */
    method Retry_() returns (note: Note, action: Action)
      modifies this
      ensures (Value(), action) == React(old(Value()), Retry)
      ensures note == Note(Some(old(state)), state)
    {
      var prev := state;
      action := Nothing;
      if prev == ReconnectPending {
        state := Reconnecting;
        action := Connect;
      }
      note := Note(Some(prev), state);
    }
  }

  class AnyEngine {
    var state: EngineState
    var down: int
    var disabled: int
    var transient: int
    var up: int
    var reconn: int
    var failed: int

    constructor ()
      ensures Value() == NEW_ENGINE
    {
      state := Stopped;
      down, disabled, transient, up, reconn, failed := 0, 0, 0, 0, 0, 0;
    }

    function Value(): Engine
      reads this
    {
      Engine(state, Counts(down, disabled, transient, up, reconn, failed))
    }

    method Start() returns (call: Option<Call>)
      modifies this`state
      ensures (Value(), call) == OnStart(old(Value()))
    {
      call := None;
      match state {
        case Stopped =>
          state := Starting;
          call := Some(StartLinks);
        case Stopping => state := StartPending;
        case _ =>
      }
    }

    method Stop() returns (call: Option<Call>)
      modifies this`state
      ensures (Value(), call) == OnStop(old(Value()))
    {
      call := None;
      match state {
        case Running =>
          state := Stopping;
          call := Some(StopLinks);
        case Starting => state := StopPending;
        case _ =>
      }
    }

    /** Counts a link in, or out, of the class of a state. */
    method Count(s: LinkState, d: int)
      modifies this`down, this`disabled, this`transient, this`up, this`reconn, this`failed
      ensures Value() == old(Value()).(counts := old(Value()).counts.Add(ClassOf(s), d))
    {
      match s {
        case Down => down := (down + d) % WORD;
        case Disabled => disabled := (disabled + d) % WORD;
        case Connecting | Disconnecting | ConnectPending | DisconnectPending => transient := (transient + d) % WORD;
        case Up => up := (up + d) % WORD;
        case ReconnectPending | Reconnecting => reconn := (reconn + d) % WORD;
        case Failed => failed := (failed + d) % WORD;
      }
    }

    method LinkState_(prev: Option<LinkState>, next: LinkState) returns (call: Option<Call>)
      modifies this
      ensures (Value(), call) == OnNote(old(Value()), Note(prev, next))
    {
      hide ClassOf, Counts.Add;
      call := None;
      if prev == Some(next) { return; }
      if prev.Some? && Transient(prev.value) && Transient(next) { return; }
      if prev.Some? { Count(prev.value, -1); }
      Count(next, 1);
      match state {
        case Starting =>
          if prev.Some? && (prev.value == Down || Transient(prev.value)) && (down + transient) % WORD == 0 {
            state := Running;
          }
        case StopPending =>
          if prev.Some? && (prev.value == Down || Transient(prev.value)) && (down + transient) % WORD == 0 {
            state := Stopping;
            call := Some(StopLinks);
          }
        case Stopping =>
          if prev.Some? && (prev.value == Up || Transient(prev.value)) && (up + transient) % WORD == 0 {
            state := Stopped;
          }
        case StartPending =>
          if prev.Some? && (prev.value == Up || Transient(prev.value)) && (up + transient) % WORD == 0 {
            state := Starting;
            call := Some(StartLinks);
          }
        case _ =>
      }
    }
  }

  // ---- a network of them

  /** The census that the states of the links, what their creation has reported, the reports under way, the engine and
      its calls come to. */
  function Standing(states: map<nat, Link>, announced: map<nat, LinkState>, flight: seq<Note>, e: Engine,
                    calls: seq<Call>): System
  {
    System(map id | id in states :: Tracked(states[id], if id in announced then Some(announced[id]) else None),
           flight, e, calls)
  }

  lemma {:induction false} Created(states: map<nat, Link>, announced: map<nat, LinkState>, flight: seq<Note>,
                                   e: Engine, calls: seq<Call>, id: nat)
    requires id in announced ==> id in states
    ensures Next(Standing(states, announced, flight, e, calls), Create(id))
         == Standing(if id in states then states else states[id := NEW_LINK], announced, flight, e, calls)
  {
    if id !in states {
      assert Standing(states, announced, flight, e, calls).links[id := Tracked(NEW_LINK, None)]
          == Standing(states[id := NEW_LINK], announced, flight, e, calls).links;
    }
  }

  lemma {:induction false} Announced(states: map<nat, Link>, announced: map<nat, LinkState>, flight: seq<Note>,
                                     e: Engine, calls: seq<Call>, id: nat)
    ensures var s := Standing(states, announced, flight, e, calls);
      Next(s, Announce(id)) ==
        if id !in states || id in announced then s
        else Standing(states, announced[id := states[id].state], flight + [Note(None, states[id].state)], e, calls)
  {
    if id in states && id !in announced {
      assert Standing(states, announced, flight, e, calls).links[id := Tracked(states[id], Some(states[id].state))]
          == Standing(states, announced[id := states[id].state], flight, e, calls).links;
    }
  }

  lemma {:induction false} Happened(states: map<nat, Link>, announced: map<nat, LinkState>, flight: seq<Note>,
                                    e: Engine, calls: seq<Call>, id: nat, event: Event)
    requires id in states && Possible(Standing(states, announced, flight, e, calls), event)
    ensures var l := React(states[id], event).0;
      Next(Standing(states, announced, flight, e, calls), Happen(id, event))
      == Standing(states[id := l], announced,
                  if l.state == states[id].state then flight else flight + [Note(Some(states[id].state), l.state)],
                  e, calls)
  {
    hide React, Possible;
    var s, l := Standing(states, announced, flight, e, calls), React(states[id], event).0;
    assert s.links[id := s.links[id].(link := l)] == Standing(states[id := l], announced, flight, e, calls).links;
  }

  /** The calls, with one more if the engine makes one. */
  function WithCall(calls: seq<Call>, call: Option<Call>): seq<Call> {
    if call.Some? then calls + [call.value] else calls
  }

  lemma {:induction false} EngineMoves(states: map<nat, Link>, announced: map<nat, LinkState>, flight: seq<Note>,
                                       e: Engine, calls: seq<Call>, step: Step)
    ensures var s := Standing(states, announced, flight, e, calls);
      match step
      case Start => Next(s, step) == Standing(states, announced, flight, OnStart(e).0, WithCall(calls, OnStart(e).1))
      case Stop => Next(s, step) == Standing(states, announced, flight, OnStop(e).0, WithCall(calls, OnStop(e).1))
      case Arrive(i) => i < |flight| ==>
        var r := OnNote(e, flight[i]);
        Next(s, step) == Standing(states, announced, flight[..i] + flight[i + 1..], r.0, WithCall(calls, r.1))
      case _ => true
  {
    hide OnStart, OnStop, OnNote;
  }

  /** An engine and its links, with the reports that are under way between them. */
  class Network {
    const engine: AnyEngine
    var links: map<nat, AnyLink>
    /** What the creation of a link has reported. */
    var announced: map<nat, LinkState>
    var flight: seq<Note>
    var calls: seq<Call>
    /** The steps so far. */
    ghost var steps: seq<Step>

    constructor ()
      ensures Valid() && steps == [] && fresh(engine) && links == map[]
    {
      engine := new AnyEngine();
      links, announced, flight, calls, steps := map[], map[], [], [], [];
    }

    ghost function States(): map<nat, Link>
      reads this`links, links.Values
    {
      map id | id in links :: links[id].Value()
    }

    ghost function Value(): System
      reads this`links, this`announced, this`flight, this`calls, engine, links.Values
    {
      Standing(States(), announced, flight, engine.Value(), calls)
    }

    /** The objects are in the state that the steps so far lead to. */
    ghost predicate Valid()
      reads this, engine, links.Values
    {
      && (forall id <- links :: links[id].id == id)
      && announced.Keys <= links.Keys
      && Value() == Run(INITIAL, steps)
    }

    /** The steps so far lead here, and then one step on. */
    lemma {:induction false} Onward(step: Step)
      requires Valid()
      ensures Run(INITIAL, steps + [step]) == Next(Value(), step)
    {
      Lifecycle.RunLast(INITIAL, steps, step);
    }

    lemma {:induction false} Stands()
      requires (forall id <- links :: links[id].id == id) && announced.Keys <= links.Keys
      requires Standing(States(), announced, flight, engine.Value(), calls) == Run(INITIAL, steps)
      ensures Valid()
    {
    }

    lemma {:induction false} Known()
      requires Valid()
      ensures (forall id <- links :: links[id].id == id) && announced.Keys <= links.Keys
      ensures Value() == Standing(States(), announced, flight, engine.Value(), calls)
      ensures States().Keys == links.Keys && forall id <- links :: States()[id] == links[id].Value()
    {
    }

    /** A link is created, unless there is one of this ID. */
    method CreateLink(id: nat)
      requires Valid()
      modifies this
      ensures Valid() && steps == old(steps) + [Create(id)]
      ensures links.Keys == old(links.Keys) + {id} && forall other <- old(links) :: links[other] == old(links[other])
      ensures id !in old(links) ==> fresh(links[id])
    {
      hide Run, Next, Standing, Valid, Value, INITIAL;
      Known();
      Onward(Create(id));
      Created(States(), announced, flight, engine.Value(), calls, id);
      steps := steps + [Create(id)];
      if id !in links {
        ghost var before := States();
        var link := new AnyLink(id);
        links := links[id := link];
        assert States() == before[id := NEW_LINK];
      }
      Stands();
    }

    /** The second part of a link's creation, outside its lock: its state is read, and will be reported. */
    method AnnounceLink(id: nat)
      requires Valid()
      modifies this
      ensures Valid() && steps == old(steps) + [Announce(id)] && links == old(links)
    {
      hide Run, Next, Standing;
      Onward(Announce(id));
      Announced(States(), announced, flight, engine.Value(), calls, id);
      if id in links && id !in announced {
        announced := announced[id := links[id].state];
        flight := flight + [Note(None, links[id].state)];
      }
      steps := steps + [Announce(id)];
    }

    method React_(link: AnyLink, event: Event) returns (note: Note, action: Action)
      modifies link
      ensures (link.Value(), action) == React(old(link.Value()), event)
      ensures note == Note(Some(old(link.state)), link.state)
    {
      match event {
        case BringUp(enable, running) => note, action := link.Up_(enable, running);
        case BringDown(disable) => note, action := link.Down_(disable);
        case OnConnected => note, action := link.Connected();
        case OnDisconnected => note, action := link.Disconnected();
        case OnReconnecting =>
          note := link.Reconnecting_();
          action := Nothing;
        case Reconnect(immediate) => note, action := link.Reconnect_(immediate);
        case Retry => note, action := link.Retry_();
      }
    }

    /** Something happens to a link; what it has to report is under way. */
    method LinkReacts(id: nat, event: Event) returns (action: Action)
      requires Valid() && id in links && Possible(Value(), event)
      modifies this, links[id]
      ensures Valid() && steps == old(steps) + [Happen(id, event)] && links == old(links)
      ensures action == React(old(links[id].Value()), event).1
    {
      hide Run, Next, Standing, React, Possible, INITIAL, Value, Valid;
      Known();
      Onward(Happen(id, event));
      Happened(States(), announced, flight, engine.Value(), calls, id, event);
      ghost var before := States();
      var note: Note;
      note, action := React_(links[id], event);
      if note.prev != Some(note.next) { flight := flight + [note]; }
      assert States() == before[id := links[id].Value()];
      steps := steps + [Happen(id, event)];
      Stands();
    }

    method Count(call: Option<Call>)
      modifies this`calls
      ensures calls == WithCall(old(calls), call)
    {
      if call.Some? { calls := calls + [call.value]; }
    }

    /** One of the reports under way arrives. */
    method ReportArrives(i: nat)
      requires Valid() && i < |flight|
      modifies this, engine
      ensures Valid() && steps == old(steps) + [Arrive(i)] && links == old(links)
    {
      hide Run, Next, Standing, OnNote, WithCall, Value, Valid, AnyEngine.Value;
      Known();
      Onward(Arrive(i));
      EngineMoves(States(), announced, flight, engine.Value(), calls, Arrive(i));
      var note := flight[i];
      flight := flight[..i] + flight[i + 1..];
      var call := engine.LinkState_(note.prev, note.next);
      Count(call);
      steps := steps + [Arrive(i)];
      Stands();
    }

    method StartEngine()
      requires Valid()
      modifies this, engine
      ensures Valid() && steps == old(steps) + [Step.Start] && links == old(links)
    {
      hide Run, Next, Standing, OnStart, WithCall;
      Onward(Step.Start);
      EngineMoves(States(), announced, flight, engine.Value(), calls, Step.Start);
      var call := engine.Start();
      Count(call);
      steps := steps + [Step.Start];
    }

    method StopEngine()
      requires Valid()
      modifies this, engine
      ensures Valid() && steps == old(steps) + [Step.Stop] && links == old(links)
    {
      hide Run, Next, Standing, OnStop, WithCall;
      Onward(Step.Stop);
      EngineMoves(States(), announced, flight, engine.Value(), calls, Step.Stop);
      var call := engine.Stop();
      Count(call);
      steps := steps + [Step.Stop];
    }

    /** The links of a class, by the states of the objects. */
    function In(c: Class): set<nat>
      reads this, links.Values
    {
      set id | id in links && ClassOf(links[id].state) == c
    }

    /** With every report delivered, the engine's counters count its links if and only if each was still down when its
        creation was reported. */
    lemma {:induction false} CountersExact()
      requires Valid() && flight == [] && announced.Keys == links.Keys && |links| < WORD / 2
      ensures (forall c: Class :: engine.Value().counts.Get(c) == |In(c)|)
         <==> forall id <- announced :: announced[id] == Down
    {
      hide Run, ClassOf;
      var s := Value();
      assert s.links.Keys == links.Keys;
      assert |s.links| == |s.links.Keys| == |links.Keys| == |links|;
      forall c: Class ensures In(c) == Members(s.links, c) {}
      ExactIffAnnouncedDown(steps);
    }

    /** The engine has brought its links up and down strictly in turn, up first. */
    lemma {:induction false} CallsInTurn()
      requires Valid()
      ensures Lifecycle.Alternating(calls) && (|calls| % 2 == 1 <==> Lifecycle.WantedUp(engine.state))
    {
      hide Run;
      Lifecycle.RunInTurn(steps);
    }
  }
}
