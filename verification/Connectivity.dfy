/** The states of links and of the engine that runs them, as values: how a link reacts to what happens to
    it, and how the engine reacts to what its links report. */
module Connectivity {
  import opened Types

  datatype LinkState =
    | Down | Disabled | Connecting | Up | ReconnectPending | Reconnecting | Failed
    | Disconnecting | ConnectPending | DisconnectPending

  datatype EngineState = Stopped | Starting | Running | Stopping | StartPending | StopPending

  // ---- links

  datatype Link = Link(state: LinkState, enabled: bool, reconnects: nat)

  const NEW_LINK := Link(Down, true, 0)

  /** What happens to a link. Bringing a link up sees, some time before it acts, whether the engine is
      starting or running. */
  datatype Event =
    | BringUp(enable: bool, running: bool)
    | BringDown(disable: bool)
    | OnConnected
    | OnDisconnected
    | OnReconnecting
    | Reconnect(immediate: bool)
    | Retry

  /** What a link asks of its implementation. */
  datatype Action = Nothing | Connect | Disconnect | Schedule(immediate: bool, reconnects: nat)

  function React(l: Link, e: Event): (Link, Action) {
    match e
    case BringUp(enable, running) =>
      var l1 := l.(enabled := l.enabled || enable);
      (match l.state
       case Disabled | Down | Failed =>
         if running then (l1.(state := Connecting), Connect) else (l1.(state := Down), Nothing)
       case Disconnecting => (if running && l1.enabled then l1.(state := ConnectPending) else l1, Nothing)
       case DisconnectPending => (if l1.enabled then l1.(state := Connecting) else l1, Nothing)
       case _ => (l1, Nothing))
    case BringDown(disable) =>
      var l1 := l.(enabled := l.enabled && !disable);
      (match l.state
       case Down => (if l1.enabled then l1 else l1.(state := Disabled), Nothing)
       case Up | ReconnectPending | Reconnecting => (l1.(state := Disconnecting), Disconnect)
       case Connecting => (l1.(state := DisconnectPending), Nothing)
       case ConnectPending => (l1.(state := Disconnecting), Nothing)
       case _ => (l1, Nothing))
    case OnConnected =>
      (match l.state
       case Connecting | ReconnectPending | Reconnecting | Up => (l.(state := Up, reconnects := 0), Nothing)
       case DisconnectPending => (l.(state := Disconnecting, reconnects := 0), Disconnect)
       case _ => (l, Nothing))
    case OnDisconnected =>
      (match l.state
       case Connecting | DisconnectPending | ReconnectPending | Reconnecting | Up =>
         (l.(state := if l.enabled then Failed else Disabled, reconnects := 0), Nothing)
       case Disconnecting => (l.(state := if l.enabled then Down else Disabled, reconnects := 0), Nothing)
       case ConnectPending =>
         if l.enabled then (l.(state := Connecting, reconnects := 0), Connect)
         else (l.(state := Disabled, reconnects := 0), Nothing)
       case _ => (l, Nothing))
    case OnReconnecting => (if l.state == Up then l.(state := Connecting) else l, Nothing)
    case Reconnect(immediate) =>
      (match l.state
       case Connecting | Reconnecting | Up =>
         (l.(state := ReconnectPending, reconnects := l.reconnects + 1), Schedule(immediate, l.reconnects + 1))
       case DisconnectPending => (l, Disconnect)
       case _ => (l, Nothing))
    case Retry =>
      if l.state == ReconnectPending then (l.(state := Reconnecting), Connect) else (l, Nothing)
  }

  function ReactAll(l: Link, es: seq<Event>): Link
    decreases |es|
  {
    if es == [] then l else ReactAll(React(l, es[0]).0, es[1..])
  }

  // ---- intent

  /** A link that was brought down on purpose stays down, or on its way down, whatever happens to it,
      until it is next brought up. */
  lemma {:induction false} StaysDown(l: Link, es: seq<Event>)
    requires forall i | 0 <= i < |es| :: !es[i].BringUp?
    ensures ReactAll(React(l, BringDown(true)).0, es).state in {Disconnecting, DisconnectPending, Disabled, Failed}
  {
    DownPersists(React(l, BringDown(true)).0, es);
  }

  lemma {:induction false} DownPersists(l: Link, es: seq<Event>)
    requires !l.enabled && l.state in {Disconnecting, DisconnectPending, Disabled, Failed}
    requires forall i | 0 <= i < |es| :: !es[i].BringUp?
    ensures var r := ReactAll(l, es); !r.enabled && r.state in {Disconnecting, DisconnectPending, Disabled, Failed}
    decreases |es|
  {
    if es != [] {
      DownPersists(React(l, es[0]).0, es[1..]);
    }
  }

  /** A link that was brought up on purpose under a running engine stays up, on its way up or failed, until
      it is next brought down, provided the engine goes on running. */
  lemma {:induction false} StaysUp(l: Link, es: seq<Event>)
    requires forall i | 0 <= i < |es| :: !es[i].BringDown? && (es[i].BringUp? ==> es[i].running)
    ensures ReactAll(React(l, BringUp(true, true)).0, es).state
      in {Connecting, ConnectPending, Up, ReconnectPending, Reconnecting, Failed}
  {
    UpPersists(React(l, BringUp(true, true)).0, es);
  }

  lemma {:induction false} UpPersists(l: Link, es: seq<Event>)
    requires l.enabled && l.state in {Connecting, ConnectPending, Up, ReconnectPending, Reconnecting, Failed}
    requires forall i | 0 <= i < |es| :: !es[i].BringDown? && (es[i].BringUp? ==> es[i].running)
    ensures var r := ReactAll(l, es);
      r.enabled && r.state in {Connecting, ConnectPending, Up, ReconnectPending, Reconnecting, Failed}
    decreases |es|
  {
    if es != [] {
      UpPersists(React(l, es[0]).0, es[1..]);
    }
  }

  /** A link that is up, on its way up, or failed, and is meant to be up. */
  predicate MeantUp(l: Link) {
    l.enabled && l.state in {Connecting, ConnectPending, Up, ReconnectPending, Reconnecting, Failed}
  }

  /** Short of being brought down, such a link is lost in exactly one way: it has failed, and is brought up
      again by someone who sees the engine at rest. */
  lemma {:induction false} LostOnlyAtRest(l: Link, e: Event)
    requires MeantUp(l)
    ensures MeantUp(React(l, e).0) <==>
      if e.BringDown? then l.state == Failed && !e.disable else !(l.state == Failed && e.BringUp? && !e.running)
  {
  }

  // ---- the engine

  datatype Class = CDown | CDisabled | CTransient | CUp | CReconn | CFailed

  function ClassOf(s: LinkState): Class {
    match s
    case Down => CDown
    case Disabled => CDisabled
    case Connecting | Disconnecting | ConnectPending | DisconnectPending => CTransient
    case Up => CUp
    case ReconnectPending | Reconnecting => CReconn
    case Failed => CFailed
  }

  const WORD := 0x1_0000_0000

  /** The six counters, each an unsigned word. */
  datatype Counts = Counts(down: int, disabled: int, transient: int, up: int, reconn: int, failed: int) {
    function Get(c: Class): int {
      match c
      case CDown => down
      case CDisabled => disabled
      case CTransient => transient
      case CUp => up
      case CReconn => reconn
      case CFailed => failed
    }

    function Add(c: Class, d: int): Counts {
      match c
      case CDown => this.(down := (down + d) % WORD)
      case CDisabled => this.(disabled := (disabled + d) % WORD)
      case CTransient => this.(transient := (transient + d) % WORD)
      case CUp => this.(up := (up + d) % WORD)
      case CReconn => this.(reconn := (reconn + d) % WORD)
      case CFailed => this.(failed := (failed + d) % WORD)
    }
  }

  const NO_LINKS := Counts(0, 0, 0, 0, 0, 0)

  datatype Engine = Engine(state: EngineState, counts: Counts)

  const NEW_ENGINE := Engine(Stopped, NO_LINKS)

  /** What a link reports to the engine: where it was, if anywhere, and where it is. */
  datatype Note = Note(prev: Option<LinkState>, next: LinkState)

  /** The engine brings all its links up, or down. */
  datatype Call = StartLinks | StopLinks

  function OnStart(e: Engine): (Engine, Option<Call>) {
    match e.state
    case Stopped => (e.(state := Starting), Some(StartLinks))
    case Stopping => (e.(state := StartPending), None)
    case _ => (e, None)
  }

  function OnStop(e: Engine): (Engine, Option<Call>) {
    match e.state
    case Running => (e.(state := Stopping), Some(StopLinks))
    case Starting => (e.(state := StopPending), None)
    case _ => (e, None)
  }

  predicate Transient(s: LinkState) {
    ClassOf(s) == CTransient
  }

  /** The engine leaves the reports that change nothing, or only one transient state for another, aside. */
  predicate Ignored(n: Note) {
    n.prev.Some? && (n.prev.value == n.next || (Transient(n.prev.value) && Transient(n.next)))
  }

  function Counted(k: Counts, n: Note): Counts {
    (if n.prev.Some? then k.Add(ClassOf(n.prev.value), -1) else k).Add(ClassOf(n.next), 1)
  }

  function Word(n: int): int {
    n % WORD
  }

  function OnNote(e: Engine, n: Note): (Engine, Option<Call>) {
    if Ignored(n) then (e, None) else
      var k := Counted(e.counts, n);
      var e1 := e.(counts := k);
      var wasDown := n.prev.Some? && (n.prev.value == Down || Transient(n.prev.value));
      var wasUp := n.prev.Some? && (n.prev.value == Up || Transient(n.prev.value));
      match e.state
      case Starting => (if wasDown && Word(k.down + k.transient) == 0 then e1.(state := Running) else e1, None)
      case StopPending =>
        if wasDown && Word(k.down + k.transient) == 0 then (e1.(state := Stopping), Some(StopLinks)) else (e1, None)
      case Stopping => (if wasUp && Word(k.up + k.transient) == 0 then e1.(state := Stopped) else e1, None)
      case StartPending =>
        if wasUp && Word(k.up + k.transient) == 0 then (e1.(state := Starting), Some(StartLinks)) else (e1, None)
      case _ => (e1, None)
  }
}
