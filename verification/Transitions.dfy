/** Where links go, and what they ask of their implementation: every state by the ways into it, every request by its
    occasions, and both over whole runs of a link with an implementation that answers. */
module Transitions {
  import opened Connectivity

  // ---- the ways into each state

  predicate AtRest(s: LinkState) {
    s == Down || s == Disabled || s == Failed
  }

  /** The event takes the link from elsewhere to this state. */
  predicate Enters(l: Link, e: Event, s: LinkState) {
    l.state != s && React(l, e).0.state == s
  }

  /** A link comes up exactly when it is on its way up and connected. */
  lemma {:induction false} ComesUp(l: Link, e: Event)
    ensures Enters(l, e, Up) <==> e == OnConnected && l.state in {Connecting, ReconnectPending, Reconnecting}
    ensures e == OnConnected && React(l, e).0.state == Up ==> React(l, e).0 == Link(Up, l.enabled, 0)
  {
  }

  /** It sets out to connect exactly when it is brought up from rest under a running engine, when a disconnection that
      was to be undone is, or has not begun, or when it loses a connection that is already being made anew. */
  lemma {:induction false} SetsOut(l: Link, e: Event)
    ensures Enters(l, e, Connecting) <==>
      || (AtRest(l.state) && e.BringUp? && e.running)
      || (l.state == DisconnectPending && e.BringUp? && (l.enabled || e.enable))
      || (l.state == ConnectPending && e == OnDisconnected && l.enabled)
      || (l.state == Up && e == OnReconnecting)
    ensures Enters(l, e, ConnectPending) <==>
      l.state == Disconnecting && e.BringUp? && e.running && (l.enabled || e.enable)
  {
  }

  /** It waits to reconnect when told so in or before a connection, and then tries when the time has come. */
  lemma {:induction false} TriesAgain(l: Link, e: Event)
    ensures Enters(l, e, ReconnectPending) <==> e.Reconnect? && l.state in {Connecting, Reconnecting, Up}
    ensures Enters(l, e, ReconnectPending) ==>
      React(l, e) == (Link(ReconnectPending, l.enabled, l.reconnects + 1), Schedule(e.immediate, l.reconnects + 1))
    ensures Enters(l, e, Reconnecting) <==> e == Retry && l.state == ReconnectPending
  {
  }

  /** It sets out to disconnect when it is brought down, or when it is connected and was to be brought down. */
  lemma {:induction false} TurnsBack(l: Link, e: Event)
    ensures Enters(l, e, Disconnecting) <==>
      || (e.BringDown? && l.state in {Up, ReconnectPending, Reconnecting, ConnectPending})
      || (e == OnConnected && l.state == DisconnectPending)
    ensures Enters(l, e, DisconnectPending) <==> e.BringDown? && l.state == Connecting
  {
  }

  /** Disconnected, it rests: down or disabled if it was to be, failed if it was not, disabled if it is not to be up. */
  lemma {:induction false} ComesToRest(l: Link, e: Event)
    ensures Enters(l, e, Down) <==>
      || (l.state == Disconnecting && e == OnDisconnected && l.enabled)
      || (l.state in {Disabled, Failed} && e.BringUp? && !e.running)
    ensures Enters(l, e, Disabled) <==>
      || (!AtRest(l.state) && e == OnDisconnected && !l.enabled)
      || (l.state == Down && e.BringDown? && (e.disable || !l.enabled))
    ensures Enters(l, e, Failed) <==>
      e == OnDisconnected && l.enabled && l.state in {Connecting, DisconnectPending, ReconnectPending, Reconnecting, Up}
    ensures e == OnDisconnected && !AtRest(l.state) ==> React(l, e).0.state != l.state && React(l, e).0.reconnects == 0
  {
  }

  /** What is wanted of a link changes only by bringing it up or down for good; the number of attempts to reconnect only
      by attempts, connections and disconnections. */
  lemma {:induction false} Remembers(l: Link, e: Event)
    ensures React(l, e).0.enabled <==>
      if e.BringUp? then l.enabled || e.enable else l.enabled && !(e.BringDown? && e.disable)
    ensures React(l, e).0.reconnects != l.reconnects ==>
      || (React(l, e).0.reconnects == 0 && (e == OnConnected || e == OnDisconnected))
      || (React(l, e).0.reconnects == l.reconnects + 1 && Enters(l, e, ReconnectPending))
    ensures e == OnConnected && l.state == DisconnectPending ==> React(l, e).0.reconnects == 0
  {
  }

  /** What a link asks for, and when: a connection when it sets out from rest, after a disconnection or for another
      attempt; a disconnection when it starts one, or gives up an attempt it no longer wants. */
  lemma {:induction false} AsksFor(l: Link, e: Event)
    ensures React(l, e).1 == Connect <==>
      || (Enters(l, e, Connecting) && (AtRest(l.state) || l.state == ConnectPending))
      || Enters(l, e, Reconnecting)
    ensures React(l, e).1 == Disconnect <==>
      || (Enters(l, e, Disconnecting) && l.state != ConnectPending)
      || (l.state == DisconnectPending && e.Reconnect?)
    ensures React(l, e).1.Schedule? <==> Enters(l, e, ReconnectPending)
  {
  }

  /** There and back: brought up from rest under a running engine and connected, a link is up; brought down for good and
      disconnected, it is disabled. */
  lemma {:induction false} ThereAndBack(l: Link, enable: bool)
    ensures AtRest(l.state) ==> React(React(l, BringUp(enable, true)).0, OnConnected).0.state == Up
    ensures l.state == Up ==> React(React(l, BringDown(true)).0, OnDisconnected).0 == Link(Disabled, false, 0)
  {
  }

  // ---- a link and its implementation

  /** What the implementation of a link is about. */
  datatype Phase = Off | Opening | On | Closing

  datatype Attached = Attached(link: Link, phase: Phase)

  /** What an implementation does when it is asked to. */
  function Asked(p: Phase, a: Action): Phase {
    match a
    case Connect => Opening
    case Disconnect => Closing
    case _ => p
  }

  /** What an implementation may report: only what it was about, that it is connected or no longer is, that it gives up
      for now, or that it is making the connection anew. Commands and timers may come at any time. */
  predicate MayReport(p: Phase, e: Event) {
    match e
    case OnConnected => p == Opening
    case OnDisconnected => p != Off
    case OnReconnecting => p == On
    case Reconnect(_) => p == Opening || p == On
    case _ => true
  }

  function Reported(p: Phase, e: Event): Phase {
    match e
    case OnConnected => On
    case OnDisconnected => Off
    case OnReconnecting => Opening
    case Reconnect(_) => Off
    case _ => p
  }

  /** One event, and the implementation doing what the link then asks; a report out of turn does not come. */
  function Goes(r: Attached, e: Event): Attached {
    if !MayReport(r.phase, e) then r else
      var (l, a) := React(r.link, e);
      Attached(l, Asked(Reported(r.phase, e), a))
  }

  function GoesOn(r: Attached, es: seq<Event>): Attached
    decreases |es|
  {
    if es == [] then r else GoesOn(Goes(r, es[0]), es[1..])
  }

  /** The link is where its implementation is. */
  predicate Agree(r: Attached) {
    match r.link.state
    case Down | Disabled | Failed | ReconnectPending => r.phase == Off
    case Up => r.phase == On
    case Reconnecting => r.phase == Opening
    case Disconnecting | ConnectPending => r.phase == Closing
    case Connecting | DisconnectPending => r.phase == Opening || r.phase == Closing
  }

  lemma {:induction false} StillAgree(r: Attached, e: Event)
    requires Agree(r)
    ensures Agree(Goes(r, e))
  {
  }

  /** Over every run a link is up exactly while its implementation is connected, and at rest or waiting to reconnect
      exactly while it is off. */
  lemma {:induction false} UpWhileOn(es: seq<Event>)
    ensures var r := GoesOn(Attached(NEW_LINK, Off), es);
      && Agree(r) && (r.link.state == Up <==> r.phase == On)
      && (AtRest(r.link.state) || r.link.state == ReconnectPending <==> r.phase == Off)
  {
    StaysAgreed(Attached(NEW_LINK, Off), es);
  }

  lemma {:induction false} StaysAgreed(r: Attached, es: seq<Event>)
    requires Agree(r)
    ensures Agree(GoesOn(r, es))
    decreases |es|
  {
    if es != [] {
      hide Agree, Goes;
      StillAgree(r, es[0]);
      StaysAgreed(Goes(r, es[0]), es[1..]);
    }
  }

  /** Over every run an implementation is asked to connect only while it is off, and to disconnect only while it is not
      doing so already. */
  lemma {:induction false} AskedInTurn(es: seq<Event>, e: Event)
    ensures var r := GoesOn(Attached(NEW_LINK, Off), es);
      MayReport(r.phase, e) ==>
        && (React(r.link, e).1 == Connect ==> Reported(r.phase, e) == Off)
        && (React(r.link, e).1 == Disconnect ==> Reported(r.phase, e) != Closing)
  {
    StaysAgreed(Attached(NEW_LINK, Off), es);
    hide GoesOn;
  }

  // ---- links settle

  /** The next answer of an implementation that does as it is asked, and a timer that comes. */
  function Answer(r: Attached): Event {
    match r.phase
    case Opening => OnConnected
    case Closing => OnDisconnected
    case _ => Retry
  }

  function Answered(r: Attached, n: nat): Attached
    decreases n
  {
    if n == 0 then r else Answered(Goes(r, Answer(r)), n - 1)
  }

  /** A link that is to be up is up after two answers, and stays so, if and only if it has not failed and its
      implementation is not disconnecting behind its back. */
  lemma {:induction false} SettlesUp(r: Attached, n: nat)
    requires Agree(r) && MeantUp(r.link) && n >= 2
    ensures Answered(r, n).link.state == Up <==>
      r.link.state != Failed && !(r.link.state == Connecting && r.phase == Closing)
  {
    var r1 := Goes(r, Answer(r));
    var r2 := Goes(r1, Answer(r1));
    assert Answered(r, n) == Answered(r1, n - 1) == Answered(r2, n - 2);
    assert Goes(r2, Answer(r2)) == r2;
    Rests(r2, n - 2);
  }

  /** How that comes about: brought down while connecting, the link asks its implementation, which gives up for now, to
      disconnect; brought up again, it takes itself to be connecting, and fails when the disconnection is reported. */
  lemma {:induction false} BehindItsBack()
    ensures var r := GoesOn(Attached(NEW_LINK, Off),
                            [BringUp(true, true), BringDown(false), Reconnect(false), BringUp(true, true)]);
      && r == Attached(Link(Connecting, true, 0), Closing)
      && forall n: nat | n >= 2 :: Answered(r, n).link.state == Failed
  {
    var r := Attached(Link(Connecting, true, 0), Closing);
    var b, c, d := BringDown(false), Reconnect(false), BringUp(true, true);
    assert [d, b, c, d][1..] == [b, c, d] && [b, c, d][1..] == [c, d] && [c, d][1..] == [d] && [d][1..] == [];
    var r1 := Goes(r, OnDisconnected);
    forall n: nat | n >= 2 ensures Answered(r, n).link.state == Failed {
      assert Answered(r, n) == Answered(r1, n - 1);
      Rests(r1, n - 1);
    }
  }

  /** A link that is brought down for good is disabled after two answers, and stays so, unless it had failed: then it
      stays failed. */
  lemma {:induction false} SettlesDown(r: Attached, n: nat)
    requires Agree(r) && n >= 2
    ensures var down := Goes(r, BringDown(true));
      Answered(down, n).link.state == if r.link.state == Failed then Failed else Disabled
  {
    var r0 := Goes(r, BringDown(true));
    var r1 := Goes(r0, Answer(r0));
    var r2 := Goes(r1, Answer(r1));
    assert Answered(r0, n) == Answered(r1, n - 1) == Answered(r2, n - 2);
    assert Goes(r2, Answer(r2)) == r2;
    Rests(r2, n - 2);
  }

  lemma {:induction false} Rests(r: Attached, n: nat)
    requires Goes(r, Answer(r)) == r
    ensures Answered(r, n) == r
  {
    if n > 0 {
      Rests(r, n - 1);
    }
  }

  function Retries(n: nat): seq<Event> {
    if n == 0 then [] else [Reconnect(false), Retry] + Retries(n - 1)
  }

  /** A link counts its attempts since it was last connected, and forgets them when it is. */
  lemma {:induction false} CountsAttempts(l: Link, n: nat)
    requires l.state == Up || l.state == Reconnecting
    ensures var r := ReactAll(l, Retries(n));
      && r == Link(if n == 0 then l.state else Reconnecting, l.enabled, l.reconnects + n)
      && React(r, OnConnected).0 == Link(Up, l.enabled, 0)
    decreases n
  {
    if n > 0 {
      var es := Retries(n);
      var l1 := React(l, es[0]).0;
      var l2 := React(l1, es[1]).0;
      assert es[1..][0] == Retry && es[1..][1..] == Retries(n - 1);
      assert ReactAll(l, es) == ReactAll(l1, es[1..]) == ReactAll(l2, Retries(n - 1));
      CountsAttempts(l2, n - 1);
    }
  }
}
