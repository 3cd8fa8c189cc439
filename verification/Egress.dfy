/** A session's egress loop: from what it selects to what it does, and how it ends. */
module Egress {
  import opened Wrappers

  datatype Initiator = Local | LocalForceful | Remote

  datatype Outbound = Data | Ping | Pong | Disconnect(reason: nat)

  const TCP_SUBSYSTEM_ERROR: nat := 1

  datatype Event = Message | Leave(reason: nat)

  /** What one round of the loop's select yields. */
  datatype Selected = FromServer(event: Event) | PingDue | PongDue | Signal(initiator: Initiator, reason: nat)

  /** A round: its selection, and whether sending then succeeds. */
  datatype Round = Round(selected: Selected, delivered: bool)

  /** `PingSent` releases the pinger that asked for a ping. */
  datatype Effect = CallNext | Send(m: Outbound) | PingSent | GracePeriod | TellServer(reason: nat) | DropPeer

  /** What a round sends: a disconnect only when this side initiates it. */
  function Outgoing(s: Selected): Option<Outbound> {
    match s
    case FromServer(Message) => Some(Data)
    case FromServer(Leave(reason)) => Some(Disconnect(reason))
    case PingDue => Some(Ping)
    case PongDue => Some(Pong)
    case Signal(Local, reason) => Some(Disconnect(reason))
    case Signal(_, _) => None
  }

  /** Why a round ends the session, if it does: an explicit reason wins over a failed send. */
  function Ending(r: Round): Option<nat> {
    match r.selected
    case FromServer(Leave(reason)) => Some(reason)
    case Signal(_, reason) => Some(reason)
    case _ => if r.delivered then None else Some(TCP_SUBSYSTEM_ERROR)
  }

  ghost predicate Ends(rounds: seq<Round>, k: nat) {
    k < |rounds| && Ending(rounds[k]).Some? && forall j: nat :: j < k ==> Ending(rounds[j]).None?
  }

  /** While the session lasts, `next` is called and ordinary messages are sent; nothing else happens. */
  predicate Lasting(e: Effect) {
    e == CallNext || e == PingSent || (e.Send? && !e.m.Disconnect?)
  }

  /** How the ending round closes: its message, a grace period behind a disconnect, then server and peer map. */
  function Closing(r: Round): seq<Effect>
    requires Ending(r).Some?
  {
    var last := [TellServer(Ending(r).value), DropPeer];
    match Outgoing(r.selected)
    case None => last
    case Some(m) => [Send(m)] + (if m.Disconnect? then [GracePeriod] else []) + last
  }

  /** A message taken from the server is followed at once by the next request to it. */
  function Opening(r: Round): seq<Effect> {
    if r.selected == FromServer(Message) then [CallNext] else []
  }

  /** What the first `k` rounds do while none of them ends the session. */
  function Steady(rounds: seq<Round>, k: nat): seq<Effect>
    requires k <= |rounds|
  {
    if k == 0 then [CallNext]
    else
      var r := rounds[k - 1];
      Steady(rounds, k - 1) + Opening(r) + Sending(r)
  }

  /** What a round that does not end the session sends, and whom that releases. */
  function Sending(r: Round): seq<Effect> {
    match Outgoing(r.selected)
    case Some(m) => [Send(m)] + if r.selected == PingDue then [PingSent] else []
    case None => []
  }

  /** The body of the loop: what one selection does, and whether it ends the session. */
  method Body(r: Round) returns (effects: seq<Effect>, ended: bool)
    ensures ended <==> Ending(r).Some?
    ensures effects == Opening(r) + if ended then Closing(r) else Sending(r)
  {
    effects := [];
    var disconnecting: Option<(Initiator, nat)> := None;
    var egress: Option<Outbound> := None;
    var trigger := false;
    match r.selected {
      case FromServer(Message) =>
        effects := effects + [CallNext];
        egress := Some(Data);
      case FromServer(Leave(reason)) =>
        egress := Some(Disconnect(reason));
        disconnecting := Some((Local, reason));
      case PingDue =>
        egress := Some(Ping);
        trigger := true;
      case PongDue => egress := Some(Pong);
      case Signal(initiator, reason) =>
        if initiator == Local { egress := Some(Disconnect(reason)); }
        disconnecting := Some((initiator, reason));
    }
    if egress.Some? {
      effects := effects + [Send(egress.value)];
      if !r.delivered {
        if disconnecting.None? { disconnecting := Some((LocalForceful, TCP_SUBSYSTEM_ERROR)); }
      } else if trigger {
        effects := effects + [PingSent];
      }
    }
    if disconnecting.Some? {
      if disconnecting.value.0 == Local { effects := effects + [GracePeriod]; }
      effects := effects + [TellServer(disconnecting.value.1)];
      effects := effects + [DropPeer];
    }
    ended := disconnecting.Some?;
  }

  /** The loop ends with the first round that has a reason; its effects are the steady ones and then the closing. */
  method EgressLoop(rounds: seq<Round>) returns (log: seq<Effect>, done: bool)
    ensures done <==> exists k: nat :: Ends(rounds, k)
    ensures !done ==> log == Steady(rounds, |rounds|)
    ensures forall k: nat :: Ends(rounds, k) ==> log == Steady(rounds, k) + Opening(rounds[k]) + Closing(rounds[k])
  {
    hide Opening, Closing, Sending, Ending;
    log := [CallNext];
    for k := 0 to |rounds|
      invariant forall j: nat :: j < k ==> Ending(rounds[j]).None?
      invariant log == Steady(rounds, k)
    {
      var effects, ended := Body(rounds[k]);
      log := log + effects;
      if ended {
        assert log == Steady(rounds, k) + Opening(rounds[k]) + Closing(rounds[k]);
        assert Ends(rounds, k) && forall k': nat :: Ends(rounds, k') ==> k' == k;
        return log, true;
      }
      assert log == Steady(rounds, k + 1);
    }
    done := false;
  }

  lemma {:induction false} SteadyLasts(rounds: seq<Round>, k: nat)
    requires k <= |rounds| && forall j: nat :: j < k ==> Ending(rounds[j]).None?
    ensures forall i: nat :: i < |Steady(rounds, k)| ==> Lasting(Steady(rounds, k)[i])
  {
    if k > 0 {
      SteadyLasts(rounds, k - 1);
    }
  }

  /**
   * Before its last effects a session only calls `next` and sends ordinary messages; then the server is told of
   * the disconnect exactly once and `next` is not called again, and a disconnect is the last message sent.
   */
  lemma EndsOnce(rounds: seq<Round>, k: nat)
    requires Ends(rounds, k)
    ensures
      var log := Steady(rounds, k) + Opening(rounds[k]) + Closing(rounds[k]);
      var n := |log| - |Closing(rounds[k])|;
      && (forall i: nat :: i < n ==> Lasting(log[i]))
      && (forall i: nat :: n <= i < |log| ==> log[i] != CallNext && (log[i].TellServer? <==> i == |log| - 2))
      && (forall i: nat, j: nat :: i < j < |log| && log[i].Send? && log[i].m.Disconnect? ==> !log[j].Send?)
  {
    SteadyLasts(rounds, k);
  }

  /** The messages among some effects, in order. */
  function Messages(log: seq<Effect>): seq<Outbound> {
    if log == [] then []
    else Messages(log[..|log| - 1]) + if log[|log| - 1].Send? then [log[|log| - 1].m] else []
  }

  lemma {:induction false} MessagesJoin(a: seq<Effect>, b: seq<Effect>)
    ensures Messages(a + b) == Messages(a) + Messages(b)
    decreases |b|
  {
    if b == [] {
      assert a + b == a && Messages(a) + [] == Messages(a);
    } else {
      var k := |b| - 1;
      MessagesJoin(a, b[..k]);
      assert (a + b)[..|a + b| - 1] == a + b[..k] && (a + b)[|a + b| - 1] == b[k];
    }
  }

  lemma MessagesOne(e: Effect)
    ensures Messages([e]) == if e.Send? then [e.m] else []
  {
    assert [e][..0] == [];
  }

  /** The message of a round that does not end the session. */
  ghost predicate SendsItsMessage(selected: Selected, m: Outbound) {
    && (selected == PingDue <==> m == Ping)
    && (selected == PongDue <==> m == Pong)
    && (selected == FromServer(Message) <==> m == Data)
  }

  lemma RoundMessage(r: Round) returns (m: Outbound)
    requires Ending(r).None?
    ensures Messages(Opening(r) + Sending(r)) == [m] && SendsItsMessage(r.selected, m)
  {
    hide Messages;
    m := Outgoing(r.selected).value;
    MessagesOne(Send(m));
    MessagesOne(PingSent);
    MessagesOne(CallNext);
    MessagesJoin(Opening(r), Sending(r));
    MessagesJoin([Send(m)], [PingSent]);
    MessagesJoin([Send(m)], []);
    assert [Send(m)] + [] == [Send(m)] && [] + Sending(r) == Sending(r);
  }

  /** While the session lasts, each round sends one message: a ping when one is due, a pong when one is due, else data. */
  lemma {:induction false} EachRoundSendsItsMessage(rounds: seq<Round>, k: nat)
    requires k <= |rounds| && forall j: nat :: j < k ==> Ending(rounds[j]).None?
    ensures |Messages(Steady(rounds, k))| == k
    ensures forall i: nat :: i < k ==> SendsItsMessage(rounds[i].selected, Messages(Steady(rounds, k))[i])
  {
    hide Messages, SendsItsMessage, Opening, Sending, Ending;
    if k == 0 {
      MessagesOne(CallNext);
    } else {
      var r := rounds[k - 1];
      EachRoundSendsItsMessage(rounds, k - 1);
      MessagesJoin(Steady(rounds, k - 1), Opening(r) + Sending(r));
      var m := RoundMessage(r);
      assert Steady(rounds, k) == Steady(rounds, k - 1) + (Opening(r) + Sending(r));
    }
  }

  function HowOften(rounds: seq<Round>, k: nat, selected: Selected): nat
    requires k <= |rounds|
  {
    if k == 0 then 0 else HowOften(rounds, k - 1, selected) + if rounds[k - 1].selected == selected then 1 else 0
  }

  function Times(log: seq<Effect>, e: Effect): nat {
    multiset(log)[e]
  }

  lemma TimesJoin(a: seq<Effect>, b: seq<Effect>, e: Effect)
    ensures Times(a + b, e) == Times(a, e) + Times(b, e)
  {
  }

  lemma RoundCalls(r: Round)
    ensures Times(Opening(r) + Sending(r), CallNext) == if r.selected == FromServer(Message) then 1 else 0
    ensures Times(Opening(r) + Sending(r), PingSent) == if r.selected == PingDue then 1 else 0
  {
  }

  lemma FirstCall()
    ensures Times([CallNext], CallNext) == 1 && Times([CallNext], PingSent) == 0
  {
  }

  /** `next` is called once and then once for each message it gave, and each ping releases its pinger. */
  lemma {:induction false} CallsMatchEvents(rounds: seq<Round>, k: nat)
    requires k <= |rounds|
    ensures Times(Steady(rounds, k), CallNext) == 1 + HowOften(rounds, k, FromServer(Message))
    ensures Times(Steady(rounds, k), PingSent) == HowOften(rounds, k, PingDue)
  {
    hide Opening, Sending, Times;
    FirstCall();
    if k > 0 {
      CallsMatchEvents(rounds, k - 1);
      var before, more := Steady(rounds, k - 1), Opening(rounds[k - 1]) + Sending(rounds[k - 1]);
      RoundCalls(rounds[k - 1]);
      assert Steady(rounds, k) == before + more;
      TimesJoin(before, more, CallNext);
      TimesJoin(before, more, PingSent);
    }
  }

  /**
   * How a session ends. A disconnect by the server or by this side is sent with its reason, given its time, and
   * told with that reason; one by the peer or a forced one is only told; a message that cannot be sent ends the
   * session with a transport error. After a disconnect event `next` is not called.
   */
  lemma HowSessionsEnd(rounds: seq<Round>, k: nat)
    requires Ends(rounds, k)
    ensures
      var last := Opening(rounds[k]) + Closing(rounds[k]);
      match rounds[k].selected
      case FromServer(Leave(reason)) => last == [Send(Disconnect(reason)), GracePeriod, TellServer(reason), DropPeer]
      case Signal(Local, reason) => last == [Send(Disconnect(reason)), GracePeriod, TellServer(reason), DropPeer]
      case Signal(_, reason) => last == [TellServer(reason), DropPeer]
      case FromServer(Message) => last == [CallNext, Send(Data), TellServer(1), DropPeer] && !rounds[k].delivered
      case PingDue => last == [Send(Ping), TellServer(1), DropPeer] && !rounds[k].delivered
      case PongDue => last == [Send(Pong), TellServer(1), DropPeer] && !rounds[k].delivered
  {
  }
}
