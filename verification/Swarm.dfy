/** Dials, reapers, incoming connections and sessions sharing one locked peer map: one step per atomic region. */
module Swarm {
  type PeerId(==, !new) = nat
  const WRAP: nat := 0x1_0000_0000_0000_0000

  /** Connection ids are fresh: a dial's id is its index, a session's id its index. */
  datatype Entry = Connecting(dial: nat) | Connected(session: nat)

  /** Where the future returned by `add_peer_inner` is. */
  datatype Stage = Unpolled | Counted | Handshaking | Finished

  /** The oneshot channel to the reaper: still held, fired on adoption, or dropped with the future. */
  datatype Signal = Held | Sent | Dropped

  datatype Reaper = Waiting | Cleaned | Done

  datatype Dial = Dial(peer: PeerId, checked: bool, stage: Stage, signal: Signal, reaper: Reaper, counted: bool)

  datatype Phase = Running | Leaving | TornDown | Gone

  datatype Session = Session(peer: PeerId, phase: Phase)

  /**
   * `unchecked` records which present entries an unchecked dial inserted; `fault` records that an `assert!` or
   * `unwrap` of the capability server fired. `pipes` maps a peer to the session its pipes serve.
   */
  datatype State = State(
    maxPeers: nat, banned: set<PeerId>,
    mapping: map<PeerId, Entry>, dials: seq<Dial>, sessions: seq<Session>, counter: nat,
    pipes: map<PeerId, nat>, blocks: map<PeerId, nat>, unchecked: set<PeerId>, fault: bool)
  {
    /** `NodeFilter::allow`. */
    predicate Allow(peer: PeerId) {
      |mapping| < maxPeers && peer !in banned
    }

    /** `setup_peer_state`: registers the pipes, then the entry becomes connected. */
    function Adopt(peer: PeerId): State {
      this.(
        mapping := mapping[peer := Connected(|sessions|)],
        sessions := sessions + [Session(peer, Running)],
        pipes := pipes[peer := |sessions|],
        blocks := blocks[peer := 0],
        fault := fault || peer in pipes)
    }

    function Remove(peer: PeerId): State {
      this.(mapping := mapping - {peer}, unchecked := unchecked - {peer})
    }

    function SetDial(d: nat, dial: Dial): State
      requires d < |dials|
    {
      this.(dials := dials[d := dial])
    }

    function SetPhase(i: nat, phase: Phase): State
      requires i < |sessions|
    {
      this.(sessions := sessions[i := sessions[i].(phase := phase)])
    }
  }

  datatype Action =
    | Call(peer: PeerId, checked: bool)  // add_peer_inner: spawn the reaper, return the future
    | Count(d: nat)                      // first poll: count the dial
    | Insert(d: nat)                     // first lock region of the future
    | Abandon(d: nat)                    // the future is dropped at an await point
    | Complete(d: nat, ok: bool)         // second lock region, after the handshake
    | ReapEntry(d: nat)                  // the reaper's lock region
    | ReapCount(d: nat)                  // the reaper's last statement
    | Incoming(peer: PeerId)             // handle_incoming_request after a good handshake
    | PollNext(i: nat)                   // a session's egress loop asks for its next event
    | Leave(i: nat)                      // its loop has a reason to disconnect
    | Teardown(i: nat)                   // the Disconnect event reaches the capability server
    | Disconnect(i: nat)                 // its last statement drops the peer
    | Ban(peer: PeerId)                  // the node filter bans a peer

  function Initial(maxPeers: nat, banned: set<PeerId>): State {
    State(maxPeers, banned, map[], [], [], 0, map[], map[], {}, false)
  }

  /** The guard of a step. */
  predicate Enabled(s: State, a: Action) {
    match a
    case Call(_, _) => true
    case Count(d) => d < |s.dials| && s.dials[d].stage == Unpolled
    case Insert(d) => d < |s.dials| && s.dials[d].stage == Counted
    case Abandon(d) => d < |s.dials| && (s.dials[d].stage == Unpolled || s.dials[d].stage == Handshaking)
    case Complete(d, _) => d < |s.dials| && s.dials[d].stage == Handshaking
    case ReapEntry(d) => d < |s.dials| && s.dials[d].signal != Held && s.dials[d].reaper == Waiting
    case ReapCount(d) => d < |s.dials| && s.dials[d].reaper == Cleaned
    case Incoming(_) => true
    case PollNext(i) => i < |s.sessions| && s.sessions[i].phase == Running
    case Leave(i) => i < |s.sessions| && s.sessions[i].phase == Running
    case Teardown(i) => i < |s.sessions| && s.sessions[i].phase == Leaving
    case Disconnect(i) => i < |s.sessions| && s.sessions[i].phase == TornDown
    case Ban(_) => true
  }

  function Called(s: State, peer: PeerId, checked: bool): State {
    s.(dials := s.dials + [Dial(peer, checked, Unpolled, Held, Waiting, false)])
  }

  function CountedIn(s: State, d: nat): State
    requires d < |s.dials|
  {
    s.SetDial(d, s.dials[d].(stage := Counted, counted := true)).(counter := (s.counter + 1) % WRAP)
  }

  function Inserted(s: State, d: nat): State
    requires d < |s.dials|
  {
    var dial := s.dials[d];
    if dial.peer in s.mapping || (dial.checked && !s.Allow(dial.peer)) then Abandoned(s, d)
    else
      s.SetDial(d, dial.(stage := Handshaking)).(
        mapping := s.mapping[dial.peer := Connecting(d)],
        unchecked := if dial.checked then s.unchecked else s.unchecked + {dial.peer})
  }

  /** The future is gone, and with it the sending half of its channel. */
  function Abandoned(s: State, d: nat): State
    requires d < |s.dials|
  {
    s.SetDial(d, s.dials[d].(stage := Finished, signal := Dropped))
  }

  /** The entry is adopted or removed without comparing connection ids. */
  function Completed(s: State, d: nat, ok: bool): State
    requires d < |s.dials|
  {
    var dial := s.dials[d];
    if dial.peer !in s.mapping || s.mapping[dial.peer].Connected? then Abandoned(s, d)
    else if ok then s.SetDial(d, dial.(stage := Finished, signal := Sent)).Adopt(dial.peer)
    else Abandoned(s, d).Remove(dial.peer)
  }

  function Reaped(s: State, d: nat): State
    requires d < |s.dials|
  {
    var dial := s.dials[d];
    var s' := s.SetDial(d, dial.(reaper := Cleaned));
    if dial.signal == Dropped && dial.peer in s.mapping && s.mapping[dial.peer] == Connecting(d) then
      s'.Remove(dial.peer)
    else s'
  }

  function CountedOut(s: State, d: nat): State
    requires d < |s.dials|
  {
    s.SetDial(d, s.dials[d].(reaper := Done)).(counter := (s.counter - 1) % WRAP)
  }

  function Accepted(s: State, peer: PeerId): State {
    if peer in s.mapping || !s.Allow(peer) then s else s.Adopt(peer)
  }

  /** `next` unwraps the receiver of the peer's pipes. */
  function Polled(s: State, i: nat): State
    requires i < |s.sessions|
  {
    s.(fault := s.fault || s.sessions[i].peer !in s.pipes)
  }

  /** `teardown_peer`. */
  function TornDownBy(s: State, i: nat): State
    requires i < |s.sessions|
  {
    var peer := s.sessions[i].peer;
    s.SetPhase(i, TornDown).(pipes := s.pipes - {peer}, blocks := s.blocks - {peer})
  }

  /** `disconnect_peer`: removes whatever entry the peer has. */
  function Disconnected(s: State, i: nat): State
    requires i < |s.sessions|
  {
    s.SetPhase(i, Gone).Remove(s.sessions[i].peer)
  }

  function Next(s: State, a: Action): State
    requires Enabled(s, a)
  {
    match a
    case Call(peer, checked) => Called(s, peer, checked)
    case Count(d) => CountedIn(s, d)
    case Insert(d) => Inserted(s, d)
    case Abandon(d) => Abandoned(s, d)
    case Complete(d, ok) => Completed(s, d, ok)
    case ReapEntry(d) => Reaped(s, d)
    case ReapCount(d) => CountedOut(s, d)
    case Incoming(peer) => Accepted(s, peer)
    case PollNext(i) => Polled(s, i)
    case Leave(i) => s.SetPhase(i, Leaving)
    case Teardown(i) => TornDownBy(s, i)
    case Disconnect(i) => Disconnected(s, i)
    case Ban(peer) => s.(banned := s.banned + {peer})
  }

  /** A run: steps whose guard fails are skipped. */
  function Run(s: State, actions: seq<Action>): State
    decreases |actions|
  {
    if actions == [] then s
    else Run(if Enabled(s, actions[0]) then Next(s, actions[0]) else s, actions[1..])
  }

  // Who owns an entry

  ghost predicate EntryOwned(s: State, peer: PeerId)
    requires peer in s.mapping
  {
    match s.mapping[peer]
    case Connecting(d) =>
      && d < |s.dials| && s.dials[d].peer == peer
      && (s.dials[d].stage == Handshaking || (s.dials[d].signal == Dropped && s.dials[d].reaper == Waiting))
    case Connected(i) => i < |s.sessions| && s.sessions[i].peer == peer && s.sessions[i].phase != Gone
  }

  ghost predicate DialOwns(s: State, d: nat)
    requires d < |s.dials|
  {
    var dial := s.dials[d];
    && (dial.stage == Finished <==> dial.signal != Held)
    && (dial.reaper != Waiting ==> dial.signal != Held)
    && (dial.stage == Unpolled ==> !dial.counted)
    && (dial.stage == Handshaking ==> dial.peer in s.mapping && s.mapping[dial.peer] == Connecting(d))
  }

  ghost predicate SessionOwns(s: State, i: nat)
    requires i < |s.sessions|
  {
    var c := s.sessions[i];
    c.phase != Gone ==> c.peer in s.mapping && s.mapping[c.peer] == Connected(i)
  }

  /** The session holding a peer's entry has its pipes registered. */
  ghost predicate Serving(s: State, peer: PeerId) {
    && peer in s.mapping && s.mapping[peer].Connected?
    && var i := s.mapping[peer].session;
    i < |s.sessions| && (s.sessions[i].phase == Running || s.sessions[i].phase == Leaving)
  }

  ghost predicate PipeServes(s: State, peer: PeerId) {
    && (peer in s.pipes <==> Serving(s, peer))
    && (peer in s.pipes ==> s.pipes[peer] == s.mapping[peer].session)
  }

  ghost predicate Owned(s: State) {
    && (forall peer :: peer in s.mapping ==> EntryOwned(s, peer))
    && (forall d: nat :: d < |s.dials| ==> DialOwns(s, d))
    && (forall i: nat :: i < |s.sessions| ==> SessionOwns(s, i))
    && (forall peer :: PipeServes(s, peer))
    && s.blocks.Keys == s.pipes.Keys
    && !s.fault
  }

  lemma OwnedFacts(s: State, peer: PeerId, d: nat, i: nat)
    requires Owned(s)
    ensures peer in s.mapping ==> EntryOwned(s, peer)
    ensures d < |s.dials| ==> DialOwns(s, d)
    ensures i < |s.sessions| ==> SessionOwns(s, i)
    ensures PipeServes(s, peer)
  {
  }

  /** Steps that change one dial, and at most that dial's own or a vacant entry. */
  ghost predicate Touches(s: State, s': State, d: nat) {
    && |s.dials| <= |s'.dials|
    && s'.(dials := s.dials, mapping := s.mapping, unchecked := s.unchecked, counter := s.counter) == s
    && d < |s'.dials|
    && (forall e: nat :: e < |s'.dials| && e != d ==> e < |s.dials| && s'.dials[e] == s.dials[e])
    && (forall peer :: peer in s.mapping && peer !in s'.mapping ==> s.mapping[peer] == Connecting(d))
    && (forall peer :: peer in s'.mapping ==>
          s'.mapping[peer] == if peer in s.mapping then s.mapping[peer] else Connecting(d))
  }

  lemma TouchKeepsOwned(s: State, s': State, d: nat)
    requires Owned(s) && Touches(s, s', d)
    requires DialOwns(s', d)
    requires forall peer :: peer in s'.mapping && s'.mapping[peer] == Connecting(d) ==> EntryOwned(s', peer)
    ensures Owned(s')
  {
    forall e: nat | e < |s'.dials| ensures DialOwns(s', e) {
      if e != d { assert s'.dials[e] == s.dials[e] && DialOwns(s, e); }
    }
    forall peer | peer in s'.mapping ensures EntryOwned(s', peer) {
      if peer in s.mapping { assert EntryOwned(s, peer); }
    }
    forall i: nat | i < |s'.sessions| ensures SessionOwns(s', i) { assert SessionOwns(s, i); }
    forall peer ensures PipeServes(s', peer) { assert PipeServes(s, peer); }
  }

  lemma CountStep(s: State, d: nat)
    requires Owned(s) && d < |s.dials|
    ensures s.dials[d].stage == Unpolled ==> Owned(CountedIn(s, d))
    ensures s.dials[d].reaper == Cleaned ==> Owned(CountedOut(s, d))
  {
    hide Owned;
    OwnedFacts(s, s.dials[d].peer, d, 0);
    EntriesOf(s, d);
    if s.dials[d].stage == Unpolled { TouchKeepsOwned(s, CountedIn(s, d), d); }
    if s.dials[d].reaper == Cleaned { TouchKeepsOwned(s, CountedOut(s, d), d); }
  }

  lemma AbandonStep(s: State, d: nat)
    requires Owned(s) && d < |s.dials| && s.dials[d].signal == Held
    ensures Owned(Abandoned(s, d))
  {
    hide Owned;
    OwnedFacts(s, s.dials[d].peer, d, 0);
    EntriesOf(s, d);
    TouchKeepsOwned(s, Abandoned(s, d), d);
  }

  /** An entry naming a dial is under that dial's peer, and the dial is live or awaits its reaper. */
  lemma EntriesOf(s: State, d: nat)
    requires Owned(s) && d < |s.dials|
    ensures forall peer :: peer in s.mapping && s.mapping[peer] == Connecting(d) ==>
      && peer == s.dials[d].peer
      && (s.dials[d].stage == Handshaking || (s.dials[d].signal == Dropped && s.dials[d].reaper == Waiting))
  {
    forall peer | peer in s.mapping && s.mapping[peer] == Connecting(d)
      ensures
        && peer == s.dials[d].peer
        && (s.dials[d].stage == Handshaking || (s.dials[d].signal == Dropped && s.dials[d].reaper == Waiting))
    {
      assert EntryOwned(s, peer);
    }
  }

  lemma CallStep(s: State, peer: PeerId, checked: bool)
    requires Owned(s)
    ensures Owned(Called(s, peer, checked))
  {
    var s' := Called(s, peer, checked);
    var d := |s.dials|;
    forall q | q in s.mapping ensures s.mapping[q] != Connecting(d) {
      assert EntryOwned(s, q);
    }
    TouchKeepsOwned(s, s', d);
  }

  lemma InsertStep(s: State, d: nat)
    requires Owned(s) && d < |s.dials| && s.dials[d].stage == Counted
    ensures Owned(Inserted(s, d))
  {
    hide Owned;
    var dial := s.dials[d];
    OwnedFacts(s, dial.peer, d, 0);
    if dial.peer in s.mapping || (dial.checked && !s.Allow(dial.peer)) {
      AbandonStep(s, d);
    } else {
      EntriesOf(s, d);
      TouchKeepsOwned(s, Inserted(s, d), d);
    }
  }

  lemma ReapStep(s: State, d: nat)
    requires Owned(s) && d < |s.dials| && s.dials[d].signal != Held && s.dials[d].reaper == Waiting
    ensures Owned(Reaped(s, d))
  {
    hide Owned;
    OwnedFacts(s, s.dials[d].peer, d, 0);
    EntriesOf(s, d);
    TouchKeepsOwned(s, Reaped(s, d), d);
  }

  lemma FailStep(s: State, d: nat)
    requires Owned(s) && d < |s.dials| && s.dials[d].stage == Handshaking
    ensures Owned(Completed(s, d, false))
  {
    hide Owned;
    OwnedFacts(s, s.dials[d].peer, d, 0);
    EntriesOf(s, d);
    TouchKeepsOwned(s, Completed(s, d, false), d);
  }

  /** Adopting a peer whose entry is vacant or the adopter's own. */
  lemma AdoptStep(s: State, peer: PeerId)
    requires Owned(s)
    requires peer in s.mapping ==>
      s.mapping[peer].Connecting? && s.mapping[peer].dial < |s.dials| && s.dials[s.mapping[peer].dial].stage == Finished
    ensures Owned(s.Adopt(peer))
  {
    var s' := s.Adopt(peer);
    assert PipeServes(s, peer);
    forall e: nat | e < |s'.dials| ensures DialOwns(s', e) { assert DialOwns(s, e); }
    forall q | q in s'.mapping ensures EntryOwned(s', q) {
      if q != peer { assert EntryOwned(s, q); }
    }
    forall i: nat | i < |s'.sessions| ensures SessionOwns(s', i) {
      if i < |s.sessions| { assert SessionOwns(s, i); }
    }
    forall q ensures PipeServes(s', q) {
      assert PipeServes(s, q);
      if q in s.mapping { assert EntryOwned(s, q); }
    }
  }

  lemma SucceedStep(s: State, d: nat)
    requires Owned(s) && d < |s.dials| && s.dials[d].stage == Handshaking
    ensures Owned(Completed(s, d, true))
  {
    var dial := s.dials[d];
    assert DialOwns(s, d);
    var mid := Abandoned(s, d);
    AbandonStep(s, d);
    AdoptStep(mid, dial.peer);
    var s' := Completed(s, d, true);
    var t := mid.Adopt(dial.peer);
    assert s' == t.SetDial(d, t.dials[d].(signal := Sent));
    forall peer | peer in s'.mapping ensures s'.mapping[peer] != Connecting(d) {
      if peer in s.mapping { assert EntryOwned(s, peer); }
    }
    assert DialOwns(t, d);
    TouchKeepsOwned(t, s', d);
  }

  lemma SessionStep(s: State, i: nat)
    requires Owned(s) && i < |s.sessions|
    ensures s.sessions[i].phase == Running ==> Owned(Polled(s, i)) && Owned(s.SetPhase(i, Leaving))
    ensures s.sessions[i].phase == Leaving ==> Owned(TornDownBy(s, i))
    ensures s.sessions[i].phase == TornDown ==> Owned(Disconnected(s, i))
  {
    assert SessionOwns(s, i) && PipeServes(s, s.sessions[i].peer);
    if s.sessions[i].phase == Running { PhaseStep(s, s.SetPhase(i, Leaving), i); }
    if s.sessions[i].phase == Leaving { PhaseStep(s, TornDownBy(s, i), i); }
    if s.sessions[i].phase == TornDown { PhaseStep(s, Disconnected(s, i), i); }
  }

  /** One session moves on, and with it only its own peer's pipes and entry. */
  lemma PhaseStep(s: State, s': State, i: nat)
    requires Owned(s) && i < |s.sessions| && s.sessions[i].phase != Gone
    requires || (s.sessions[i].phase == Running && s' == s.SetPhase(i, Leaving))
             || (s.sessions[i].phase == Leaving && s' == TornDownBy(s, i))
             || (s.sessions[i].phase == TornDown && s' == Disconnected(s, i))
    ensures Owned(s')
  {
    assert SessionOwns(s, i) && PipeServes(s, s.sessions[i].peer);
    forall e: nat | e < |s'.dials| ensures DialOwns(s', e) { assert DialOwns(s, e); }
    forall peer | peer in s'.mapping ensures EntryOwned(s', peer) { assert EntryOwned(s, peer); }
    forall j: nat | j < |s'.sessions| ensures SessionOwns(s', j) { assert SessionOwns(s, j); }
    forall peer ensures PipeServes(s', peer) {
      assert PipeServes(s, peer);
      if peer in s.mapping { assert EntryOwned(s, peer); }
    }
  }

  lemma BanStep(s: State, peer: PeerId)
    requires Owned(s)
    ensures Owned(s.(banned := s.banned + {peer}))
  {
    var s' := s.(banned := s.banned + {peer});
    forall e: nat | e < |s'.dials| ensures DialOwns(s', e) { assert DialOwns(s, e); }
    forall q | q in s'.mapping ensures EntryOwned(s', q) { assert EntryOwned(s, q); }
    forall j: nat | j < |s'.sessions| ensures SessionOwns(s', j) { assert SessionOwns(s, j); }
    forall q ensures PipeServes(s', q) { assert PipeServes(s, q); }
  }

  lemma OwnedStep(s: State, a: Action)
    requires Owned(s) && Enabled(s, a)
    ensures Owned(Next(s, a))
  {
    hide Owned, Called, CountedIn, Inserted, Abandoned, Completed, Reaped, CountedOut, Polled, TornDownBy, Disconnected;
    match a
    case Call(peer, checked) => CallStep(s, peer, checked);
    case Count(d) => CountStep(s, d);
    case Insert(d) => InsertStep(s, d);
    case Abandon(d) => OwnedFacts(s, 0, d, 0); AbandonStep(s, d);
    case Complete(d, ok) => if ok { SucceedStep(s, d); } else { FailStep(s, d); }
    case ReapEntry(d) => ReapStep(s, d);
    case ReapCount(d) => CountStep(s, d);
    case Incoming(peer) => if peer !in s.mapping { AdoptStep(s, peer); }
    case PollNext(i) => SessionStep(s, i);
    case Leave(i) => SessionStep(s, i);
    case Teardown(i) => SessionStep(s, i);
    case Disconnect(i) => SessionStep(s, i);
    case Ban(peer) => BanStep(s, peer);
  }

  // How many entries, how many dials

  /** Entries beyond the limit were all inserted by unchecked dials. */
  ghost predicate Bounded(s: State) {
    && s.unchecked <= s.mapping.Keys
    && |s.mapping| <= s.maxPeers + |s.unchecked|
  }

  lemma RemoveSize(m: map<PeerId, Entry>, peer: PeerId)
    ensures |m - {peer}| == if peer in m then |m| - 1 else |m|
  {
    assert (m - {peer}).Keys == m.Keys - {peer};
  }

  lemma InsertSize(m: map<PeerId, Entry>, peer: PeerId, e: Entry)
    ensures |m[peer := e]| == if peer in m then |m| else |m| + 1
  {
    assert m[peer := e].Keys == m.Keys + {peer};
  }

  lemma RemoveBounded(s: State, peer: PeerId)
    requires Bounded(s)
    ensures Bounded(s.Remove(peer))
  {
    RemoveSize(s.mapping, peer);
    if peer !in s.mapping {
      assert s.unchecked - {peer} == s.unchecked;
    }
  }

  lemma InsertBounded(s: State, d: nat)
    requires Bounded(s) && d < |s.dials|
    ensures Bounded(Inserted(s, d))
  {
    var peer := s.dials[d].peer;
    if peer !in s.mapping {
      InsertSize(s.mapping, peer, Connecting(d));
      assert |s.unchecked + {peer}| == |s.unchecked| + 1;
    }
  }

  lemma AdoptBounded(s: State, peer: PeerId)
    requires Bounded(s) && (peer in s.mapping || s.Allow(peer))
    ensures Bounded(s.Adopt(peer))
  {
    InsertSize(s.mapping, peer, Connected(|s.sessions|));
  }

  lemma CompleteBounded(s: State, d: nat, ok: bool)
    requires Bounded(s) && d < |s.dials|
    ensures Bounded(Completed(s, d, ok))
  {
    var dial := s.dials[d];
    if dial.peer in s.mapping {
      AdoptBounded(s.SetDial(d, dial.(stage := Finished, signal := Sent)), dial.peer);
      RemoveBounded(Abandoned(s, d), dial.peer);
    }
  }

  lemma ReapBounded(s: State, d: nat)
    requires Bounded(s) && d < |s.dials|
    ensures Bounded(Reaped(s, d))
  {
    var dial := s.dials[d];
    RemoveBounded(s.SetDial(d, dial.(reaper := Cleaned)), dial.peer);
  }

  lemma AcceptBounded(s: State, peer: PeerId)
    requires Bounded(s)
    ensures Bounded(Accepted(s, peer))
  {
    if peer !in s.mapping && s.Allow(peer) { AdoptBounded(s, peer); }
  }

  lemma DropBounded(s: State, i: nat)
    requires Bounded(s) && i < |s.sessions|
    ensures Bounded(Disconnected(s, i))
  {
    RemoveBounded(s.SetPhase(i, Gone), s.sessions[i].peer);
  }

  lemma BoundedFrame(s: State, s': State)
    requires Bounded(s) && s'.mapping == s.mapping && s'.unchecked == s.unchecked && s'.maxPeers == s.maxPeers
    ensures Bounded(s')
  {
  }

  lemma BoundedStep(s: State, a: Action)
    requires Bounded(s) && Enabled(s, a)
    ensures Bounded(Next(s, a))
  {
    hide Bounded, Inserted, Completed, Reaped, Accepted, Disconnected;
    match a
    case Insert(d) => InsertBounded(s, d);
    case Complete(d, ok) => CompleteBounded(s, d, ok);
    case ReapEntry(d) => ReapBounded(s, d);
    case Incoming(peer) => AcceptBounded(s, peer);
    case Disconnect(i) => DropBounded(s, i);
    case _ => BoundedFrame(s, Next(s, a));
  }

  lemma LimitConstant(s: State, a: Action)
    requires Enabled(s, a)
    ensures Next(s, a).maxPeers == s.maxPeers
  {
  }

  /** Dials counted whose reaper has not finished. */
  function Outstanding(dials: seq<Dial>): nat {
    if dials == [] then 0
    else
      var d := dials[|dials| - 1];
      Outstanding(dials[..|dials| - 1]) + if d.counted && d.reaper != Done then 1 else 0
  }

  /** Dials whose reaper finished although their future was dropped before its first poll. */
  function NeverPolled(dials: seq<Dial>): nat {
    if dials == [] then 0
    else
      var d := dials[|dials| - 1];
      NeverPolled(dials[..|dials| - 1]) + if !d.counted && d.reaper == Done then 1 else 0
  }

  function Weight(d: Dial): int {
    (if d.counted && d.reaper != Done then 1 else 0) - (if !d.counted && d.reaper == Done then 1 else 0)
  }

  ghost predicate CounterExact(s: State) {
    s.counter == (Outstanding(s.dials) - NeverPolled(s.dials)) % WRAP
  }

  lemma {:induction false} SetDialWeight(dials: seq<Dial>, d: nat, dial: Dial)
    requires d < |dials|
    ensures Outstanding(dials[d := dial]) - NeverPolled(dials[d := dial])
         == Outstanding(dials) - NeverPolled(dials) + Weight(dial) - Weight(dials[d])
    decreases |dials|
  {
    var n := |dials| - 1;
    if d == n {
      assert dials[d := dial][..n] == dials[..n];
    } else {
      assert dials[d := dial][..n] == dials[..n][d := dial];
      SetDialWeight(dials[..n], d, dial);
    }
  }

  lemma WrapStep(x: int, k: int)
    ensures (x % WRAP + k) % WRAP == (x + k) % WRAP
  {
    var q := x / WRAP;
    assert x == q * WRAP + x % WRAP;
    assert (x + k) == q * WRAP + (x % WRAP + k);
    var y := x % WRAP + k;
    assert (q * WRAP + y) % WRAP == y % WRAP by {
      var r := y / WRAP;
      assert y == r * WRAP + y % WRAP;
      assert q * WRAP + y == (q + r) * WRAP + y % WRAP;
    }
  }

  lemma CounterDial(s: State, d: nat, dial: Dial, k: int)
    requires CounterExact(s) && d < |s.dials| && Weight(dial) == Weight(s.dials[d]) + k
    ensures CounterExact(s.SetDial(d, dial).(counter := (s.counter + k) % WRAP))
  {
    SetDialWeight(s.dials, d, dial);
    WrapStep(Outstanding(s.dials) - NeverPolled(s.dials), k);
  }

  /** A step that changes one dial without changing its weight. */
  lemma CounterSame(s: State, s': State, d: nat)
    requires CounterExact(s) && d < |s.dials| && |s'.dials| == |s.dials| && s'.counter == s.counter
    requires s'.dials == s.dials[d := s'.dials[d]] && Weight(s'.dials[d]) == Weight(s.dials[d])
    ensures CounterExact(s')
  {
    SetDialWeight(s.dials, d, s'.dials[d]);
  }

  lemma CounterCall(s: State, peer: PeerId, checked: bool)
    requires CounterExact(s)
    ensures CounterExact(Called(s, peer, checked))
  {
    var s' := Called(s, peer, checked);
    assert s'.dials[..|s'.dials| - 1] == s.dials;
  }

  lemma CounterStep(s: State, a: Action)
    requires Owned(s) && CounterExact(s) && Enabled(s, a)
    ensures CounterExact(Next(s, a))
  {
    hide CounterExact, Owned, Weight;
    match a
    case Call(peer, checked) => CounterCall(s, peer, checked);
    case Count(d) => CounterCounted(s, d);
    case ReapCount(d) => CounterCounted(s, d);
    case Insert(d) => CounterDialSteps(s, d, false);
    case Abandon(d) => CounterDialSteps(s, d, false);
    case Complete(d, ok) => CounterDialSteps(s, d, ok);
    case ReapEntry(d) => CounterDialSteps(s, d, false);
    case _ => CounterFrame(s, Next(s, a));
  }

  lemma CounterFrame(s: State, s': State)
    requires CounterExact(s) && s'.dials == s.dials && s'.counter == s.counter
    ensures CounterExact(s')
  {
  }

  lemma CounterCounted(s: State, d: nat)
    requires Owned(s) && CounterExact(s) && d < |s.dials|
    ensures s.dials[d].stage == Unpolled ==> CounterExact(CountedIn(s, d))
    ensures s.dials[d].reaper == Cleaned ==> CounterExact(CountedOut(s, d))
  {
    hide CounterExact;
    OwnedFacts(s, 0, d, 0);
    if s.dials[d].stage == Unpolled { CounterDial(s, d, s.dials[d].(stage := Counted, counted := true), 1); }
    if s.dials[d].reaper == Cleaned { CounterDial(s, d, s.dials[d].(reaper := Done), -1); }
  }

  lemma CounterDialSteps(s: State, d: nat, ok: bool)
    requires CounterExact(s) && d < |s.dials|
    ensures CounterExact(Inserted(s, d)) && CounterExact(Abandoned(s, d)) && CounterExact(Completed(s, d, ok))
    ensures s.dials[d].reaper == Waiting ==> CounterExact(Reaped(s, d))
  {
    hide CounterExact;
    CounterSame(s, Inserted(s, d), d);
    CounterSame(s, Abandoned(s, d), d);
    CounterSame(s, Completed(s, d, ok), d);
    if s.dials[d].reaper == Waiting { CounterSame(s, Reaped(s, d), d); }
  }

  // Every run

  ghost predicate Inv(s: State) {
    Owned(s) && Bounded(s) && CounterExact(s)
  }

  lemma InvStep(s: State, a: Action)
    requires Inv(s) && Enabled(s, a)
    ensures Inv(Next(s, a)) && Next(s, a).maxPeers == s.maxPeers
  {
    hide Owned, Bounded, CounterExact, Next;
    OwnedStep(s, a);
    BoundedStep(s, a);
    LimitConstant(s, a);
    CounterStep(s, a);
  }

  lemma {:induction false} InvRun(s: State, actions: seq<Action>)
    requires Inv(s)
    ensures Inv(Run(s, actions)) && Run(s, actions).maxPeers == s.maxPeers
    decreases |actions|
  {
    hide Inv, Next;
    if actions != [] {
      var a := actions[0];
      if Enabled(s, a) { InvStep(s, a); }
      InvRun(if Enabled(s, a) then Next(s, a) else s, actions[1..]);
    }
  }

  ghost predicate Reachable(s: State) {
    exists maxPeers, banned, actions :: s == Run(Initial(maxPeers, banned), actions)
  }

  lemma ReachableInv(s: State)
    requires Reachable(s)
    ensures Inv(s)
  {
    var maxPeers, banned, actions :| s == Run(Initial(maxPeers, banned), actions);
    InvRun(Initial(maxPeers, banned), actions);
  }

  /**
   * A live dial that inserted its entry still finds it on completion, so adopting or removing the entry without
   * comparing connection ids touches only the dial's own connection.
   */
  lemma LiveDialFindsItsEntry(s: State, d: nat, ok: bool)
    requires Reachable(s) && Enabled(s, Complete(d, ok))
    ensures
      var peer := s.dials[d].peer;
      var s' := Next(s, Complete(d, ok));
      && peer in s.mapping && s.mapping[peer] == Connecting(d)
      && s'.mapping == (if ok then s.mapping[peer := Connected(|s.sessions|)] else s.mapping - {peer})
      && s'.dials[d].signal == (if ok then Sent else Dropped)
  {
    ReachableInv(s);
    OwnedFacts(s, s.dials[d].peer, d, 0);
  }

  /** A reaper removes at most its own dial's entry, and only once that dial is over; connected entries stay. */
  lemma ReaperTakesOnlyItsOwn(s: State, d: nat, peer: PeerId)
    requires Reachable(s) && Enabled(s, ReapEntry(d)) && peer in s.mapping
    ensures
      var s' := Next(s, ReapEntry(d));
      if s.mapping[peer] == Connecting(d) then
        s.dials[d].peer == peer && s.dials[d].stage == Finished && peer !in s'.mapping
      else peer in s'.mapping && s'.mapping[peer] == s.mapping[peer]
  {
    ReachableInv(s);
    OwnedFacts(s, peer, d, 0);
  }

  /** The last statement of a session removes that session's own entry and no other. */
  lemma SessionDropsItsOwn(s: State, i: nat)
    requires Reachable(s) && Enabled(s, Disconnect(i))
    ensures
      var peer := s.sessions[i].peer;
      && peer in s.mapping && s.mapping[peer] == Connected(i)
      && Next(s, Disconnect(i)).mapping == s.mapping - {peer}
  {
    ReachableInv(s);
    OwnedFacts(s, 0, 0, i);
  }

  ghost predicate Live(s: State, i: nat, peer: PeerId) {
    i < |s.sessions| && s.sessions[i].peer == peer && (s.sessions[i].phase == Running || s.sessions[i].phase == Leaving)
  }

  /**
   * No `assert!` or `unwrap` of the capability server fires, the tracked peers are those with pipes, and a peer
   * has pipes exactly while a session of it is connected and not torn down, also across reconnections.
   */
  lemma PipesServeLiveSessions(s: State, peer: PeerId)
    requires Reachable(s)
    ensures !s.fault && s.blocks.Keys == s.pipes.Keys
    ensures peer in s.pipes <==> exists i: nat :: Live(s, i, peer)
    ensures forall i: nat, j: nat :: Live(s, i, peer) && Live(s, j, peer) ==> i == j
  {
    ReachableInv(s);
    OwnedFacts(s, peer, 0, 0);
    if peer in s.pipes {
      assert Live(s, s.mapping[peer].session, peer);
    }
    forall i: nat | Live(s, i, peer) ensures peer in s.mapping && s.mapping[peer] == Connected(i) {
      OwnedFacts(s, peer, 0, i);
    }
  }

  /** The map never holds more than the limit plus the present entries of unchecked dials. */
  lemma PeerBound(s: State)
    requires Reachable(s)
    ensures |s.mapping| <= s.maxPeers + |s.unchecked| && s.unchecked <= s.mapping.Keys
  {
    ReachableInv(s);
  }

  ghost predicate AllChecked(s: State) {
    s.unchecked == {} && forall d: nat :: d < |s.dials| ==> s.dials[d].checked
  }

  lemma CheckedSet(s: State, s': State, d: nat)
    requires AllChecked(s) && d < |s.dials| && |s'.dials| == |s.dials|
    requires s'.dials == s.dials[d := s'.dials[d]] && s'.dials[d].checked && s'.unchecked <= s.unchecked
    ensures AllChecked(s')
  {
  }

  lemma CheckedDial(s: State, d: nat, ok: bool)
    requires AllChecked(s) && d < |s.dials|
    ensures AllChecked(Inserted(s, d)) && AllChecked(Completed(s, d, ok)) && AllChecked(Reaped(s, d))
  {
    assert s.dials[d].checked;
    hide AllChecked;
    CheckedSet(s, Inserted(s, d), d);
    CheckedSet(s, Completed(s, d, ok), d);
    CheckedSet(s, Reaped(s, d), d);
  }

  lemma CheckedStep(s: State, a: Action)
    requires AllChecked(s) && Enabled(s, a) && (a.Call? ==> a.checked)
    ensures AllChecked(Next(s, a))
  {
    hide Inserted, Completed, Reaped;
    match a
    case Insert(d) => CheckedDial(s, d, true);
    case Complete(d, ok) => CheckedDial(s, d, ok);
    case ReapEntry(d) => CheckedDial(s, d, true);
    case _ =>
  }

  lemma {:induction false} CheckedRun(s: State, actions: seq<Action>)
    requires AllChecked(s)
    requires forall a :: a in actions ==> a.Call? ==> a.checked
    ensures AllChecked(Run(s, actions))
    decreases |actions|
  {
    if actions != [] {
      var a := actions[0];
      assert a in actions;
      hide AllChecked, Next;
      if Enabled(s, a) { CheckedStep(s, a); }
      CheckedRun(if Enabled(s, a) then Next(s, a) else s, actions[1..]);
    }
  }

  /** With checked dials and incoming connections only, the limit holds in every run. */
  lemma CheckedDialsKeepTheLimit(maxPeers: nat, banned: set<PeerId>, actions: seq<Action>)
    requires forall a :: a in actions ==> a.Call? ==> a.checked
    ensures |Run(Initial(maxPeers, banned), actions).mapping| <= maxPeers
  {
    var s := Initial(maxPeers, banned);
    InvRun(s, actions);
    CheckedRun(s, actions);
  }

  lemma BannedStep(s: State, a: Action, peer: PeerId)
    requires AllChecked(s) && Enabled(s, a) && peer in s.banned && peer !in s.mapping
    ensures peer in Next(s, a).banned && peer !in Next(s, a).mapping
  {
    match a
    case Insert(d) => assert s.dials[d].checked;
    case _ =>
  }

  /** With checked dials and incoming connections only, a banned peer that is not in the map never enters it. */
  lemma {:induction false} BannedStayOut(s: State, actions: seq<Action>, peer: PeerId)
    requires AllChecked(s) && peer in s.banned && peer !in s.mapping
    requires forall a :: a in actions ==> a.Call? ==> a.checked
    ensures peer !in Run(s, actions).mapping
    decreases |actions|
  {
    if actions != [] {
      var a := actions[0];
      assert a in actions;
      hide AllChecked, Next;
      if Enabled(s, a) {
        CheckedStep(s, a);
        BannedStep(s, a, peer);
      }
      BannedStayOut(if Enabled(s, a) then Next(s, a) else s, actions[1..], peer);
    }
  }

  lemma {:induction false} CountsBounded(dials: seq<Dial>)
    ensures Outstanding(dials) <= |dials| && NeverPolled(dials) <= |dials|
    ensures NeverPolled(dials) == 0 <==> forall d: nat :: d < |dials| && dials[d].reaper == Done ==> dials[d].counted
    ensures (forall d: nat :: d < |dials| ==> dials[d].reaper == Done) ==> Outstanding(dials) == 0
  {
    if dials != [] {
      var n := |dials| - 1;
      CountsBounded(dials[..n]);
      assert forall d: nat :: d < n ==> dials[..n][d] == dials[d];
    }
  }

  /**
   * `currently_connecting` is the number of started dials whose reaper is not finished exactly when no dial was
   * reaped without its future ever being polled; when all are done it is then back at zero.
   */
  lemma DialCounter(s: State)
    requires Reachable(s) && |s.dials| < WRAP
    ensures s.counter == Outstanding(s.dials) <==>
      forall d: nat :: d < |s.dials| && s.dials[d].reaper == Done ==> s.dials[d].counted
    ensures (forall d: nat :: d < |s.dials| ==> s.dials[d].reaper == Done && s.dials[d].counted) ==> s.counter == 0
  {
    ReachableInv(s);
    CountsBounded(s.dials);
  }

  /** A future dropped before its first poll makes the counter wrap around. */
  lemma UnpolledDialWraps(peer: PeerId)
    ensures Run(Initial(1, {}), [Call(peer, true), Abandon(0), ReapEntry(0), ReapCount(0)]).counter == WRAP - 1
  {
    var s0 := Initial(1, {});
    var s1 := Next(s0, Call(peer, true));
    var s2 := Next(s1, Abandon(0));
    var s3 := Next(s2, ReapEntry(0));
    var s4 := Next(s3, ReapCount(0));
    var actions := [Call(peer, true), Abandon(0), ReapEntry(0), ReapCount(0)];
    assert Run(s0, actions) == Run(s1, actions[1..]) == Run(s2, actions[1..][1..])
        == Run(s3, actions[1..][1..][1..]) == Run(s4, actions[1..][1..][1..][1..]);
  }
}
