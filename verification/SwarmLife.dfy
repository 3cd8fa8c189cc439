/** What the swarm's steps bring about: whole lives of dials and sessions, and who is let in. */
module SwarmLife {
  import opened Swarm

  /** There is room for a peer that is not banned. */
  predicate Welcome(s: State, peer: PeerId) {
    |s.mapping| < s.maxPeers && peer !in s.banned
  }

  /** An incoming peer is admitted, with a session, pipes and block zero, exactly when it is absent and welcome. */
  lemma IncomingIsAdmittedIff(s: State, peer: PeerId)
    requires Reachable(s)
    ensures Next(s, Incoming(peer)) ==
      if peer !in s.mapping && Welcome(s, peer) then
        s.(mapping := s.mapping[peer := Connected(|s.sessions|)],
           sessions := s.sessions + [Session(peer, Running)],
           pipes := s.pipes[peer := |s.sessions|],
           blocks := s.blocks[peer := 0])
      else s
  {
    if peer !in s.mapping { NoPipesOutside(s, peer); }
  }

  /** A peer without a connected entry has no pipes, so setting it up faults nothing. */
  lemma NoPipesOutside(s: State, peer: PeerId)
    requires Reachable(s) && (peer in s.mapping ==> s.mapping[peer].Connecting?)
    ensures peer !in s.pipes && !s.fault
  {
    hide Reachable;
    ReachableInv(s);
    OwnedFacts(s, peer, 0, 0);
  }

  /** A dial's entry is inserted exactly when its peer is absent and, for a checked dial, welcome; no other entry changes. */
  lemma DialEntersIff(s: State, d: nat)
    requires Enabled(s, Insert(d))
    ensures
      var dial := s.dials[d];
      var enters := dial.peer !in s.mapping && (dial.checked ==> Welcome(s, dial.peer));
      var s' := Next(s, Insert(d));
      && s'.mapping == (if enters then s.mapping[dial.peer := Connecting(d)] else s.mapping)
      && s'.dials == s.dials[d := dial.(stage := if enters then Handshaking else Finished,
                                        signal := if enters then dial.signal else Dropped)]
      && s'.unchecked == (if enters && !dial.checked then s.unchecked + {dial.peer} else s.unchecked)
      && s'.sessions == s.sessions && s'.pipes == s.pipes && s'.counter == s.counter
  {
  }

  /** A fault is recorded exactly where the capability server would assert or unwrap in vain. */
  lemma FaultsAreRecorded(s: State, peer: PeerId, d: nat, i: nat)
    ensures peer !in s.mapping && Welcome(s, peer) ==> Next(s, Incoming(peer)).fault == (s.fault || peer in s.pipes)
    ensures Enabled(s, Complete(d, true)) && s.dials[d].peer in s.mapping && s.mapping[s.dials[d].peer].Connecting? ==>
      Next(s, Complete(d, true)).fault == (s.fault || s.dials[d].peer in s.pipes)
    ensures Enabled(s, PollNext(i)) ==> Next(s, PollNext(i)) == s.(fault := s.fault || s.sessions[i].peer !in s.pipes)
  {
  }

  // ----- Runs -----

  /** One step from a state to another. */
  ghost predicate Steps(s: State, a: Action, t: State) {
    Enabled(s, a) && Next(s, a) == t
  }

  lemma RunStep(s: State, a: Action, t: State, rest: seq<Action>)
    requires Steps(s, a, t)
    ensures Run(s, [a] + rest) == Run(t, rest)
  {
    hide Next, Enabled;
    assert ([a] + rest)[1..] == rest;
  }

  lemma RunTwo(s: State, a: Action, t: State, b: Action, u: State)
    requires Steps(s, a, t) && Steps(t, b, u)
    ensures Run(s, [a, b]) == u
  {
    hide Steps;
    RunStep(s, a, t, [b]);
    RunStep(t, b, u, []);
    assert [a] + [b] == [a, b] && [b] + [] == [b];
  }

  lemma RunThree(s: State, a: Action, t: State, b: Action, u: State, c: Action, v: State)
    requires Steps(s, a, t) && Steps(t, b, u) && Steps(u, c, v)
    ensures Run(s, [a, b, c]) == v
  {
    hide Steps, Run;
    RunStep(s, a, t, [b, c]);
    RunTwo(t, b, u, c, v);
    assert [a] + [b, c] == [a, b, c];
  }

  lemma {:induction false} RunJoins(s: State, a: seq<Action>, b: seq<Action>)
    ensures Run(s, a + b) == Run(Run(s, a), b)
    decreases |a|
  {
    hide Next, Enabled;
    if a == [] {
      assert a + b == b;
    } else {
      assert (a + b)[1..] == a[1..] + b;
      RunJoins(if Enabled(s, a[0]) then Next(s, a[0]) else s, a[1..], b);
    }
  }

  /** A state with one more dial. */
  function Plus(s: State, dial: Dial): State {
    s.(dials := s.dials + [dial])
  }

  function OneMore(s: State): State {
    s.(counter := (s.counter + 1) % WRAP)
  }

  /** The map with a dial's entry, as an insertion leaves it. */
  function Entered(s: State, d: nat, peer: PeerId, checked: bool): State {
    s.(mapping := s.mapping[peer := Connecting(d)],
       unchecked := if checked then s.unchecked else s.unchecked + {peer})
  }

  /** A connected peer: entry, running session, pipes and block zero. */
  function Connect(s: State, peer: PeerId): State {
    s.(mapping := s.mapping[peer := Connected(|s.sessions|)],
       sessions := s.sessions + [Session(peer, Running)],
       pipes := s.pipes[peer := |s.sessions|],
       blocks := s.blocks[peer := 0])
  }

  lemma LastDial(s: State, dial: Dial, other: Dial)
    ensures Plus(s, dial).dials[|s.dials| := other] == Plus(s, other).dials
    ensures Plus(s, dial).dials[|s.dials|] == dial
  {
  }

  lemma CallStep(s: State, peer: PeerId, checked: bool)
    ensures Steps(s, Call(peer, checked), Plus(s, Dial(peer, checked, Unpolled, Held, Waiting, false)))
  {
  }

  lemma CountStep(s: State, peer: PeerId, checked: bool)
    ensures Steps(Plus(s, Dial(peer, checked, Unpolled, Held, Waiting, false)), Count(|s.dials|),
                  OneMore(Plus(s, Dial(peer, checked, Counted, Held, Waiting, true))))
  {
    LastDial(s, Dial(peer, checked, Unpolled, Held, Waiting, false), Dial(peer, checked, Counted, Held, Waiting, true));
  }

  lemma InsertStep(s: State, peer: PeerId, checked: bool)
    requires peer !in s.mapping && (checked ==> Welcome(s, peer))
    ensures Steps(OneMore(Plus(s, Dial(peer, checked, Counted, Held, Waiting, true))), Insert(|s.dials|),
                  OneMore(Plus(Entered(s, |s.dials|, peer, checked), Dial(peer, checked, Handshaking, Held, Waiting, true))))
  {
    LastDial(s, Dial(peer, checked, Counted, Held, Waiting, true), Dial(peer, checked, Handshaking, Held, Waiting, true));
  }

  function Start(d: nat, peer: PeerId, checked: bool): seq<Action> {
    [Call(peer, checked), Count(d), Insert(d)]
  }

  /** A dial under way: counted, and in the map. */
  function Dialled(s: State, peer: PeerId, checked: bool): State {
    OneMore(Plus(Entered(s, |s.dials|, peer, checked), Dial(peer, checked, Handshaking, Held, Waiting, true)))
  }

  /** A call and the first poll of its future count the dial and put it into the map, if its peer can enter. */
  lemma DialStarts(s: State, peer: PeerId, checked: bool)
    requires peer !in s.mapping && (checked ==> Welcome(s, peer))
    ensures Run(s, Start(|s.dials|, peer, checked)) == Dialled(s, peer, checked)
  {
    hide Steps, Run, Plus, OneMore, Entered;
    CallStep(s, peer, checked);
    CountStep(s, peer, checked);
    InsertStep(s, peer, checked);
    var d := |s.dials|;
    RunThree(s, Call(peer, checked), Plus(s, Dial(peer, checked, Unpolled, Held, Waiting, false)), Count(d),
             OneMore(Plus(s, Dial(peer, checked, Counted, Held, Waiting, true))), Insert(d), Dialled(s, peer, checked));
  }

  /** The dial is over, its reaper done, and the counter back. */
  function Over(s: State, peer: PeerId, checked: bool, signal: Signal): State {
    Plus(s, Dial(peer, checked, Finished, signal, Done, true))
  }

  lemma ReapCountStep(s: State, peer: PeerId, checked: bool, signal: Signal)
    requires s.counter < WRAP
    ensures Steps(OneMore(Plus(s, Dial(peer, checked, Finished, signal, Cleaned, true))), ReapCount(|s.dials|),
                  Over(s, peer, checked, signal))
  {
    LastDial(s, Dial(peer, checked, Finished, signal, Cleaned, true), Dial(peer, checked, Finished, signal, Done, true));
    WrapStep(s.counter + 1, -1);
  }

  /** A reaper whose dial has no entry of its own. */
  lemma ReapNothingStep(s: State, peer: PeerId, checked: bool, signal: Signal)
    requires signal != Held && (signal == Dropped && peer in s.mapping ==> s.mapping[peer] != Connecting(|s.dials|))
    ensures Steps(OneMore(Plus(s, Dial(peer, checked, Finished, signal, Waiting, true))), ReapEntry(|s.dials|),
                  OneMore(Plus(s, Dial(peer, checked, Finished, signal, Cleaned, true))))
  {
    LastDial(s, Dial(peer, checked, Finished, signal, Waiting, true), Dial(peer, checked, Finished, signal, Cleaned, true));
  }

  /** A reaper whose dial was dropped with its entry in the map. */
  lemma ReapEntryStep(s: State, peer: PeerId, checked: bool)
    requires peer !in s.mapping && peer !in s.unchecked
    ensures Steps(OneMore(Plus(Entered(s, |s.dials|, peer, checked), Dial(peer, checked, Finished, Dropped, Waiting, true))),
                  ReapEntry(|s.dials|), OneMore(Plus(s, Dial(peer, checked, Finished, Dropped, Cleaned, true))))
  {
    LastDial(s, Dial(peer, checked, Finished, Dropped, Waiting, true), Dial(peer, checked, Finished, Dropped, Cleaned, true));
    Restored(s, |s.dials|, peer, checked);
  }

  lemma Restored(s: State, d: nat, peer: PeerId, checked: bool)
    requires peer !in s.mapping && peer !in s.unchecked
    ensures Entered(s, d, peer, checked).mapping - {peer} == s.mapping
    ensures Entered(s, d, peer, checked).unchecked - {peer} == s.unchecked
  {
  }

  lemma SucceedStep(s: State, peer: PeerId, checked: bool)
    requires peer !in s.pipes
    ensures Steps(Dialled(s, peer, checked), Complete(|s.dials|, true),
                  OneMore(Plus(Connect(Entered(s, |s.dials|, peer, checked), peer), Dial(peer, checked, Finished, Sent, Waiting, true))))
  {
    LastDial(s, Dial(peer, checked, Handshaking, Held, Waiting, true), Dial(peer, checked, Finished, Sent, Waiting, true));
  }

  lemma FailStep(s: State, peer: PeerId, checked: bool)
    requires peer !in s.mapping && peer !in s.unchecked
    ensures Steps(Dialled(s, peer, checked), Complete(|s.dials|, false),
                  OneMore(Plus(s, Dial(peer, checked, Finished, Dropped, Waiting, true))))
  {
    LastDial(s, Dial(peer, checked, Handshaking, Held, Waiting, true), Dial(peer, checked, Finished, Dropped, Waiting, true));
    Restored(s, |s.dials|, peer, checked);
  }

  lemma AbandonStep(s: State, peer: PeerId, checked: bool)
    ensures Steps(Dialled(s, peer, checked), Abandon(|s.dials|),
                  OneMore(Plus(Entered(s, |s.dials|, peer, checked), Dial(peer, checked, Finished, Dropped, Waiting, true))))
  {
    LastDial(s, Dial(peer, checked, Handshaking, Held, Waiting, true), Dial(peer, checked, Finished, Dropped, Waiting, true));
  }

  lemma ReachableFacts(s: State, peer: PeerId)
    requires Reachable(s)
    ensures s.counter < WRAP && (peer !in s.mapping ==> peer !in s.unchecked && peer !in s.pipes)
    ensures peer in s.mapping ==> s.mapping[peer] != Connecting(|s.dials|)
  {
    hide Reachable;
    ReachableInv(s);
    OwnedFacts(s, peer, 0, 0);
  }

  /** The rest of a dial's life, from what ends it to the end of its reaper. */
  function Ending(d: nat, end: Action): seq<Action> {
    [end, ReapEntry(d), ReapCount(d)]
  }

  /**
   * A dial that succeeds leaves its peer connected, with a running session, pipes and block zero, and the counter as
   * it was.
   */
  lemma DialConnects(s: State, peer: PeerId, checked: bool)
    requires Reachable(s) && peer !in s.mapping && (checked ==> Welcome(s, peer))
    ensures
      var d := |s.dials|;
      var t := Run(s, Start(d, peer, checked) + Ending(d, Complete(d, true)));
      && t == Over(Connect(Entered(s, d, peer, checked), peer), peer, checked, Sent)
      && t.mapping == s.mapping[peer := Connected(|s.sessions|)] && t.counter == s.counter
  {
    hide Reachable, Steps, Run, Plus, OneMore;
    var d := |s.dials|;
    ReachableFacts(s, peer);
    RunJoins(s, Start(d, peer, checked), Ending(d, Complete(d, true)));
    DialStarts(s, peer, checked);
    SucceedStep(s, peer, checked);
    var c := Connect(Entered(s, d, peer, checked), peer);
    ReapNothingStep(c, peer, checked, Sent);
    ReapCountStep(c, peer, checked, Sent);
    RunThree(Dialled(s, peer, checked), Complete(d, true), OneMore(Plus(c, Dial(peer, checked, Finished, Sent, Waiting, true))),
             ReapEntry(d), OneMore(Plus(c, Dial(peer, checked, Finished, Sent, Cleaned, true))),
             ReapCount(d), Over(c, peer, checked, Sent));
    OverKeeps(c, peer, checked, Sent);
  }

  lemma OverKeeps(s: State, peer: PeerId, checked: bool, signal: Signal)
    ensures Over(s, peer, checked, signal).mapping == s.mapping && Over(s, peer, checked, signal).counter == s.counter
  {
  }

  /** A dial that fails leaves everything but the record of the dial as it was, the counter included. */
  lemma DialFails(s: State, peer: PeerId, checked: bool)
    requires Reachable(s) && peer !in s.mapping && (checked ==> Welcome(s, peer))
    ensures
      var d := |s.dials|;
      Run(s, Start(d, peer, checked) + Ending(d, Complete(d, false))) == Over(s, peer, checked, Dropped)
  {
    hide Reachable, Steps, Run, Plus, OneMore;
    var d := |s.dials|;
    ReachableFacts(s, peer);
    RunJoins(s, Start(d, peer, checked), Ending(d, Complete(d, false)));
    DialStarts(s, peer, checked);
    FailStep(s, peer, checked);
    ReapNothingStep(s, peer, checked, Dropped);
    ReapCountStep(s, peer, checked, Dropped);
    RunThree(Dialled(s, peer, checked), Complete(d, false), OneMore(Plus(s, Dial(peer, checked, Finished, Dropped, Waiting, true))),
             ReapEntry(d), OneMore(Plus(s, Dial(peer, checked, Finished, Dropped, Cleaned, true))),
             ReapCount(d), Over(s, peer, checked, Dropped));
  }

  /** So does one whose future is dropped while it is connecting: its reaper takes its entry back. */
  lemma DroppedDialIsReaped(s: State, peer: PeerId, checked: bool)
    requires Reachable(s) && peer !in s.mapping && (checked ==> Welcome(s, peer))
    ensures
      var d := |s.dials|;
      Run(s, Start(d, peer, checked) + Ending(d, Abandon(d))) == Over(s, peer, checked, Dropped)
  {
    hide Reachable, Steps, Run, Plus, OneMore;
    var d := |s.dials|;
    ReachableFacts(s, peer);
    RunJoins(s, Start(d, peer, checked), Ending(d, Abandon(d)));
    DialStarts(s, peer, checked);
    AbandonStep(s, peer, checked);
    ReapEntryStep(s, peer, checked);
    ReapCountStep(s, peer, checked, Dropped);
    RunThree(Dialled(s, peer, checked), Abandon(d),
             OneMore(Plus(Entered(s, d, peer, checked), Dial(peer, checked, Finished, Dropped, Waiting, true))),
             ReapEntry(d), OneMore(Plus(s, Dial(peer, checked, Finished, Dropped, Cleaned, true))),
             ReapCount(d), Over(s, peer, checked, Dropped));
  }

  /** A session in one of its phases, with or without its pipes and entry. */
  function Phased(s: State, i: nat, phase: Phase): State
    requires i < |s.sessions|
  {
    s.(sessions := s.sessions[i := Session(s.sessions[i].peer, phase)])
  }

  function Unpiped(s: State, peer: PeerId): State {
    s.(pipes := s.pipes - {peer}, blocks := s.blocks - {peer})
  }

  function Unmapped(s: State, peer: PeerId): State {
    s.(mapping := s.mapping - {peer}, unchecked := s.unchecked - {peer})
  }

  lemma PhaseSteps(s: State, i: nat)
    requires Enabled(s, Leave(i))
    ensures
      var peer := s.sessions[i].peer;
      && Steps(s, Leave(i), Phased(s, i, Leaving))
      && Steps(Phased(s, i, Leaving), Teardown(i), Unpiped(Phased(s, i, TornDown), peer))
      && Steps(Unpiped(Phased(s, i, TornDown), peer), Disconnect(i), Unmapped(Unpiped(Phased(s, i, Gone), peer), peer))
  {
    assert Phased(s, i, Leaving).sessions[i := Session(s.sessions[i].peer, TornDown)] == Phased(s, i, TornDown).sessions;
    assert Phased(s, i, TornDown).sessions[i := Session(s.sessions[i].peer, Gone)] == Phased(s, i, Gone).sessions;
  }

  /** A session that leaves takes its pipes, its block and its entry with it, and nothing of any other peer. */
  lemma SessionEnds(s: State, i: nat)
    requires Reachable(s) && Enabled(s, Leave(i))
    ensures
      var peer := s.sessions[i].peer;
      && peer in s.mapping && peer in s.pipes
      && Run(s, [Leave(i), Teardown(i), Disconnect(i)]) == Unmapped(Unpiped(Phased(s, i, Gone), peer), peer)
  {
    hide Reachable, Steps, Run;
    var peer := s.sessions[i].peer;
    ReachableInv(s);
    OwnedFacts(s, peer, 0, i);
    PhaseSteps(s, i);
    RunThree(s, Leave(i), Phased(s, i, Leaving), Teardown(i), Unpiped(Phased(s, i, TornDown), peer), Disconnect(i),
             Unmapped(Unpiped(Phased(s, i, Gone), peer), peer));
  }

  /** A ban of an absent peer keeps it out of every later run of checked dials and incoming connections. */
  lemma BanTakesEffect(s: State, peer: PeerId, actions: seq<Action>)
    requires AllChecked(s) && peer !in s.mapping
    requires forall a :: a in actions ==> a.Call? ==> a.checked
    ensures peer !in Run(s, [Ban(peer)] + actions).mapping
  {
    RunStep(s, Ban(peer), Next(s, Ban(peer)), actions);
    BannedStayOut(Next(s, Ban(peer)), actions, peer);
  }
}
