/** The swarm's objects: each method is one atomic region, proved against the step it stands for. */
module PeerStreams {
  import opened Swarm
  import opened CapabilityServer

  class PeerSwarm {
    const maxPeers: nat
    const server: Server
    var banned: set<PeerId>
    var mapping: map<PeerId, Entry>
    var currentlyConnecting: nat
    var dials: seq<Dial>
    var sessions: seq<Session>
    ghost var unchecked: set<PeerId>

    ghost function View(): State
      reads this, server, server.tracker
    {
      State(maxPeers, banned, mapping, dials, sessions, currentlyConnecting, server.peerPipes,
            server.tracker.blockByPeer, unchecked, false)
    }

    ghost predicate Valid()
      reads this, server, server.tracker
    {
      server.Valid() && Inv(View())
    }

    constructor (maxPeers: nat, banned: set<PeerId>)
      ensures Valid() && fresh(server) && fresh(server.tracker)
      ensures View() == Initial(maxPeers, banned)
    {
      this.maxPeers, this.banned := maxPeers, banned;
      server := new Server();
      mapping, currentlyConnecting, dials, sessions, unchecked := map[], 0, [], [], {};
    }

    method BanPeer(peer: PeerId)
      requires Valid()
      modifies this
      ensures Valid() && View() == Next(old(View()), Ban(peer))
    {
      hide Owned, Bounded, CounterExact;
      InvStep(View(), Ban(peer));
      banned := banned + {peer};
    }

    /** `add_peer_inner` up to the future it returns. */
    method AddPeer(peer: PeerId, checked: bool) returns (d: nat)
      requires Valid()
      modifies this
      ensures Valid() && d == |old(dials)|
      ensures View() == Next(old(View()), Call(peer, checked))
    {
      hide Owned, Bounded, CounterExact;
      InvStep(View(), Call(peer, checked));
      d := |dials|;
      dials := dials + [Dial(peer, checked, Unpolled, Held, Waiting, false)];
    }

    method FirstPoll(d: nat)
      requires Valid() && Enabled(View(), Count(d))
      modifies this
      ensures Valid() && View() == Next(old(View()), Count(d))
    {
      hide Owned, Bounded, CounterExact;
      InvStep(View(), Count(d));
      currentlyConnecting := (currentlyConnecting + 1) % WRAP;
      dials := dials[d := dials[d].(stage := Counted, counted := true)];
    }

    method InsertEntry(d: nat) returns (inserted: bool)
      requires Valid() && Enabled(View(), Insert(d))
      modifies this
      ensures Valid() && View() == Next(old(View()), Insert(d))
      ensures inserted <==> mapping != old(mapping)
    {
      hide Owned, Bounded, CounterExact;
      InvStep(View(), Insert(d));
      var dial := dials[d];
      var connectionNum := |mapping|;
      inserted := false;
      if dial.peer !in mapping {
        if !(dial.checked && !(connectionNum < maxPeers && dial.peer !in banned)) {
          mapping := mapping[dial.peer := Connecting(d)];
          if !dial.checked { unchecked := unchecked + {dial.peer}; }
          inserted := true;
        }
      }
      dials := dials[d := if inserted then dial.(stage := Handshaking) else dial.(stage := Finished, signal := Dropped)];
    }

    /** The second lock region: adopting calls `setup_peer`, whose assertion the invariant discharges. */
    method CompleteDial(d: nat, ok: bool) returns (adopted: bool)
      requires Valid() && Enabled(View(), Complete(d, ok))
      modifies this, server, server.tracker
      ensures Valid() && View() == Next(old(View()), Complete(d, ok))
      ensures adopted == ok
    {
      hide Owned, Bounded, CounterExact;
      InvStep(View(), Complete(d, ok));
      var dial := dials[d];
      OwnedFacts(View(), dial.peer, d, 0);
      dials := dials[d := dial.(stage := Finished, signal := Dropped)];
      if dial.peer in mapping && mapping[dial.peer].Connecting? {
        if ok {
          server.SetupPeer(dial.peer, |sessions|);
          mapping := mapping[dial.peer := Connected(|sessions|)];
          sessions := sessions + [Session(dial.peer, Running)];
          dials := dials[d := dial.(stage := Finished, signal := Sent)];
          assert dials == old(dials)[d := dial.(stage := Finished, signal := Sent)];
          assert View() == Completed(old(View()), d, ok);
          return true;
        }
        mapping := mapping - {dial.peer};
        unchecked := unchecked - {dial.peer};
      }
      return false;
    }

    method Reap(d: nat)
      requires Valid() && Enabled(View(), ReapEntry(d))
      modifies this
      ensures Valid() && View() == Next(old(View()), ReapEntry(d))
    {
      hide Owned, Bounded, CounterExact;
      InvStep(View(), ReapEntry(d));
      var dial := dials[d];
      dials := dials[d := dial.(reaper := Cleaned)];
      if dial.signal == Dropped {
        if dial.peer in mapping {
          var entry := mapping[dial.peer];
          if entry.Connecting? && entry.dial == d {
            mapping := mapping - {dial.peer};
            unchecked := unchecked - {dial.peer};
          }
        }
      }
    }

    /** The reaper's last statement. */
    method ReleaseCount(d: nat)
      requires Valid() && Enabled(View(), ReapCount(d))
      modifies this
      ensures Valid() && View() == Next(old(View()), ReapCount(d))
    {
      hide Owned, Bounded, CounterExact;
      InvStep(View(), ReapCount(d));
      currentlyConnecting := (currentlyConnecting - 1) % WRAP;
      dials := dials[d := dials[d].(reaper := Done)];
    }

    /** The future of a dial is dropped, and with it the sender its reaper waits on. */
    method DropFuture(d: nat)
      requires Valid() && Enabled(View(), Abandon(d))
      modifies this
      ensures Valid() && View() == Next(old(View()), Abandon(d))
    {
      hide Owned, Bounded, CounterExact;
      InvStep(View(), Abandon(d));
      dials := dials[d := dials[d].(stage := Finished, signal := Dropped)];
    }

    method HandleIncoming(peer: PeerId) returns (accepted: bool)
      requires Valid()
      modifies this, server, server.tracker
      ensures Valid() && View() == Next(old(View()), Incoming(peer))
      ensures accepted <==> old(peer !in mapping && |mapping| < maxPeers && peer !in banned)
    {
      hide Owned, Bounded, CounterExact;
      InvStep(View(), Incoming(peer));
      OwnedFacts(View(), peer, 0, 0);
      accepted := false;
      if peer !in mapping {
        if |mapping| < maxPeers && peer !in banned {
          server.SetupPeer(peer, |sessions|);
          mapping := mapping[peer := Connected(|sessions|)];
          sessions := sessions + [Session(peer, Running)];
          accepted := true;
        }
      }
    }

    /** The egress loop's call of `next` finds the pipes of its own session. */
    method NextEvent(i: nat) returns (pipes: nat)
      requires Valid() && Enabled(View(), PollNext(i))
      ensures pipes == i
    {
      OwnedFacts(View(), sessions[i].peer, 0, i);
      pipes := server.Receiver(sessions[i].peer);
    }

    /** A session's egress loop has a reason to end, and calls `next` no more. */
    method LeaveSession(i: nat)
      requires Valid() && Enabled(View(), Leave(i))
      modifies this
      ensures Valid() && View() == Next(old(View()), Leave(i))
    {
      hide Owned, Bounded, CounterExact;
      InvStep(View(), Leave(i));
      sessions := sessions[i := sessions[i].(phase := Leaving)];
    }

    method TeardownSession(i: nat)
      requires Valid() && Enabled(View(), Teardown(i))
      modifies this, server, server.tracker
      ensures Valid() && View() == Next(old(View()), Teardown(i))
    {
      hide Owned, Bounded, CounterExact;
      InvStep(View(), Teardown(i));
      server.TeardownPeer(sessions[i].peer);
      sessions := sessions[i := sessions[i].(phase := TornDown)];
    }

    method DisconnectPeer(i: nat) returns (present: bool)
      requires Valid() && Enabled(View(), Disconnect(i))
      modifies this
      ensures Valid() && View() == Next(old(View()), Disconnect(i))
      ensures present
    {
      hide Owned, Bounded, CounterExact;
      InvStep(View(), Disconnect(i));
      OwnedFacts(View(), sessions[i].peer, 0, i);
      var peer := sessions[i].peer;
      present := peer in mapping;
      mapping := mapping - {peer};
      unchecked := unchecked - {peer};
      sessions := sessions[i := sessions[i].(phase := Gone)];
    }
  }
}
