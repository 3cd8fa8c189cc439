/** The capability server's peer tables: outbound pipes and the two-way index of peers and blocks. */
module CapabilityServer {
  import opened Swarm

  type u64 = n: nat | n < 0x1_0000_0000_0000_0000 witness 0

  /** The peers recorded at each block. */
  ghost function PeersByBlock(m: map<PeerId, u64>): map<u64, set<PeerId>> {
    map b | b in m.Values :: set p | p in m && m[p] == b
  }

  /** Each recorded peer is under exactly its block, every recorded set has a member, and nothing else is there. */
  lemma PeersByBlockExact(m: map<PeerId, u64>, p: PeerId, b: u64)
    ensures p in m && m[p] == b <==> b in PeersByBlock(m) && p in PeersByBlock(m)[b]
    ensures b in PeersByBlock(m) ==> PeersByBlock(m)[b] != {}
  {
    if p in m && m[p] == b {
      assert b in m.Values;
    }
    if b in PeersByBlock(m) {
      var q :| q in m && m[q] == b;
      assert q in PeersByBlock(m)[b];
    }
  }

  ghost function PeersAt(m: map<PeerId, u64>, b: u64): set<PeerId> {
    set q | q in m && m[q] == b
  }

  /** Two indices are equal when every block has the same peers in both maps. */
  lemma SameIndex(m: map<PeerId, u64>, index: map<u64, set<PeerId>>)
    requires forall b: u64 :: b in index <==> PeersAt(m, b) != {}
    requires forall b: u64 :: b in index ==> index[b] == PeersAt(m, b)
    ensures PeersByBlock(m) == index
  {
    var built := PeersByBlock(m);
    forall b: u64 ensures b in built <==> b in index {
      if b in built { PeersByBlockExact(m, 0, b); }
      if b in index {
        var q :| q in PeersAt(m, b);
        PeersByBlockExact(m, q, b);
      }
    }
  }

  /** Removing a peer shrinks the set of its block, or drops it when it becomes empty. */
  lemma PeersByBlockRemove(m: map<PeerId, u64>, p: PeerId)
    requires p in m
    ensures
      var rest := PeersAt(m, m[p]) - {p};
      PeersByBlock(m - {p}) == if rest == {} then PeersByBlock(m) - {m[p]} else PeersByBlock(m)[m[p] := rest]
  {
    var rest := PeersAt(m, m[p]) - {p};
    var index := if rest == {} then PeersByBlock(m) - {m[p]} else PeersByBlock(m)[m[p] := rest];
    forall b: u64
      ensures b in index <==> PeersAt(m - {p}, b) != {}
      ensures b in index ==> index[b] == PeersAt(m - {p}, b)
    {
      if b == m[p] {
        assert PeersAt(m - {p}, b) == rest;
      } else {
        assert PeersAt(m - {p}, b) == PeersAt(m, b);
        BlockRecorded(m, b);
      }
    }
    SameIndex(m - {p}, index);
  }

  lemma BlockRecorded(m: map<PeerId, u64>, b: u64)
    ensures b in PeersByBlock(m) <==> PeersAt(m, b) != {}
  {
    if PeersAt(m, b) != {} {
      var q :| q in PeersAt(m, b);
      PeersByBlockExact(m, q, b);
    }
    PeersByBlockExact(m, 0, b);
  }

  /** Recording a new peer adds it to the set of its block. */
  lemma PeersByBlockAdd(m: map<PeerId, u64>, p: PeerId, b: u64)
    requires p !in m
    ensures PeersByBlock(m[p := b]) == PeersByBlock(m)[b := PeersAt(m, b) + {p}]
  {
    var m' := m[p := b];
    var index := PeersByBlock(m)[b := PeersAt(m, b) + {p}];
    forall c: u64
      ensures c in index <==> PeersAt(m', c) != {}
      ensures c in index ==> index[c] == PeersAt(m', c)
    {
      if c == b {
        assert PeersAt(m', c) == PeersAt(m, c) + {p};
      } else {
        assert PeersAt(m', c) == PeersAt(m, c);
        BlockRecorded(m, c);
      }
    }
    SameIndex(m', index);
  }

  class BlockTracker {
    var blockByPeer: map<PeerId, u64>
    var peersByBlock: map<u64, set<PeerId>>

    /** The two maps are exact inverses and no recorded set is empty. */
    ghost predicate Valid()
      reads this
    {
      peersByBlock == PeersByBlock(blockByPeer)
    }

    constructor ()
      ensures Valid() && blockByPeer == map[]
    {
      blockByPeer, peersByBlock := map[], map[];
    }

    method SetBlockNumber(peer: PeerId, block: u64)
      requires Valid()
      modifies this
      ensures Valid() && blockByPeer == old(blockByPeer)[peer := block]
    {
      ghost var others := blockByPeer - {peer};
      if peer in blockByPeer {
        var oldBlock := blockByPeer[peer];
        PeersByBlockRemove(blockByPeer, peer);
        PeersByBlockExact(blockByPeer, peer, oldBlock);
        if oldBlock in peersByBlock {
          var rest := peersByBlock[oldBlock] - {peer};
          peersByBlock := if rest == {} then peersByBlock - {oldBlock} else peersByBlock[oldBlock := rest];
        }
      } else {
        assert others == blockByPeer;
      }
      blockByPeer := blockByPeer[peer := block];
      PeersByBlockAdd(others, peer, block);
      BlockRecorded(others, block);
      assert blockByPeer == others[peer := block];
      var peers := if block in peersByBlock then peersByBlock[block] else {};
      peersByBlock := peersByBlock[block := peers + {peer}];
    }

    method RemovePeer(peer: PeerId)
      requires Valid()
      modifies this
      ensures Valid() && blockByPeer == old(blockByPeer) - {peer}
    {
      if peer in blockByPeer {
        var block := blockByPeer[peer];
        PeersByBlockRemove(blockByPeer, peer);
        PeersByBlockExact(blockByPeer, peer, block);
        blockByPeer := blockByPeer - {peer};
        if block in peersByBlock {
          var rest := peersByBlock[block] - {peer};
          peersByBlock := if rest == {} then peersByBlock - {block} else peersByBlock[block := rest];
        }
      }
    }

    /** Exactly the peers whose recorded block is at least the given one. */
    method PeersWithMinBlock(block: u64) returns (peers: set<PeerId>)
      requires Valid()
      ensures peers == set p | p in blockByPeer && blockByPeer[p] >= block
    {
      peers := {};
      var todo := set b | b in peersByBlock && b >= block;
      while todo != {}
        invariant todo <= set b | b in peersByBlock && b >= block
        invariant peers == set p | p in blockByPeer && blockByPeer[p] >= block && blockByPeer[p] !in todo
        decreases todo
      {
        var b :| b in todo;
        forall p ensures p in peersByBlock[b] <==> p in blockByPeer && blockByPeer[p] == b {
          PeersByBlockExact(blockByPeer, p, b);
        }
        peers := peers + peersByBlock[b];
        todo := todo - {b};
      }
      forall p | p in blockByPeer ensures blockByPeer[p] in peersByBlock {
        PeersByBlockExact(blockByPeer, p, blockByPeer[p]);
      }
    }
  }

  /** The tables of `CapabilityServerImpl`; a pipe is named by the session it serves. */
  class Server {
    const tracker: BlockTracker
    var peerPipes: map<PeerId, nat>
    /** Peers whose status message was accepted. */
    var validPeers: set<PeerId>

    ghost predicate Valid()
      reads this, tracker
    {
      tracker.Valid() && tracker.blockByPeer.Keys == peerPipes.Keys
    }

    constructor ()
      ensures Valid() && fresh(tracker) && peerPipes == map[] && validPeers == {}
    {
      tracker := new BlockTracker();
      peerPipes, validPeers := map[], {};
    }

    /** The precondition is the source's `assert!`. */
    method SetupPeer(peer: PeerId, pipes: nat)
      requires Valid() && peer !in peerPipes
      modifies this, tracker
      ensures Valid()
      ensures peerPipes == old(peerPipes)[peer := pipes]
      ensures tracker.blockByPeer == old(tracker.blockByPeer)[peer := 0]
      ensures validPeers == old(validPeers)
    {
      peerPipes := peerPipes[peer := pipes];
      tracker.SetBlockNumber(peer, 0);
    }

    method TeardownPeer(peer: PeerId)
      requires Valid()
      modifies this, tracker
      ensures Valid()
      ensures peerPipes == old(peerPipes) - {peer}
      ensures tracker.blockByPeer == old(tracker.blockByPeer) - {peer}
      ensures validPeers == old(validPeers) - {peer}
    {
      peerPipes := peerPipes - {peer};
      tracker.RemovePeer(peer);
      validPeers := validPeers - {peer};
    }

    /** A peer whose status message fits joins the valid ones. */
    method AcceptStatus(peer: PeerId)
      requires Valid()
      modifies this
      ensures Valid() && validPeers == old(validPeers) + {peer} && peerPipes == old(peerPipes)
    {
      validPeers := validPeers + {peer};
    }

    /** `next` unwraps the pipes of its peer. */
    method Receiver(peer: PeerId) returns (pipes: nat)
      requires peer in peerPipes
      ensures pipes == peerPipes[peer]
    {
      pipes := peerPipes[peer];
    }
  }
}
