/** Capability negotiation: what two peers share, agreed without a further message. */
module Capabilities {
  import opened Bytes

  /** A capability name; names are ordered as strings are, byte by byte. */
  type Name = Buffer

  datatype Info = Info(name: Name, version: nat, length: nat)
  datatype Id = Id(name: Name, version: nat)

  predicate Less(a: Name, b: Name)
    decreases |a|
  {
    b != [] && (a == [] || a[0] < b[0] || (a[0] == b[0] && Less(a[1..], b[1..])))
  }

  lemma {:induction false} LessTotal(a: Name, b: Name)
    ensures Less(a, b) || a == b || Less(b, a)
    ensures !(Less(a, b) && Less(b, a)) && !Less(a, a)
    decreases |a|
  {
    if a != [] {
      LessTotal(a[1..], a[1..]);
      if b != [] {
        LessTotal(a[1..], b[1..]);
        assert a == [a[0]] + a[1..] && b == [b[0]] + b[1..];
      }
    }
  }

  lemma {:induction false} LessTransitive(a: Name, b: Name, c: Name)
    requires Less(a, b) && Less(b, c)
    ensures Less(a, c)
    decreases |a|
  {
    if a != [] && a[0] == b[0] == c[0] {
      LessTransitive(a[1..], b[1..], c[1..]);
    }
  }

  /** Names are ordered by their first difference, a prefix before what it begins. */
  lemma {:induction false} LessIsLexicographic(a: Name, b: Name)
    ensures Less(a, b) <==> exists k: nat ::
      k <= |a| && k < |b| && a[..k] == b[..k] && (k == |a| || a[k] < b[k])
    decreases |a|
  {
    if b != [] {
      if a == [] || a[0] < b[0] {
        assert a[..0] == b[..0];
      } else if a[0] == b[0] {
        LessIsLexicographic(a[1..], b[1..]);
        if k: nat :| k <= |a[1..]| && k < |b[1..]| && a[1..][..k] == b[1..][..k] && (k == |a[1..]| || a[1..][k] < b[1..][k]) {
          assert a[..k + 1] == [a[0]] + a[1..][..k] && b[..k + 1] == [b[0]] + b[1..][..k];
        }
        if k: nat :| k <= |a| && k < |b| && a[..k] == b[..k] && (k == |a| || a[k] < b[k]) {
          assert k > 0;
          assert a[1..][..k - 1] == a[..k][1..] && b[1..][..k - 1] == b[..k][1..];
        }
      } else {
        assert forall k: nat :: 0 < k <= |a| && k < |b| && a[..k] == b[..k] ==> a[..k][0] == b[..k][0];
      }
    }
  }

  function IdOf(x: Info): Id {
    Id(x.name, x.version)
  }

  /** The capabilities a hello message carries. */
  function Hello(caps: seq<Info>): seq<Id> {
    seq(|caps|, i requires 0 <= i < |caps| => IdOf(caps[i]))
  }

  /** No two entries have one name and version; a list made from a map keyed by both is of this kind. */
  ghost predicate DistinctIds(caps: seq<Info>) {
    forall i, j :: 0 <= i < j < |caps| ==> IdOf(caps[i]) != IdOf(caps[j])
  }

  ghost predicate Sorted(caps: seq<Info>) {
    forall i, j :: 0 <= i < j < |caps| ==> !Less(caps[j].name, caps[i].name)
  }

  ghost predicate StrictlySorted(caps: seq<Info>) {
    forall i, j :: 0 <= i < j < |caps| ==> Less(caps[i].name, caps[j].name)
  }

  ghost predicate Common(local: seq<Info>, remote: seq<Id>, x: Info) {
    x in local && IdOf(x) in remote
  }

  /** A local capability the remote also has, at the highest version of its name that both have. */
  ghost predicate Best(local: seq<Info>, remote: seq<Id>, x: Info) {
    Common(local, remote, x) && forall y :: Common(local, remote, y) && y.name == x.name ==> y.version <= x.version
  }

  /** Exactly the best common capability of each common name, in order of name. */
  ghost predicate Negotiated(local: seq<Info>, remote: seq<Id>, shared: seq<Info>) {
    StrictlySorted(shared) && forall x :: x in shared <==> Best(local, remote, x)
  }

  lemma DistinctSnoc(caps: seq<Info>, x: Info)
    requires DistinctIds(caps) && forall y :: y in caps ==> IdOf(y) != IdOf(x)
    ensures DistinctIds(caps + [x])
  {
    forall i | 0 <= i < |caps| ensures IdOf(caps[i]) != IdOf(x) {
      assert caps[i] in caps;
    }
  }

  /** `retain` against one capability: lower versions of its name go. */
  function Retain(caps: seq<Info>, c: Info): (r: seq<Info>)
    ensures forall x :: x in r <==> x in caps && (x.name != c.name || x.version >= c.version)
  {
    if caps == [] then []
    else
      var last := caps[|caps| - 1];
      var rest := Retain(caps[..|caps| - 1], c);
      assert caps == caps[..|caps| - 1] + [last];
      if last.name != c.name || last.version >= c.version then rest + [last] else rest
  }

  lemma {:induction false} RetainDistinct(caps: seq<Info>, c: Info)
    requires DistinctIds(caps)
    ensures DistinctIds(Retain(caps, c))
  {
    if caps != [] {
      RetainDistinct(caps[..|caps| - 1], c);
    }
  }

  /** `sort_by_key` keeps the order of equal names: an entry goes behind those not above it. */
  function Place(caps: seq<Info>, x: Info): (r: seq<Info>)
    ensures forall y :: y in r <==> y in caps || y == x
  {
    if caps == [] || !Less(x.name, caps[|caps| - 1].name) then caps + [x]
    else
      assert caps == caps[..|caps| - 1] + [caps[|caps| - 1]];
      Place(caps[..|caps| - 1], x) + [caps[|caps| - 1]]
  }

  lemma {:induction false} PlaceSorted(caps: seq<Info>, x: Info)
    requires Sorted(caps)
    ensures Sorted(Place(caps, x))
  {
    if caps != [] {
      var n := |caps| - 1;
      var last := caps[n];
      LessTotal(x.name, last.name);
      if Less(x.name, last.name) {
        PlaceSorted(caps[..n], x);
        assert forall y :: y in caps[..n] ==> !Less(last.name, y.name);
      } else {
        LessTotal(last.name, last.name);
        forall i | 0 <= i <= n ensures !Less(x.name, caps[i].name) {
          NotLessTransitive(caps[i].name, last.name, x.name);
        }
      }
    }
  }

  lemma NotLessTransitive(a: Name, b: Name, c: Name)
    requires !Less(b, a) && !Less(c, b)
    ensures !Less(c, a)
  {
    LessTotal(a, b);
    LessTotal(b, c);
    LessTotal(a, c);
    if Less(a, b) && Less(b, c) { LessTransitive(a, b, c); }
  }

  lemma {:induction false} PlaceDistinct(caps: seq<Info>, x: Info)
    requires DistinctIds(caps) && forall y :: y in caps ==> IdOf(y) != IdOf(x)
    ensures DistinctIds(Place(caps, x))
  {
    if caps == [] || !Less(x.name, caps[|caps| - 1].name) {
      DistinctSnoc(caps, x);
    } else {
      var n := |caps| - 1;
      PlaceDistinct(caps[..n], x);
      DistinctSnoc(Place(caps[..n], x), caps[n]);
    }
  }

  /** The capabilities both sides announced. */
  method Match(local: seq<Info>, remote: seq<Id>) returns (common: seq<Info>)
    ensures forall x :: x in common <==> Common(local, remote, x)
    ensures DistinctIds(local) ==> DistinctIds(common)
  {
    common := [];
    for k := 0 to |local|
      invariant forall x :: x in common <==> Common(local[..k], remote, x)
      invariant DistinctIds(local) ==> DistinctIds(common)
    {
      assert local[..k + 1] == local[..k] + [local[k]];
      if IdOf(local[k]) in remote {
        if DistinctIds(local) { DistinctSnoc(common, local[k]); }
        common := common + [local[k]];
      }
    }
    assert local[..|local|] == local;
  }

  /** No capability of the same name has a higher version. */
  ghost predicate Tops(caps: seq<Info>, x: Info) {
    forall y :: y in caps && y.name == x.name ==> y.version <= x.version
  }

  lemma TopsSnoc(caps: seq<Info>, c: Info, x: Info)
    ensures Tops(caps + [c], x) <==> Tops(caps, x) && (x.name != c.name || x.version >= c.version)
  {
    assert forall y :: y in caps + [c] <==> y in caps || y == c;
  }

  /** Only the highest version of each name stays. */
  method KeepBest(common: seq<Info>) returns (kept: seq<Info>)
    ensures forall x :: x in kept <==> x in common && Tops(common, x)
    ensures DistinctIds(common) ==> DistinctIds(kept)
  {
    kept := common;
    assert forall x :: Tops(common[..0], x);
    hide Tops;
    for k := 0 to |common|
      invariant forall x :: x in kept <==> x in common && Tops(common[..k], x)
      invariant DistinctIds(common) ==> DistinctIds(kept)
    {
      if DistinctIds(common) { RetainDistinct(kept, common[k]); }
      assert common[..k + 1] == common[..k] + [common[k]];
      forall x ensures Tops(common[..k + 1], x) <==>
        Tops(common[..k], x) && (x.name != common[k].name || x.version >= common[k].version)
      {
        TopsSnoc(common[..k], common[k], x);
      }
      kept := Retain(kept, common[k]);
    }
    assert common[..|common|] == common;
  }

  method SortByName(caps: seq<Info>) returns (sorted: seq<Info>)
    ensures Sorted(sorted) && forall x :: x in sorted <==> x in caps
    ensures DistinctIds(caps) ==> DistinctIds(sorted)
  {
    sorted := [];
    for k := 0 to |caps|
      invariant Sorted(sorted) && forall x :: x in sorted <==> x in caps[..k]
      invariant DistinctIds(caps) ==> DistinctIds(sorted)
    {
      PlaceSorted(sorted, caps[k]);
      if DistinctIds(caps) { PlaceDistinct(sorted, caps[k]); }
      assert caps[..k + 1] == caps[..k] + [caps[k]];
      sorted := Place(sorted, caps[k]);
    }
    assert caps[..|caps|] == caps;
  }

  /** The part of `PeerStream::new` that computes the shared capabilities. */
  method Negotiate(local: seq<Info>, remote: seq<Id>) returns (shared: seq<Info>)
    ensures Sorted(shared)
    ensures forall x :: x in shared <==> Best(local, remote, x)
    ensures DistinctIds(local) ==> Negotiated(local, remote, shared)
  {
    var common := Match(local, remote);
    var kept := KeepBest(common);
    shared := SortByName(kept);
    if DistinctIds(local) {
      NegotiatedWhenDistinct(local, remote, shared);
    }
  }

  lemma NegotiatedWhenDistinct(local: seq<Info>, remote: seq<Id>, shared: seq<Info>)
    requires DistinctIds(shared) && Sorted(shared)
    requires forall x :: x in shared <==> Best(local, remote, x)
    ensures Negotiated(local, remote, shared)
  {
    forall i, j | 0 <= i < j < |shared| ensures Less(shared[i].name, shared[j].name) {
      var a, b := shared[i], shared[j];
      assert a in shared && b in shared;
      assert a.name == b.name ==> IdOf(a) == IdOf(b);
      LessTotal(a.name, b.name);
    }
  }

  /** Strictly sorted lists with the same members are the same list. */
  lemma {:induction false} SortedUnique(a: seq<Info>, b: seq<Info>)
    requires StrictlySorted(a) && StrictlySorted(b)
    requires forall id :: id in Hello(a) <==> id in Hello(b)
    ensures Hello(a) == Hello(b)
    decreases |a|
  {
    if b != [] {
      assert Hello(b)[0] in Hello(b);
    }
    if a != [] {
      assert Hello(a)[0] in Hello(b);
      assert b != [];
      assert Hello(b)[0] in Hello(a);
      Heads(a, b);
      Heads(b, a);
      LessTotal(a[0].name, b[0].name);
      FirstUnique(a);
      FirstUnique(b);
      forall id ensures id in Hello(a[1..]) <==> id in Hello(b[1..]) {
        assert id in Hello(a[1..]) <==> id in Hello(a) && id != IdOf(a[0]);
        assert id in Hello(b[1..]) <==> id in Hello(b) && id != IdOf(b[0]);
      }
      SortedUnique(a[1..], b[1..]);
      assert Hello(a) == [IdOf(a[0])] + Hello(a[1..]);
      assert Hello(b) == [IdOf(b[0])] + Hello(b[1..]);
    }
  }

  /** The first of one list is found in the other, not above its first. */
  lemma Heads(a: seq<Info>, b: seq<Info>)
    requires a != [] && b != [] && StrictlySorted(a) && IdOf(b[0]) in Hello(a)
    ensures IdOf(b[0]) == IdOf(a[0]) || Less(a[0].name, b[0].name)
  {
    var i :| 0 <= i < |a| && Hello(a)[i] == IdOf(b[0]);
    if i > 0 { assert Less(a[0].name, a[i].name); }
  }

  lemma FirstUnique(a: seq<Info>)
    requires a != [] && StrictlySorted(a)
    ensures forall id :: id in Hello(a[1..]) <==> id in Hello(a) && id != IdOf(a[0])
  {
    assert Hello(a) == [IdOf(a[0])] + Hello(a[1..]);
    forall id | id in Hello(a[1..]) ensures id != IdOf(a[0]) {
      var i :| 0 <= i < |a[1..]| && Hello(a[1..])[i] == id;
      assert Less(a[0].name, a[i + 1].name);
      LessTotal(a[0].name, a[i + 1].name);
    }
  }

  lemma HelloMember(caps: seq<Info>, x: Info)
    requires x in caps
    ensures IdOf(x) in Hello(caps)
  {
    var i :| 0 <= i < |caps| && caps[i] == x;
    assert Hello(caps)[i] == IdOf(x);
  }

  /** One side's best capability is, by id, the other side's. */
  lemma BestIsMutual(a: seq<Info>, b: seq<Info>, x: Info) returns (y: Info)
    requires Best(a, Hello(b), x)
    ensures Best(b, Hello(a), y) && IdOf(y) == IdOf(x)
  {
    var j :| 0 <= j < |b| && Hello(b)[j] == IdOf(x);
    y := b[j];
    HelloMember(a, x);
    forall z | Common(b, Hello(a), z) && z.name == y.name ensures z.version <= y.version {
      var i :| 0 <= i < |a| && Hello(a)[i] == IdOf(z);
      HelloMember(b, z);
      assert Common(a, Hello(b), a[i]);
    }
  }

  /** Two peers compute the same list of names and versions, each from its own list and the other's hello. */
  lemma NegotiationIsSymmetric(a: seq<Info>, b: seq<Info>, sa: seq<Info>, sb: seq<Info>)
    requires Negotiated(a, Hello(b), sa) && Negotiated(b, Hello(a), sb)
    ensures Hello(sa) == Hello(sb)
  {
    forall id ensures id in Hello(sa) <==> id in Hello(sb) {
      if id in Hello(sa) {
        var i :| 0 <= i < |sa| && Hello(sa)[i] == id;
        assert sa[i] in sa;
        var y := BestIsMutual(a, b, sa[i]);
        HelloMember(sb, y);
      }
      if id in Hello(sb) {
        var i :| 0 <= i < |sb| && Hello(sb)[i] == id;
        assert sb[i] in sb;
        var y := BestIsMutual(b, a, sb[i]);
        HelloMember(sa, y);
      }
    }
    SortedUnique(sa, sb);
  }

  /** The connection is refused for lack of shared capabilities exactly when no name and version is common. */
  lemma NothingShared(local: seq<Info>, remote: seq<Id>, shared: seq<Info>)
    requires Negotiated(local, remote, shared)
    ensures shared == [] <==> forall x :: !Common(local, remote, x)
  {
    if x :| Common(local, remote, x) {
      var best := HighestCommon(local, remote, x);
      assert best in shared;
    }
    if shared != [] {
      assert shared[0] in shared;
    }
  }

  /** Above every common capability there is a best one of its name. */
  lemma HighestCommon(local: seq<Info>, remote: seq<Id>, x: Info) returns (best: Info)
    requires Common(local, remote, x)
    ensures Best(local, remote, best) && best.name == x.name
  {
    best := x;
    for k := 0 to |local|
      invariant Common(local, remote, best) && best.name == x.name
      invariant forall j :: 0 <= j < k && Common(local, remote, local[j]) && local[j].name == x.name ==>
        local[j].version <= best.version
    {
      if IdOf(local[k]) in remote && local[k].name == x.name && local[k].version > best.version {
        best := local[k];
      }
    }
    forall y | Common(local, remote, y) && y.name == best.name ensures y.version <= best.version {
      var j :| 0 <= j < |local| && local[j] == y;
    }
  }

  /** The cached list of a capability map: its entries, once each. */
  ghost predicate Lists(caps: map<Id, nat>, cache: seq<Info>) {
    DistinctIds(cache) && forall x :: x in cache <==> IdOf(x) in caps && caps[IdOf(x)] == x.length
  }

  /** `CapabilitySet::from`, in whatever order the map is iterated. */
  method FromMap(caps: map<Id, nat>) returns (cache: seq<Info>)
    ensures Lists(caps, cache)
  {
    cache := [];
    var todo := caps.Keys;
    while todo != {}
      invariant todo <= caps.Keys && DistinctIds(cache)
      invariant forall x :: x in cache <==> IdOf(x) in caps && IdOf(x) !in todo && caps[IdOf(x)] == x.length
      decreases todo
    {
      var id :| id in todo;
      var x := Info(id.name, id.version, caps[id]);
      DistinctSnoc(cache, x);
      cache := cache + [x];
      todo := todo - {id};
      assert forall y: Info :: IdOf(y) == id && y.length == caps[id] ==> y == x;
    }
  }

  lemma HelloOfMap(caps: map<Id, nat>, cache: seq<Info>, id: Id)
    requires Lists(caps, cache)
    ensures id in Hello(cache) <==> id in caps
  {
    if id in Hello(cache) {
      var i :| 0 <= i < |cache| && Hello(cache)[i] == id;
      assert cache[i] in cache;
    }
    if id in caps {
      HelloMember(cache, Info(id.name, id.version, caps[id]));
    }
  }

  /** The highest version of its name that both maps have. */
  ghost predicate HighestShared(a: map<Id, nat>, b: map<Id, nat>, id: Id) {
    id in a && id in b && forall v: nat :: Id(id.name, v) in a && Id(id.name, v) in b ==> v <= id.version
  }

  lemma NegotiatedFromMaps(a: map<Id, nat>, b: map<Id, nat>, ca: seq<Info>, cb: seq<Info>, shared: seq<Info>, id: Id)
    requires Lists(a, ca) && Lists(b, cb) && Negotiated(ca, Hello(cb), shared)
    ensures id in Hello(shared) <==> HighestShared(a, b, id)
  {
    if id in Hello(shared) {
      var i :| 0 <= i < |shared| && Hello(shared)[i] == id;
      assert shared[i] in shared;
      HelloOfMap(b, cb, id);
      forall v: nat | Id(id.name, v) in a && Id(id.name, v) in b ensures v <= id.version {
        var other := Id(id.name, v);
        HelloOfMap(b, cb, other);
        assert Common(ca, Hello(cb), Info(id.name, v, a[other]));
      }
    }
    if HighestShared(a, b, id) {
      var x := Info(id.name, id.version, a[id]);
      HelloOfMap(b, cb, id);
      forall y | Common(ca, Hello(cb), y) && y.name == x.name ensures y.version <= x.version {
        HelloOfMap(b, cb, IdOf(y));
        assert Id(id.name, y.version) == IdOf(y);
      }
      assert x in shared;
      HelloMember(shared, x);
    }
  }

  /**
   * For any two capability maps both sides compute one list: the highest common version of each common name,
   * and nothing exactly when the maps have no name and version in common.
   */
  lemma MapsAgree(a: map<Id, nat>, b: map<Id, nat>, ca: seq<Info>, cb: seq<Info>, sa: seq<Info>, sb: seq<Info>)
    requires Lists(a, ca) && Lists(b, cb)
    requires Negotiated(ca, Hello(cb), sa) && Negotiated(cb, Hello(ca), sb)
    ensures Hello(sa) == Hello(sb)
    ensures forall id :: id in Hello(sa) <==> HighestShared(a, b, id)
    ensures sa == [] <==> a.Keys !! b.Keys
  {
    NegotiationIsSymmetric(ca, cb, sa, sb);
    forall id ensures id in Hello(sa) <==> HighestShared(a, b, id) {
      NegotiatedFromMaps(a, b, ca, cb, sa, id);
    }
    NothingShared(ca, Hello(cb), sa);
    if x :| Common(ca, Hello(cb), x) {
      HelloOfMap(b, cb, IdOf(x));
    }
    forall id | id in a && id in b ensures sa != [] {
      HelloOfMap(b, cb, id);
      assert Common(ca, Hello(cb), Info(id.name, id.version, a[id]));
    }
  }
}
