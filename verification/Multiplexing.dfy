/** Message ids over one connection: how the sender numbers them, and what the receiver's loop makes of them. */
module Multiplexing {
  import opened Wrappers
  import opened Capabilities

  const BASE: nat := 0x10

  /** The sum of the lengths of the first `j` capabilities. */
  function Offset(caps: seq<Info>, j: nat): nat
    requires j <= |caps|
  {
    if j == 0 then 0 else caps[0].length + Offset(caps[1..], j - 1)
  }

  lemma {:induction false} OffsetNext(caps: seq<Info>, j: nat)
    requires j < |caps|
    ensures Offset(caps, j + 1) == Offset(caps, j) + caps[j].length
    decreases j
  {
    if j > 0 {
      OffsetNext(caps[1..], j - 1);
    }
  }

  ghost predicate FirstNamed(caps: seq<Info>, name: Name, j: nat) {
    j < |caps| && caps[j].name == name && forall k: nat :: k < j ==> caps[k].name != name
  }

  /** The sender's choice of wire id: nothing is sent for an unknown capability or too large an id. */
  method WireId(caps: seq<Info>, name: Name, id: nat) returns (wire: Option<nat>)
    ensures wire.Some? <==> exists j: nat :: FirstNamed(caps, name, j) && id < caps[j].length
    ensures forall j: nat :: FirstNamed(caps, name, j) && wire.Some? ==> wire.value == BASE + Offset(caps, j) + id
  {
    var at := 0;
    while at < |caps| && caps[at].name != name
      invariant at <= |caps| && forall k: nat :: k < at ==> caps[k].name != name
    {
      at := at + 1;
    }
    if at == |caps| { return None; }
    assert FirstNamed(caps, name, at);
    var cap := caps[at];
    if id >= cap.length { return None; }
    var messageId := BASE;
    var k := 0;
    while k < |caps| && caps[k] != cap
      invariant k <= at && messageId == BASE + Offset(caps, k)
    {
      OffsetNext(caps, k);
      messageId := messageId + caps[k].length;
      k := k + 1;
    }
    return Some(messageId + id);
  }

  /** Where a wire id ends up: the index of a capability and the id within it. */
  datatype Slot = Slot(index: nat, id: nat)

  /** The receive loop as written: it compares with `>` and goes on past the matching capability. */
  function Receive(caps: seq<Info>, m: nat, index: nat): Slot
    decreases |caps|
  {
    if caps == [] then Slot(index, m)
    else if m > caps[0].length then Receive(caps[1..], m - caps[0].length, index + 1)
    else Receive(caps[1..], m, index)
  }

  /** The loop run on an id relative to the reserved range. */
  method Demultiplex(caps: seq<Info>, relative: nat) returns (slot: Option<Slot>)
    ensures
      var s := Receive(caps, relative, 0);
      slot == if s.index < |caps| then Some(s) else None
  {
    var messageId: nat, index: nat := relative, 0;
    for k := 0 to |caps|
      invariant Receive(caps, relative, 0) == Receive(caps[k..], messageId, index)
    {
      assert caps[k..][1..] == caps[k + 1..];
      if messageId > caps[k].length {
        messageId := messageId - caps[k].length;
        index := index + 1;
      }
    }
    return if index >= |caps| then None else Some(Slot(index, messageId));
  }

  /** Once an id is small enough for every capability left, the loop leaves it alone, and only then. */
  lemma {:induction false} Settles(caps: seq<Info>, m: nat, index: nat)
    ensures Receive(caps, m, index).index >= index
    ensures Receive(caps, m, index) == Slot(index, m) <==> forall t: nat :: t < |caps| ==> m <= caps[t].length
    ensures Receive(caps, m, index).id == 0 ==> m == 0 && Receive(caps, m, index).index == index
    decreases |caps|
  {
    if caps != [] {
      if m > caps[0].length {
        Settles(caps[1..], m - caps[0].length, index + 1);
      } else {
        Settles(caps[1..], m, index);
        assert forall t: nat :: t < |caps| && t > 0 ==> caps[t] == caps[1..][t - 1];
        assert forall t: nat :: t < |caps| - 1 ==> caps[1..][t] == caps[t + 1];
      }
    }
  }

  /** Ids the loop maps back: not the first id of a later capability, and not above any later length. */
  predicate Survives(caps: seq<Info>, j: nat, id: nat)
    requires j < |caps|
  {
    (j == 0 || id > 0) && forall t: nat :: j < t < |caps| ==> id <= caps[t].length
  }

  /** The receive loop undoes the sender's numbering exactly on the ids that survive. */
  lemma {:induction false} ReceiveInverts(caps: seq<Info>, j: nat, id: nat, index: nat)
    requires j < |caps| && id < caps[j].length
    ensures Receive(caps, Offset(caps, j) + id, index) == Slot(index + j, id) <==> Survives(caps, j, id)
    decreases |caps|
  {
    assert forall t: nat :: t < |caps| && t > 0 ==> caps[t] == caps[1..][t - 1];
    assert forall t: nat :: t < |caps| - 1 ==> caps[1..][t] == caps[t + 1];
    if j == 0 {
      Settles(caps[1..], id, index);
    } else {
      var m := Offset(caps[1..], j - 1) + id;
      if m > 0 {
        ReceiveInverts(caps[1..], j - 1, id, index + 1);
      } else {
        Settles(caps[1..], caps[0].length, index);
      }
    }
  }

  /** With lengths 17 and 5, id 10 of the first capability is delivered as id 5 of the second. */
  lemma SecondCapabilityConfuses(a: Name, b: Name)
    ensures
      var caps := [Info(a, 1, 17), Info(b, 1, 5)];
      !Survives(caps, 0, 10) && Receive(caps, Offset(caps, 0) + 10, 0) == Slot(1, 5)
  {
    var caps := [Info(a, 1, 17), Info(b, 1, 5)];
    assert caps[1].length == 5 && caps[1..] == [Info(b, 1, 5)] && caps[1..][1..] == [];
    assert Receive(caps, 10, 0) == Receive(caps[1..], 10, 0) == Receive([], 5, 1);
  }

  /** One shared capability, as in the shipped configuration: every id survives. */
  lemma {:induction false} SingleCapabilitySurvives(cap: Info, id: nat)
    requires id < cap.length
    ensures Receive([cap], id, 0) == Slot(0, id)
  {
    ReceiveInverts([cap], 0, id, 0);
  }

  /** The loop as intended: the first capability whose range holds the id. */
  function FirstFit(caps: seq<Info>, m: nat, index: nat): Option<Slot>
    decreases |caps|
  {
    if caps == [] then None
    else if m < caps[0].length then Some(Slot(index, m))
    else FirstFit(caps[1..], m - caps[0].length, index + 1)
  }

  /** The intended loop inverts the numbering for every table, capability and id. */
  lemma {:induction false} FirstFitInverts(caps: seq<Info>, j: nat, id: nat, index: nat)
    requires j < |caps| && id < caps[j].length
    ensures FirstFit(caps, Offset(caps, j) + id, index) == Some(Slot(index + j, id))
    decreases |caps|
  {
    if j > 0 {
      FirstFitInverts(caps[1..], j - 1, id, index + 1);
    }
  }

  /** The ranges tile: every id below the sum of all lengths belongs to one capability, and no other id to any. */
  lemma {:induction false} RangesTile(caps: seq<Info>, m: nat, index: nat)
    ensures FirstFit(caps, m, index).Some? <==> m < Offset(caps, |caps|)
    ensures
      var fit := FirstFit(caps, m, index);
      fit.Some? ==>
        && index <= fit.value.index < index + |caps|
        && var j := fit.value.index - index;
        fit.value.id < caps[j].length && Offset(caps, j) + fit.value.id == m
    decreases |caps|
  {
    if caps != [] && m >= caps[0].length {
      RangesTile(caps[1..], m - caps[0].length, index + 1);
    }
  }

  /** Distinct capabilities and ids get distinct wire ids. */
  lemma {:induction false} NumberingIsInjective(caps: seq<Info>, j: nat, id: nat, j': nat, id': nat)
    requires j < |caps| && id < caps[j].length && j' < |caps| && id' < caps[j'].length
    requires Offset(caps, j) + id == Offset(caps, j') + id'
    ensures j == j' && id == id'
  {
    FirstFitInverts(caps, j, id, 0);
    FirstFitInverts(caps, j', id', 0);
  }
}
