/**
 * Resolution of EIP-1459 trees. A `Run` records what one execution of the tasks and streams did, up to
 * the moment it is observed: which lookups happened, in which order the tasks of every branch
 * delivered, and how each stream ended. The reference it is measured against is plain reachability
 * over the records, which knows nothing of tasks or orders.
 */
module DnsTree {
  import opened Bytes
  import opened Wrappers

  /** A public key, by its encoding. */
  type Key = string
  type Whitelist = Option<map<string, Key>>

  /** The hash set of a branch, in some order. */
  type Children = s: seq<string> | forall i, j :: 0 <= i < j < |s| ==> s[i] != s[j]

  datatype UnsignedRoot = UnsignedRoot(enrRoot: string, linkRoot: string, sequence: nat)

  /** `Malformed` stands for a record that cannot be fetched or does not parse. */
  datatype Record =
    | Root(base: UnsignedRoot, signature: seq<byte>)
    | Link(key: Key, domain: string)
    | Branch(children: Children)
    | Enr(text: string)
    | Malformed

  datatype Zone = Zone(records: map<string, Record>, verify: (Key, UnsignedRoot, seq<byte>) -> bool)

  datatype Kind = EnrKind | LinkKind(whitelist: Whitelist)

  /** What is resolved: a whole tree, or one child of a branch. */
  datatype Place =
    | Tree(host: string, key: Option<Key>, seen: Option<nat>, whitelist: Whitelist)
    | Node(host: string, sub: string, kind: Kind)
  {
    function Name(): string {
      if Tree? then host else sub + "." + host
    }
  }

  predicate DomainIsAllowed(whitelist: Whitelist, domain: string, key: Key) {
    whitelist.Some? ==> domain in whitelist.value && whitelist.value[domain] == key
  }

  const SIGNATURE_LEN: nat := 64

  predicate Verifies(zone: Zone, key: Option<Key>, base: UnsignedRoot, signature: seq<byte>) {
    key.Some? ==>
      zone.verify(key.value, base, if |signature| > SIGNATURE_LEN then signature[..SIGNATURE_LEN] else signature)
  }

  predicate AlreadySeen(seen: Option<nat>, base: UnsignedRoot) {
    seen.Some? && base.sequence <= seen.value
  }

  // ----- Runs -----

  /** How a stream stands: still open, ended, or ended by an error. */
  datatype End = Open | Done | Failed

  datatype Run =
    | Waiting
    | Looked(out: seq<string>, end: End)
    | Forwarded(branch: BranchRun)
    | Followed(tree: Run)
    | Linking(links: BranchRun)
    | Walked(links: BranchRun, enrs: BranchRun)
  {
    function Out(): seq<string> {
      match this
      case Waiting => []
      case Looked(out, _) => out
      case Forwarded(branch) => branch.Out()
      case Followed(tree) => tree.Out()
      case Linking(links) => links.Out()
      case Walked(links, enrs) => links.Out() + enrs.Out()
    }

    function End(): End {
      match this
      case Waiting => Open
      case Looked(_, end) => end
      case Forwarded(branch) => branch.end
      case Followed(tree) => tree.End()
      case Linking(links) => links.end
      case Walked(_, enrs) => enrs.end
    }

    /** An upper bound on the depth of what was looked up. */
    ghost function Height(): nat {
      match this
      case Waiting => 1
      case Looked(_, _) => 1
      case Forwarded(branch) => 1 + Highest(branch.tasks)
      case Followed(tree) => 1 + tree.Height()
      case Linking(links) => 1 + Highest(links.tasks)
      case Walked(links, enrs) => 1 + Highest(links.tasks) + Highest(enrs.tasks)
    }
  }

  /** One task for each child; `schedule[k]` is the task that delivered the k-th item. */
  datatype BranchRun = BranchRun(tasks: seq<Run>, schedule: seq<nat>, end: End) {
    function Out(): seq<string> {
      Merge(Outs(tasks), schedule)
    }
  }

  ghost function Highest(tasks: seq<Run>): nat {
    if tasks == [] then 0
    else
      var h := Highest(tasks[1..]);
      if tasks[0].Height() > h then tasks[0].Height() else h
  }

  function Outs(tasks: seq<Run>): (outs: seq<seq<string>>)
    ensures |outs| == |tasks| && forall i :: 0 <= i < |tasks| ==> outs[i] == tasks[i].Out()
  {
    if tasks == [] then [] else [tasks[0].Out()] + Outs(tasks[1..])
  }

  /** How many items the schedule takes from task i. */
  function Taken(schedule: seq<nat>, i: nat): nat {
    multiset(schedule)[i]
  }

  predicate Schedules(outs: seq<seq<string>>, schedule: seq<nat>) {
    forall i :: i in schedule ==> i < |outs| && Taken(schedule, i) <= |outs[i]|
  }

  /** The k-th item is the next undelivered one of the task the schedule names. */
  function Merge(outs: seq<seq<string>>, schedule: seq<nat>): seq<string> {
    if schedule == [] then []
    else
      var last := |schedule| - 1;
      var i := schedule[last];
      var taken := Taken(schedule[..last], i);
      Merge(outs, schedule[..last])
      + (if i < |outs| && taken < |outs[i]| then [outs[i][taken]] else [])
  }

  predicate LegalBranch(zone: Zone, host: string, children: Children, kind: Kind, b: BranchRun)
    decreases b, 0
  {
    && |b.tasks| == |children|
    && (forall i :: 0 <= i < |children| ==> Legal(zone, Node(host, children[i], kind), b.tasks[i]))
    && Schedules(Outs(b.tasks), b.schedule)
    && (b.end == Done ==>
          forall i :: 0 <= i < |b.tasks| ==>
            b.tasks[i].End() == Done && Taken(b.schedule, i) == |b.tasks[i].Out()|)
    && (b.end == Failed ==>
          exists i :: 0 <= i < |b.tasks| &&
            b.tasks[i].End() == Failed && Taken(b.schedule, i) == |b.tasks[i].Out()|)
  }

  /** `run` is a possible execution of `resolve_tree`, or of the task for one child. */
  predicate Legal(zone: Zone, p: Place, run: Run)
    decreases run, 1
  {
    if run.Waiting? then true
    else if p.Name() !in zone.records then run == Looked([], Done)
    else
      var record := zone.records[p.Name()];
      match p
      case Tree(host, key, seen, whitelist) =>
        if !record.Root? || !Verifies(zone, key, record.base, record.signature) then run == Looked([], Failed)
        else if AlreadySeen(seen, record.base) then run == Looked([], Done)
        else
          (match run
           case Linking(links) =>
             links.end != Done && LegalBranch(zone, host, [record.base.linkRoot], LinkKind(whitelist), links)
           case Walked(links, enrs) =>
             && links.end == Done && LegalBranch(zone, host, [record.base.linkRoot], LinkKind(whitelist), links)
             && LegalBranch(zone, host, [record.base.enrRoot], EnrKind, enrs)
           case _ => false)
      case Node(host, sub, kind) =>
        match record
        case Branch(children) => run.Forwarded? && LegalBranch(zone, host, children, kind, run.branch)
        case Link(key, domain) =>
          if kind == EnrKind then run == Looked([], Failed)
          else if DomainIsAllowed(kind.whitelist, domain, key) then
            run.Followed? && Legal(zone, Tree(domain, Some(key), None, kind.whitelist), run.tree)
          else run == Looked([], Done)
        case Enr(text) => run == if kind == EnrKind then Looked([text], Done) else Looked([], Failed)
        case _ => run == Looked([], Failed)
  }

  // ----- Reachability -----

  /** Where a place leads, read off the records alone. */
  function Successors(zone: Zone, p: Place): seq<Place> {
    if p.Name() !in zone.records then []
    else
      match (p, zone.records[p.Name()])
      case (Tree(host, key, seen, whitelist), Root(base, signature)) =>
        if Verifies(zone, key, base, signature) && !AlreadySeen(seen, base) then
          [Node(host, base.linkRoot, LinkKind(whitelist)), Node(host, base.enrRoot, EnrKind)]
        else []
      case (Node(host, _, kind), Branch(children)) =>
        seq(|children|, i requires 0 <= i < |children| => Node(host, children[i], kind))
      case (Node(_, _, LinkKind(whitelist)), Link(key, domain)) =>
        if DomainIsAllowed(whitelist, domain, key) then [Tree(domain, Some(key), None, whitelist)] else []
      case _ => []
  }

  predicate Holds(zone: Zone, p: Place, enr: string) {
    p.Node? && p.kind == EnrKind && p.Name() in zone.records && zone.records[p.Name()] == Enr(enr)
  }

  /** Nothing is wrong with the record at this place; a missing one is only warned about. */
  predicate Healthy(zone: Zone, p: Place) {
    p.Name() in zone.records ==>
      match (p, zone.records[p.Name()])
      case (Tree(_, key, _, _), Root(base, signature)) => Verifies(zone, key, base, signature)
      case (Node(_, _, _), Branch(_)) => true
      case (Node(_, _, kind), Link(_, _)) => kind.LinkKind?
      case (Node(_, _, kind), Enr(_)) => kind == EnrKind
      case _ => false
  }

  predicate Path(zone: Zone, path: seq<Place>) {
    && path != []
    && (|path| > 1 ==> path[1] in Successors(zone, path[0]) && Path(zone, path[1..]))
  }

  ghost predicate Leads(zone: Zone, p: Place, path: seq<Place>, q: Place) {
    Path(zone, path) && path[0] == p && path[|path| - 1] == q
  }

  ghost predicate Reaches(zone: Zone, p: Place, enr: string) {
    exists path, q :: Leads(zone, p, path, q) && Holds(zone, q, enr)
  }

  ghost predicate AllHealthy(zone: Zone, p: Place) {
    forall path, q :: Leads(zone, p, path, q) ==> Healthy(zone, q)
  }

  ghost predicate Bounded(zone: Zone, p: Place, n: nat) {
    forall path, q :: Leads(zone, p, path, q) ==> |path| <= n
  }

  /** No chain of records comes back to a name it has visited. */
  ghost predicate Acyclic(zone: Zone, p: Place) {
    forall path: seq<Place>, q :: Leads(zone, p, path, q) ==>
      forall i, j :: 0 <= i < j < |path| ==> path[i].Name() != path[j].Name()
  }

  lemma Prepend(zone: Zone, p: Place, q: Place, path: seq<Place>, r: Place)
    requires q in Successors(zone, p) && Leads(zone, q, path, r)
    ensures Leads(zone, p, [p] + path, r)
  {
    assert ([p] + path)[1..] == path;
  }

  // ----- Merging -----

  lemma {:induction false} Merged(outs: seq<seq<string>>, schedule: seq<nat>, text: string) returns (i: nat)
    requires text in Merge(outs, schedule)
    ensures i < |outs| && text in outs[i]
  {
    var last := |schedule| - 1;
    if text in Merge(outs, schedule[..last]) {
      i := Merged(outs, schedule[..last], text);
    } else {
      i := schedule[last];
    }
  }

  function Sum(outs: seq<seq<string>>): multiset<string> {
    if outs == [] then multiset{} else multiset(outs[0]) + Sum(outs[1..])
  }

  function Delivered(outs: seq<seq<string>>, schedule: seq<nat>): (taken: seq<seq<string>>)
    requires Schedules(outs, schedule)
  {
    seq(|outs|, i requires 0 <= i < |outs| =>
      assert i in schedule || Taken(schedule, i) == 0; outs[i][..Taken(schedule, i)])
  }

  lemma {:induction false} SumGrows(outs: seq<seq<string>>, i: nat, text: string)
    requires i < |outs|
    ensures Sum(outs[i := outs[i] + [text]]) == Sum(outs) + multiset{text}
  {
    var grown := outs[i := outs[i] + [text]];
    if i == 0 {
      assert grown[1..] == outs[1..];
    } else {
      assert grown[1..] == outs[1..][i - 1 := outs[i] + [text]];
      SumGrows(outs[1..], i - 1, text);
    }
  }

  lemma {:induction false} SumOfEmpties(outs: seq<seq<string>>)
    requires forall i :: 0 <= i < |outs| ==> outs[i] == []
    ensures Sum(outs) == multiset{}
  {
    if outs != [] {
      SumOfEmpties(outs[1..]);
    }
  }

  lemma {:induction false} SumMember(outs: seq<seq<string>>, i: nat, text: string)
    requires i < |outs| && text in outs[i]
    ensures text in Sum(outs)
  {
    if i > 0 {
      SumMember(outs[1..], i - 1, text);
    }
  }

  lemma {:induction false} SumEqual(a: seq<seq<string>>, b: seq<seq<string>>)
    requires |a| == |b| && forall i :: 0 <= i < |a| ==> multiset(a[i]) == multiset(b[i])
    ensures Sum(a) == Sum(b)
  {
    if a != [] {
      SumEqual(a[1..], b[1..]);
    }
  }

  lemma TakenNext(init: seq<nat>, i: nat)
    ensures forall j: nat :: Taken(init + [i], j) == Taken(init, j) + if j == i then 1 else 0
  {
  }

  lemma DeliveredNext(outs: seq<seq<string>>, init: seq<nat>, i: nat)
    requires Schedules(outs, init + [i])
    ensures Schedules(outs, init) && i < |outs| && Taken(init, i) < |outs[i]|
    ensures var before := Delivered(outs, init);
            Delivered(outs, init + [i]) == before[i := before[i] + [outs[i][Taken(init, i)]]]
  {
    TakenNext(init, i);
    forall j | j in init ensures j < |outs| && Taken(init, j) <= |outs[j]| {
      assert j in init + [i];
    }
    assert (init + [i])[|init|] == i;
    var taken := Taken(init, i);
    assert outs[i][..taken] + [outs[i][taken]] == outs[i][..taken + 1];
  }

  /** What has come out of a branch is, as a multiset, what its tasks have delivered. */
  lemma {:induction false} MergeConserves(outs: seq<seq<string>>, schedule: seq<nat>)
    requires Schedules(outs, schedule)
    ensures multiset(Merge(outs, schedule)) == Sum(Delivered(outs, schedule))
  {
    if schedule == [] {
      SumOfEmpties(Delivered(outs, schedule));
      return;
    }
    var last := |schedule| - 1;
    var init, i := schedule[..last], schedule[last];
    assert schedule == init + [i];
    DeliveredNext(outs, init, i);
    MergeConserves(outs, init);
    var text := outs[i][Taken(init, i)];
    SumGrows(Delivered(outs, init), i, text);
    assert Merge(outs, schedule) == Merge(outs, init) + [text];
  }

  lemma DoneDeliversAll(zone: Zone, host: string, children: Children, kind: Kind, b: BranchRun)
    requires LegalBranch(zone, host, children, kind, b) && b.end == Done
    ensures multiset(b.Out()) == Sum(Outs(b.tasks))
  {
    hide Legal, Merge, Sum;
    var outs := Outs(b.tasks);
    MergeConserves(outs, b.schedule);
    forall i | 0 <= i < |outs| ensures Delivered(outs, b.schedule)[i] == outs[i] {
      assert Taken(b.schedule, i) == |outs[i]|;
    }
    assert Delivered(outs, b.schedule) == outs;
  }

  lemma DoneDelivers(zone: Zone, host: string, children: Children, kind: Kind, b: BranchRun, i: nat, text: string)
    requires LegalBranch(zone, host, children, kind, b) && b.end == Done
    requires i < |b.tasks| && text in b.tasks[i].Out()
    ensures text in b.Out()
  {
    DoneDeliversAll(zone, host, children, kind, b);
    SumMember(Outs(b.tasks), i, text);
    assert text in multiset(b.Out());
  }

  // ----- Soundness -----

  lemma {:induction false} BranchSound(zone: Zone, p: Place, host: string, children: Children, kind: Kind, b: BranchRun, enr: string)
    returns (path: seq<Place>, q: Place)
    requires LegalBranch(zone, host, children, kind, b) && enr in b.Out()
    requires forall i :: 0 <= i < |children| ==> Node(host, children[i], kind) in Successors(zone, p)
    ensures Leads(zone, p, path, q) && Holds(zone, q, enr)
    decreases b, 0
  {
    var i := Merged(Outs(b.tasks), b.schedule, enr);
    var child := Node(host, children[i], kind);
    path, q := Sound(zone, child, b.tasks[i], enr);
    Prepend(zone, p, child, path, q);
    path := [p] + path;
  }

  /** Whatever a run has yielded so far, finished or not, is reachable. */
  lemma {:induction false} Sound(zone: Zone, p: Place, run: Run, enr: string) returns (path: seq<Place>, q: Place)
    requires Legal(zone, p, run) && enr in run.Out()
    ensures Leads(zone, p, path, q) && Holds(zone, q, enr)
    decreases run, 1
  {
    match run
    case Looked(_, _) =>
      path, q := [p], p;
    case Forwarded(branch) =>
      var children := zone.records[p.Name()].children;
      assert forall i :: 0 <= i < |children| ==> Successors(zone, p)[i] == Node(p.host, children[i], p.kind);
      path, q := BranchSound(zone, p, p.host, children, p.kind, branch, enr);
    case Followed(tree) =>
      var next := Successors(zone, p)[0];
      path, q := Sound(zone, next, tree, enr);
      Prepend(zone, p, next, path, q);
      path := [p] + path;
    case Linking(links) =>
      path, q := BranchSound(zone, p, p.host, [zone.records[p.Name()].base.linkRoot], LinkKind(p.whitelist), links, enr);
    case Walked(links, enrs) =>
      var base := zone.records[p.Name()].base;
      if enr in links.Out() {
        path, q := BranchSound(zone, p, p.host, [base.linkRoot], LinkKind(p.whitelist), links, enr);
      } else {
        path, q := BranchSound(zone, p, p.host, [base.enrRoot], EnrKind, enrs, enr);
      }
  }

  lemma {:induction false} BranchBlame(zone: Zone, p: Place, host: string, children: Children, kind: Kind, b: BranchRun)
    returns (path: seq<Place>, q: Place)
    requires LegalBranch(zone, host, children, kind, b) && b.end == Failed
    requires forall i :: 0 <= i < |children| ==> Node(host, children[i], kind) in Successors(zone, p)
    ensures Leads(zone, p, path, q) && !Healthy(zone, q)
    decreases b, 0
  {
    var i :| 0 <= i < |b.tasks| && b.tasks[i].End() == Failed;
    var child := Node(host, children[i], kind);
    path, q := Blame(zone, child, b.tasks[i]);
    Prepend(zone, p, child, path, q);
    path := [p] + path;
  }

  /** A run fails only over a reachable record that is wrong. */
  lemma {:induction false} Blame(zone: Zone, p: Place, run: Run) returns (path: seq<Place>, q: Place)
    requires Legal(zone, p, run) && run.End() == Failed
    ensures Leads(zone, p, path, q) && !Healthy(zone, q)
    decreases run, 1
  {
    match run
    case Looked(_, _) =>
      path, q := [p], p;
    case Forwarded(branch) =>
      var children := zone.records[p.Name()].children;
      assert forall i :: 0 <= i < |children| ==> Successors(zone, p)[i] == Node(p.host, children[i], p.kind);
      path, q := BranchBlame(zone, p, p.host, children, p.kind, branch);
    case Followed(tree) =>
      var next := Successors(zone, p)[0];
      path, q := Blame(zone, next, tree);
      Prepend(zone, p, next, path, q);
      path := [p] + path;
    case Linking(links) =>
      path, q := BranchBlame(zone, p, p.host, [zone.records[p.Name()].base.linkRoot], LinkKind(p.whitelist), links);
    case Walked(links, enrs) =>
      path, q := BranchBlame(zone, p, p.host, [zone.records[p.Name()].base.enrRoot], EnrKind, enrs);
  }

  // ----- Completeness -----

  lemma {:induction false} HighestBounds(tasks: seq<Run>, i: nat)
    requires i < |tasks|
    ensures tasks[i].Height() <= Highest(tasks)
  {
    if i > 0 {
      HighestBounds(tasks[1..], i - 1);
    }
  }

  ghost predicate Covers(zone: Zone, out: seq<string>, height: nat, path: seq<Place>)
    requires path != []
  {
    var q := path[|path| - 1];
    && |path| <= height
    && Healthy(zone, q)
    && (forall enr :: Holds(zone, q, enr) ==> enr in out)
  }

  lemma {:induction false} BranchCovers(zone: Zone, host: string, children: Children, kind: Kind, b: BranchRun, i: nat, path: seq<Place>)
    requires LegalBranch(zone, host, children, kind, b) && b.end == Done
    requires i < |children| && Path(zone, path) && path[0] == Node(host, children[i], kind)
    ensures Covers(zone, b.Out(), Highest(b.tasks), path)
    decreases b, 0
  {
    DoneCovers(zone, path[0], b.tasks[i], path);
    HighestBounds(b.tasks, i);
    forall enr | Holds(zone, path[|path| - 1], enr) ensures enr in b.Out() {
      DoneDelivers(zone, host, children, kind, b, i, enr);
    }
  }

  lemma CoversTail(zone: Zone, out: seq<string>, height: nat, path: seq<Place>, out': seq<string>, height': nat)
    requires |path| > 1 && Covers(zone, out, height, path[1..])
    requires height < height' && forall enr :: enr in out ==> enr in out'
    ensures Covers(zone, out', height', path)
  {
    assert path[1..][|path| - 2] == path[|path| - 1];
  }

  /** The place itself is right, what it holds is yielded, and a mere lookup leads nowhere. */
  lemma DoneHere(zone: Zone, p: Place, run: Run)
    requires Legal(zone, p, run) && run.End() == Done
    ensures Covers(zone, run.Out(), run.Height(), [p])
    ensures run.Looked? ==> Successors(zone, p) == []
  {
  }

  lemma {:induction false} WalkCovers(zone: Zone, p: Place, run: Run, path: seq<Place>)
    requires Legal(zone, p, run) && run.End() == Done && run.Walked?
    requires Path(zone, path) && path[0] == p && |path| > 1
    ensures Covers(zone, run.Out(), run.Height(), path)
    decreases run, 1
  {
    hide Covers, Highest;
    var base := zone.records[p.Name()].base;
    if path[1] == Node(p.host, base.linkRoot, LinkKind(p.whitelist)) {
      BranchCovers(zone, p.host, [base.linkRoot], LinkKind(p.whitelist), run.links, 0, path[1..]);
      CoversTail(zone, run.links.Out(), Highest(run.links.tasks), path, run.Out(), run.Height());
    } else {
      BranchCovers(zone, p.host, [base.enrRoot], EnrKind, run.enrs, 0, path[1..]);
      CoversTail(zone, run.enrs.Out(), Highest(run.enrs.tasks), path, run.Out(), run.Height());
    }
  }

  /** A run that ends well has looked at everything reachable, and yielded every record found there. */
  lemma {:induction false} DoneCovers(zone: Zone, p: Place, run: Run, path: seq<Place>)
    requires Legal(zone, p, run) && run.End() == Done
    requires Path(zone, path) && path[0] == p
    ensures Covers(zone, run.Out(), run.Height(), path)
    decreases run, 2
  {
    DoneHere(zone, p, run);
    hide Covers, Highest, Healthy, Holds;
    if |path| == 1 {
      assert path == [p];
      return;
    }
    var next := path[1];
    match run
    case Forwarded(branch) =>
      var children := zone.records[p.Name()].children;
      var i :| 0 <= i < |children| && Successors(zone, p)[i] == next;
      BranchCovers(zone, p.host, children, p.kind, branch, i, path[1..]);
      CoversTail(zone, branch.Out(), Highest(branch.tasks), path, run.Out(), run.Height());
    case Followed(tree) =>
      DoneCovers(zone, next, tree, path[1..]);
      CoversTail(zone, tree.Out(), tree.Height(), path, run.Out(), run.Height());
    case Walked(_, _) =>
      WalkCovers(zone, p, run, path);
  }

  /** A run that ends well has yielded exactly the reachable node records. */
  lemma {:induction false} ResolvesExactly(zone: Zone, p: Place, run: Run, enr: string)
    requires Legal(zone, p, run) && run.End() == Done
    ensures enr in run.Out() <==> Reaches(zone, p, enr)
  {
    if enr in run.Out() {
      var path, q := Sound(zone, p, run, enr);
    }
    forall path, q | Leads(zone, p, path, q) && Holds(zone, q, enr) ensures enr in run.Out() {
      DoneCovers(zone, p, run, path);
    }
  }

  // ----- Order independence -----

  lemma {:induction false} BranchesAgree(zone: Zone, host: string, children: Children, kind: Kind, a: BranchRun, b: BranchRun)
    requires LegalBranch(zone, host, children, kind, a) && a.end == Done
    requires LegalBranch(zone, host, children, kind, b) && b.end == Done
    ensures multiset(a.Out()) == multiset(b.Out())
    decreases a, 0
  {
    DoneDeliversAll(zone, host, children, kind, a);
    DoneDeliversAll(zone, host, children, kind, b);
    forall i | 0 <= i < |children| ensures multiset(a.tasks[i].Out()) == multiset(b.tasks[i].Out()) {
      OrderIsIrrelevant(zone, Node(host, children[i], kind), a.tasks[i], b.tasks[i]);
    }
    SumEqual(Outs(a.tasks), Outs(b.tasks));
  }

  /** Two runs that end well yield the same records, each as often. */
  lemma {:induction false} OrderIsIrrelevant(zone: Zone, p: Place, a: Run, b: Run)
    requires Legal(zone, p, a) && a.End() == Done
    requires Legal(zone, p, b) && b.End() == Done
    ensures multiset(a.Out()) == multiset(b.Out())
    decreases a, 1
  {
    match a
    case Looked(_, _) =>
    case Forwarded(branch) =>
      BranchesAgree(zone, p.host, zone.records[p.Name()].children, p.kind, branch, b.branch);
    case Followed(tree) =>
      OrderIsIrrelevant(zone, Successors(zone, p)[0], tree, b.tree);
    case Walked(links, enrs) =>
      var base := zone.records[p.Name()].base;
      BranchesAgree(zone, p.host, [base.linkRoot], LinkKind(p.whitelist), links, b.links);
      BranchesAgree(zone, p.host, [base.enrRoot], EnrKind, enrs, b.enrs);
  }

  /** Whether a run that has ended ended well does not depend on the order either. */
  lemma {:induction false} EndingsAgree(zone: Zone, p: Place, a: Run, b: Run)
    requires Legal(zone, p, a) && a.End() != Open
    requires Legal(zone, p, b) && b.End() != Open
    ensures a.End() == b.End()
  {
    if a.End() == Failed && b.End() == Done {
      var path, q := Blame(zone, p, a);
      DoneCovers(zone, p, b, path);
    } else if a.End() == Done && b.End() == Failed {
      var path, q := Blame(zone, p, b);
      DoneCovers(zone, p, a, path);
    }
  }

  // ----- Termination -----

  /** A schedule that takes from each task a given number of items. */
  lemma {:induction false} ScheduleOf(counts: seq<nat>) returns (schedule: seq<nat>)
    ensures forall i :: i in schedule ==> i < |counts|
    ensures forall i :: 0 <= i < |counts| ==> Taken(schedule, i) == counts[i]
  {
    if counts == [] {
      return [];
    }
    var last := |counts| - 1;
    var before := ScheduleOf(counts[..last]);
    var more := Repeat(last, counts[last]);
    schedule := before + more;
    assert last !in before;
    forall i | 0 <= i < |counts| ensures Taken(schedule, i) == counts[i] {
      assert Taken(schedule, i) == Taken(before, i) + Taken(more, i);
    }
  }

  lemma {:induction false} Repeat(i: nat, n: nat) returns (s: seq<nat>)
    ensures forall j: nat :: Taken(s, j) == if j == i then n else 0
    ensures forall j :: j in s ==> j == i
  {
    if n == 0 {
      return [];
    }
    var t := Repeat(i, n - 1);
    TakenNext(t, i);
    s := t + [i];
  }

  lemma BoundedStep(zone: Zone, p: Place, q: Place, n: nat)
    requires Bounded(zone, p, n) && q in Successors(zone, p)
    ensures n > 0 && Bounded(zone, q, n - 1)
  {
    assert Leads(zone, p, [p], p);
    forall path, r | Leads(zone, q, path, r) ensures |path| <= n - 1 {
      Prepend(zone, p, q, path, r);
    }
  }

  lemma {:induction false} TasksFinish(zone: Zone, p: Place, host: string, children: Children, kind: Kind, n: nat)
    returns (tasks: seq<Run>)
    requires Bounded(zone, p, n) && n > 0
    requires forall i :: 0 <= i < |children| ==> Node(host, children[i], kind) in Successors(zone, p)
    ensures |tasks| == |children|
    ensures forall i :: 0 <= i < |children| ==>
      Legal(zone, Node(host, children[i], kind), tasks[i]) && tasks[i].End() != Open
    decreases n, 0
  {
    hide Legal, Successors, Bounded;
    tasks := [];
    while |tasks| < |children|
      invariant |tasks| <= |children|
      invariant forall i :: 0 <= i < |tasks| ==>
        Legal(zone, Node(host, children[i], kind), tasks[i]) && tasks[i].End() != Open
    {
      var child := Node(host, children[|tasks|], kind);
      BoundedStep(zone, p, child, n);
      var task := Finishes(zone, child, n - 1);
      tasks := tasks + [task];
    }
  }

  lemma {:induction false} BranchFinishes(zone: Zone, p: Place, host: string, children: Children, kind: Kind, n: nat)
    returns (b: BranchRun)
    requires Bounded(zone, p, n) && n > 0
    requires forall i :: 0 <= i < |children| ==> Node(host, children[i], kind) in Successors(zone, p)
    ensures LegalBranch(zone, host, children, kind, b) && b.end != Open
    decreases n, 1
  {
    hide Legal, Successors, Bounded;
    var tasks := TasksFinish(zone, p, host, children, kind, n);
    if i :| 0 <= i < |tasks| && tasks[i].End() == Failed {
      var schedule := Repeat(i, |tasks[i].Out()|);
      b := BranchRun(tasks, schedule, Failed);
    } else {
      var outs := Outs(tasks);
      var schedule := ScheduleOf(seq(|outs|, i requires 0 <= i < |outs| => |outs[i]|));
      b := BranchRun(tasks, schedule, Done);
    }
  }

  /** Where chains of records are bounded, some run comes to an end. */
  lemma {:induction false} Finishes(zone: Zone, p: Place, n: nat) returns (run: Run)
    requires Bounded(zone, p, n)
    ensures Legal(zone, p, run) && run.End() != Open
    decreases n, 3
  {
    assert Leads(zone, p, [p], p);
    if p.Name() !in zone.records {
      return Looked([], Done);
    }
    match p
    case Tree(host, key, seen, whitelist) =>
      run := TreeFinishes(zone, p, n);
    case Node(host, sub, kind) =>
      match zone.records[p.Name()]
      case Branch(children) =>
        assert forall i :: 0 <= i < |children| ==> Successors(zone, p)[i] == Node(host, children[i], kind);
        var branch := BranchFinishes(zone, p, host, children, kind, n);
        run := Forwarded(branch);
      case Link(linked, domain) =>
        if kind.LinkKind? && DomainIsAllowed(kind.whitelist, domain, linked) {
          var next := Successors(zone, p)[0];
          BoundedStep(zone, p, next, n);
          var tree := Finishes(zone, next, n - 1);
          run := Followed(tree);
        } else {
          run := Looked([], if kind == EnrKind then Failed else Done);
        }
      case Enr(text) =>
        run := if kind == EnrKind then Looked([text], Done) else Looked([], Failed);
      case _ =>
        run := Looked([], Failed);
  }

  lemma {:induction false} TreeFinishes(zone: Zone, p: Place, n: nat) returns (run: Run)
    requires p.Tree? && p.Name() in zone.records
    requires Bounded(zone, p, n) && n > 0
    ensures Legal(zone, p, run) && run.End() != Open
    decreases n, 2
  {
    var record := zone.records[p.Name()];
    if !record.Root? || !Verifies(zone, p.key, record.base, record.signature) {
      return Looked([], Failed);
    }
    if AlreadySeen(p.seen, record.base) {
      return Looked([], Done);
    }
    var links := BranchFinishes(zone, p, p.host, [record.base.linkRoot], LinkKind(p.whitelist), n);
    if links.end != Done {
      return Linking(links);
    }
    var enrs := BranchFinishes(zone, p, p.host, [record.base.enrRoot], EnrKind, n);
    run := Walked(links, enrs);
  }

  // ----- Continuation -----

  /** `b` is `a` some time later. */
  predicate Continues(a: Run, b: Run)
    decreases a, 1
  {
    match a
    case Waiting => true
    case Looked(_, _) => b == a
    case Forwarded(branch) => b.Forwarded? && BranchContinues(branch, b.branch)
    case Followed(tree) => b.Followed? && Continues(tree, b.tree)
    case Linking(links) => (b.Linking? || b.Walked?) && BranchContinues(links, b.links)
    case Walked(links, enrs) => b.Walked? && b.links == links && BranchContinues(enrs, b.enrs)
  }

  /** Tasks go on, and what was delivered stays delivered; a stream that has ended stays as it is. */
  predicate BranchContinues(a: BranchRun, b: BranchRun)
    decreases a, 0
  {
    if a.end != Open then b == a
    else
      && |b.tasks| == |a.tasks| && (forall i :: 0 <= i < |a.tasks| ==> Continues(a.tasks[i], b.tasks[i]))
      && a.schedule <= b.schedule
  }

  lemma {:induction false} MergePrefix(outs: seq<seq<string>>, s: seq<nat>, s': seq<nat>)
    requires s <= s'
    ensures Merge(outs, s) <= Merge(outs, s')
    decreases |s'|
  {
    if |s| < |s'| {
      MergePrefix(outs, s, s'[..|s'| - 1]);
    } else {
      assert s == s';
    }
  }

  /** What is delivered does not depend on what a task yields later. */
  lemma {:induction false} MergeStable(outs: seq<seq<string>>, outs': seq<seq<string>>, schedule: seq<nat>)
    requires Schedules(outs, schedule) && |outs| == |outs'|
    requires forall i :: 0 <= i < |outs| ==> outs[i] <= outs'[i]
    ensures Merge(outs, schedule) == Merge(outs', schedule)
  {
    if schedule != [] {
      var init, i := schedule[..|schedule| - 1], schedule[|schedule| - 1];
      assert schedule == init + [i];
      DeliveredNext(outs, init, i);
      MergeStable(outs, outs', init);
    }
  }

  lemma {:induction false} BranchOutGrows(zone: Zone, host: string, children: Children, kind: Kind, a: BranchRun, b: BranchRun)
    requires LegalBranch(zone, host, children, kind, a) && BranchContinues(a, b)
    ensures a.Out() <= b.Out()
    decreases a, 0
  {
    if a.end == Open {
      hide Legal, Merge, Schedules;
      forall i | 0 <= i < |a.tasks| ensures a.tasks[i].Out() <= b.tasks[i].Out() {
        OutGrows(zone, Node(host, children[i], kind), a.tasks[i], b.tasks[i]);
      }
      MergeStable(Outs(a.tasks), Outs(b.tasks), a.schedule);
      MergePrefix(Outs(b.tasks), a.schedule, b.schedule);
    }
  }

  /** As a run goes on, what it has yielded is only added to. */
  lemma {:induction false} OutGrows(zone: Zone, p: Place, a: Run, b: Run)
    requires Legal(zone, p, a) && Continues(a, b)
    ensures a.Out() <= b.Out()
    decreases a, 1
  {
    match a
    case Waiting =>
    case Looked(_, _) =>
    case Forwarded(branch) =>
      BranchOutGrows(zone, p.host, zone.records[p.Name()].children, p.kind, branch, b.branch);
    case Followed(tree) =>
      OutGrows(zone, Successors(zone, p)[0], tree, b.tree);
    case Linking(links) =>
      BranchOutGrows(zone, p.host, [zone.records[p.Name()].base.linkRoot], LinkKind(p.whitelist), links, b.links);
    case Walked(_, enrs) =>
      BranchOutGrows(zone, p.host, [zone.records[p.Name()].base.enrRoot], EnrKind, enrs, b.enrs);
  }

  lemma {:induction false} TasksCanEnd(zone: Zone, p: Place, host: string, children: Children, kind: Kind, b: BranchRun, n: nat)
    returns (tasks: seq<Run>)
    requires LegalBranch(zone, host, children, kind, b) && Bounded(zone, p, n)
    requires forall i :: 0 <= i < |children| ==> Node(host, children[i], kind) in Successors(zone, p)
    ensures |tasks| == |children|
    ensures forall i :: 0 <= i < |children| ==>
      && Legal(zone, Node(host, children[i], kind), tasks[i]) && tasks[i].End() != Open
      && Continues(b.tasks[i], tasks[i]) && b.tasks[i].Out() <= tasks[i].Out()
    decreases b, 0
  {
    hide Legal, Successors, Bounded, Continues, Schedules;
    tasks := [];
    while |tasks| < |children|
      invariant |tasks| <= |children|
      invariant forall i :: 0 <= i < |tasks| ==>
        && Legal(zone, Node(host, children[i], kind), tasks[i]) && tasks[i].End() != Open
        && Continues(b.tasks[i], tasks[i]) && b.tasks[i].Out() <= tasks[i].Out()
    {
      var k := |tasks|;
      var child := Node(host, children[k], kind);
      BoundedStep(zone, p, child, n);
      var task := CanEnd(zone, child, b.tasks[k], n - 1);
      OutGrows(zone, child, b.tasks[k], task);
      tasks := tasks + [task];
    }
  }

  lemma TakenJoins(a: seq<nat>, b: seq<nat>, i: nat)
    ensures Taken(a + b, i) == Taken(a, i) + Taken(b, i)
  {
  }

  /** A schedule can always go on to take everything a task, or every task, has yielded. */
  lemma ScheduleExtends(outs: seq<seq<string>>, schedule: seq<nat>, only: Option<nat>) returns (schedule': seq<nat>)
    requires Schedules(outs, schedule) && (only.Some? ==> only.value < |outs|)
    ensures schedule <= schedule' && Schedules(outs, schedule')
    ensures forall i :: 0 <= i < |outs| && (only.None? || only.value == i) ==> Taken(schedule', i) == |outs[i]|
  {
    var counts := seq(|outs|, i requires 0 <= i < |outs| =>
      if only.None? || only.value == i then Missing(outs, schedule, i) else 0);
    var more := ScheduleOf(counts);
    schedule' := schedule + more;
    forall i | 0 <= i < |outs|
      ensures Taken(schedule', i) == if only.None? || only.value == i then |outs[i]| else Taken(schedule, i)
      ensures Taken(schedule', i) <= |outs[i]|
    {
      TakenJoins(schedule, more, i);
    }
  }

  function Missing(outs: seq<seq<string>>, schedule: seq<nat>, i: nat): (r: nat)
    requires Schedules(outs, schedule) && i < |outs|
    ensures Taken(schedule, i) + r == |outs[i]|
  {
    assert i in schedule || Taken(schedule, i) == 0;
    |outs[i]| - Taken(schedule, i)
  }

  lemma SchedulesGrow(outs: seq<seq<string>>, outs': seq<seq<string>>, schedule: seq<nat>)
    requires Schedules(outs, schedule) && |outs| == |outs'|
    requires forall i :: 0 <= i < |outs| ==> outs[i] <= outs'[i]
    ensures Schedules(outs', schedule)
  {
  }

  lemma {:induction false} BranchCanEnd(zone: Zone, p: Place, host: string, children: Children, kind: Kind, b: BranchRun, n: nat)
    returns (b': BranchRun)
    requires LegalBranch(zone, host, children, kind, b) && Bounded(zone, p, n)
    requires forall i :: 0 <= i < |children| ==> Node(host, children[i], kind) in Successors(zone, p)
    ensures LegalBranch(zone, host, children, kind, b') && b'.end != Open && BranchContinues(b, b')
    decreases b, 1
  {
    hide Legal, Successors, Bounded, Continues, Schedules, Taken;
    if b.end != Open {
      return b;
    }
    var tasks := TasksCanEnd(zone, p, host, children, kind, b, n);
    SchedulesGrow(Outs(b.tasks), Outs(tasks), b.schedule);
    if i :| 0 <= i < |tasks| && tasks[i].End() == Failed {
      var schedule := ScheduleExtends(Outs(tasks), b.schedule, Some(i));
      b' := BranchRun(tasks, schedule, Failed);
    } else {
      var schedule := ScheduleExtends(Outs(tasks), b.schedule, None);
      b' := BranchRun(tasks, schedule, Done);
    }
  }

  lemma {:induction false} TreeCanEnd(zone: Zone, p: Place, run: Run, n: nat) returns (run': Run)
    requires p.Tree? && Legal(zone, p, run) && Bounded(zone, p, n) && (run.Linking? || run.Walked?)
    ensures Legal(zone, p, run') && run'.End() != Open && Continues(run, run')
    decreases run, 1
  {
    assert Leads(zone, p, [p], p);
    var base := zone.records[p.Name()].base;
    if run.Walked? {
      var enrs := BranchCanEnd(zone, p, p.host, [base.enrRoot], EnrKind, run.enrs, n);
      return Walked(run.links, enrs);
    }
    var links := BranchCanEnd(zone, p, p.host, [base.linkRoot], LinkKind(p.whitelist), run.links, n);
    if links.end == Failed {
      return Linking(links);
    }
    var enrs := BranchFinishes(zone, p, p.host, [base.enrRoot], EnrKind, n);
    run' := Walked(links, enrs);
  }

  /** No order gets stuck: where chains of records are bounded, every run can go on to an end. */
  lemma {:induction false} CanEnd(zone: Zone, p: Place, run: Run, n: nat) returns (run': Run)
    requires Legal(zone, p, run) && Bounded(zone, p, n)
    ensures Legal(zone, p, run') && run'.End() != Open && Continues(run, run')
    decreases run, 2
  {
    match run
    case Waiting =>
      run' := Finishes(zone, p, n);
    case Looked(_, _) =>
      run' := run;
    case Forwarded(branch) =>
      var children := zone.records[p.Name()].children;
      assert forall i :: 0 <= i < |children| ==> Successors(zone, p)[i] == Node(p.host, children[i], p.kind);
      var branch' := BranchCanEnd(zone, p, p.host, children, p.kind, branch, n);
      run' := Forwarded(branch');
    case Followed(tree) =>
      var next := Successors(zone, p)[0];
      BoundedStep(zone, p, next, n);
      var tree' := CanEnd(zone, next, tree, n - 1);
      run' := Followed(tree');
    case _ =>
      run' := TreeCanEnd(zone, p, run, n);
  }

  /** Some run ends well exactly when chains are bounded and no reachable record is wrong. */
  lemma EndsWellIff(zone: Zone, p: Place)
    ensures (exists run :: Legal(zone, p, run) && run.End() == Done)
       <==> (exists n :: Bounded(zone, p, n)) && AllHealthy(zone, p)
  {
    forall run | Legal(zone, p, run) && run.End() == Done
      ensures Bounded(zone, p, run.Height()) && AllHealthy(zone, p)
    {
      forall path, q | Leads(zone, p, path, q) ensures |path| <= run.Height() && Healthy(zone, q) {
        DoneCovers(zone, p, run, path);
      }
    }
    if n :| Bounded(zone, p, n) && AllHealthy(zone, p) {
      var run := Finishes(zone, p, n);
      if run.End() == Failed {
        var path, q := Blame(zone, p, run);
      }
    }
  }

  // ----- Trust -----

  /** A key signs a root record: the first 64 bytes of the signature verify over the unsigned part. */
  ghost predicate Signed(zone: Zone, key: Key, root: Record)
    requires root.Root?
  {
    exists cut: seq<byte> :: cut <= root.signature && |cut| == (if |root.signature| < 64 then |root.signature| else 64)
      && zone.verify(key, root.base, cut)
  }

  lemma SignedIff(zone: Zone, key: Key, root: Record)
    requires root.Root?
    ensures Verifies(zone, Some(key), root.base, root.signature) <==> Signed(zone, key, root)
  {
    var cut := if |root.signature| > 64 then root.signature[..64] else root.signature;
    assert cut <= root.signature;
    forall other: seq<byte> | other <= root.signature && |other| == |cut| ensures other == cut {
      assert other == root.signature[..|other|];
      assert cut == root.signature[..|cut|];
    }
  }

  /** Every tree a path comes to was linked under the whitelist, and is entered only if its key signs it. */
  lemma {:induction false} LinkedTreesAreTrusted(zone: Zone, path: seq<Place>, i: nat)
    requires Path(zone, path) && 0 < i < |path|
    requires path[0].Tree?
    ensures path[i].Node? && path[i].kind.LinkKind? ==> path[i].kind.whitelist == path[0].whitelist
    ensures path[i].Tree? ==>
              && path[i].whitelist == path[0].whitelist
              && path[i].key.Some?
              && (path[0].whitelist.Some? ==>
                    && path[i].host in path[0].whitelist.value
                    && path[0].whitelist.value[path[i].host] == path[i].key.value)
              && (i + 1 < |path| ==>
                    && path[i].host in zone.records
                    && var root := zone.records[path[i].host];
                    root.Root? && Signed(zone, path[i].key.value, root))
  {
    StepOf(zone, path, i - 1);
    if i > 1 {
      LinkedTreesAreTrusted(zone, path, i - 1);
    }
    if i + 1 < |path| {
      StepOf(zone, path, i);
      if path[i].Tree? && path[i].key.Some? { SignedIff(zone, path[i].key.value, zone.records[path[i].host]); }
    }
  }

  lemma {:induction false} StepOf(zone: Zone, path: seq<Place>, i: nat)
    requires Path(zone, path) && i + 1 < |path|
    ensures path[i + 1] in Successors(zone, path[i])
  {
    if i > 0 {
      StepOf(zone, path[1..], i - 1);
    }
  }

  // ----- Acyclic stores -----

  lemma {:induction false} DistinctFit(names: seq<string>, universe: set<string>)
    requires forall i, j :: 0 <= i < j < |names| ==> names[i] != names[j]
    requires forall i :: 0 <= i < |names| ==> names[i] in universe
    ensures |names| <= |universe|
  {
    if names != [] {
      var last := |names| - 1;
      DistinctFit(names[..last], universe - {names[last]});
    }
  }

  /** In a store without loops no chain is longer than the store. */
  lemma AcyclicIsBounded(zone: Zone, p: Place)
    requires Acyclic(zone, p)
    ensures Bounded(zone, p, |zone.records| + 1)
  {
    forall path: seq<Place>, q | Leads(zone, p, path, q) ensures |path| <= |zone.records| + 1 {
      var names := seq(|path| - 1, i requires 0 <= i < |path| - 1 => path[i].Name());
      forall i | 0 <= i < |names| ensures names[i] in zone.records.Keys {
        StepOf(zone, path, i);
      }
      DistinctFit(names, zone.records.Keys);
    }
  }

  /** A run can go on to end well. */
  ghost predicate CanEndWell(zone: Zone, p: Place, run: Run) {
    exists run' :: Continues(run, run') && Legal(zone, p, run') && run'.End() == Done
  }

  /**
   * Over an acyclic store whose reachable records are all right, no run fails, every run can go on to end well, and
   * one that has ended well has yielded exactly what is reachable.
   */
  lemma {:induction false} AcyclicStoresResolve(zone: Zone, p: Place)
    requires Acyclic(zone, p) && AllHealthy(zone, p)
    ensures forall run :: Legal(zone, p, run) ==> run.End() != Failed
    ensures forall run :: Legal(zone, p, run) ==> CanEndWell(zone, p, run)
    ensures forall run, enr :: Legal(zone, p, run) && run.End() == Done ==>
      (enr in run.Out() <==> Reaches(zone, p, enr))
  {
    hide Legal, Acyclic, Bounded, Continues;
    AcyclicIsBounded(zone, p);
    forall run | Legal(zone, p, run) ensures run.End() != Failed {
      if run.End() == Failed {
        var path, q := Blame(zone, p, run);
      }
    }
    forall run | Legal(zone, p, run) ensures CanEndWell(zone, p, run) {
      var run' := CanEnd(zone, p, run, |zone.records| + 1);
      assert run'.End() == Done;
    }
    forall run, enr | Legal(zone, p, run) && run.End() == Done
      ensures enr in run.Out() <==> Reaches(zone, p, enr)
    {
      ResolvesExactly(zone, p, run, enr);
    }
  }

  // ----- What is reachable, spelled out -----

  lemma ReachesStep(zone: Zone, p: Place, enr: string)
    ensures Reaches(zone, p, enr) <==>
      Holds(zone, p, enr) || exists q :: q in Successors(zone, p) && Reaches(zone, q, enr)
  {
    hide Successors, Holds;
    if path, q :| Leads(zone, p, path, q) && Holds(zone, q, enr) {
      if |path| > 1 {
        assert Leads(zone, path[1], path[1..], q) && path[1] in Successors(zone, p);
        assert Reaches(zone, path[1], enr);
      }
    }
    if Holds(zone, p, enr) {
      assert Leads(zone, p, [p], p);
    }
    forall next | next in Successors(zone, p) && Reaches(zone, next, enr) ensures Reaches(zone, p, enr) {
      var path, q :| Leads(zone, next, path, q) && Holds(zone, q, enr);
      Prepend(zone, p, next, path, q);
    }
  }

  /**
   * A tree yields what its link root and its node root yield, if there is a root record that the key, if one is
   * given, signs, and whose sequence number is above the one already seen; otherwise nothing.
   */
  lemma TreeYields(zone: Zone, host: string, key: Option<Key>, seen: Option<nat>, whitelist: Whitelist, enr: string)
    ensures Reaches(zone, Tree(host, key, seen, whitelist), enr) <==>
      && host in zone.records && zone.records[host].Root?
      && (key.Some? ==> Signed(zone, key.value, zone.records[host]))
      && var base := zone.records[host].base;
      && (seen.Some? ==> base.sequence > seen.value)
      && (|| Reaches(zone, Node(host, base.linkRoot, LinkKind(whitelist)), enr)
          || Reaches(zone, Node(host, base.enrRoot, EnrKind), enr))
  {
    hide Reaches, Verifies, Signed;
    ReachesStep(zone, Tree(host, key, seen, whitelist), enr);
    if host in zone.records && zone.records[host].Root? {
      KeyVerifies(zone, key, zone.records[host]);
    }
  }

  lemma KeyVerifies(zone: Zone, key: Option<Key>, root: Record)
    requires root.Root?
    ensures Verifies(zone, key, root.base, root.signature) <==> (key.Some? ==> Signed(zone, key.value, root))
  {
    if key.Some? { SignedIff(zone, key.value, root); }
  }

  /**
   * A child yields what its record says, found under the child's name, a dot and the host: a node record itself,
   * but only among node records; a branch what any of its children yields; a link what the linked tree yields under
   * the link's key, but only among links and only if the whitelist, if there is one, has the domain with that key.
   */
  lemma NodeYields(zone: Zone, host: string, sub: string, kind: Kind, enr: string)
    ensures Reaches(zone, Node(host, sub, kind), enr) <==>
      && sub + "." + host in zone.records
      && match zone.records[sub + "." + host]
         case Enr(text) => kind == EnrKind && text == enr
         case Branch(children) => exists c :: c in children && Reaches(zone, Node(host, c, kind), enr)
         case Link(key, domain) =>
           && kind.LinkKind?
           && (kind.whitelist.Some? ==> domain in kind.whitelist.value && kind.whitelist.value[domain] == key)
           && Reaches(zone, Tree(domain, Some(key), None, kind.whitelist), enr)
         case _ => false
  {
    hide Reaches;
    var p := Node(host, sub, kind);
    ReachesStep(zone, p, enr);
    if p.Name() in zone.records && zone.records[p.Name()].Branch? {
      var children := zone.records[p.Name()].children;
      forall q ensures q in Successors(zone, p) <==> exists c :: c in children && q == Node(host, c, kind) {
        if c :| c in children && q == Node(host, c, kind) {
          var i :| 0 <= i < |children| && children[i] == c;
          assert Successors(zone, p)[i] == q;
        }
      }
    }
  }

  /** A record out of its place fails its task or tree at once, with nothing yielded; a missing one is passed over. */
  lemma WrongRecordsFail(zone: Zone, p: Place, run: Run)
    requires Legal(zone, p, run) && !run.Waiting?
    ensures p.Name() !in zone.records ==> run.Out() == [] && run.End() == Done
    ensures p.Name() in zone.records ==>
      var record := zone.records[p.Name()];
      (|| record.Malformed?
       || (record.Root? && p.Node?) || (!record.Root? && p.Tree?)
       || (p.Tree? && p.key.Some? && record.Root? && !Signed(zone, p.key.value, record))
       || (p.Node? && p.kind == EnrKind && record.Link?) || (p.Node? && p.kind.LinkKind? && record.Enr?)) ==>
        run.Out() == [] && run.End() == Failed
  {
    if p.Name() in zone.records && zone.records[p.Name()].Root? && p.Tree? {
      KeyVerifies(zone, p.key, zone.records[p.Name()]);
    }
    hide Signed;
  }
}
