/** Moving a VM between nodes: `move_vm`, `migrate_vm` and `unmigrate_vm`, with the choice of a target
    node in common.py. */
module Migration {
  import opened Wrappers
  import opened Text

  type NodeName = string

  datatype Node = Node(daemon: string, domain: string,
                       memFree: int, memUsed: int, memProvisioned: int,
                       load: real, vcpus: int, vms: int)

  /** What the commands read of the cluster: the nodes in the order the server lists them. */
  datatype Cluster = Cluster(list: seq<NodeName>, nodes: map<NodeName, Node>, defaultSelector: string) {
    predicate Valid() {
      forall n | n in list :: n in nodes
    }
  }

  /** A VM's keys; `lastNode` is empty unless it is away from home. */
  datatype Vm = Vm(state: string, node: NodeName, lastNode: NodeName,
                   limit: Option<string>, selector: Option<string>)

  // Choosing a target

  predicate Eligible(c: Cluster, limit: Option<seq<NodeName>>, current: NodeName, n: NodeName) {
    && n in c.nodes
    && (limit == None || n in limit.value)
    && n != current && c.nodes[n].daemon == "run" && c.nodes[n].domain == "ready"
  }

  const SELECTORS := {"mem", "memprov", "load", "vcpus", "vms"}

  /** How much better than the starting value of its search a node is: the free memory, the unprovisioned
      memory, or how far a load or a count stays below 9999. */
  function Margin(n: Node, selector: string): real {
    match selector
    case "mem" => n.memFree as real
    case "memprov" => (n.memUsed + n.memFree - n.memProvisioned) as real
    case "load" => 9999.0 - n.load
    case "vcpus" => (9999 - n.vcpus) as real
    case _ => (9999 - n.vms) as real
  }

  /** `t` is the first node of `l` with the largest margin above zero; None if no margin is. */
  ghost predicate Best(c: Cluster, selector: string, l: seq<NodeName>, t: Option<NodeName>)
    requires forall n | n in l :: n in c.nodes
  {
    match t
    case None => forall n | n in l :: Margin(c.nodes[n], selector) <= 0.0
    case Some(b) =>
      exists i | 0 <= i < |l| ::
        && l[i] == b && Margin(c.nodes[b], selector) > 0.0
        && (forall j | 0 <= j < |l| :: Margin(c.nodes[l[j]], selector) <= Margin(c.nodes[b], selector))
        && (forall j | 0 <= j < i :: Margin(c.nodes[l[j]], selector) < Margin(c.nodes[b], selector))
  }

  function MarginOf(c: Cluster, selector: string, t: Option<NodeName>): real
    requires t.Some? ==> t.value in c.nodes
  {
    if t == None then 0.0 else Margin(c.nodes[t.value], selector)
  }

  lemma BestStep(c: Cluster, selector: string, l: seq<NodeName>, t: Option<NodeName>, n: NodeName)
    requires (forall m | m in l :: m in c.nodes) && Best(c, selector, l, t) && n in c.nodes
    ensures t.Some? ==> t.value in c.nodes
    ensures Best(c, selector, l + [n],
                 if Margin(c.nodes[n], selector) > MarginOf(c, selector, t) then Some(n) else t)
  {
    hide Margin;
    var more := l + [n];
    if t.Some? {
      var i :| 0 <= i < |l| && l[i] == t.value && Margin(c.nodes[t.value], selector) > 0.0
        && (forall j | 0 <= j < |l| :: Margin(c.nodes[l[j]], selector) <= Margin(c.nodes[t.value], selector))
        && (forall j | 0 <= j < i :: Margin(c.nodes[l[j]], selector) < Margin(c.nodes[t.value], selector));
      assert more[i] == t.value;
    }
    assert more[|l|] == n;
  }

  /** The eligible nodes of a list, in its order. */
  function Sift(c: Cluster, limit: Option<seq<NodeName>>, current: NodeName, l: seq<NodeName>): (r: seq<NodeName>)
    ensures forall n :: n in r <==> n in l && Eligible(c, limit, current, n)
  {
    if l == [] then []
    else
      var n := l[|l| - 1];
      var before := Sift(c, limit, current, l[..|l| - 1]);
      assert l == l[..|l| - 1] + [n];
      if Eligible(c, limit, current, n) then before + [n] else before
  }

  /** `t` is the first of the eligible nodes with the largest margin above zero. */
  ghost predicate BestEligible(c: Cluster, selector: string, limit: Option<seq<NodeName>>, current: NodeName,
                               l: seq<NodeName>, t: Option<NodeName>)
  {
    match t
    case None => forall n | n in l && Eligible(c, limit, current, n) :: Margin(c.nodes[n], selector) <= 0.0
    case Some(b) =>
      && b in l && Eligible(c, limit, current, b) && Margin(c.nodes[b], selector) > 0.0
      && (forall n | n in l && Eligible(c, limit, current, n) ::
            Margin(c.nodes[n], selector) <= Margin(c.nodes[b], selector))
      && (exists i | 0 <= i < |l| :: l[i] == b &&
            forall j | 0 <= j < i && Eligible(c, limit, current, l[j]) ::
              Margin(c.nodes[l[j]], selector) < Margin(c.nodes[b], selector))
  }

  /** The k-th of the sifted nodes stands somewhere in the list, after exactly the ones sifted before it. */
  lemma {:induction false} SiftPlace(c: Cluster, limit: Option<seq<NodeName>>, current: NodeName, l: seq<NodeName>,
                                     k: nat)
    returns (i: nat)
    requires k < |Sift(c, limit, current, l)|
    ensures i < |l| && l[i] == Sift(c, limit, current, l)[k]
    ensures Sift(c, limit, current, l[..i]) == Sift(c, limit, current, l)[..k]
  {
    var front := l[..|l| - 1];
    var before := Sift(c, limit, current, front);
    if k < |before| {
      i := SiftPlace(c, limit, current, front, k);
      assert front[..i] == l[..i];
    } else {
      i := |l| - 1;
    }
  }

  lemma BestPlace(c: Cluster, selector: string, l: seq<NodeName>, b: NodeName) returns (i: nat)
    requires (forall n | n in l :: n in c.nodes) && Best(c, selector, l, Some(b))
    ensures i < |l| && l[i] == b && Margin(c.nodes[b], selector) > 0.0
    ensures forall n | n in l :: Margin(c.nodes[n], selector) <= Margin(c.nodes[b], selector)
    ensures forall n | n in l[..i] :: Margin(c.nodes[n], selector) < Margin(c.nodes[b], selector)
  {
    hide Margin;
    i :| 0 <= i < |l| && l[i] == b && Margin(c.nodes[b], selector) > 0.0
      && (forall j | 0 <= j < |l| :: Margin(c.nodes[l[j]], selector) <= Margin(c.nodes[b], selector))
      && (forall j | 0 <= j < i :: Margin(c.nodes[l[j]], selector) < Margin(c.nodes[b], selector));
  }

  lemma SiftBest(c: Cluster, selector: string, limit: Option<seq<NodeName>>, current: NodeName, l: seq<NodeName>,
                 t: Option<NodeName>)
    requires Best(c, selector, Sift(c, limit, current, l), t)
    ensures BestEligible(c, selector, limit, current, l, t)
  {
    hide Margin, Sift;
    var s := Sift(c, limit, current, l);
    if t.Some? {
      var k := BestPlace(c, selector, s, t.value);
      assert t.value in s;
      var i := SiftPlace(c, limit, current, l, k);
      forall j | 0 <= j < i && Eligible(c, limit, current, l[j])
        ensures Margin(c.nodes[l[j]], selector) < Margin(c.nodes[t.value], selector)
      {
        assert l[j] in l[..i];
        assert l[j] in s[..k];
      }
    }
  }

  /** Where each search starts. */
  lemma BestNone(c: Cluster, selector: string, limit: Option<seq<NodeName>>, current: NodeName)
    ensures Best(c, selector, [], None)
    ensures forall n | n in Sift(c, limit, current, c.list) :: n in c.nodes
  {
  }

  /** `getNodes`. */
  method GetNodes(c: Cluster, limit: Option<seq<NodeName>>, current: NodeName) returns (valid: seq<NodeName>)
    requires c.Valid()
    ensures valid == Sift(c, limit, current, c.list)
  {
    valid := [];
    for i := 0 to |c.list|
      invariant valid == Sift(c, limit, current, c.list[..i])
    {
      var node := c.list[i];
      assert c.list[..i + 1][..i] == c.list[..i];
      if limit != None && node !in limit.value {
        continue;
      }
      if node == current {
        continue;
      }
      if c.nodes[node].daemon != "run" || c.nodes[node].domain != "ready" {
        continue;
      }
      valid := valid + [node];
    }
    assert c.list[..|c.list|] == c.list;
  }

  method FindTargetNodeMemFree(c: Cluster, limit: Option<seq<NodeName>>, current: NodeName)
    returns (target: Option<NodeName>)
    requires c.Valid()
    ensures BestEligible(c, "mem", limit, current, c.list, target)
  {
    hide Best, BestEligible, Sift, Eligible;
    var mostFree := 0;
    target := None;
    var list := GetNodes(c, limit, current);
    BestNone(c, "mem", limit, current);
    for i := 0 to |list|
      invariant Best(c, "mem", list[..i], target)
      invariant (target.Some? ==> target.value in c.nodes) && mostFree as real == MarginOf(c, "mem", target)
    {
      assert list[i] in list;
      BestStep(c, "mem", list[..i], target, list[i]);
      assert list[..i + 1] == list[..i] + [list[i]];
      var free := c.nodes[list[i]].memFree;
      if free > mostFree {
        mostFree, target := free, Some(list[i]);
      }
    }
    assert list[..|list|] == list;
    SiftBest(c, "mem", limit, current, c.list, target);
  }

  method FindTargetNodeMemProv(c: Cluster, limit: Option<seq<NodeName>>, current: NodeName)
    returns (target: Option<NodeName>)
    requires c.Valid()
    ensures BestEligible(c, "memprov", limit, current, c.list, target)
  {
    hide Best, BestEligible, Sift, Eligible;
    var mostFree := 0;
    target := None;
    var list := GetNodes(c, limit, current);
    BestNone(c, "memprov", limit, current);
    for i := 0 to |list|
      invariant Best(c, "memprov", list[..i], target)
      invariant (target.Some? ==> target.value in c.nodes) && mostFree as real == MarginOf(c, "memprov", target)
    {
      assert list[i] in list;
      BestStep(c, "memprov", list[..i], target, list[i]);
      assert list[..i + 1] == list[..i] + [list[i]];
      var node := c.nodes[list[i]];
      var total := node.memUsed + node.memFree;
      var free := total - node.memProvisioned;
      if free > mostFree {
        mostFree, target := free, Some(list[i]);
      }
    }
    assert list[..|list|] == list;
    SiftBest(c, "memprov", limit, current, c.list, target);
  }

  method FindTargetNodeLoad(c: Cluster, limit: Option<seq<NodeName>>, current: NodeName)
    returns (target: Option<NodeName>)
    requires c.Valid()
    ensures BestEligible(c, "load", limit, current, c.list, target)
  {
    hide Best, BestEligible, Sift, Eligible;
    var leastLoad := 9999.0;
    target := None;
    var list := GetNodes(c, limit, current);
    BestNone(c, "load", limit, current);
    for i := 0 to |list|
      invariant Best(c, "load", list[..i], target)
      invariant (target.Some? ==> target.value in c.nodes) && 9999.0 - leastLoad == MarginOf(c, "load", target)
    {
      assert list[i] in list;
      BestStep(c, "load", list[..i], target, list[i]);
      assert list[..i + 1] == list[..i] + [list[i]];
      var load := c.nodes[list[i]].load;
      if load < leastLoad {
        leastLoad, target := load, Some(list[i]);
      }
    }
    assert list[..|list|] == list;
    SiftBest(c, "load", limit, current, c.list, target);
  }

  method FindTargetNodeVcpus(c: Cluster, limit: Option<seq<NodeName>>, current: NodeName)
    returns (target: Option<NodeName>)
    requires c.Valid()
    ensures BestEligible(c, "vcpus", limit, current, c.list, target)
  {
    hide Best, BestEligible, Sift, Eligible;
    var leastVcpus := 9999;
    target := None;
    var list := GetNodes(c, limit, current);
    BestNone(c, "vcpus", limit, current);
    for i := 0 to |list|
      invariant Best(c, "vcpus", list[..i], target)
      invariant (target.Some? ==> target.value in c.nodes)
      invariant (9999 - leastVcpus) as real == MarginOf(c, "vcpus", target)
    {
      assert list[i] in list;
      BestStep(c, "vcpus", list[..i], target, list[i]);
      assert list[..i + 1] == list[..i] + [list[i]];
      var vcpus := c.nodes[list[i]].vcpus;
      if vcpus < leastVcpus {
        leastVcpus, target := vcpus, Some(list[i]);
      }
    }
    assert list[..|list|] == list;
    SiftBest(c, "vcpus", limit, current, c.list, target);
  }

  method FindTargetNodeVms(c: Cluster, limit: Option<seq<NodeName>>, current: NodeName)
    returns (target: Option<NodeName>)
    requires c.Valid()
    ensures BestEligible(c, "vms", limit, current, c.list, target)
  {
    hide Best, BestEligible, Sift, Eligible;
    var leastVms := 9999;
    target := None;
    var list := GetNodes(c, limit, current);
    BestNone(c, "vms", limit, current);
    for i := 0 to |list|
      invariant Best(c, "vms", list[..i], target)
      invariant (target.Some? ==> target.value in c.nodes) && (9999 - leastVms) as real == MarginOf(c, "vms", target)
    {
      assert list[i] in list;
      BestStep(c, "vms", list[..i], target, list[i]);
      assert list[..i + 1] == list[..i] + [list[i]];
      var vms := c.nodes[list[i]].vms;
      if vms < leastVms {
        leastVms, target := vms, Some(list[i]);
      }
    }
    assert list[..|list|] == list;
    SiftBest(c, "vms", limit, current, c.list, target);
  }

  /** The limit as the search reads it: absent if the key is, or if every name in it is empty. */
  function SearchLimit(limit: Option<string>): Option<seq<NodeName>> {
    if limit == None then None
    else
      var names := Split(limit.value, ',');
      if exists n | n in names :: n != "" then Some(names) else None
  }

  function SelectorOf(c: Cluster, vm: Vm): string {
    if vm.selector == None || vm.selector.value == "None" || vm.selector.value == "none" then c.defaultSelector
    else vm.selector.value
  }

  /** What the search finds for a VM. */
  ghost predicate Found(c: Cluster, vm: Vm, t: Option<NodeName>) {
    if SelectorOf(c, vm) !in SELECTORS then t == None
    else BestEligible(c, SelectorOf(c, vm), SearchLimit(vm.limit), vm.node, c.list, t)
  }

  method FindTargetNode(c: Cluster, vm: Vm) returns (target: Option<NodeName>)
    requires c.Valid()
    ensures Found(c, vm, target)
  {
    var limit := SearchLimit(vm.limit);
    var field := SelectorOf(c, vm);
    if field == "mem" {
      target := FindTargetNodeMemFree(c, limit, vm.node);
    } else if field == "memprov" {
      target := FindTargetNodeMemProv(c, limit, vm.node);
    } else if field == "load" {
      target := FindTargetNodeLoad(c, limit, vm.node);
    } else if field == "vcpus" {
      target := FindTargetNodeVcpus(c, limit, vm.node);
    } else if field == "vms" {
      target := FindTargetNodeVms(c, limit, vm.node);
    } else {
      target := None;
    }
  }

  // The commands

  /** `MadePermanent`: the VM stays where it is, which becomes its home. */
  datatype Outcome = Done | MadePermanent | NoVm | MigratedBefore | NeverMigrated
                   | InvalidNode | OutsideLimit | SameNode | NoTarget

  datatype Command =
    | Move(target: NodeName, live: bool)
    | Migrate(target: NodeName, force: bool, live: bool)
    | Unmigrate(live: bool)

  /** A requested node is checked against the limit as written. */
  predicate LimitAllows(limit: Option<string>, n: NodeName) {
    limit == None || limit.value == "" || n in Split(limit.value, ',')
  }

  function TargetState(state: string, live: bool): string {
    if state != "start" then state else if live then "migrate-live" else "migrate"
  }

  /** Where the VM belongs: where it is, unless it was migrated from somewhere. */
  function Home(vm: Vm): NodeName {
    if vm.lastNode == "" then vm.node else vm.lastNode
  }

  /** What one command does to a VM. An empty target asks for a search. */
  ghost predicate Commanded(c: Cluster, vm: Vm, command: Command, outcome: Outcome, after: Vm) {
    match command
    case Unmigrate(live) =>
      if vm.lastNode == "" then outcome == NeverMigrated && after == vm
      else outcome == Done && after ==
           vm.(state := TargetState(vm.state, live), node := vm.lastNode, lastNode := "")
    case Migrate(target, force, live) =>
      if vm.lastNode != "" && !force then outcome == MigratedBefore && after == vm
      else Sent(c, vm, target, live, Home(vm), outcome, after)
    case Move(target, live) =>
      if target != "" && target in c.list && LimitAllows(vm.limit, target) && target == vm.node && vm.lastNode != ""
      then outcome == MadePermanent && after == vm.(lastNode := "")
      else Sent(c, vm, target, live, "", outcome, after)
  }

  /** The VM is sent to the requested node, or to the one found, unless there is a reason not to. */
  ghost predicate Sent(c: Cluster, vm: Vm, target: NodeName, live: bool, lastNode: NodeName, outcome: Outcome,
                       after: Vm)
  {
    if target == "" then
      || (Found(c, vm, None) && outcome == NoTarget && after == vm)
      || (exists t | Found(c, vm, Some(t)) :: outcome == Done && after == SentTo(vm, t, live, lastNode))
    else if target !in c.list then outcome == InvalidNode && after == vm
    else if !LimitAllows(vm.limit, target) then outcome == OutsideLimit && after == vm
    else if target == vm.node then outcome == SameNode && after == vm
    else outcome == Done && after == SentTo(vm, target, live, lastNode)
  }

  function SentTo(vm: Vm, target: NodeName, live: bool, lastNode: NodeName): Vm {
    vm.(state := TargetState(vm.state, live), node := target, lastNode := lastNode)
  }

  class Store {
    var cluster: Cluster
    var vms: map<string, Vm>

    constructor (cluster: Cluster, vms: map<string, Vm>)
      ensures this.cluster == cluster && this.vms == vms
    {
      this.cluster, this.vms := cluster, vms;
    }

    /** `move_vm`. */
    method MoveVm(d: string, target: NodeName, live: bool) returns (outcome: Outcome)
      requires cluster.Valid() && "" !in cluster.list
      modifies this`vms
      ensures d !in old(vms) ==> outcome == NoVm && vms == old(vms)
      ensures d in old(vms) ==> d in vms && vms == old(vms)[d := vms[d]]
      ensures d in old(vms) ==> Commanded(cluster, old(vms)[d], Move(target, live), outcome, vms[d])
    {
      if d !in vms {
        return NoVm;
      }
      var vm := vms[d];
      var targetState := TargetState(vm.state, live);
      var goal := target;
      if goal == "" {
        var found := FindTargetNode(cluster, vm);
        if found == None {
          return NoTarget;
        }
        goal := found.value;
      } else {
        if goal !in cluster.list {
          return InvalidNode;
        }
        if !LimitAllows(vm.limit, goal) {
          return OutsideLimit;
        }
        if goal == vm.node {
          if vm.lastNode != "" {
            vms := vms[d := vms[d].(lastNode := "")];
            return MadePermanent;
          }
          return SameNode;
        }
      }
      vms := vms[d := vms[d].(state := targetState, node := goal, lastNode := "")];
      return Done;
    }

    /** `migrate_vm`. */
    method MigrateVm(d: string, target: NodeName, force: bool, live: bool) returns (outcome: Outcome)
      requires cluster.Valid() && "" !in cluster.list
      modifies this`vms
      ensures d !in old(vms) ==> outcome == NoVm && vms == old(vms)
      ensures d in old(vms) ==> d in vms && vms == old(vms)[d := vms[d]]
      ensures d in old(vms) ==> Commanded(cluster, old(vms)[d], Migrate(target, force, live), outcome, vms[d])
    {
      if d !in vms {
        return NoVm;
      }
      var vm := vms[d];
      var targetState := TargetState(vm.state, live);
      var current, last := vm.node, vm.lastNode;
      if last != "" && !force {
        return MigratedBefore;
      }
      var goal := target;
      if goal == "" {
        var found := FindTargetNode(cluster, vm);
        if found == None {
          return NoTarget;
        }
        goal := found.value;
      } else {
        if goal !in cluster.list {
          return InvalidNode;
        }
        if !LimitAllows(vm.limit, goal) {
          return OutsideLimit;
        }
        if goal == current {
          return SameNode;
        }
      }
      if last != "" && force {
        current := last;
      }
      vms := vms[d := vms[d].(state := targetState, node := goal, lastNode := current)];
      return Done;
    }

    /** `unmigrate_vm`. */
    method UnmigrateVm(d: string, live: bool) returns (outcome: Outcome)
      modifies this`vms
      ensures d !in old(vms) ==> outcome == NoVm && vms == old(vms)
      ensures d in old(vms) ==> d in vms && vms == old(vms)[d := vms[d]]
      ensures d in old(vms) ==> Commanded(cluster, old(vms)[d], Unmigrate(live), outcome, vms[d])
    {
      if d !in vms {
        return NoVm;
      }
      var targetState := TargetState(vms[d].state, live);
      var goal := vms[d].lastNode;
      if goal == "" {
        return NeverMigrated;
      }
      vms := vms[d := vms[d].(state := targetState, node := goal, lastNode := "")];
      return Done;
    }
  }

  // Runs

  /** The limit names some node: a limit of nothing but commas is read as none by the search, while a
      requested node never satisfies it. */
  predicate ReadAlike(limit: Option<string>) {
    SearchLimit(limit) != None || limit == None || limit.value == ""
  }

  /** A node the search may send a VM to. */
  predicate Suitable(c: Cluster, vm: Vm, n: NodeName) {
    && n in c.list && n in c.nodes && n != vm.node && (LimitAllows(vm.limit, n) || !ReadAlike(vm.limit))
    && c.nodes[n].daemon == "run" && c.nodes[n].domain == "ready"
  }

  /** For each way to choose, the search finds a suitable node whose margin no suitable node exceeds, and
      nothing only when no suitable node has a margin above zero. */
  lemma FoundIsBest(c: Cluster, vm: Vm, t: Option<NodeName>)
    requires c.Valid() && Found(c, vm, t)
    ensures SelectorOf(c, vm) !in SELECTORS ==> t == None
    ensures SelectorOf(c, vm) in SELECTORS ==>
              (t == None <==> forall n | Suitable(c, vm, n) :: Margin(c.nodes[n], SelectorOf(c, vm)) <= 0.0)
    ensures t != None ==> Suitable(c, vm, t.value)
    ensures forall n | t != None && Suitable(c, vm, n) ::
        Margin(c.nodes[n], SelectorOf(c, vm)) <= Margin(c.nodes[t.value], SelectorOf(c, vm))
  {
    hide Margin;
    EmptyLimit();
    assert forall n :: Suitable(c, vm, n) <==> n in c.list && Eligible(c, SearchLimit(vm.limit), vm.node, n);
  }

  lemma EmptyLimit()
    ensures Split("", ',') == [""]
  {
  }

  /** The search keeps every VM within its limit, exactly when the limit is one it reads as the requests do. */
  lemma SearchRespectsLimit(limit: Option<string>)
    ensures ReadAlike(limit) <==>
            forall c: Cluster, vm: Vm, t: NodeName | c.Valid() && vm.limit == limit && Found(c, vm, Some(t)) ::
              LimitAllows(limit, t)
  {
    if ReadAlike(limit) {
      forall c: Cluster, vm: Vm, t: NodeName | c.Valid() && vm.limit == limit && Found(c, vm, Some(t))
        ensures LimitAllows(limit, t)
      {
        FoundIsBest(c, vm, Some(t));
      }
    } else {
      var node := Node("run", "ready", 1, 0, 0, 0.0, 0, 0);
      var c := Cluster(["hv1"], map["hv1" := node], "mem");
      var vm := Vm("start", "hv2", "", limit, None);
      assert "hv1" in c.list && Eligible(c, None, "hv2", "hv1") && Margin(node, "mem") == 1.0;
      assert c.list[0] == "hv1";
      assert BestEligible(c, "mem", None, "hv2", c.list, Some("hv1"));
      assert c.Valid() && Found(c, vm, Some("hv1")) && !LimitAllows(limit, "hv1");
    }
  }

  // What is found and what is done, spelt out

  /** The VM's way to choose a node, or the cluster's. */
  predicate Chooses(c: Cluster, vm: Vm, selector: string) {
    match vm.selector
    case None => selector == c.defaultSelector
    case Some(own) => selector == if own == "None" || own == "none" then c.defaultSelector else own
  }

  /** A node in service that is not the VM's own and that its limit names, if that names any. */
  predicate MayHost(c: Cluster, vm: Vm, n: NodeName) {
    && n in c.list && n in c.nodes && n != vm.node && c.nodes[n].daemon == "run" && c.nodes[n].domain == "ready"
    && (vm.limit.Some? && (exists m | m in Split(vm.limit.value, ',') :: m != "") ==> n in Split(vm.limit.value, ','))
  }

  predicate Acceptable(selector: string, n: Node) {
    if selector == "mem" then n.memFree > 0
    else if selector == "memprov" then n.memProvisioned < n.memUsed + n.memFree
    else if selector == "load" then n.load < 9999.0
    else if selector == "vcpus" then n.vcpus < 9999
    else selector == "vms" && n.vms < 9999
  }

  /** The first node suits the VM better than the second. */
  predicate Better(selector: string, a: Node, b: Node) {
    if selector == "mem" then a.memFree > b.memFree
    else if selector == "memprov" then
      a.memUsed + a.memFree - a.memProvisioned > b.memUsed + b.memFree - b.memProvisioned
    else if selector == "load" then a.load < b.load
    else if selector == "vcpus" then a.vcpus < b.vcpus
    else a.vms < b.vms
  }

  /** `n` stands before every other node that is as good. */
  predicate FirstBest(c: Cluster, vm: Vm, selector: string, n: NodeName)
    requires n in c.nodes
  {
    exists i | 0 <= i < |c.list| :: c.list[i] == n &&
      forall j | 0 <= j < i && MayHost(c, vm, c.list[j]) :: Better(selector, c.nodes[n], c.nodes[c.list[j]])
  }

  lemma MarginTells(selector: string, a: Node, b: Node)
    requires selector in SELECTORS
    ensures Margin(a, selector) > 0.0 <==> Acceptable(selector, a)
    ensures Margin(a, selector) > Margin(b, selector) <==> Better(selector, a, b)
  {
  }

  lemma HostsAreEligible(c: Cluster, vm: Vm, n: NodeName)
    ensures MayHost(c, vm, n) <==> n in c.list && Eligible(c, SearchLimit(vm.limit), vm.node, n)
  {
  }

  /** The search finds the first of the best nodes that may host the VM, if it is acceptable; and nothing only if
      no such node is. */
  lemma FoundPlainly(c: Cluster, vm: Vm, selector: string, t: Option<NodeName>)
    requires c.Valid() && Chooses(c, vm, selector) && Found(c, vm, t)
    ensures match t
            case None => forall n | MayHost(c, vm, n) :: !Acceptable(selector, c.nodes[n])
            case Some(b) =>
              && MayHost(c, vm, b) && Acceptable(selector, c.nodes[b]) && FirstBest(c, vm, selector, b)
              && forall n | MayHost(c, vm, n) :: !Better(selector, c.nodes[n], c.nodes[b])
  {
    assert SelectorOf(c, vm) == selector;
    hide SearchLimit, Eligible, Margin, SelectorOf, Acceptable, Better, MayHost, Chooses;
    if selector in SELECTORS {
      forall n ensures MayHost(c, vm, n) <==> n in c.list && Eligible(c, SearchLimit(vm.limit), vm.node, n) {
        HostsAreEligible(c, vm, n);
      }
      forall a, b
        ensures Margin(a, selector) > 0.0 <==> Acceptable(selector, a)
        ensures Margin(a, selector) > Margin(b, selector) <==> Better(selector, a, b)
      {
        MarginTells(selector, a, b);
      }
    } else {
      UnknownSelector(selector);
    }
  }

  lemma UnknownSelector(selector: string)
    requires selector !in SELECTORS
    ensures forall n :: !Acceptable(selector, n)
  {
  }

  /** What a command that is done has done: it asks the nodes for a migration, live if wanted, of a VM that is
      started, and leaves any other state; the VM's home is kept by a migration, taken up by a return, and
      given up by a move. */
  lemma DoneMeans(c: Cluster, vm: Vm, command: Command, outcome: Outcome, after: Vm)
    requires Commanded(c, vm, command, outcome, after) && outcome == Done
    ensures after.state == if vm.state == "start" && command.live then "migrate-live"
                           else if vm.state == "start" then "migrate" else vm.state
    ensures command.Unmigrate? ==> after.node == vm.lastNode != "" && after.lastNode == ""
    ensures command.Move? ==> after.lastNode == ""
    ensures command.Migrate? ==> after.lastNode == if vm.lastNode == "" then vm.node else vm.lastNode
    ensures !command.Unmigrate? && command.target != "" ==>
              && after.node == command.target && command.target in c.list && command.target != vm.node
              && (vm.limit == None || vm.limit.value == "" || command.target in Split(vm.limit.value, ','))
    ensures !command.Unmigrate? && command.target == "" ==> Found(c, vm, Some(after.node))
    ensures after.limit == vm.limit && after.selector == vm.selector
  {
  }

  /** Any other command changes nothing, except that a move to where the VM is makes that its home; and a request
      is turned down for the limit only if that does not name the node. */
  lemma NotDoneMeans(c: Cluster, vm: Vm, command: Command, outcome: Outcome, after: Vm)
    requires Commanded(c, vm, command, outcome, after) && outcome != Done
    ensures outcome != MadePermanent ==> after == vm
    ensures outcome == MadePermanent ==>
              command.Move? && command.target == vm.node && vm.lastNode != "" && after == vm.(lastNode := "")
    ensures outcome == NeverMigrated ==> command.Unmigrate? && vm.lastNode == ""
    ensures outcome == MigratedBefore ==> command.Migrate? && vm.lastNode != "" && !command.force
    ensures outcome == SameNode ==> !command.Unmigrate? && command.target == vm.node
    ensures outcome == InvalidNode ==> !command.Unmigrate? && command.target !in c.list
    ensures outcome == OutsideLimit ==>
              !command.Unmigrate? && vm.limit != None && command.target !in Split(vm.limit.value, ',')
    ensures outcome == NoTarget ==> !command.Unmigrate? && command.target == "" && Found(c, vm, None)
    ensures outcome != NoVm
  {
  }

  /** Between commands the node daemons change the state and the nodes' figures change freely. */
  datatype Event = Event(cluster: Cluster, command: Command, outcome: Outcome, state: string)

  /** The VM before each event; the node daemons act after it. */
  ghost predicate Run(vms: seq<Vm>, events: seq<Event>) {
    && |vms| == |events| + 1
    && forall i | 0 <= i < |events| :: Stepped(vms[i], events[i], vms[i + 1])
  }

  ghost predicate Stepped(vm: Vm, e: Event, after: Vm) {
    && e.cluster.Valid() && "" !in e.cluster.list
    && exists between :: Commanded(e.cluster, vm, e.command, e.outcome, between) && after == between.(state := e.state)
  }

  predicate Moved(events: seq<Event>) {
    exists e | e in events :: e.outcome == Done
  }

  lemma {:induction false} MigratesKeepHome(vms: seq<Vm>, events: seq<Event>)
    requires Run(vms, events) && forall e | e in events :: e.command.Migrate?
    requires vms[0].lastNode == "" && vms[0].node != ""
    ensures var last := vms[|events|];
      if Moved(events) then last.lastNode == vms[0].node
      else last.node == vms[0].node && last.lastNode == ""
  {
    if events != [] {
      var n := |events| - 1;
      MigratesKeepHome(vms[..n + 1], events[..n]);
      assert events == events[..n] + [events[n]];
      assert Stepped(vms[n], events[n], vms[n + 1]);
    }
  }

  /** After any migrations, forced or not, succeeding or not, of a VM that was at home, unmigrating it
      brings it back to that node and leaves it unmigrated. */
  lemma HomeRemembered(vms: seq<Vm>, events: seq<Event>, c: Cluster, live: bool, outcome: Outcome, after: Vm)
    requires Run(vms, events) && forall e | e in events :: e.command.Migrate?
    requires vms[0].lastNode == "" && vms[0].node != ""
    requires Commanded(c, vms[|events|], Unmigrate(live), outcome, after)
    ensures after.node == vms[0].node && after.lastNode == ""
    ensures outcome == Done <==> Moved(events)
  {
    MigratesKeepHome(vms, events);
  }

  /** The VM is on a node of its limit, and so is its home. */
  predicate Inside(vm: Vm) {
    && vm.node != "" && LimitAllows(vm.limit, vm.node)
    && (vm.lastNode == "" || LimitAllows(vm.limit, vm.lastNode))
  }

  lemma StaysInside(vm: Vm, e: Event, after: Vm)
    requires Inside(vm) && Stepped(vm, e, after)
    ensures Inside(after) && after.limit == vm.limit
  {
    assert SearchLimit(vm.limit) == None ==> vm.limit == None || vm.limit.value == "" by {
      if vm.limit.Some? && vm.limit.value != "" {
        assert vm.node in Split(vm.limit.value, ',');
      }
    }
  }

  /** With its limit unchanged a VM never leaves it, whatever commands are given, asked or found. */
  lemma {:induction false} LimitRespected(vms: seq<Vm>, events: seq<Event>, i: nat)
    requires Run(vms, events) && i <= |events| && Inside(vms[0])
    ensures Inside(vms[i]) && vms[i].limit == vms[0].limit
  {
    if i > 0 {
      LimitRespected(vms, events, i - 1);
      StaysInside(vms[i - 1], events[i - 1], vms[i]);
    }
  }
}
