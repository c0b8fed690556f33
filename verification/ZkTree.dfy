/** The ZooKeeper store: a prefix-closed tree of versioned nodes, and its multi-operation
    transactions, which take effect entirely or not at all.

    A path is the sequence of its components: [] is "/", ["nodes", "hv1"] is "/nodes/hv1". */
module ZkTree {
  import opened Wrappers

  type Path = seq<string>

  datatype Node = Node(data: string, version: nat)

  type Tree = map<Path, Node>

  function Parent(p: Path): Path
    requires p != []
  {
    p[..|p| - 1]
  }

  /** The root exists and every other node hangs below an existing one. */
  ghost predicate Valid(t: Tree) {
    && [] in t
    && forall p | p in t && p != [] :: Parent(p) in t
  }

  predicate HasChild(t: Tree, p: Path) {
    exists q | q in t.Keys :: q != [] && Parent(q) == p
  }

  function Children(t: Tree, p: Path): set<string> {
    set q | q in t.Keys && q != [] && Parent(q) == p :: q[|q| - 1]
  }

  function Subtree(t: Tree, p: Path): set<Path> {
    set q | q in t.Keys && p <= q
  }

  datatype Op =
    | Create(path: Path, data: string)
    | SetData(path: Path, data: string)
    | Check(path: Path, version: nat)
    | Delete(path: Path)

  /** One operation inside a transaction; None when the server rejects it. */
  function Step(t: Tree, op: Op): Option<Tree> {
    match op
    case Create(p, d) =>
      if p in t || p == [] || Parent(p) !in t then None else Some(t[p := Node(d, 0)])
    case SetData(p, d) =>
      if p !in t then None else Some(t[p := Node(d, t[p].version + 1)])
    case Check(p, v) =>
      if p in t && t[p].version == v then Some(t) else None
    case Delete(p) =>
      if p !in t || p == [] || HasChild(t, p) then None else Some(t - {p})
  }

  /** A whole transaction: the tree after all operations, or None when any of them is rejected. */
  function Run(t: Tree, ops: seq<Op>): Option<Tree>
    decreases |ops|
  {
    if ops == [] then
      Some(t)
    else
      var t' :- Step(t, ops[0]);
      Run(t', ops[1..])
  }

  lemma {:induction false} RunConcat(t: Tree, a: seq<Op>, b: seq<Op>)
    ensures Run(t, a + b) == if Run(t, a).None? then None else Run(Run(t, a).value, b)
    decreases |a|
  {
    if a == [] {
      assert a + b == b;
    } else {
      assert (a + b)[0] == a[0] && (a + b)[1..] == a[1..] + b;
      if Step(t, a[0]).Some? {
        RunConcat(Step(t, a[0]).value, a[1..], b);
      }
    }
  }

  /** No transaction can leave an orphan behind. */
  lemma {:induction false} RunKeepsValid(t: Tree, ops: seq<Op>)
    requires Valid(t) && Run(t, ops).Some?
    ensures Valid(Run(t, ops).value)
    decreases |ops|
  {
    if ops != [] {
      var t' := Step(t, ops[0]).value;
      if ops[0].Delete? {
        forall p | p in t' && p != [] ensures Parent(p) in t' {
          assert p in t.Keys;
        }
      }
      RunKeepsValid(t', ops[1..]);
    }
  }

  lemma {:induction false} PrefixClosed(t: Tree, p: Path, q: Path)
    requires Valid(t) && q in t && p <= q
    ensures p in t
    decreases |q|
  {
    if p == q {
    } else {
      assert p <= Parent(q);
      PrefixClosed(t, p, Parent(q));
    }
  }

  /** The order in which a server lists a node's children: unspecified, but each name once. */
  type Listing = set<string> -> seq<string>

  predicate Enumerates(names: seq<string>, s: set<string>) {
    && (forall i | 0 <= i < |names| :: names[i] in s)
    && (forall c | c in s :: c in names)
    && (forall i, j | 0 <= i < j < |names| :: names[i] != names[j])
  }

  ghost predicate IsListing(list: Listing) {
    forall s: set<string> :: Enumerates(list(s), s)
  }

  /** The server itself. Every method of a client works on one of these. */
  class Server {
    var tree: Tree
    const list: Listing

    constructor (tree: Tree, list: Listing)
      ensures this.tree == tree && this.list == list
    {
      this.tree, this.list := tree, list;
    }

    /** Commits a transaction: all of it, or nothing. */
    method Commit(ops: seq<Op>) returns (ok: bool)
      modifies this
      ensures ok == Run(old(tree), ops).Some?
      ensures tree == if ok then Run(old(tree), ops).value else old(tree)
    {
      var t, i := tree, 0;
      while i < |ops|
        invariant 0 <= i <= |ops| && tree == old(tree)
        invariant Run(t, ops[i..]) == Run(old(tree), ops)
      {
        var next := Step(t, ops[i]);
        if next.None? {
          return false;
        }
        assert ops[i..][0] == ops[i] && ops[i..][1..] == ops[i + 1..];
        t, i := next.value, i + 1;
      }
      tree := t;
      ok := true;
    }
  }
}
