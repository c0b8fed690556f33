/** `ZKHandler.delete`: keys removed one after another, each with everything below it or, without
    `recursive`, only if nothing is below it. */
module ZkDelete {
  import opened Wrappers
  import opened ZkTree
  import opened ZkWrite
  import opened ZkRename

  datatype Outcome = Deleted | Failed | Raised

  predicate Below(ps: seq<Path>, q: Path) {
    exists i | 0 <= i < |ps| :: ps[i] <= q
  }

  /** The tree without anything at or below the given paths. */
  function Pruned(t: Tree, ps: seq<Path>): Tree {
    map q | q in t.Keys && !Below(ps, q) :: t[q]
  }

  lemma PrunedValid(t: Tree, ps: seq<Path>)
    requires Valid(t) && [] !in ps
    ensures Valid(Pruned(t, ps))
  {
    forall q | q in Pruned(t, ps) && q != [] ensures Parent(q) in Pruned(t, ps) {
      assert forall i | 0 <= i < |ps| :: ps[i] <= Parent(q) ==> ps[i] <= q;
    }
  }

  lemma BelowOne(p: Path, q: Path)
    ensures Below([p], q) <==> p <= q
  {
    if p <= q {
      assert [p][0] <= q;
    }
  }

  lemma PrunedMore(t: Tree, ps: seq<Path>, p: Path)
    ensures Pruned(Pruned(t, ps), [p]) == Pruned(t, ps + [p])
  {
    forall q ensures Below(ps + [p], q) <==> Below(ps, q) || p <= q {
      if p <= q {
        assert (ps + [p])[|ps|] <= q;
      }
      if Below(ps, q) {
        var i :| 0 <= i < |ps| && ps[i] <= q;
        assert (ps + [p])[i] <= q;
      }
    }
    forall q ensures Below([p], q) <==> p <= q {
      BelowOne(p, q);
    }
  }

  function ChildPaths(p: Path, names: seq<string>): seq<Path> {
    seq(|names|, i requires 0 <= i < |names| => p + [names[i]])
  }

  /** The next child is still there, and holds less than its parent did. */
  lemma NextChildStays(list: Listing, t: Tree, p: Path, i: nat)
    requires IsListing(list) && Valid(t) && p in t && i < |list(Children(t, p))|
    ensures var names := list(Children(t, p));
      var now := Pruned(t, ChildPaths(p, names[..i]));
      p + [names[i]] in now && Subtree(now, p + [names[i]]) < Subtree(t, p)
  {
    var names := list(Children(t, p));
    assert Enumerates(names, Children(t, p));
    ChildSubtree(t, p, names[i]);
    var c := p + [names[i]];
    var ps := ChildPaths(p, names[..i]);
    forall j | 0 <= j < |ps| ensures !(ps[j] <= c) {
      assert ps[j][|p|] == names[j] && c[|p|] == names[i] && names[j] != names[i];
    }
    assert Subtree(Pruned(t, ps), c) <= Subtree(t, c);
  }

  lemma ProperHasChild(t: Tree, p: Path, q: Path)
    requires Valid(t) && q in t && p <= q && p != q
    ensures var c := q[..|p| + 1]; c in t.Keys && Parent(c) == p && c[|p|] in Children(t, p)
    ensures HasChild(t, p)
  {
    var c := q[..|p| + 1];
    PrefixClosed(t, c, q);
    assert Parent(c) == p;
  }

  lemma BelowChildren(list: Listing, t: Tree, p: Path, q: Path)
    requires IsListing(list) && Valid(t) && q in t
    ensures Below(ChildPaths(p, list(Children(t, p))), q) <==> p <= q && p != q
  {
    var names := list(Children(t, p));
    assert Enumerates(names, Children(t, p));
    var ps := ChildPaths(p, names);
    if p <= q && p != q {
      var c := q[..|p| + 1];
      ProperHasChild(t, p, q);
      var i :| 0 <= i < |names| && names[i] == c[|p|];
      assert ps[i] == c;
    }
    if Below(ps, q) {
      var i :| 0 <= i < |ps| && ps[i] <= q;
      assert p <= ps[i] && |p| < |ps[i]|;
    }
  }

  /** With all children gone the element is a leaf, and removing it leaves nothing at or below it. */
  lemma LeafLast(list: Listing, t: Tree, p: Path)
    requires IsListing(list) && Valid(t) && p in t && p != []
    ensures var now := Pruned(t, ChildPaths(p, list(Children(t, p))));
      Step(now, Delete(p)) == Some(Pruned(t, [p]))
  {
    hide Below, ChildPaths, Children, IsListing;
    var now := Pruned(t, ChildPaths(p, list(Children(t, p))));
    forall q | q in t ensures q in now <==> !(p <= q && p != q) {
      BelowChildren(list, t, p, q);
    }
    forall q | q in t ensures Below([p], q) <==> p <= q {
      BelowOne(p, q);
    }
    assert forall q | q in now.Keys && q != [] && Parent(q) == p :: p <= q && p != q;
    assert !HasChild(now, p);
    assert now - {p} == Pruned(t, [p]);
  }

  // The whole call

  /** What `delete` makes of the store, key by key: keys that do not exist are passed over; a key with
      children fails unless `recursive`; what was removed before a failure stays removed. */
  function AfterDelete(t: Tree, keys: seq<Resolution>, recursive: bool): (Outcome, Tree)
    decreases |keys|
  {
    if keys == [] then (Deleted, t)
    else
      match keys[0]
      case Raises => (Raised, t)
      case Unknown => AfterDelete(t, keys[1..], recursive)
      case At(p) =>
        if p !in t then AfterDelete(t, keys[1..], recursive)
        else if !recursive && HasChild(t, p) then (Failed, t)
        else AfterDelete(Pruned(t, [p]), keys[1..], recursive)
  }

  function Paths(keys: seq<Resolution>): seq<Path> {
    if keys == [] then []
    else if keys[0].At? then [keys[0].path] + Paths(keys[1..])
    else Paths(keys[1..])
  }

  lemma PrunedAll(t: Tree, p: Path, ps: seq<Path>)
    ensures Pruned(Pruned(t, [p]), ps) == Pruned(t, [p] + ps)
    ensures p !in t && Valid(t) ==> Pruned(t, [p] + ps) == Pruned(t, ps)
  {
    forall q ensures Below([p] + ps, q) <==> p <= q || Below(ps, q) {
      if p <= q {
        assert ([p] + ps)[0] <= q;
      }
      if Below(ps, q) {
        var i :| 0 <= i < |ps| && ps[i] <= q;
        assert ([p] + ps)[i + 1] <= q;
      }
    }
    forall q ensures Below([p], q) <==> p <= q {
      BelowOne(p, q);
    }
    if p !in t && Valid(t) {
      forall q | q in t && p <= q ensures false {
        PrefixClosed(t, p, q);
      }
    }
  }

  /** A recursive deletion fails only on a key that raises; otherwise exactly the given subtrees are
      gone and every other node is as it was, in whatever order the keys come and however they nest. */
  lemma {:induction false} RecursiveExact(t: Tree, keys: seq<Resolution>)
    requires Valid(t) && At([]) !in keys
    ensures AfterDelete(t, keys, true).0 == (if Raises in keys then Raised else Deleted)
    ensures Raises !in keys ==> AfterDelete(t, keys, true).1 == Pruned(t, Paths(keys))
    decreases |keys|
  {
    if keys == [] {
      assert Pruned(t, []) == t;
    } else {
      var rest := keys[1..];
      assert keys == [keys[0]] + rest;
      match keys[0] {
        case Raises =>
        case Unknown =>
          RecursiveExact(t, rest);
        case At(p) =>
          PrunedAll(t, p, Paths(rest));
          if p !in t {
            RecursiveExact(t, rest);
          } else {
            PrunedValid(t, [p]);
            RecursiveExact(Pruned(t, [p]), rest);
          }
      }
    }
  }

  /** Everything below each key is itself named earlier in the list. */
  ghost predicate LeavesFirst(t: Tree, ps: seq<Path>) {
    forall i, q | 0 <= i < |ps| && q in t && ps[i] <= q && ps[i] != q :: q in ps[..i]
  }

  lemma LeavesFirstHead(t: Tree, p: Path, ps: seq<Path>)
    requires Valid(t)
    ensures !(p in t && HasChild(t, p)) ==> (LeavesFirst(t, [p] + ps) <==> LeavesFirst(Pruned(t, [p]), ps))
    ensures p !in t ==> Pruned(t, [p]) == t
    ensures p in t && HasChild(t, p) ==> !LeavesFirst(t, [p] + ps)
  {
    var all := [p] + ps;
    if p in t && HasChild(t, p) {
      var q :| q in t.Keys && q != [] && Parent(q) == p;
      assert all[0] <= q && all[0] != q && q !in all[..0];
    } else {
      OnlyItself(t, p);
      if LeavesFirst(t - {p}, ps) {
        LeavesFirstMore(t, p, ps);
      }
      if LeavesFirst(t, all) {
        LeavesFirstRest(t, p, ps);
      }
    }
  }

  lemma LeavesFirstMore(t: Tree, p: Path, ps: seq<Path>)
    requires LeavesFirst(t - {p}, ps) && forall q | q in t && p <= q :: q == p
    ensures LeavesFirst(t, [p] + ps)
  {
    var all := [p] + ps;
    forall i, q | 0 <= i < |all| && q in t && all[i] <= q && all[i] != q ensures q in all[..i] {
      assert i > 0 ==> all[i] == ps[i - 1] && all[..i] == [p] + ps[..i - 1];
      if i > 0 && q != p {
        var k := i - 1;
        assert q in t - {p} && 0 <= k < |ps| && ps[k] <= q && ps[k] != q;
        assert q in ps[..k];
      }
    }
  }

  lemma LeavesFirstRest(t: Tree, p: Path, ps: seq<Path>)
    requires LeavesFirst(t, [p] + ps)
    ensures LeavesFirst(t - {p}, ps)
  {
    var all := [p] + ps;
    forall i, q | 0 <= i < |ps| && q in t - {p} && ps[i] <= q && ps[i] != q ensures q in ps[..i] {
      assert all[i + 1] == ps[i] && all[..i + 1] == [p] + ps[..i];
      assert q in all[..i + 1];
    }
  }

  lemma OnlyItself(t: Tree, p: Path)
    requires Valid(t) && (p in t ==> !HasChild(t, p))
    ensures forall q | q in t && p <= q :: q == p
    ensures Pruned(t, [p]) == t - {p}
  {
    forall q | q in t && p <= q ensures q == p {
      PrefixClosed(t, p, q);
      if q != p {
        ProperHasChild(t, p, q);
      }
    }
    forall q ensures Below([p], q) <==> p <= q {
      BelowOne(p, q);
    }
  }

  /** A deletion that is not recursive succeeds exactly when whatever lies below a key is named before
      it, and then does the same as a recursive one. */
  lemma {:induction false} PlainExact(t: Tree, keys: seq<Resolution>)
    requires Valid(t) && At([]) !in keys && Raises !in keys
    ensures AfterDelete(t, keys, false).0 == Deleted <==> LeavesFirst(t, Paths(keys))
    ensures LeavesFirst(t, Paths(keys)) ==> AfterDelete(t, keys, false).1 == Pruned(t, Paths(keys))
    decreases |keys|
  {
    if keys == [] {
      assert Pruned(t, []) == t;
    } else {
      var rest := keys[1..];
      assert keys == [keys[0]] + rest;
      if keys[0].At? {
        var p := keys[0].path;
        PrunedAll(t, p, Paths(rest));
        LeavesFirstHead(t, p, Paths(rest));
        if p !in t {
          PlainExact(t, rest);
        } else if !HasChild(t, p) {
          PrunedValid(t, [p]);
          PlainExact(Pruned(t, [p]), rest);
        }
      } else {
        PlainExact(t, rest);
      }
    }
  }

  /** A deletion that does not succeed stops at some key: one that raises, or, without `recursive`, one that still
      has something below it. What was named before it is gone, and nothing else. */
  lemma {:induction false} StopsAt(t: Tree, keys: seq<Resolution>, recursive: bool) returns (n: nat)
    requires Valid(t) && At([]) !in keys && AfterDelete(t, keys, recursive).0 != Deleted
    ensures n < |keys| && AfterDelete(t, keys, recursive).1 == Pruned(t, Paths(keys[..n]))
    ensures var (outcome, left) := AfterDelete(t, keys, recursive);
            match keys[n]
            case Raises => outcome == Raised
            case Unknown => false
            case At(p) => outcome == Failed && !recursive && p in left && HasChild(left, p)
    decreases |keys|
  {
    var rest := keys[1..];
    assert keys == [keys[0]] + rest;
    n := 0;
    assert Pruned(t, []) == t;
    if keys[0].At? {
      var p := keys[0].path;
      if p !in t || recursive || !HasChild(t, p) {
        PrunedValid(t, [p]);
        var now := if p in t then Pruned(t, [p]) else t;
        n := StopsAt(now, rest, recursive);
        PrunedAll(t, p, Paths(rest[..n]));
        assert keys[..n + 1] == [keys[0]] + rest[..n] && keys[..n + 1][1..] == rest[..n];
        n := n + 1;
      }
    } else if keys[0].Unknown? {
      n := StopsAt(t, rest, recursive);
      assert keys[..n + 1][1..] == rest[..n];
      n := n + 1;
    }
  }

  lemma NextPath(p: Path, names: seq<string>, i: nat)
    requires i < |names|
    ensures ChildPaths(p, names[..i + 1]) == ChildPaths(p, names[..i]) + [p + [names[i]]]
  {
  }

  lemma FirstPath(t: Tree, p: Path, names: seq<string>)
    ensures Pruned(t, ChildPaths(p, names[..0])) == t
  {
  }

  lemma OneOp(t: Tree, op: Op)
    ensures Run(t, [op]) == Step(t, op)
  {
    assert [op][1..] == [];
  }

  class Handler {
    const server: Server

    constructor (server: Server)
      ensures this.server == server
    {
      this.server := server;
    }

    /** The client library's recursive deletion: children first, each in a request of its own. */
    method DeleteTree(p: Path)
      requires IsListing(server.list) && Valid(server.tree) && p in server.tree && p != []
      modifies server
      ensures server.tree == Pruned(old(server.tree), [p])
      decreases Subtree(server.tree, p)
    {
      hide Pruned, ChildPaths, IsListing;
      ghost var t := server.tree;
      var names := server.list(Children(server.tree, p));
      FirstPath(t, p, names);
      for i := 0 to |names|
        invariant server.tree == Pruned(t, ChildPaths(p, names[..i])) && Valid(server.tree)
      {
        NextChildStays(server.list, t, p, i);
        PrunedMore(t, ChildPaths(p, names[..i]), p + [names[i]]);
        NextPath(p, names, i);
        PrunedValid(server.tree, [p + [names[i]]]);
        DeleteTree(p + [names[i]]);
      }
      assert names[..|names|] == names;
      LeafLast(server.list, t, p);
      OneOp(server.tree, Op.Delete(p));
      var ok := server.Commit([Op.Delete(p)]);
    }

    method Delete(keys: seq<Resolution>, recursive: bool) returns (outcome: Outcome)
      requires IsListing(server.list) && Valid(server.tree) && At([]) !in keys
      modifies server
      ensures (outcome, server.tree) == AfterDelete(old(server.tree), keys, recursive)
      ensures Valid(server.tree)
    {
      for i := 0 to |keys|
        invariant Valid(server.tree)
        invariant AfterDelete(server.tree, keys[i..], recursive) == AfterDelete(old(server.tree), keys, recursive)
      {
        assert keys[i..][0] == keys[i] && keys[i..][1..] == keys[i + 1..];
        match keys[i] {
          case Raises => return Raised;
          case Unknown =>
          case At(p) =>
            if p in server.tree {
              ghost var before := server.tree;
              PrunedValid(before, [p]);
              if recursive {
                DeleteTree(p);
              } else {
                OnlyItselfIfLeaf(before, p);
                var ok := server.Commit([Op.Delete(p)]);
                assert [Op.Delete(p)][1..] == [];
                if !ok {
                  return Failed;
                }
              }
            }
        }
      }
      return Deleted;
    }
  }

  lemma OnlyItselfIfLeaf(t: Tree, p: Path)
    requires Valid(t) && p in t && p != []
    ensures Run(t, [Op.Delete(p)]) == if HasChild(t, p) then None else Some(Pruned(t, [p]))
  {
    assert [Op.Delete(p)][1..] == [];
    if !HasChild(t, p) {
      OnlyItself(t, p);
    }
  }
}
