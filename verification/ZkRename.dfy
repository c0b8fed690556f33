/** `ZKHandler.rename`: whole subtrees moved in one transaction that interleaves the creation of the
    copy with the deletion of the original, read from the store before the commit. */
module ZkRename {
  import opened Wrappers
  import opened ZkTree

  /** Where a path below `src` ends up below `dst`. */
  function Rebase(q: Path, src: Path, dst: Path): Path
    requires src <= q
  {
    dst + q[|src|..]
  }

  lemma ChildSubtree(t: Tree, p: Path, c: string)
    requires Valid(t) && p in t && c in Children(t, p)
    ensures p + [c] in t && Subtree(t, p + [c]) < Subtree(t, p)
  {
    var q :| q in t.Keys && q != [] && Parent(q) == p && q[|q| - 1] == c;
    assert q == p + [c];
    assert p in Subtree(t, p) && p !in Subtree(t, p + [c]);
    forall q | q in Subtree(t, p + [c]) ensures q in Subtree(t, p) {
      assert p <= p + [c] <= q;
    }
  }

  /** The operations for one element: create the copy, move the children, delete the original. */
  ghost function RenameOps(list: Listing, t: Tree, src: Path, dst: Path): seq<Op>
    requires IsListing(list) && Valid(t) && src in t
    decreases Subtree(t, src), 1, 0
  {
    var names := list(Children(t, src));
    assert Enumerates(names, Children(t, src));
    [Create(dst, t[src].data)] + ChildrenOps(list, t, src, dst, names) + [Delete(src)]
  }

  ghost function ChildrenOps(list: Listing, t: Tree, src: Path, dst: Path, names: seq<string>): seq<Op>
    requires IsListing(list) && Valid(t) && src in t
    requires forall i | 0 <= i < |names| :: names[i] in Children(t, src)
    decreases Subtree(t, src), 0, |names|
  {
    if names == [] then
      []
    else
      ChildSubtree(t, src, names[0]);
      RenameOps(list, t, src + [names[0]], dst + [names[0]]) + ChildrenOps(list, t, src, dst, names[1..])
  }

  /** `r` is `s` with the nodes in `w`, all below `src`, moved to the matching places below `dst`. */
  ghost predicate Relocated(s: Tree, r: Tree, src: Path, dst: Path, w: set<Path>)
  {
    && (forall q | q in s && q !in w :: q in r && r[q] == s[q])
    && (forall q | q in w :: src <= q && q in s && Rebase(q, src, dst) in r
                             && r[Rebase(q, src, dst)] == Node(s[q].data, 0))
    && (forall q | q in r :: (q in s && q !in w) || (dst <= q && Rebase(q, dst, src) in w))
  }

  /** `s` holds the same data as `t` in the whole subtree of `p`. */
  ghost predicate Agree(t: Tree, s: Tree, p: Path) {
    && Subtree(t, p) == Subtree(s, p)
    && forall q | q in Subtree(t, p) :: s[q].data == t[q].data
  }

  /** The store accepts a copy of `src` at `dst`. */
  ghost predicate Free(s: Tree, src: Path, dst: Path) {
    && src != [] && dst != []
    && dst !in s && Parent(dst) in s
    && !(src <= dst)
  }

  /** The nodes of `t` below `p` that hang from one of its children `names`. */
  ghost function Under(t: Tree, p: Path, names: seq<string>): set<Path> {
    set q | q in t.Keys && |q| > |p| && p <= q && q[|p|] in names
  }

  predicate Apart(p: Path, q: Path) {
    !(p <= q) && !(q <= p)
  }

  lemma ComposeRelocations(s1: Tree, s2: Tree, s3: Tree, src: Path, dst: Path, w1: set<Path>, w2: set<Path>)
    requires Apart(src, dst) && w1 !! w2 && w2 <= s1.Keys
    requires Relocated(s1, s2, src, dst, w1) && Relocated(s2, s3, src, dst, w2)
    ensures Relocated(s1, s3, src, dst, w1 + w2)
  {
    forall q | q in w1
      ensures Rebase(q, src, dst) in s3 && s3[Rebase(q, src, dst)] == Node(s1[q].data, 0)
    {
      var d := Rebase(q, src, dst);
      assert d in s2 && dst <= d;
      assert d !in w2;
    }
  }

  lemma {:induction false} MoveElement(list: Listing, t: Tree, s: Tree, src: Path, dst: Path)
    requires IsListing(list) && Valid(t) && Valid(s) && src in t
    requires Agree(t, s, src) && Free(s, src, dst)
    ensures Run(s, RenameOps(list, t, src, dst)).Some?
    ensures Relocated(s, Run(s, RenameOps(list, t, src, dst)).value, src, dst, Subtree(s, src))
    decreases Subtree(t, src), 1, 0
  {
    var names := list(Children(t, src));
    assert Enumerates(names, Children(t, src));
    var kids := ChildrenOps(list, t, src, dst, names);
    assert src in Subtree(t, src);
    assert !(dst <= src) by {
      if dst <= src { PrefixClosed(s, dst, src); }
    }
    var s1 := s[dst := Node(t[src].data, 0)];
    RunConcat(s, [Create(dst, t[src].data)] + kids, [Delete(src)]);
    RunConcat(s, [Create(dst, t[src].data)], kids);
    assert Run(s, [Create(dst, t[src].data)]) == Run(s1, []);
    ChildrenReady(t, s, s1, src, dst, names);
    MoveChildren(list, t, s1, src, dst, names);
    var s2 := Run(s1, kids).value;
    LastDelete(t, s, s1, s2, src, dst, names);
    assert Run(s2, [Delete(src)]) == Run(s2 - {src}, []);
  }

  ghost predicate Ready(t: Tree, s: Tree, src: Path, dst: Path, names: seq<string>) {
    && dst in s && Apart(src, dst)
    && (forall i | 0 <= i < |names| ::
          names[i] in Children(t, src) && Agree(t, s, src + [names[i]]) && dst + [names[i]] !in s)
    && (forall i, j | 0 <= i < j < |names| :: names[i] != names[j])
  }

  lemma ChildrenReady(t: Tree, s: Tree, s1: Tree, src: Path, dst: Path, names: seq<string>)
    requires Valid(t) && Valid(s) && src in t && Agree(t, s, src) && Free(s, src, dst) && !(dst <= src)
    requires s1 == s[dst := Node(t[src].data, 0)]
    requires Enumerates(names, Children(t, src))
    ensures Valid(s1) && Ready(t, s1, src, dst, names)
  {
    forall i | 0 <= i < |names|
      ensures Agree(t, s1, src + [names[i]]) && dst + [names[i]] !in s1
    {
      var c := src + [names[i]];
      ChildSubtree(t, src, names[i]);
      assert dst + [names[i]] !in s by {
        if dst + [names[i]] in s { PrefixClosed(s, dst, dst + [names[i]]); }
      }
      forall q ensures q in Subtree(t, c) <==> q in Subtree(s1, c) {
        if c <= q {
          assert src <= c <= q;
          assert q in Subtree(t, src) <==> q in Subtree(s, src);
        }
      }
      forall q | q in Subtree(t, c) ensures s1[q].data == t[q].data {
        assert q in Subtree(t, src);
      }
    }
  }

  lemma {:induction false} MoveChildren(list: Listing, t: Tree, s: Tree, src: Path, dst: Path, names: seq<string>)
    requires IsListing(list) && Valid(t) && Valid(s) && src in t
    requires Ready(t, s, src, dst, names)
    ensures Run(s, ChildrenOps(list, t, src, dst, names)).Some?
    ensures Relocated(s, Run(s, ChildrenOps(list, t, src, dst, names)).value, src, dst, Under(s, src, names))
    decreases Subtree(t, src), 0, |names|
  {
    if names == [] {
    } else {
      var c := names[0];
      ChildSubtree(t, src, c);
      var ops := RenameOps(list, t, src + [c], dst + [c]);
      RunConcat(s, ops, ChildrenOps(list, t, src, dst, names[1..]));
      assert !(src + [c] <= dst + [c]);
      assert Parent(dst + [c]) == dst;
      MoveElement(list, t, s, src + [c], dst + [c]);
      var s2 := Run(s, ops).value;
      RunKeepsValid(s, ops);
      OneChildMoved(t, s, s2, src, dst, names);
      MoveChildren(list, t, s2, src, dst, names[1..]);
      var s3 := Run(s2, ChildrenOps(list, t, src, dst, names[1..])).value;
      ComposeRelocations(s, s2, s3, src, dst, Under(s, src, [c]), Under(s2, src, names[1..]));
      assert Under(s, src, [c]) + Under(s2, src, names[1..]) == Under(s, src, names);
    }
  }

  /** The subtree of a child, seen from its parent. */
  lemma UnderOne(t: Tree, p: Path, c: string)
    ensures Under(t, p, [c]) == Subtree(t, p + [c])
  {
    forall q ensures q in Under(t, p, [c]) <==> q in Subtree(t, p + [c]) {
      if |q| > |p| && p <= q && q[|p|] == c { assert q[..|p| + 1] == p + [c]; }
    }
  }

  lemma RebaseChild(q: Path, src: Path, dst: Path, c: string)
    requires src + [c] <= q
    ensures src <= q && Rebase(q, src, dst) == Rebase(q, src + [c], dst + [c])
  {
    assert src <= src + [c] <= q;
    assert q[|src|..] == [c] + q[|src| + 1..];
  }

  lemma ChildRelocated(s: Tree, s2: Tree, src: Path, dst: Path, c: string)
    requires Relocated(s, s2, src + [c], dst + [c], Subtree(s, src + [c]))
    ensures Relocated(s, s2, src, dst, Subtree(s, src + [c]))
  {
    var w := Subtree(s, src + [c]);
    forall q | q in w
      ensures src <= q && q in s && Rebase(q, src, dst) in s2 && s2[Rebase(q, src, dst)] == Node(s[q].data, 0)
    {
      RebaseChild(q, src, dst, c);
    }
    forall q | q in s2 && !(q in s && q !in w) ensures dst <= q && Rebase(q, dst, src) in w {
      RebaseChild(q, dst, src, c);
    }
  }

  /** Relocation touches nothing below the source but what it moves. */
  lemma SourceSide(s: Tree, s2: Tree, src: Path, dst: Path, w: set<Path>, q: Path)
    requires Apart(src, dst) && Relocated(s, s2, src, dst, w) && src <= q
    ensures q in s2 <==> q in s && q !in w
  {
    if dst <= q {
      ComparablePrefixes(src, dst, q);
      assert false;
    }
  }

  lemma UnderSplit(s: Tree, s2: Tree, src: Path, c: string, rest: seq<string>)
    requires c !in rest
    requires forall q | src <= q :: q in s2 <==> q in s && q !in Under(s, src, [c])
    ensures Under(s, src, [c]) !! Under(s2, src, rest)
    ensures Under(s, src, [c] + rest) == Under(s, src, [c]) + Under(s2, src, rest)
  {
    forall q ensures q in Under(s2, src, rest) <==> q in Under(s, src, rest) {
    }
  }

  /** Moving the first child is one step of moving them all, and leaves the others ready. */
  lemma OneChildMoved(t: Tree, s: Tree, s2: Tree, src: Path, dst: Path, names: seq<string>)
    requires names != [] && Ready(t, s, src, dst, names)
    requires var c := names[0];
             Relocated(s, s2, src + [c], dst + [c], Subtree(s, src + [c]))
    ensures Relocated(s, s2, src, dst, Under(s, src, [names[0]]))
    ensures Under(s, src, [names[0]]) !! Under(s2, src, names[1..])
    ensures Under(s, src, names) == Under(s, src, [names[0]]) + Under(s2, src, names[1..])
    ensures Ready(t, s2, src, dst, names[1..])
  {
    var c, rest := names[0], names[1..];
    var w := Under(s, src, [c]);
    UnderOne(s, src, c);
    ChildRelocated(s, s2, src, dst, c);
    assert forall i | 0 <= i < |rest| :: rest[i] == names[i + 1] && rest[i] != c;
    assert c !in rest;
    forall q | src <= q ensures q in s2 <==> q in s && q !in w {
      SourceSide(s, s2, src, dst, w, q);
    }
    UnderSplit(s, s2, src, c, rest);
    assert names == [c] + rest;
    OthersReady(t, s, s2, src, dst, names);
  }

  lemma OthersReady(t: Tree, s: Tree, s2: Tree, src: Path, dst: Path, names: seq<string>)
    requires names != [] && Ready(t, s, src, dst, names)
    requires Relocated(s, s2, src, dst, Under(s, src, [names[0]]))
    ensures Ready(t, s2, src, dst, names[1..])
  {
    var c, rest := names[0], names[1..];
    var w := Under(s, src, [c]);
    forall i | 0 <= i < |rest|
      ensures Agree(t, s2, src + [rest[i]]) && dst + [rest[i]] !in s2
    {
      assert rest[i] == names[i + 1] && rest[i] != c;
      var d := src + [rest[i]];
      assert Agree(t, s, d);
      forall q | d <= q ensures q in s2 <==> q in s {
        SourceSide(s, s2, src, dst, w, q);
        assert q[|src|] == rest[i];
      }
      assert Subtree(s2, d) == Subtree(s, d);
      forall q | q in Subtree(t, d) ensures s2[q].data == t[q].data {
        assert q in Subtree(s, d) && q[|src|] == rest[i];
      }
      assert src + (dst + [rest[i]])[|dst|..] == d && d !in w;
    }
    assert dst !in w;
  }

  lemma ComparablePrefixes(p: Path, q: Path, r: Path)
    requires p <= r && q <= r
    ensures p <= q || q <= p
  {
    if |p| <= |q| {
      assert p == r[..|p|] == q[..|p|];
    } else {
      assert q == r[..|q|] == p[..|q|];
    }
  }

  /** Everything below the source hangs from one of its listed children. */
  lemma AllUnder(t: Tree, s: Tree, s1: Tree, src: Path, dst: Path, names: seq<string>)
    requires Valid(t) && src in t && Agree(t, s, src) && !(src <= dst)
    requires s1.Keys == s.Keys + {dst}
    requires Enumerates(names, Children(t, src))
    ensures Subtree(s, src) == Under(s1, src, names) + {src}
  {
    assert src in Subtree(t, src);
    forall q | q in Subtree(s, src) && q != src ensures q in Under(s1, src, names) {
      var k := q[..|src| + 1];
      assert q in Subtree(t, src) && k <= q;
      PrefixClosed(t, k, q);
      assert Parent(k) == src && k[|k| - 1] == q[|src|];
      assert q[|src|] in Children(t, src);
    }
  }

  /** Once the children are gone the original can be deleted, and then the whole subtree has moved. */
  lemma LastDelete(t: Tree, s: Tree, s1: Tree, s2: Tree, src: Path, dst: Path, names: seq<string>)
    requires Valid(t) && src in t && src != [] && Agree(t, s, src) && dst !in s && Apart(src, dst)
    requires s1 == s[dst := Node(t[src].data, 0)]
    requires Enumerates(names, Children(t, src))
    requires Relocated(s1, s2, src, dst, Under(s1, src, names))
    ensures src in s2 && !HasChild(s2, src)
    ensures Relocated(s, s2 - {src}, src, dst, Subtree(s, src))
  {
    var w, all := Under(s1, src, names), Subtree(s, src);
    assert src in Subtree(t, src);
    AllUnder(t, s, s1, src, dst, names);
    SourceSide(s1, s2, src, dst, w, src);
    forall q | q in s2.Keys && q != [] && Parent(q) == src ensures false {
      assert src <= q && q != src;
      SourceSide(s1, s2, src, dst, w, q);
    }
    WholeRelocated(s, s1, s2, src, dst, w);
  }

  lemma WholeRelocated(s: Tree, s1: Tree, s2: Tree, src: Path, dst: Path, w: set<Path>)
    requires Apart(src, dst) && dst !in s && src in s
    requires s1 == s[dst := Node(s[src].data, 0)]
    requires dst !in w && src !in w && Relocated(s1, s2, src, dst, w)
    ensures Relocated(s, s2 - {src}, src, dst, w + {src})
  {
    var r, all := s2 - {src}, w + {src};
    assert Rebase(src, src, dst) == dst;
    forall q | q in all
      ensures src <= q && q in s && Rebase(q, src, dst) in r && r[Rebase(q, src, dst)] == Node(s[q].data, 0)
    {
      assert dst <= Rebase(q, src, dst);
    }
    forall q | q in r && !(q in s && q !in all) ensures dst <= q && Rebase(q, dst, src) in all {
      assert q == dst ==> Rebase(q, dst, src) == src;
    }
  }

  lemma {:induction false} OnlyKnownDeletes(list: Listing, t: Tree, src: Path, dst: Path)
    requires IsListing(list) && Valid(t) && src in t
    ensures forall op | op in RenameOps(list, t, src, dst) && op.Delete? :: op.path in t
    decreases Subtree(t, src), 1, 0
  {
    var names := list(Children(t, src));
    assert Enumerates(names, Children(t, src));
    OnlyKnownChildDeletes(list, t, src, dst, names);
  }

  lemma {:induction false} OnlyKnownChildDeletes(list: Listing, t: Tree, src: Path, dst: Path, names: seq<string>)
    requires IsListing(list) && Valid(t) && src in t
    requires forall i | 0 <= i < |names| :: names[i] in Children(t, src)
    ensures forall op | op in ChildrenOps(list, t, src, dst, names) && op.Delete? :: op.path in t
    decreases Subtree(t, src), 0, |names|
  {
    if names != [] {
      ChildSubtree(t, src, names[0]);
      OnlyKnownDeletes(list, t, src + [names[0]], dst + [names[0]]);
      OnlyKnownChildDeletes(list, t, src, dst, names[1..]);
    }
  }

  lemma {:induction false} Survives(s: Tree, ops: seq<Op>, p: Path)
    requires p in s && Run(s, ops).Some?
    requires forall op | op in ops && op.Delete? :: op.path != p
    ensures p in Run(s, ops).value
    decreases |ops|
  {
    if ops != [] {
      assert ops[0] in ops;
      Survives(Step(s, ops[0]).value, ops[1..], p);
    }
  }

  /** A tree moved into itself cannot be committed: its copy keeps the original from being deleted. */
  lemma NotIntoItself(list: Listing, t: Tree, src: Path, dst: Path)
    requires IsListing(list) && Valid(t) && src in t && src <= dst && dst !in t
    ensures Run(t, RenameOps(list, t, src, dst)).None?
  {
    var names := list(Children(t, src));
    assert Enumerates(names, Children(t, src));
    var create, kids := Create(dst, t[src].data), ChildrenOps(list, t, src, dst, names);
    RunConcat(t, [create] + kids, [Delete(src)]);
    RunConcat(t, [create], kids);
    if Run(t, [create] + kids).Some? {
      var r := Run(t, [create] + kids).value;
      RunKeepsValid(t, [create] + kids);
      assert Run(t, [create]) == Run(t[dst := Node(t[src].data, 0)], []);
      OnlyKnownChildDeletes(list, t, src, dst, names);
      Survives(t[dst := Node(t[src].data, 0)], kids, dst);
      BusyParent(r, src, dst);
      assert Step(r, Delete(src)).None?;
    }
  }

  lemma BusyParent(r: Tree, p: Path, q: Path)
    requires Valid(r) && q in r && p <= q && p != q
    ensures HasChild(r, p)
  {
    var k := q[..|p| + 1];
    PrefixClosed(r, k, q);
    assert k in r.Keys && Parent(k) == p;
  }

  /** The exact condition for one rename to commit, and its whole effect on the store. */
  lemma RenameExact(list: Listing, t: Tree, src: Path, dst: Path)
    requires IsListing(list) && Valid(t) && src in t
    ensures Run(t, RenameOps(list, t, src, dst)).Some? <==> Free(t, src, dst)
    ensures Free(t, src, dst) ==>
            Relocated(t, Run(t, RenameOps(list, t, src, dst)).value, src, dst, Subtree(t, src))
  {
    var ops := RenameOps(list, t, src, dst);
    assert ops[0] == Create(dst, t[src].data);
    if Free(t, src, dst) {
      MoveElement(list, t, t, src, dst);
    } else if dst !in t && src <= dst {
      NotIntoItself(list, t, src, dst);
    } else if src == [] {
      assert [] <= dst;
    }
  }

  // Several renames in one transaction

  ghost function RenameAllOps(list: Listing, t: Tree, pairs: seq<(Path, Path)>): seq<Op>
    requires IsListing(list) && Valid(t) && forall i | 0 <= i < |pairs| :: pairs[i].0 in t
  {
    if pairs == [] then [] else
    RenameOps(list, t, pairs[0].0, pairs[0].1) + RenameAllOps(list, t, pairs[1..])
  }

  /** Every source agrees with what was read, every destination is free, and no pair touches another. */
  ghost predicate Renamable(t: Tree, s: Tree, pairs: seq<(Path, Path)>) {
    && (forall i | 0 <= i < |pairs| ::
          pairs[i].0 in t && Agree(t, s, pairs[i].0) && Free(s, pairs[i].0, pairs[i].1))
    && (forall i, j | 0 <= i < j < |pairs| ::
          && Apart(pairs[i].0, pairs[j].0) && Apart(pairs[i].1, pairs[j].1)
          && !(pairs[i].0 <= pairs[j].1) && !(pairs[j].0 <= pairs[i].1))
  }

  /** The whole effect of several renames, node by node. */
  ghost predicate RenamedAll(s: Tree, r: Tree, pairs: seq<(Path, Path)>) {
    && (forall i, q | 0 <= i < |pairs| && q in Subtree(s, pairs[i].0) ::
          && Rebase(q, pairs[i].0, pairs[i].1) in r
          && r[Rebase(q, pairs[i].0, pairs[i].1)] == Node(s[q].data, 0))
    && (forall i, q | 0 <= i < |pairs| && q in r :: !(pairs[i].0 <= q))
    && (forall q | q in s && (forall i | 0 <= i < |pairs| :: !(pairs[i].0 <= q)) :: q in r && r[q] == s[q])
    && (forall q | q in r && (forall i | 0 <= i < |pairs| :: !(pairs[i].1 <= q)) :: q in s)
  }

  lemma RenamableTail(t: Tree, s: Tree, s2: Tree, pairs: seq<(Path, Path)>)
    requires pairs != [] && Valid(t) && Valid(s) && Renamable(t, s, pairs)
    requires Relocated(s, s2, pairs[0].0, pairs[0].1, Subtree(s, pairs[0].0))
    ensures Renamable(t, s2, pairs[1..])
  {
    var src, dst, rest := pairs[0].0, pairs[0].1, pairs[1..];
    forall i | 0 <= i < |rest| ensures Agree(t, s2, rest[i].0) && Free(s2, rest[i].0, rest[i].1) {
      var a, b := pairs[i + 1].0, pairs[i + 1].1;
      assert rest[i] == (a, b);
      assert !(dst <= a) by {
        assert a in Subtree(t, a);
        if dst <= a { PrefixClosed(s, dst, a); }
      }
      forall q | a <= q ensures q in s2 <==> q in s {
        if src <= q { ComparablePrefixes(src, a, q); assert false; }
        if dst <= q { ComparablePrefixes(dst, a, q); assert false; }
      }
      assert Subtree(s2, a) == Subtree(s, a);
      forall q | q in Subtree(t, a) ensures s2[q].data == t[q].data {
        assert q in Subtree(s, a);
        if src <= q { ComparablePrefixes(src, a, q); assert false; }
      }
      assert !(src <= Parent(b));
    }
  }

  /** The later pairs find their subtrees as they were. */
  lemma LaterKept(s: Tree, s2: Tree, r: Tree, pairs: seq<(Path, Path)>, i: nat, q: Path)
    requires 0 < i < |pairs| && Apart(pairs[0].0, pairs[i].0) && !(pairs[i].0 <= pairs[0].1)
    requires !(pairs[0].1 <= pairs[i].0)
    requires Relocated(s, s2, pairs[0].0, pairs[0].1, Subtree(s, pairs[0].0))
    requires RenamedAll(s2, r, pairs[1..]) && q in Subtree(s, pairs[i].0)
    ensures Rebase(q, pairs[i].0, pairs[i].1) in r && r[Rebase(q, pairs[i].0, pairs[i].1)] == Node(s[q].data, 0)
  {
    var rest := pairs[1..];
    if pairs[0].0 <= q { ComparablePrefixes(pairs[0].0, pairs[i].0, q); assert false; }
    if pairs[0].1 <= q { ComparablePrefixes(pairs[0].1, pairs[i].0, q); assert false; }
    assert rest[i - 1] == pairs[i] && q in Subtree(s2, rest[i - 1].0);
  }

  /** Outside all sources and destinations nothing has changed. */
  lemma OthersKept(s: Tree, s2: Tree, r: Tree, pairs: seq<(Path, Path)>)
    requires pairs != [] && Relocated(s, s2, pairs[0].0, pairs[0].1, Subtree(s, pairs[0].0))
    requires RenamedAll(s2, r, pairs[1..]) && Valid(s) && pairs[0].1 !in s
    ensures forall q | q in s && forall i | 0 <= i < |pairs| :: !(pairs[i].0 <= q) :: q in r && r[q] == s[q]
    ensures forall q | q in r && forall i | 0 <= i < |pairs| :: !(pairs[i].1 <= q) :: q in s
  {
    var rest := pairs[1..];
    assert forall i | 0 <= i < |rest| :: rest[i] == pairs[i + 1];
    forall q | q in s && forall i | 0 <= i < |pairs| :: !(pairs[i].0 <= q) ensures q in r && r[q] == s[q] {
      assert !(pairs[0].0 <= q);
      assert !(pairs[0].1 <= q) by {
        if pairs[0].1 <= q { PrefixClosed(s, pairs[0].1, q); }
      }
    }
    forall q | q in r && forall i | 0 <= i < |pairs| :: !(pairs[i].1 <= q) ensures q in s {
      assert !(pairs[0].1 <= q);
    }
  }

  lemma RenamedAllCons(s: Tree, s2: Tree, r: Tree, pairs: seq<(Path, Path)>)
    requires pairs != [] && Valid(s)
    requires forall i | 0 <= i < |pairs| :: pairs[i].1 !in s && pairs[i].0 in s
    requires forall i, j | 0 <= i < j < |pairs| ::
               && Apart(pairs[i].0, pairs[j].0) && Apart(pairs[i].1, pairs[j].1)
               && !(pairs[i].0 <= pairs[j].1) && !(pairs[j].0 <= pairs[i].1)
    requires !(pairs[0].0 <= pairs[0].1)
    requires Relocated(s, s2, pairs[0].0, pairs[0].1, Subtree(s, pairs[0].0))
    requires RenamedAll(s2, r, pairs[1..])
    ensures RenamedAll(s, r, pairs)
  {
    hide Relocated, Valid;
    var src, rest := pairs[0].0, pairs[1..];
    FirstKept(s, s2, r, pairs);
    forall i, q | 0 < i < |pairs| && q in Subtree(s, pairs[i].0)
      ensures Rebase(q, pairs[i].0, pairs[i].1) in r && r[Rebase(q, pairs[i].0, pairs[i].1)] == Node(s[q].data, 0)
    {
      if pairs[0].1 <= pairs[i].0 { PrefixClosed(s, pairs[0].1, pairs[i].0); assert false; }
      LaterKept(s, s2, r, pairs, i, q);
    }
    forall q | q in r ensures !(src <= q) {
      if src <= q {
        NotRecreated(s, s2, r, pairs, q);
        assert false;
      }
    }
    forall i, q | 0 <= i < |pairs| && q in r ensures !(pairs[i].0 <= q) {
      assert i > 0 ==> rest[i - 1] == pairs[i];
    }
    OthersKept(s, s2, r, pairs);
  }

  /** The first pair's copy is left alone by the later pairs. */
  lemma FirstKept(s: Tree, s2: Tree, r: Tree, pairs: seq<(Path, Path)>)
    requires pairs != [] && Valid(s)
    requires forall i | 0 <= i < |pairs| :: pairs[i].1 !in s && pairs[i].0 in s
    requires forall j | 0 < j < |pairs| :: !(pairs[j].0 <= pairs[0].1)
    requires Relocated(s, s2, pairs[0].0, pairs[0].1, Subtree(s, pairs[0].0))
    requires RenamedAll(s2, r, pairs[1..])
    ensures forall q | q in Subtree(s, pairs[0].0) ::
              && Rebase(q, pairs[0].0, pairs[0].1) in r
              && r[Rebase(q, pairs[0].0, pairs[0].1)] == Node(s[q].data, 0)
  {
    var src, dst, rest := pairs[0].0, pairs[0].1, pairs[1..];
    forall q | q in Subtree(s, src)
      ensures Rebase(q, src, dst) in r && r[Rebase(q, src, dst)] == Node(s[q].data, 0)
    {
      var d := Rebase(q, src, dst);
      assert d in s2 && dst <= d;
      forall i | 0 <= i < |rest| ensures !(rest[i].0 <= d) {
        assert rest[i] == pairs[i + 1];
        if rest[i].0 <= d {
          ComparablePrefixes(rest[i].0, dst, d);
          PrefixClosed(s, dst, rest[i].0);
          assert false;
        }
      }
    }
  }

  /** Later pairs put nothing back below the first source. */
  lemma NotRecreated(s: Tree, s2: Tree, r: Tree, pairs: seq<(Path, Path)>, q: Path)
    requires pairs != [] && Valid(s) && pairs[0].0 <= q
    requires forall i | 0 <= i < |pairs| :: pairs[i].1 !in s && pairs[i].0 in s
    requires forall j | 0 <= j < |pairs| :: !(pairs[0].0 <= pairs[j].1)
    requires Relocated(s, s2, pairs[0].0, pairs[0].1, Subtree(s, pairs[0].0))
    requires RenamedAll(s2, r, pairs[1..])
    ensures q !in r
  {
    var src, rest := pairs[0].0, pairs[1..];
    forall i | 0 <= i < |pairs| ensures !(pairs[i].1 <= q) {
      if pairs[i].1 <= q {
        ComparablePrefixes(pairs[i].1, src, q);
        PrefixClosed(s, pairs[i].1, src);
        assert false;
      }
    }
    assert q in s2 ==> q in s && q !in Subtree(s, src);
    assert forall i | 0 <= i < |rest| :: rest[i] == pairs[i + 1];
  }

  /** Several disjoint subtrees move together: the interleaved creations and deletions are one valid
      transaction, every descendant arrives with its data, nothing stays behind, and everything else
      is as it was. `t` is the tree the operations were read from, `s` the one they are run on. */
  lemma {:induction false} RenameAll(list: Listing, t: Tree, s: Tree, pairs: seq<(Path, Path)>)
    requires IsListing(list) && Valid(t) && Valid(s) && Renamable(t, s, pairs)
    ensures Run(s, RenameAllOps(list, t, pairs)).Some?
    ensures RenamedAll(s, Run(s, RenameAllOps(list, t, pairs)).value, pairs)
    decreases |pairs|
  {
    if pairs == [] {
    } else {
      var src, dst, rest := pairs[0].0, pairs[0].1, pairs[1..];
      var ops := RenameOps(list, t, src, dst);
      assert forall i | 0 <= i < |rest| :: rest[i] == pairs[i + 1];
      RunConcat(s, ops, RenameAllOps(list, t, rest));
      MoveElement(list, t, s, src, dst);
      RunKeepsValid(s, ops);
      var s2 := Run(s, ops).value;
      RenamableTail(t, s, s2, pairs);
      RenameAll(list, t, s2, rest);
      forall i | 0 <= i < |pairs| ensures pairs[i].0 in s {
        assert pairs[i].0 in Subtree(t, pairs[i].0);
      }
      RenamedAllCons(s, s2, Run(s2, RenameAllOps(list, t, rest)).value, pairs);
    }
  }

  lemma NextChild(list: Listing, t: Tree, src: Path, dst: Path, names: seq<string>, i: nat)
    requires IsListing(list) && Valid(t) && src in t && i < |names|
    requires forall i | 0 <= i < |names| :: names[i] in Children(t, src)
    ensures src + [names[i]] in t && Subtree(t, src + [names[i]]) < Subtree(t, src)
    ensures ChildrenOps(list, t, src, dst, names[i..]) ==
            RenameOps(list, t, src + [names[i]], dst + [names[i]]) + ChildrenOps(list, t, src, dst, names[i + 1..])
  {
    ChildSubtree(t, src, names[i]);
    assert names[i..][0] == names[i] && names[i..][1..] == names[i + 1..];
  }

  lemma NoChildOps(list: Listing, t: Tree, src: Path, dst: Path, names: seq<string>)
    requires IsListing(list) && Valid(t) && src in t && forall i | 0 <= i < |names| :: names[i] in Children(t, src)
    ensures names[0..] == names && ChildrenOps(list, t, src, dst, names[|names|..]) == []
  {
  }

  lemma ElementOps(list: Listing, t: Tree, src: Path, dst: Path, names: seq<string>) returns (kids: seq<Op>)
    requires IsListing(list) && Valid(t) && src in t && names == list(Children(t, src))
    ensures forall k | 0 <= k < |names| :: names[k] in Children(t, src)
    ensures kids == ChildrenOps(list, t, src, dst, names)
    ensures RenameOps(list, t, src, dst) == [Create(dst, t[src].data)] + kids + [Delete(src)]
  {
    assert Enumerates(names, Children(t, src));
    kids := ChildrenOps(list, t, src, dst, names);
  }

  /** A client of the store. */
  class Handler {
    const server: Server

    constructor (server: Server)
      ensures this.server == server
    {
      this.server := server;
    }

    /** Reads one element and appends its operations to the transaction. */
    method RenameElement(transaction: seq<Op>, src: Path, dst: Path) returns (ops: seq<Op>)
      requires IsListing(server.list) && Valid(server.tree) && src in server.tree
      ensures ops == transaction + RenameOps(server.list, server.tree, src, dst)
      decreases Subtree(server.tree, src), 1
    {
      var names := server.list(Children(server.tree, src));
      ghost var kids := ElementOps(server.list, server.tree, src, dst, names);
      ops := transaction + [Create(dst, server.tree[src].data)];
      ops := RenameChildren(ops, src, dst, names);
      ops := ops + [Delete(src)];
    }

    /** The loop over the children of one element. */
    method RenameChildren(transaction: seq<Op>, src: Path, dst: Path, names: seq<string>) returns (ops: seq<Op>)
      requires IsListing(server.list) && Valid(server.tree) && src in server.tree
      requires forall k | 0 <= k < |names| :: names[k] in Children(server.tree, src)
      ensures ops == transaction + ChildrenOps(server.list, server.tree, src, dst, names)
      decreases Subtree(server.tree, src), 0
    {
      hide Children, Valid, IsListing, ChildrenOps, RenameOps;
      ops := transaction;
      var i := 0;
      NoChildOps(server.list, server.tree, src, dst, names);
      while i < |names|
        invariant 0 <= i <= |names|
        invariant ops + ChildrenOps(server.list, server.tree, src, dst, names[i..]) ==
                  transaction + ChildrenOps(server.list, server.tree, src, dst, names)
      {
        NextChild(server.list, server.tree, src, dst, names, i);
        ghost var one := RenameOps(server.list, server.tree, src + [names[i]], dst + [names[i]]);
        ghost var more := ChildrenOps(server.list, server.tree, src, dst, names[i + 1..]);
        assert ops + (one + more) == ops + one + more;
        ops := RenameElement(ops, src + [names[i]], dst + [names[i]]);
        i := i + 1;
      }
    }

    /** Checks every pair against the store, then commits all of them at once. */
    method Rename(pairs: seq<(Path, Path)>) returns (ok: bool)
      requires IsListing(server.list) && Valid(server.tree)
      modifies server
      ensures Valid(server.tree)
      ensures ok <==>
              && (forall i | 0 <= i < |pairs| :: pairs[i].0 in old(server.tree) && pairs[i].1 !in old(server.tree))
              && Run(old(server.tree), RenameAllOps(server.list, old(server.tree), pairs)).Some?
      ensures ok ==> Run(old(server.tree), RenameAllOps(server.list, old(server.tree), pairs)) == Some(server.tree)
      ensures !ok ==> server.tree == old(server.tree)
      ensures Renamable(old(server.tree), old(server.tree), pairs) ==>
              ok && RenamedAll(old(server.tree), server.tree, pairs)
    {
      var t := server.tree;
      var ops: seq<Op> := [];
      var i := 0;
      while i < |pairs|
        invariant 0 <= i <= |pairs| && server.tree == t
        invariant forall k | 0 <= k < i :: pairs[k].0 in t && pairs[k].1 !in t
        invariant ops == RenameAllOps(server.list, t, pairs[..i])
      {
        if pairs[i].0 !in t || pairs[i].1 in t {
          assert pairs[i].0 !in t ==> pairs[i].0 !in Subtree(t, pairs[i].0);
          assert pairs[i].1 in t ==> !Free(t, pairs[i].0, pairs[i].1);
          return false;
        }
        AppendPair(server.list, t, pairs[..i], pairs[i]);
        assert pairs[..i] + [pairs[i]] == pairs[..i + 1];
        ops := RenameElement(ops, pairs[i].0, pairs[i].1);
        i := i + 1;
      }
      assert pairs[..i] == pairs;
      if Renamable(t, t, pairs) {
        RenameAll(server.list, t, t, pairs);
      }
      ok := server.Commit(ops);
      if ok {
        RunKeepsValid(t, ops);
      }
    }
  }

  lemma {:induction false} AppendPair(list: Listing, t: Tree, pairs: seq<(Path, Path)>, last: (Path, Path))
    requires IsListing(list) && Valid(t) && last.0 in t
    requires forall i | 0 <= i < |pairs| :: pairs[i].0 in t
    ensures RenameAllOps(list, t, pairs + [last]) ==
            RenameAllOps(list, t, pairs) + RenameOps(list, t, last.0, last.1)
    decreases |pairs|
  {
    var all := pairs + [last];
    if pairs == [] {
      assert all[1..] == [];
    } else {
      assert all[0] == pairs[0] && all[1..] == pairs[1..] + [last];
      AppendPair(list, t, pairs[1..], last);
    }
  }
}
