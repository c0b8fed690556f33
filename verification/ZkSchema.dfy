/** `ZKSchema`: the keys every cluster must have, `apply`, which creates the missing ones, and
    `validate`, which looks for them. */
module ZkSchema {
  import opened Wrappers
  import opened Text
  import opened ZkTree
  import opened ZkRename

  /** A named key and its path: from the root in the base schema, from the item's own node elsewhere. */
  type Keys = seq<(string, Path)>

  datatype Schema = Schema(version: nat, base: Keys, elems: map<string, Keys>)

  const SIMPLE: seq<string> := ["node", "domain", "network", "osd", "pool"]
  const ITEMS: seq<string> := SIMPLE + ["volume", "snapshot"]
  const NESTED: seq<string> := ["reservation", "rule.in", "rule.out"]

  /** The kind of item listed below a nested network key. */
  function Kind(key: string): string {
    if key == "rule.in" || key == "rule.out" then "rule" else key
  }

  function Find(keys: Keys, name: string): Option<Path> {
    if keys == [] then None
    else if keys[0].0 == name then Some(keys[0].1)
    else Find(keys[1..], name)
  }

  function Root(s: Schema, elem: string): Path
    requires Find(s.base, elem).Some?
  {
    Find(s.base, elem).value
  }

  function Nest(s: Schema, key: string): Path
    requires "network" in s.elems && Find(s.elems["network"], key).Some?
  {
    Find(s.elems["network"], key).value
  }

  /** Every key comes after its parent, unless it is the top node itself. */
  ghost predicate ParentsFirst(keys: Keys) {
    forall i | 0 <= i < |keys| && keys[i].1 != [] ::
      Parent(keys[i].1) == [] || exists j :: 0 <= j < i && keys[j].1 == Parent(keys[i].1)
  }

  /** The keys come from a dictionary. */
  ghost predicate UniqueNames(keys: Keys) {
    forall i, j | 0 <= i < j < |keys| :: keys[i].0 != keys[j].0
  }

  lemma {:induction false} FindAt(keys: Keys, j: nat)
    requires UniqueNames(keys) && j < |keys|
    ensures Find(keys, keys[j].0) == Some(keys[j].1)
    decreases |keys|
  {
    if j > 0 {
      FindAt(keys[1..], j - 1);
    }
  }

  /** Every element has a root and keys of its own, in order, and no root lies below another. */
  ghost predicate ElementsApart(s: Schema) {
    && (forall e | e in ITEMS :: Find(s.base, e).Some? && e in s.elems && ParentsFirst(s.elems[e]))
    && (forall e, f | e in ITEMS && f in ITEMS && e != f :: Apart(Root(s, e), Root(s, f)))
  }

  /** The three nested network keys exist, lie apart, and have no other network key below them. */
  ghost predicate NestsApart(s: Schema)
    requires "network" in s.elems
  {
    && UniqueNames(s.elems["network"])
    && (forall n | n in NESTED :: Find(s.elems["network"], n).Some? && Kind(n) in s.elems)
    && (forall n, m | n in NESTED && m in NESTED && n != m :: Apart(Nest(s, n), Nest(s, m)))
    && (forall n, j | n in NESTED && 0 <= j < |s.elems["network"]| ::
          Nest(s, n) <= s.elems["network"][j].1 ==> s.elems["network"][j].1 == Nest(s, n))
  }

  ghost predicate WellFormed(s: Schema) {
    && Find(s.base, "schema.version").Some?
    && ParentsFirst(s.base)
    && ElementsApart(s)
    && "network" in s.elems
    && NestsApart(s)
  }

  /** The value `apply` gives to a key it creates. */
  function DefaultData(elem: string, key: string): string {
    if elem == "osd" && key == "is_split" then "False"
    else if elem == "pool" && key == "tier" then "default"
    else if elem == "domain" && key == "meta.migrate_max_downtime" then "300"
    else ""
  }

  function BaseData(s: Schema, key: string): string {
    if key == "schema.version" then Decimal(s.version) else ""
  }

  // What the schema demands of a tree: a path, and the value it is created with

  /** How many levels of children lead from an element's root to its items. */
  function Depth(elem: string): nat {
    if elem == "snapshot" then 3 else if elem == "volume" then 2 else 1
  }

  predicate IsItem(s: Schema, elem: string, q: Path)
    requires Find(s.base, elem).Some?
  {
    Root(s, elem) <= q && |q| == |Root(s, elem)| + Depth(elem)
  }

  /** An item, or a node on the way from its element's root to one. */
  predicate OnTheWay(s: Schema, elem: string, q: Path)
    requires Find(s.base, elem).Some?
  {
    Root(s, elem) <= q && |Root(s, elem)| < |q| <= |Root(s, elem)| + Depth(elem)
  }

  /** A reservation or firewall rule of some network: a child of the nested key `n`. */
  ghost predicate IsNestedItem(s: Schema, n: string, q: Path)
    requires WellFormed(s) && n in NESTED
  {
    var r := Root(s, "network");
    r <= q && |q| == |r| + 1 + |Nest(s, n)| + 1 && q[|r| + 1..|q| - 1] == Nest(s, n)
  }

  ghost predicate DemandedBase(s: Schema, p: Path, d: string) {
    exists i :: 0 <= i < |s.base| && p == s.base[i].1 && d == BaseData(s, s.base[i].0)
  }

  /** A key of the item at `item`. */
  ghost predicate KeyOf(s: Schema, elem: string, item: Path, p: Path, d: string)
    requires elem in s.elems
  {
    exists j :: 0 <= j < |s.elems[elem]| && p == item + s.elems[elem][j].1 && d == DefaultData(elem, s.elems[elem][j].0)
  }

  /** A reservation's or rule's key: a child named after the key itself, whatever the key's path in
      the schema. */
  ghost predicate NestedKeyOf(s: Schema, kind: string, item: Path, p: Path, d: string)
    requires kind in s.elems
  {
    exists j :: 0 <= j < |s.elems[kind]| && p == item + [s.elems[kind][j].0] && d == ""
  }

  ghost predicate DemandedItem(s: Schema, t: Tree, p: Path, d: string)
    requires WellFormed(s)
  {
    exists e, q :: e in ITEMS && q in t && IsItem(s, e, q) && KeyOf(s, e, q, p, d)
  }

  ghost predicate DemandedNested(s: Schema, t: Tree, p: Path, d: string)
    requires WellFormed(s)
  {
    exists n, q :: n in NESTED && q in t && IsNestedItem(s, n, q) && NestedKeyOf(s, Kind(n), q, p, d)
  }

  ghost predicate Demanded(s: Schema, t: Tree, p: Path, d: string)
    requires WellFormed(s)
  {
    DemandedBase(s, p, d) || DemandedItem(s, t, p, d) || DemandedNested(s, t, p, d)
  }

  ghost predicate Satisfied(s: Schema, t: Tree)
    requires WellFormed(s)
  {
    forall p, d | Demanded(s, t, p, d) :: p in t
  }

  /** Both trees hold the same nodes, volumes, rules and so on. */
  ghost predicate SameItems(s: Schema, t1: Tree, t: Tree)
    requires WellFormed(s)
  {
    && (forall e, q | e in ITEMS && OnTheWay(s, e, q) :: q in t <==> q in t1)
    && (forall n, q | n in NESTED && IsNestedItem(s, n, q) :: q in t <==> q in t1)
  }

  /** `t` came from `t1` by creating demanded keys only, none of which is itself an item. */
  ghost predicate Grown(s: Schema, t1: Tree, t: Tree)
    requires WellFormed(s)
  {
    && Valid(t)
    && (forall p | p in t1 :: p in t && t[p] == t1[p])
    && (forall p | p in t && p !in t1 :: t[p].version == 0 && Demanded(s, t1, p, t[p].data))
    && SameItems(s, t1, t)
  }

  lemma ComparableRoots(s: Schema, e: string, f: string, p: Path)
    requires WellFormed(s) && e in ITEMS && f in ITEMS && Root(s, e) <= p && Root(s, f) <= p
    ensures e == f
  {
    ComparablePrefixes(Root(s, e), Root(s, f), p);
  }

  /** A new key of an item is no item. */
  lemma KeyIsNoItem(s: Schema, e: string, item: Path, j: nat)
    requires WellFormed(s) && e in ITEMS && IsItem(s, e, item) && j < |s.elems[e]| && s.elems[e][j].1 != []
    ensures var p := item + s.elems[e][j].1;
            && (forall f | f in ITEMS :: !OnTheWay(s, f, p))
            && (forall n | n in NESTED :: !IsNestedItem(s, n, p))
  {
    var p := item + s.elems[e][j].1;
    assert Root(s, e) <= item <= p;
    forall f | f in ITEMS ensures !OnTheWay(s, f, p) {
      if OnTheWay(s, f, p) { ComparableRoots(s, e, f, p); }
    }
    assert "network" in ITEMS;
    var r, sub := Root(s, "network"), s.elems[e][j].1;
    if r <= p {
      ComparableRoots(s, e, "network", p);
      assert p[|r| + 1..|p| - 1] == sub[..|sub| - 1];
    }
  }

  /** A new key of a rule or reservation is no item. */
  lemma NestedKeyIsNoItem(s: Schema, n: string, item: Path, k: string)
    requires WellFormed(s) && n in NESTED && IsNestedItem(s, n, item)
    ensures var p := item + [k];
            && (forall f | f in ITEMS :: !OnTheWay(s, f, p))
            && (forall m | m in NESTED :: !IsNestedItem(s, m, p))
  {
    var p, r := item + [k], Root(s, "network");
    assert "network" in ITEMS;
    assert r <= item <= p;
    forall f | f in ITEMS ensures !OnTheWay(s, f, p) {
      if OnTheWay(s, f, p) { ComparableRoots(s, "network", f, p); }
    }
    assert p[|r| + 1..|p| - 1] == item[|r| + 1..|item| - 1] + [item[|item| - 1]];
  }

  lemma GrownFrom(s: Schema, t: Tree)
    requires WellFormed(s) && Valid(t)
    ensures Grown(s, t, t)
  {
  }

  lemma GrownKeeps(s: Schema, t1: Tree, t: Tree)
    requires WellFormed(s) && Grown(s, t1, t)
    ensures Valid(t) && t1.Keys <= t.Keys
    ensures forall e, q | e in ITEMS && OnTheWay(s, e, q) :: q in t <==> q in t1
    ensures forall n, q | n in NESTED && IsNestedItem(s, n, q) :: q in t <==> q in t1
  {
  }

  lemma CreateGrows(s: Schema, t1: Tree, t: Tree, p: Path, d: string)
    requires WellFormed(s) && Grown(s, t1, t)
    requires p !in t && p != [] && Parent(p) in t && Demanded(s, t1, p, d)
    requires forall f | f in ITEMS :: !OnTheWay(s, f, p)
    requires forall n | n in NESTED :: !IsNestedItem(s, n, p)
    ensures Grown(s, t1, t[p := Node(d, 0)])
  {
    hide Demanded, OnTheWay, IsNestedItem;
    var t' := t[p := Node(d, 0)];
    assert p !in t1;
    assert SameItems(s, t1, t') by {
      forall e, q | e in ITEMS && OnTheWay(s, e, q) ensures q in t' <==> q in t1 {
        assert q != p;
      }
      forall n, q | n in NESTED && IsNestedItem(s, n, q) ensures q in t' <==> q in t1 {
        assert q != p;
      }
    }
    forall q | q in t' && q !in t1 ensures t'[q].version == 0 && Demanded(s, t1, q, t'[q].data) {
    }
  }

  lemma SameDemands(s: Schema, t1: Tree, t: Tree, p: Path, d: string)
    requires WellFormed(s) && SameItems(s, t1, t)
    ensures Demanded(s, t, p, d) <==> Demanded(s, t1, p, d)
  {
    assert forall e, q | e in ITEMS && IsItem(s, e, q) :: OnTheWay(s, e, q);
  }

  // What `apply` has finished

  ghost predicate ItemDone(s: Schema, t: Tree, e: string, q: Path)
    requires e in s.elems
  {
    forall j | 0 <= j < |s.elems[e]| :: q + s.elems[e][j].1 in t
  }

  ghost predicate NestedItemDone(s: Schema, t: Tree, n: string, q: Path)
    requires Kind(n) in s.elems
  {
    forall j | 0 <= j < |s.elems[Kind(n)]| :: q + [s.elems[Kind(n)][j].0] in t
  }

  /** Every rule and reservation of `t1` below `p` has its keys in `t`. */
  ghost predicate NestedDone(s: Schema, t1: Tree, t: Tree, n: string, p: Path)
    requires WellFormed(s) && n in NESTED
  {
    forall q | q in t1 && IsNestedItem(s, n, q) && p <= q :: NestedItemDone(s, t, n, q)
  }

  /** Every item of `t1` below `p`, and everything nested in it, has its keys in `t`. */
  ghost predicate Done(s: Schema, t1: Tree, t: Tree, e: string, p: Path)
    requires WellFormed(s) && e in ITEMS
  {
    && (forall q | q in t1 && IsItem(s, e, q) && p <= q :: ItemDone(s, t, e, q))
    && (e == "network" ==> forall n | n in NESTED :: NestedDone(s, t1, t, n, p))
  }

  /** What is done stays done while keys are only created. */
  lemma Stays(s: Schema, t1: Tree, t: Tree, t': Tree)
    requires WellFormed(s) && t.Keys <= t'.Keys
    ensures forall n, q | n in NESTED && NestedItemDone(s, t, n, q) :: NestedItemDone(s, t', n, q)
    ensures forall n, p | n in NESTED && NestedDone(s, t1, t, n, p) :: NestedDone(s, t1, t', n, p)
    ensures forall e, p | e in ITEMS && Done(s, t1, t, e, p) :: Done(s, t1, t', e, p)
  {
    assert forall n, q | n in NESTED && NestedItemDone(s, t, n, q) :: NestedItemDone(s, t', n, q);
    forall n, p | n in NESTED && NestedDone(s, t1, t, n, p) ensures NestedDone(s, t1, t', n, p) {
    }
    forall e, p | e in ITEMS && Done(s, t1, t, e, p) ensures Done(s, t1, t', e, p) {
      hide NestedDone, NestedItemDone, IsItem;
      forall q | q in t1 && IsItem(s, e, q) && p <= q ensures ItemDone(s, t', e, q) {
        assert ItemDone(s, t, e, q);
      }
    }
  }

  lemma AllDone(s: Schema, t1: Tree, t: Tree)
    requires WellFormed(s) && Valid(t1) && Grown(s, t1, t)
    requires forall i | 0 <= i < |s.base| :: s.base[i].1 in t1
    requires forall e | e in ITEMS :: Done(s, t1, t, e, Root(s, e))
    ensures Satisfied(s, t)
  {
    forall p, d | Demanded(s, t, p, d) ensures p in t {
      SameDemands(s, t1, t, p, d);
      if DemandedItem(s, t1, p, d) {
        var e, q :| e in ITEMS && q in t1 && IsItem(s, e, q) && KeyOf(s, e, q, p, d);
        assert ItemDone(s, t, e, q);
      } else if DemandedNested(s, t1, p, d) {
        var n, q :| n in NESTED && q in t1 && IsNestedItem(s, n, q) && NestedKeyOf(s, Kind(n), q, p, d);
        assert "network" in ITEMS;
        assert NestedDone(s, t1, t, n, Root(s, "network"));
        assert NestedItemDone(s, t, n, q);
      }
    }
  }

  lemma NestedDemand(s: Schema, t: Tree, n: string, q: Path, j: nat)
    requires WellFormed(s) && n in NESTED && q in t && IsNestedItem(s, n, q) && j < |s.elems[Kind(n)]|
    ensures Demanded(s, t, q + [s.elems[Kind(n)][j].0], "")
  {
    assert NestedKeyOf(s, Kind(n), q, q + [s.elems[Kind(n)][j].0], "");
  }

  /** Everything `EnsureKey` asks about an item's next key. */
  lemma ItemKey(s: Schema, t1: Tree, t: Tree, e: string, item: Path, j: nat)
    requires WellFormed(s) && e in ITEMS && item in t1 && IsItem(s, e, item) && t1.Keys <= t.Keys
    requires j < |s.elems[e]| && KeysDone(s, t1, t, e, item, j)
    ensures var p := item + s.elems[e][j].1;
            && Demanded(s, t1, p, DefaultData(e, s.elems[e][j].0))
            && (p in t || (p != [] && Parent(p) in t))
            && (p in t || forall f | f in ITEMS :: !OnTheWay(s, f, p))
            && (p in t || forall n | n in NESTED :: !IsNestedItem(s, n, p))
  {
    var sub := s.elems[e][j].1;
    var p := item + sub;
    assert KeyOf(s, e, item, p, DefaultData(e, s.elems[e][j].0));
    if sub == [] {
      assert p == item;
    } else {
      KeyIsNoItem(s, e, item, j);
      assert Parent(p) == item + Parent(sub);
      if Parent(sub) == [] {
        assert Parent(p) == item;
      }
    }
  }

  lemma NestedFinished(s: Schema, t1: Tree, t0: Tree, t: Tree, n: string, npath: Path, names: seq<string>)
    requires WellFormed(s) && n in NESTED && t1.Keys <= t0.Keys
    requires forall k :: IsNestedItem(s, n, npath + [k])
    requires forall c :: npath + [c] in t0 ==> c in names
    requires forall k | 0 <= k < |names| :: NestedItemDone(s, t, n, npath + [names[k]])
    ensures NestedDone(s, t1, t, n, npath)
  {
    assert IsNestedItem(s, n, npath + [""]);
    forall q | q in t1 && IsNestedItem(s, n, q) && npath <= q ensures NestedItemDone(s, t, n, q) {
      assert |q| == |npath| + 1;
      assert q == npath + [q[|q| - 1]] && q in t0;
      assert q[|q| - 1] in names;
    }
  }

  lemma NestedBelow(s: Schema, item: Path, j: nat)
    requires WellFormed(s) && IsItem(s, "network", item) && j < |s.elems["network"]|
    requires s.elems["network"][j].0 in NESTED
    ensures var n := s.elems["network"][j].0;
            && Nest(s, n) == s.elems["network"][j].1
            && forall k :: IsNestedItem(s, n, item + s.elems["network"][j].1 + [k])
  {
    var n, r := s.elems["network"][j].0, Root(s, "network");
    FindAt(s.elems["network"], j);
    forall k ensures IsNestedItem(s, n, item + Nest(s, n) + [k]) {
      var q := item + Nest(s, n) + [k];
      assert q[..|r|] == item[..|r|];
    }
  }

  lemma {:induction false} FindIndex(keys: Keys, name: string) returns (j: nat)
    requires Find(keys, name).Some?
    ensures j < |keys| && keys[j].0 == name && keys[j].1 == Find(keys, name).value
    decreases |keys|
  {
    if keys[0].0 == name {
      j := 0;
    } else {
      j := FindIndex(keys[1..], name);
      j := j + 1;
    }
  }

  lemma NestedOfItem(s: Schema, t1: Tree, t: Tree, item: Path, n: string)
    requires WellFormed(s) && IsItem(s, "network", item) && n in NESTED
    requires NestedDone(s, t1, t, n, item + Nest(s, n))
    ensures NestedDone(s, t1, t, n, item)
  {
    hide NestedItemDone;
    var r := Root(s, "network");
    forall q | q in t1 && IsNestedItem(s, n, q) && item <= q ensures NestedItemDone(s, t, n, q) {
      assert q == item + q[|r| + 1..|q| - 1] + [q[|q| - 1]];
      assert item + Nest(s, n) <= q;
    }
  }

  lemma ItemFinished(s: Schema, t1: Tree, t: Tree, e: string, item: Path)
    requires WellFormed(s) && e in ITEMS && item in t1 && IsItem(s, e, item) && ItemDone(s, t, e, item)
    requires e == "network" ==> forall k | 0 <= k < |s.elems[e]| && s.elems[e][k].0 in NESTED ::
               NestedDone(s, t1, t, s.elems[e][k].0, item + s.elems[e][k].1)
    ensures Done(s, t1, t, e, item)
  {
    hide NestedDone, ItemDone;
    forall q | q in t1 && IsItem(s, e, q) && item <= q ensures ItemDone(s, t, e, q) {
      assert q == item;
    }
    if e == "network" {
      forall n | n in NESTED ensures NestedDone(s, t1, t, n, item) {
        var j := FindIndex(s.elems[e], n);
        NestedOfItem(s, t1, t, item, n);
      }
    }
  }

  ghost predicate ChildrenDone(s: Schema, t1: Tree, t: Tree, e: string, p: Path, names: seq<string>)
    requires WellFormed(s) && e in ITEMS
  {
    forall k | 0 <= k < |names| :: Done(s, t1, t, e, p + [names[k]])
  }

  lemma ChildrenStayDone(s: Schema, t1: Tree, t: Tree, t': Tree, e: string, p: Path, names: seq<string>)
    requires WellFormed(s) && e in ITEMS && t.Keys <= t'.Keys
    requires names == [] || ChildrenDone(s, t1, t, e, p, names)
    ensures ChildrenDone(s, t1, t', e, p, names)
    ensures forall c | Done(s, t1, t', e, p + [c]) :: ChildrenDone(s, t1, t', e, p, names + [c])
  {
    Stays(s, t1, t, t');
    hide Done;
  }

  lemma StepDown(s: Schema, e: string, p: Path, levels: nat)
    requires WellFormed(s) && e in ITEMS && Root(s, e) <= p && |p| + levels == |Root(s, e)| + Depth(e)
    ensures levels == 0 ==> IsItem(s, e, p)
    ensures levels > 0 ==> forall c :: Root(s, e) <= p + [c] && OnTheWay(s, e, p + [c])
  {
  }

  lemma NextBelow(s: Schema, t1: Tree, t: Tree, e: string, p: Path, levels: nat, c: string)
    requires WellFormed(s) && e in ITEMS && Root(s, e) <= p && |p| + levels == |Root(s, e)| + Depth(e)
    requires levels > 0 && Grown(s, t1, t) && p + [c] in t
    ensures p + [c] in t1 && Root(s, e) <= p + [c]
  {
    hide WellFormed, Grown, Depth, OnTheWay, IsNestedItem;
    StepDown(s, e, p, levels);
    GrownKeeps(s, t1, t);
  }

  lemma ChildOnTheWay(s: Schema, t1: Tree, t0: Tree, t: Tree, e: string, p: Path, names: seq<string>, q: Path)
    requires WellFormed(s) && e in ITEMS && Valid(t1) && t1.Keys <= t0.Keys
    requires forall c :: p + [c] in t0 ==> c in names
    requires ChildrenDone(s, t1, t, e, p, names)
    requires q in t1 && p <= q && |q| > |p|
    ensures p + [q[|p|]] <= q && Done(s, t1, t, e, p + [q[|p|]])
  {
    hide WellFormed, Done;
    assert p + [q[|p|]] == q[..|p| + 1];
    PrefixClosed(t1, p + [q[|p|]], q);
    assert q[|p|] in names;
  }

  /** When everything below each child of `p` is done, everything below `p` is. */
  lemma DoneBelow(s: Schema, t1: Tree, t0: Tree, t: Tree, e: string, p: Path, names: seq<string>)
    requires WellFormed(s) && e in ITEMS && Valid(t1) && t1.Keys <= t0.Keys
    requires Root(s, e) <= p && |p| < |Root(s, e)| + Depth(e)
    requires forall c :: p + [c] in t0 ==> c in names
    requires ChildrenDone(s, t1, t, e, p, names)
    ensures Done(s, t1, t, e, p)
  {
    hide Valid, ChildrenDone, ItemDone, NestedItemDone;
    forall q | q in t1 && IsItem(s, e, q) && p <= q ensures ItemDone(s, t, e, q) {
      ChildOnTheWay(s, t1, t0, t, e, p, names, q);
    }
    if e == "network" {
      forall n, q | n in NESTED && q in t1 && IsNestedItem(s, n, q) && p <= q ensures NestedItemDone(s, t, n, q) {
        ChildOnTheWay(s, t1, t0, t, e, p, names, q);
        assert NestedDone(s, t1, t, n, p + [q[|p|]]);
      }
    }
  }

  /** What one `apply` does to a tree. */
  ghost predicate AppliedTo(s: Schema, t0: Tree, t: Tree)
    requires WellFormed(s)
  {
    && Valid(t) && Satisfied(s, t)
    && (forall p | p in t0 :: p in t && t[p] == t0[p])
    && (forall p | p in t && p !in t0 :: t[p].version == 0 && Demanded(s, t, p, t[p].data))
  }

  // What `validate` has found

  /** A nested key of this network is missing, so its children cannot be listed. */
  ghost predicate Unlistable(s: Schema, t: Tree, e: string, q: Path)
    requires WellFormed(s)
  {
    e == "network" && exists n :: n in NESTED && q + Nest(s, n) !in t
  }

  ghost predicate UnlistableBelow(s: Schema, t: Tree, e: string, p: Path)
    requires WellFormed(s) && e in ITEMS
  {
    exists q :: q in t && p <= q && IsItem(s, e, q) && Unlistable(s, t, e, q)
  }

  /** `validate` raises: the root of some element is missing, or a nested network key is. */
  ghost predicate Unanswerable(s: Schema, t: Tree)
    requires WellFormed(s)
  {
    exists e :: e in ITEMS && (Root(s, e) !in t || UnlistableBelow(s, t, e, Root(s, e)))
  }

  lemma ItemAlone(s: Schema, t: Tree, e: string, q: Path)
    requires WellFormed(s) && e in ITEMS && q in t && IsItem(s, e, q)
    ensures UnlistableBelow(s, t, e, q) <==> Unlistable(s, t, e, q)
  {
    assert forall r | q <= r && IsItem(s, e, r) :: r == q;
  }

  lemma ItemListable(s: Schema, t: Tree, e: string, item: Path)
    requires WellFormed(s) && e in ITEMS
    requires e == "network" ==> forall k | 0 <= k < |s.elems[e]| && s.elems[e][k].0 in NESTED ::
        item + s.elems[e][k].1 in t
    ensures !Unlistable(s, t, e, item)
  {
    if e == "network" {
      forall n | n in NESTED ensures item + Nest(s, n) in t {
        var j := FindIndex(s.elems[e], n);
      }
    }
  }

  lemma ItemExact(s: Schema, t: Tree, e: string, item: Path)
    requires WellFormed(s) && e in ITEMS && item in t && IsItem(s, e, item)
    ensures Done(s, t, t, e, item) <==>
            && ItemDone(s, t, e, item)
            && (e == "network" ==> forall k | 0 <= k < |s.elems[e]| && s.elems[e][k].0 in NESTED ::
                  NestedDone(s, t, t, s.elems[e][k].0, item + s.elems[e][k].1))
  {
    if Done(s, t, t, e, item) {
      if e == "network" {
        forall k | 0 <= k < |s.elems[e]| && s.elems[e][k].0 in NESTED
          ensures NestedDone(s, t, t, s.elems[e][k].0, item + s.elems[e][k].1)
        {
          hide NestedItemDone, IsNestedItem;
          assert NestedDone(s, t, t, s.elems[e][k].0, item);
        }
      }
    } else if ItemDone(s, t, e, item) {
      hide Done;
      if e != "network" || forall k | 0 <= k < |s.elems[e]| && s.elems[e][k].0 in NESTED ::
           NestedDone(s, t, t, s.elems[e][k].0, item + s.elems[e][k].1) {
        ItemFinished(s, t, t, e, item);
      }
    }
  }

  lemma UnlistableAbove(s: Schema, t: Tree, e: string, p: Path, c: string)
    requires WellFormed(s) && e in ITEMS && UnlistableBelow(s, t, e, p + [c])
    ensures UnlistableBelow(s, t, e, p)
  {
    var q :| q in t && p + [c] <= q && IsItem(s, e, q) && Unlistable(s, t, e, q);
    assert p <= q;
  }

  ghost predicate ChildrenListable(s: Schema, t: Tree, e: string, p: Path, names: seq<string>)
    requires WellFormed(s) && e in ITEMS
  {
    forall k | 0 <= k < |names| :: !UnlistableBelow(s, t, e, p + [names[k]])
  }

  lemma NoChildren(s: Schema, t: Tree, e: string, p: Path)
    requires WellFormed(s) && e in ITEMS
    ensures ChildrenListable(s, t, e, p, []) && ChildrenDone(s, t, t, e, p, [])
  {
  }

  lemma MoreChildren(s: Schema, t: Tree, e: string, p: Path, names: seq<string>, c: string)
    requires WellFormed(s) && e in ITEMS
    ensures ChildrenListable(s, t, e, p, names + [c]) <==>
            ChildrenListable(s, t, e, p, names) && !UnlistableBelow(s, t, e, p + [c])
    ensures ChildrenDone(s, t, t, e, p, names + [c]) <==>
            ChildrenDone(s, t, t, e, p, names) && Done(s, t, t, e, p + [c])
  {
    hide Done, UnlistableBelow;
    assert forall k | 0 <= k < |names| :: (names + [c])[k] == names[k];
    assert (names + [c])[|names|] == c;
  }

  lemma BelowExact(s: Schema, t: Tree, e: string, p: Path, names: seq<string>)
    requires WellFormed(s) && e in ITEMS && Valid(t)
    requires Root(s, e) <= p && |p| < |Root(s, e)| + Depth(e)
    requires forall c :: p + [c] in t ==> c in names
    requires ChildrenListable(s, t, e, p, names)
    ensures !UnlistableBelow(s, t, e, p)
    ensures Done(s, t, t, e, p) <==> ChildrenDone(s, t, t, e, p, names)
  {
    forall q | q in t && p <= q && IsItem(s, e, q) ensures !Unlistable(s, t, e, q) {
      assert p + [q[|p|]] == q[..|p| + 1];
      PrefixClosed(t, p + [q[|p|]], q);
      assert q[|p|] in names;
      assert !UnlistableBelow(s, t, e, p + [q[|p|]]);
    }
    if ChildrenDone(s, t, t, e, p, names) {
      DoneBelow(s, t, t, t, e, p, names);
    }
    if Done(s, t, t, e, p) {
      forall c ensures Done(s, t, t, e, p + [c]) {
        DoneAtChild(s, t, e, p, c);
      }
    }
  }

  lemma DoneAtChild(s: Schema, t: Tree, e: string, p: Path, c: string)
    requires WellFormed(s) && e in ITEMS && Done(s, t, t, e, p)
    ensures Done(s, t, t, e, p + [c])
  {
    hide ItemDone, NestedItemDone, IsItem, IsNestedItem;
    if e == "network" {
      forall n | n in NESTED ensures NestedDone(s, t, t, n, p + [c]) {
        assert NestedDone(s, t, t, n, p);
      }
    }
  }

  lemma SatisfiedBase(s: Schema, t: Tree)
    requires WellFormed(s) && Satisfied(s, t)
    ensures forall i | 0 <= i < |s.base| :: s.base[i].1 in t
    ensures forall e | e in ITEMS :: Root(s, e) in t
  {
    forall i | 0 <= i < |s.base| ensures s.base[i].1 in t {
      assert DemandedBase(s, s.base[i].1, BaseData(s, s.base[i].0));
      assert Demanded(s, t, s.base[i].1, BaseData(s, s.base[i].0));
    }
    forall e | e in ITEMS ensures Root(s, e) in t {
      RootInBase(s, e);
    }
  }

  lemma SatisfiedRoot(s: Schema, t: Tree, e: string)
    requires WellFormed(s) && e in ITEMS && Root(s, e) !in t
    ensures !Satisfied(s, t)
  {
    if Satisfied(s, t) {
      SatisfiedBase(s, t);
      assert false;
    }
  }

  lemma SatisfiedItems(s: Schema, t: Tree, e: string)
    requires WellFormed(s) && Satisfied(s, t) && e in ITEMS
    ensures forall q | q in t && IsItem(s, e, q) :: ItemDone(s, t, e, q)
    ensures forall n, q | n in NESTED && q in t && IsNestedItem(s, n, q) :: NestedItemDone(s, t, n, q)
  {
    forall q, j | q in t && IsItem(s, e, q) && 0 <= j < |s.elems[e]| ensures q + s.elems[e][j].1 in t {
      assert KeyOf(s, e, q, q + s.elems[e][j].1, DefaultData(e, s.elems[e][j].0));
      assert Demanded(s, t, q + s.elems[e][j].1, DefaultData(e, s.elems[e][j].0));
    }
    forall n, q, j | n in NESTED && q in t && IsNestedItem(s, n, q) && 0 <= j < |s.elems[Kind(n)]|
      ensures q + [s.elems[Kind(n)][j].0] in t
    {
      NestedDemand(s, t, n, q, j);
    }
  }

  lemma SatisfiedListable(s: Schema, t: Tree, e: string)
    requires WellFormed(s) && e in ITEMS && UnlistableBelow(s, t, e, Root(s, e))
    ensures !Satisfied(s, t)
  {
    if Satisfied(s, t) {
      SatisfiedItems(s, t, e);
      var q :| q in t && Root(s, e) <= q && IsItem(s, e, q) && Unlistable(s, t, e, q);
      var n :| n in NESTED && q + Nest(s, n) !in t;
      var j := FindIndex(s.elems["network"], n);
      assert false;
    }
  }

  lemma SatisfiedExact(s: Schema, t: Tree)
    requires WellFormed(s) && Valid(t)
    ensures Satisfied(s, t) <==>
            && (forall i | 0 <= i < |s.base| :: s.base[i].1 in t)
            && ItemsDone(s, t, |ITEMS|)
  {
    if Satisfied(s, t) {
      SatisfiedBase(s, t);
      forall e | e in ITEMS ensures Done(s, t, t, e, Root(s, e)) {
        SatisfiedItems(s, t, e);
      }
    } else {
      hide Satisfied;
      if (forall i | 0 <= i < |s.base| :: s.base[i].1 in t)
         && forall i | 0 <= i < |ITEMS| :: Done(s, t, t, ITEMS[i], Root(s, ITEMS[i])) {
        GrownFrom(s, t);
        AllDone(s, t, t);
      }
    }
  }

  lemma RootInBase(s: Schema, e: string)
    requires WellFormed(s) && e in ITEMS
    ensures exists i :: 0 <= i < |s.base| && s.base[i].1 == Root(s, e)
  {
    var j := FindIndex(s.base, e);
  }

  lemma BaseReady(s: Schema, t: Tree, i: nat)
    requires WellFormed(s) && Valid(t) && i < |s.base| && forall k | 0 <= k < i :: s.base[k].1 in t
    ensures DemandedBase(s, s.base[i].1, BaseData(s, s.base[i].0))
    ensures s.base[i].1 !in t ==> s.base[i].1 != [] && Parent(s.base[i].1) in t
    ensures forall d | s.base[i].1 !in t :: Valid(t[s.base[i].1 := Node(d, 0)])
  {
    hide ElementsApart, NestsApart;
  }

  // Progress of `validate`

  ghost predicate ItemsListable(s: Schema, t: Tree, i: nat)
    requires WellFormed(s) && i <= |ITEMS|
  {
    forall k | 0 <= k < i :: Root(s, ITEMS[k]) in t && !UnlistableBelow(s, t, ITEMS[k], Root(s, ITEMS[k]))
  }

  ghost predicate ItemsDone(s: Schema, t: Tree, i: nat)
    requires WellFormed(s) && i <= |ITEMS|
  {
    forall k | 0 <= k < i :: Done(s, t, t, ITEMS[k], Root(s, ITEMS[k]))
  }

  lemma NextElement(s: Schema, t: Tree, i: nat)
    requires WellFormed(s) && i < |ITEMS|
    ensures var r := Root(s, ITEMS[i]);
      && (ItemsListable(s, t, i + 1) <==> ItemsListable(s, t, i) && r in t && !UnlistableBelow(s, t, ITEMS[i], r))
      && (ItemsDone(s, t, i + 1) <==> ItemsDone(s, t, i) && Done(s, t, t, ITEMS[i], r))
      && (r !in t || UnlistableBelow(s, t, ITEMS[i], r) ==> Unanswerable(s, t) && !Satisfied(s, t))
  {
    hide Done, UnlistableBelow, Satisfied;
    if Root(s, ITEMS[i]) !in t {
      SatisfiedRoot(s, t, ITEMS[i]);
    } else if UnlistableBelow(s, t, ITEMS[i], Root(s, ITEMS[i])) {
      SatisfiedListable(s, t, ITEMS[i]);
    }
  }

  lemma NoElement(s: Schema, t: Tree)
    requires WellFormed(s)
    ensures ItemsListable(s, t, 0) && ItemsDone(s, t, 0)
    ensures ItemsListable(s, t, |ITEMS|) ==> !Unanswerable(s, t)
  {
    hide Done, UnlistableBelow;
    if ItemsListable(s, t, |ITEMS|) {
      forall e | e in ITEMS ensures Root(s, e) in t && !UnlistableBelow(s, t, e, Root(s, e)) {
        var k :| 0 <= k < |ITEMS| && ITEMS[k] == e;
      }
    }
  }

  ghost predicate KeysListable(s: Schema, t: Tree, e: string, item: Path, j: nat)
    requires WellFormed(s) && e in ITEMS && j <= |s.elems[e]|
  {
    e == "network" ==> forall k | 0 <= k < j && s.elems[e][k].0 in NESTED :: item + s.elems[e][k].1 in t
  }

  ghost predicate KeysDone(s: Schema, t1: Tree, t: Tree, e: string, item: Path, j: nat)
    requires WellFormed(s) && e in ITEMS && j <= |s.elems[e]|
  {
    && (forall k | 0 <= k < j :: item + s.elems[e][k].1 in t)
    && (e == "network" ==> forall k | 0 <= k < j && s.elems[e][k].0 in NESTED ::
          NestedDone(s, t1, t, s.elems[e][k].0, item + s.elems[e][k].1))
  }

  lemma NextKey(s: Schema, t1: Tree, t: Tree, e: string, item: Path, j: nat)
    requires WellFormed(s) && e in ITEMS && j < |s.elems[e]|
    ensures var key := s.elems[e][j];
      var nested := e == "network" && key.0 in NESTED;
      && (KeysListable(s, t, e, item, j + 1) <==> KeysListable(s, t, e, item, j) && (nested ==> item + key.1 in t))
      && (KeysDone(s, t1, t, e, item, j + 1) <==>
            && KeysDone(s, t1, t, e, item, j) && item + key.1 in t
            && (nested ==> NestedDone(s, t1, t, key.0, item + key.1)))
  {
    hide NestedDone;
  }

  lemma KeysStayDone(s: Schema, t1: Tree, t: Tree, t': Tree, e: string, item: Path, j: nat)
    requires WellFormed(s) && e in ITEMS && j <= |s.elems[e]| && t.Keys <= t'.Keys
    requires KeysDone(s, t1, t, e, item, j)
    ensures KeysDone(s, t1, t', e, item, j)
  {
    hide NestedDone, WellFormed;
    Stays(s, t1, t, t');
  }

  lemma NoKey(s: Schema, t1: Tree, t: Tree, e: string, item: Path)
    requires WellFormed(s) && e in ITEMS
    ensures KeysListable(s, t, e, item, 0) && KeysDone(s, t1, t, e, item, 0)
  {
  }

  lemma EveryKeyDone(s: Schema, t1: Tree, t: Tree, e: string, item: Path)
    requires WellFormed(s) && e in ITEMS && item in t1 && IsItem(s, e, item)
    requires KeysDone(s, t1, t, e, item, |s.elems[e]|)
    ensures Done(s, t1, t, e, item)
  {
    hide NestedDone, Done, IsItem;
    ItemFinished(s, t1, t, e, item);
  }

  lemma AllKeys(s: Schema, t: Tree, e: string, item: Path)
    requires WellFormed(s) && e in ITEMS && item in t && IsItem(s, e, item)
    requires KeysListable(s, t, e, item, |s.elems[e]|)
    ensures !Unlistable(s, t, e, item)
    ensures Done(s, t, t, e, item) <==> KeysDone(s, t, t, e, item, |s.elems[e]|)
  {
    hide NestedDone, Done, IsItem;
    ItemListable(s, t, e, item);
    ItemExact(s, t, e, item);
  }

  lemma MissingNest(s: Schema, t: Tree, item: Path, j: nat)
    requires WellFormed(s) && IsItem(s, "network", item) && j < |s.elems["network"]|
    requires s.elems["network"][j].0 in NESTED && item + s.elems["network"][j].1 !in t
    ensures Unlistable(s, t, "network", item)
  {
    NestedBelow(s, item, j);
  }

  /** From the two phases, before and after the base keys, to the whole. */
  lemma Outcome(s: Schema, t0: Tree, t1: Tree, t: Tree)
    requires WellFormed(s) && Grown(s, t1, t) && Satisfied(s, t)
    requires forall p | p in t0 :: p in t1 && t1[p] == t0[p]
    requires forall p | p in t1 && p !in t0 :: t1[p].version == 0 && DemandedBase(s, p, t1[p].data)
    ensures AppliedTo(s, t0, t)
    ensures Satisfied(s, t0) ==> t == t0
  {
    forall p | p in t && p !in t0 ensures t[p].version == 0 && Demanded(s, t, p, t[p].data) {
      if p !in t1 {
        SameDemands(s, t1, t, p, t[p].data);
      }
    }
    if Satisfied(s, t0) {
      forall p | p in t1 ensures p in t0 {
        if p !in t0 {
          assert Demanded(s, t0, p, t1[p].data);
          assert false;
        }
      }
      assert t1 == t0;
      forall p | p in t ensures p in t0 {
      }
    }
  }

  /** The schema of one cluster, at work on its store. */
  class Handler {
    const server: Server
    const schema: Schema

    constructor (server: Server, schema: Schema)
      ensures this.server == server && this.schema == schema
    {
      this.server, this.schema := server, schema;
    }

    /** `create`, on a path the server accepts: its parent exists and it does not. */
    method Create(p: Path, d: string)
      requires p !in server.tree && p != [] && Parent(p) in server.tree
      modifies server
      ensures server.tree == old(server.tree)[p := Node(d, 0)]
    {
      server.tree := server.tree[p := Node(d, 0)];
    }

    /** The loop over the base keys. */
    method ApplyBase()
      requires WellFormed(schema) && Valid(server.tree)
      modifies server
      ensures Valid(server.tree)
      ensures forall i | 0 <= i < |schema.base| :: schema.base[i].1 in server.tree
      ensures forall p | p in old(server.tree) :: p in server.tree && server.tree[p] == old(server.tree)[p]
      ensures forall p | p in server.tree && p !in old(server.tree) ::
                server.tree[p].version == 0 && DemandedBase(schema, p, server.tree[p].data)
    {
      hide WellFormed, Valid, DemandedBase, BaseData;
      var i := 0;
      while i < |schema.base|
        invariant 0 <= i <= |schema.base| && Valid(server.tree)
        invariant forall k | 0 <= k < i :: schema.base[k].1 in server.tree
        invariant forall p | p in old(server.tree) :: p in server.tree && server.tree[p] == old(server.tree)[p]
        invariant forall p | p in server.tree && p !in old(server.tree) ::
                    server.tree[p].version == 0 && DemandedBase(schema, p, server.tree[p].data)
      {
        var p := schema.base[i].1;
        if p !in server.tree {
          BaseReady(schema, server.tree, i);
          Create(p, BaseData(schema, schema.base[i].0));
        }
        i := i + 1;
      }
    }

    /** Creates a key unless it exists. */
    method EnsureKey(ghost t1: Tree, p: Path, d: string)
      requires WellFormed(schema) && Grown(schema, t1, server.tree)
      requires p in server.tree || (p != [] && Parent(p) in server.tree)
      requires Demanded(schema, t1, p, d)
      requires p in server.tree || forall f | f in ITEMS :: !OnTheWay(schema, f, p)
      requires p in server.tree || forall n | n in NESTED :: !IsNestedItem(schema, n, p)
      modifies server
      ensures Grown(schema, t1, server.tree) && p in server.tree && old(server.tree).Keys <= server.tree.Keys
    {
      if p !in server.tree {
        CreateGrows(schema, t1, server.tree, p, d);
        Create(p, d);
      }
    }

    /** `get_children`: the names of the nodes below `p`. */
    method GetChildren(p: Path) returns (names: seq<string>)
      requires IsListing(server.list) && Valid(server.tree) && p in server.tree
      ensures forall k | 0 <= k < |names| :: p + [names[k]] in server.tree
      ensures forall c :: p + [c] in server.tree ==> c in names
    {
      names := server.list(Children(server.tree, p));
      assert Enumerates(names, Children(server.tree, p));
      forall k | 0 <= k < |names| ensures p + [names[k]] in server.tree {
        ChildSubtree(server.tree, p, names[k]);
      }
      forall c | p + [c] in server.tree ensures c in names {
        assert p + [c] in server.tree.Keys && Parent(p + [c]) == p;
      }
    }

    /** The keys of one rule or reservation. */
    method ApplyNestedItem(ghost t1: Tree, n: string, q: Path)
      requires WellFormed(schema) && n in NESTED && Grown(schema, t1, server.tree)
      requires q in t1 && IsNestedItem(schema, n, q)
      modifies server
      ensures Grown(schema, t1, server.tree) && old(server.tree).Keys <= server.tree.Keys
      ensures NestedItemDone(schema, server.tree, n, q)
    {
      hide Grown, Demanded, OnTheWay;
      var keys, j := schema.elems[Kind(n)], 0;
      while j < |keys|
        invariant 0 <= j <= |keys| && Grown(schema, t1, server.tree)
        invariant old(server.tree).Keys <= server.tree.Keys
        invariant forall k | 0 <= k < j :: q + [keys[k].0] in server.tree
      {
        GrownKeeps(schema, t1, server.tree);
        NestedKeyIsNoItem(schema, n, q, keys[j].0);
        NestedDemand(schema, t1, n, q, j);
        assert Parent(q + [keys[j].0]) == q;
        EnsureKey(t1, q + [keys[j].0], "");
        j := j + 1;
      }
    }

    /** The keys of every rule or reservation below one nested network key. */
    method ApplyNested(ghost t1: Tree, n: string, npath: Path)
      requires WellFormed(schema) && n in NESTED && Grown(schema, t1, server.tree) && IsListing(server.list)
      requires npath in server.tree && forall k :: IsNestedItem(schema, n, npath + [k])
      modifies server
      ensures Grown(schema, t1, server.tree) && old(server.tree).Keys <= server.tree.Keys
      ensures NestedDone(schema, t1, server.tree, n, npath)
    {
      hide Grown, NestedItemDone, OnTheWay, IsNestedItem, IsListing;
      GrownKeeps(schema, t1, server.tree);
      var names := GetChildren(npath);
      var i := 0;
      while i < |names|
        invariant 0 <= i <= |names| && Grown(schema, t1, server.tree)
        invariant old(server.tree).Keys <= server.tree.Keys
        invariant forall k | 0 <= k < i :: NestedItemDone(schema, server.tree, n, npath + [names[k]])
      {
        assert npath + [names[i]] in old(server.tree);
        assert IsNestedItem(schema, n, npath + [names[i]]);
        ghost var t := server.tree;
        ApplyNestedItem(t1, n, npath + [names[i]]);
        Stays(schema, t1, t, server.tree);
        i := i + 1;
      }
      NestedFinished(schema, t1, old(server.tree), server.tree, n, npath, names);
    }

    /** One key of an item; a nested network key is followed at once by what lies below it. */
    method ApplyKey(ghost t1: Tree, elem: string, item: Path, j: nat)
      requires WellFormed(schema) && elem in ITEMS && Grown(schema, t1, server.tree) && IsListing(server.list)
      requires item in t1 && IsItem(schema, elem, item) && j < |schema.elems[elem]|
      requires KeysDone(schema, t1, server.tree, elem, item, j)
      modifies server
      ensures Grown(schema, t1, server.tree) && old(server.tree).Keys <= server.tree.Keys
      ensures KeysDone(schema, t1, server.tree, elem, item, j + 1)
    {
      hide KeysDone, Grown, Demanded, NestedDone, OnTheWay, IsNestedItem, KeyOf, IsListing;
      var key := schema.elems[elem][j];
      GrownKeeps(schema, t1, server.tree);
      ItemKey(schema, t1, server.tree, elem, item, j);
      ghost var t := server.tree;
      EnsureKey(t1, item + key.1, DefaultData(elem, key.0));
      if elem == "network" && key.0 in NESTED {
        NestedBelow(schema, item, j);
        ApplyNested(t1, key.0, item + key.1);
      }
      KeysStayDone(schema, t1, t, server.tree, elem, item, j);
      NextKey(schema, t1, server.tree, elem, item, j);
    }

    /** All keys of an item. */
    method ApplyItem(ghost t1: Tree, elem: string, item: Path)
      requires WellFormed(schema) && elem in ITEMS && Grown(schema, t1, server.tree) && IsListing(server.list)
      requires item in t1 && IsItem(schema, elem, item)
      modifies server
      ensures Grown(schema, t1, server.tree) && old(server.tree).Keys <= server.tree.Keys
      ensures Done(schema, t1, server.tree, elem, item)
    {
      hide KeysDone, Grown, Demanded, NestedDone, OnTheWay, IsNestedItem, Done, KeyOf, IsListing;
      var keys, j := schema.elems[elem], 0;
      NoKey(schema, t1, server.tree, elem, item);
      while j < |keys|
        invariant 0 <= j <= |keys| && Grown(schema, t1, server.tree)
        invariant old(server.tree).Keys <= server.tree.Keys
        invariant KeysDone(schema, t1, server.tree, elem, item, j)
      {
        ApplyKey(t1, elem, item, j);
        j := j + 1;
      }
      EveryKeyDone(schema, t1, server.tree, elem, item);
    }

    /** The loops from one node of an element's tree down to its items, `levels` further below. */
    method ApplyBelow(ghost t1: Tree, elem: string, p: Path, levels: nat)
      requires WellFormed(schema) && elem in ITEMS && Grown(schema, t1, server.tree) && IsListing(server.list)
      requires Valid(t1) && p in t1 && Root(schema, elem) <= p
      requires |p| + levels == |Root(schema, elem)| + Depth(elem)
      modifies server
      ensures Grown(schema, t1, server.tree) && old(server.tree).Keys <= server.tree.Keys
      ensures Done(schema, t1, server.tree, elem, p)
      decreases levels
    {
      hide *;
      if levels == 0 {
        StepDown(schema, elem, p, levels);
        ApplyItem(t1, elem, p);
        return;
      }
      ChildrenStayDone(schema, t1, server.tree, server.tree, elem, p, []);
      GrownKeeps(schema, t1, server.tree);
      StepDown(schema, elem, p, levels);
      var names := GetChildren(p);
      var i := 0;
      while i < |names|
        invariant 0 <= i <= |names| && Grown(schema, t1, server.tree)
        invariant old(server.tree).Keys <= server.tree.Keys
        invariant ChildrenDone(schema, t1, server.tree, elem, p, names[..i])
      {
        NextBelow(schema, t1, old(server.tree), elem, p, levels, names[i]);
        assert names[..i + 1] == names[..i] + [names[i]];
        ghost var t := server.tree;
        ApplyBelow(t1, elem, p + [names[i]], levels - 1);
        ChildrenStayDone(schema, t1, t, server.tree, elem, p, names[..i]);
        i := i + 1;
      }
      assert names[..i] == names;
      DoneBelow(schema, t1, old(server.tree), server.tree, elem, p, names);
    }

    /** Creates every missing key. Any tree ends up satisfying the schema; no node that exists
        changes; every creation is one the server accepts; and a tree that satisfies the schema is
        left alone. */
    method Apply()
      requires WellFormed(schema) && Valid(server.tree) && IsListing(server.list)
      modifies server
      ensures AppliedTo(schema, old(server.tree), server.tree)
      ensures Satisfied(schema, old(server.tree)) ==> server.tree == old(server.tree)
    {
      hide Grown, Done, AppliedTo, Satisfied, Demanded, DemandedBase, SameItems, IsListing;
      ApplyBase();
      ghost var t1 := server.tree;
      GrownFrom(schema, t1);
      var i := 0;
      while i < |ITEMS|
        invariant 0 <= i <= |ITEMS| && Grown(schema, t1, server.tree)
        invariant forall k | 0 <= k < i :: Done(schema, t1, server.tree, ITEMS[k], Root(schema, ITEMS[k]))
      {
        RootInBase(schema, ITEMS[i]);
        GrownKeeps(schema, t1, server.tree);
        ghost var t := server.tree;
        ApplyBelow(t1, ITEMS[i], Root(schema, ITEMS[i]), Depth(ITEMS[i]));
        Stays(schema, t1, t, server.tree);
        i := i + 1;
      }
      AllDone(schema, t1, server.tree);
      Outcome(schema, old(server.tree), t1, server.tree);
    }

    /** The keys of one rule or reservation, looked for. */
    method ValidateNestedItem(n: string, q: Path) returns (found: bool)
      requires WellFormed(schema) && n in NESTED
      ensures found <==> NestedItemDone(schema, server.tree, n, q)
    {
      var keys, j := schema.elems[Kind(n)], 0;
      found := true;
      while j < |keys|
        invariant 0 <= j <= |keys|
        invariant found <==> forall k | 0 <= k < j :: q + [keys[k].0] in server.tree
      {
        if q + [keys[j].0] !in server.tree {
          found := false;
        }
        j := j + 1;
      }
    }

    method ValidateNested(n: string, npath: Path) returns (found: bool)
      requires WellFormed(schema) && Valid(server.tree) && n in NESTED && IsListing(server.list)
      requires npath in server.tree && forall k :: IsNestedItem(schema, n, npath + [k])
      ensures found <==> NestedDone(schema, server.tree, server.tree, n, npath)
    {
      hide NestedItemDone, IsNestedItem, IsListing;
      var names := GetChildren(npath);
      found := true;
      var i := 0;
      while i < |names|
        invariant 0 <= i <= |names|
        invariant found <==> forall k | 0 <= k < i :: NestedItemDone(schema, server.tree, n, npath + [names[k]])
      {
        var here := ValidateNestedItem(n, npath + [names[i]]);
        found, i := found && here, i + 1;
      }
      if found {
        NestedFinished(schema, server.tree, server.tree, server.tree, n, npath, names);
      }
    }

    /** One item's keys, looked for; None when a nested key that is missing would be listed. */
    method ValidateItem(elem: string, item: Path) returns (found: Option<bool>)
      requires WellFormed(schema) && Valid(server.tree) && elem in ITEMS && IsListing(server.list)
      requires item in server.tree && IsItem(schema, elem, item)
      ensures found.None? <==> Unlistable(schema, server.tree, elem, item)
      ensures found.Some? ==> (found.value <==> Done(schema, server.tree, server.tree, elem, item))
    {
      hide NestedDone, IsNestedItem, Done, IsListing, KeysListable, KeysDone, Unlistable;
      var keys, j, all := schema.elems[elem], 0, true;
      NoKey(schema, server.tree, server.tree, elem, item);
      while j < |keys|
        invariant 0 <= j <= |keys| && KeysListable(schema, server.tree, elem, item, j)
        invariant all <==> KeysDone(schema, server.tree, server.tree, elem, item, j)
      {
        NextKey(schema, server.tree, server.tree, elem, item, j);
        if item + keys[j].1 !in server.tree {
          all := false;
        }
        if elem == "network" && keys[j].0 in NESTED {
          NestedBelow(schema, item, j);
          if item + keys[j].1 !in server.tree {
            MissingNest(schema, server.tree, item, j);
            return None;
          }
          var below := ValidateNested(keys[j].0, item + keys[j].1);
          all := all && below;
        }
        j := j + 1;
      }
      AllKeys(schema, server.tree, elem, item);
      found := Some(all);
    }

    method ValidateBelow(elem: string, p: Path, levels: nat) returns (found: Option<bool>)
      requires WellFormed(schema) && Valid(server.tree) && elem in ITEMS && IsListing(server.list)
      requires p in server.tree && Root(schema, elem) <= p
      requires |p| + levels == |Root(schema, elem)| + Depth(elem)
      ensures found.None? <==> UnlistableBelow(schema, server.tree, elem, p)
      ensures found.Some? ==> (found.value <==> Done(schema, server.tree, server.tree, elem, p))
      decreases levels
    {
      hide Done, ChildrenDone, ChildrenListable, IsNestedItem, IsItem, Unlistable, UnlistableBelow, IsListing, Depth;
      StepDown(schema, elem, p, levels);
      if levels == 0 {
        ItemAlone(schema, server.tree, elem, p);
        found := ValidateItem(elem, p);
        return;
      }
      NoChildren(schema, server.tree, elem, p);
      var names := GetChildren(p);
      var i, all := 0, true;
      while i < |names|
        invariant 0 <= i <= |names|
        invariant ChildrenListable(schema, server.tree, elem, p, names[..i])
        invariant all <==> ChildrenDone(schema, server.tree, server.tree, elem, p, names[..i])
      {
        assert names[..i + 1] == names[..i] + [names[i]];
        MoreChildren(schema, server.tree, elem, p, names[..i], names[i]);
        var here := ValidateBelow(elem, p + [names[i]], levels - 1);
        if here.None? {
          UnlistableAbove(schema, server.tree, elem, p, names[i]);
          return None;
        }
        all, i := all && here.value, i + 1;
      }
      assert names[..i] == names;
      BelowExact(schema, server.tree, elem, p, names);
      found := Some(all);
    }

    /** `validate`: true exactly on the trees that satisfy the schema. It raises instead of answering
        when a node whose children it lists is missing. */
    method Validate() returns (found: Option<bool>)
      requires WellFormed(schema) && Valid(server.tree) && IsListing(server.list)
      ensures found == Some(true) <==> Satisfied(schema, server.tree)
      ensures found.None? <==> Unanswerable(schema, server.tree)
    {
      hide Done, Satisfied, UnlistableBelow, Unanswerable, IsListing, ItemsListable, ItemsDone;
      var all, i := true, 0;
      while i < |schema.base|
        invariant 0 <= i <= |schema.base|
        invariant all <==> forall k | 0 <= k < i :: schema.base[k].1 in server.tree
      {
        if schema.base[i].1 !in server.tree {
          all := false;
        }
        i := i + 1;
      }
      i := 0;
      ghost var base := all;
      NoElement(schema, server.tree);
      while i < |ITEMS|
        invariant 0 <= i <= |ITEMS| && ItemsListable(schema, server.tree, i)
        invariant all <==> base && ItemsDone(schema, server.tree, i)
      {
        NextElement(schema, server.tree, i);
        if Root(schema, ITEMS[i]) !in server.tree {
          return None;
        }
        var here := ValidateBelow(ITEMS[i], Root(schema, ITEMS[i]), Depth(ITEMS[i]));
        if here.None? {
          return None;
        }
        all, i := all && here.value, i + 1;
      }
      SatisfiedExact(schema, server.tree);
      found := Some(all);
    }
  }
}
