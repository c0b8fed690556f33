/** What `apply` and `validate` do, element by element, in the terms of an operator: where nodes, volumes,
    snapshots and firewall rules lie, which keys each has, and which values new keys are given. */
module ZkSchemaPlain {
  import opened Wrappers
  import opened Text
  import opened ZkTree
  import opened ZkSchema

  // The schema, read

  function RootAt(s: Schema, elem: string): Path {
    if Find(s.base, elem).Some? then Find(s.base, elem).value else []
  }

  function KeysFor(s: Schema, kind: string): Keys {
    if kind in s.elems then s.elems[kind] else []
  }

  function NestAt(s: Schema, nest: string): Path {
    if Find(KeysFor(s, "network"), nest).Some? then Find(KeysFor(s, "network"), nest).value else []
  }

  // Where things are

  predicate IsSimple(elem: string) {
    elem == "node" || elem == "domain" || elem == "network" || elem == "osd" || elem == "pool"
  }

  ghost predicate IsObject(s: Schema, elem: string, q: Path) {
    exists name :: q == RootAt(s, elem) + [name]
  }

  ghost predicate IsVolume(s: Schema, q: Path) {
    exists pool, volume :: q == RootAt(s, "volume") + [pool, volume]
  }

  ghost predicate IsSnapshot(s: Schema, q: Path) {
    exists pool, volume, snapshot :: q == RootAt(s, "snapshot") + [pool, volume, snapshot]
  }

  /** A reservation or rule: a child of the key `nest` of some network. */
  ghost predicate IsNested(s: Schema, nest: string, q: Path) {
    exists network, name :: q == RootAt(s, "network") + [network] + NestAt(s, nest) + [name]
  }

  lemma ItemNames()
    ensures forall e | IsSimple(e) :: e in ITEMS
    ensures "volume" in ITEMS && "snapshot" in ITEMS
    ensures forall e | e in ITEMS :: IsSimple(e) || e == "volume" || e == "snapshot"
  {
    assert ITEMS == SIMPLE + ["volume", "snapshot"];
    assert ITEMS[5] == "volume" && ITEMS[6] == "snapshot";
    assert SIMPLE[0] == "node" && SIMPLE[1] == "domain" && SIMPLE[2] == "network";
    assert SIMPLE[3] == "osd" && SIMPLE[4] == "pool";
    assert forall i | 0 <= i < 5 :: ITEMS[i] == SIMPLE[i];
  }

  lemma NestNames()
    ensures forall n :: n in NESTED <==> n == "reservation" || n == "rule.in" || n == "rule.out"
    ensures Kind("reservation") == "reservation" && Kind("rule.in") == Kind("rule.out") == "rule"
  {
    assert NESTED[0] == "reservation" && NESTED[1] == "rule.in" && NESTED[2] == "rule.out";
  }

  lemma Known(s: Schema)
    requires WellFormed(s)
    ensures forall e | e in ITEMS :: Find(s.base, e).Some? && e in s.elems && Root(s, e) == RootAt(s, e)
    ensures forall n | n in NESTED :: Find(KeysFor(s, "network"), n).Some? && Kind(n) in s.elems
    ensures "network" in s.elems && forall n | n in NESTED :: Nest(s, n) == NestAt(s, n)
  {
  }

  lemma ObjectPlain(s: Schema, e: string, q: Path)
    requires WellFormed(s) && e in ITEMS && IsSimple(e)
    ensures IsItem(s, e, q) <==> IsObject(s, e, q)
  {
    hide WellFormed;
    Known(s);
    var r := RootAt(s, e);
    if IsItem(s, e, q) {
      assert q == r + [q[|r|]];
    }
  }

  lemma VolumePlain(s: Schema, q: Path)
    requires WellFormed(s) && "volume" in ITEMS
    ensures IsItem(s, "volume", q) <==> IsVolume(s, q)
  {
    var r := Root(s, "volume");
    if IsItem(s, "volume", q) {
      assert q == r + [q[|r|], q[|r| + 1]];
    }
  }

  lemma SnapshotPlain(s: Schema, q: Path)
    requires WellFormed(s) && "snapshot" in ITEMS
    ensures IsItem(s, "snapshot", q) <==> IsSnapshot(s, q)
  {
    var r := Root(s, "snapshot");
    if IsItem(s, "snapshot", q) {
      assert q == r + [q[|r|], q[|r| + 1], q[|r| + 2]];
    }
  }

  lemma NestedPlain(s: Schema, n: string, q: Path)
    requires WellFormed(s) && n in NESTED
    ensures IsNestedItem(s, n, q) <==> IsNested(s, n, q)
  {
    hide WellFormed, Find;
    Known(s);
    ItemNames();
    NestedPath(RootAt(s, "network"), NestAt(s, n), q);
  }

  lemma NestedPath(r: Path, nest: Path, q: Path)
    ensures r <= q && |q| == |r| + 1 + |nest| + 1 && q[|r| + 1..|q| - 1] == nest <==>
            exists network, name :: q == r + [network] + nest + [name]
  {
    if r <= q && |q| == |r| + 1 + |nest| + 1 && q[|r| + 1..|q| - 1] == nest {
      assert q == r + [q[|r|]] + nest + [q[|q| - 1]];
    }
    if network, name :| q == r + [network] + nest + [name] {
      assert q[|r| + 1..|q| - 1] == nest;
      assert q[..|r|] == r;
    }
  }

  // Which keys there are to be

  ghost predicate KeysThere(s: Schema, t: Tree, elem: string, item: Path) {
    forall j | 0 <= j < |KeysFor(s, elem)| :: item + KeysFor(s, elem)[j].1 in t
  }

  /** A reservation's or rule's keys are named like the schema's keys themselves. */
  ghost predicate NestedKeysThere(s: Schema, t: Tree, kind: string, item: Path) {
    forall j | 0 <= j < |KeysFor(s, kind)| :: item + [KeysFor(s, kind)[j].0] in t
  }

  /** Every key of every object is there. */
  ghost predicate AllThere(s: Schema, t: Tree) {
    && (forall j | 0 <= j < |s.base| :: s.base[j].1 in t)
    && (forall e, q | IsSimple(e) && q in t && IsObject(s, e, q) :: KeysThere(s, t, e, q))
    && (forall q | q in t && IsVolume(s, q) :: KeysThere(s, t, "volume", q))
    && (forall q | q in t && IsSnapshot(s, q) :: KeysThere(s, t, "snapshot", q))
    && (forall q | q in t && IsNested(s, "reservation", q) :: NestedKeysThere(s, t, "reservation", q))
    && (forall q | q in t && IsNested(s, "rule.in", q) :: NestedKeysThere(s, t, "rule", q))
    && (forall q | q in t && IsNested(s, "rule.out", q) :: NestedKeysThere(s, t, "rule", q))
  }

  /** The value given to a new key of an element. */
  predicate NewValue(elem: string, key: string, d: string) {
    && (elem == "osd" && key == "is_split" ==> d == "False")
    && (elem == "pool" && key == "tier" ==> d == "default")
    && (elem == "domain" && key == "meta.migrate_max_downtime" ==> d == "300")
    && (d == "" || (elem, key) in {("osd", "is_split"), ("pool", "tier"), ("domain", "meta.migrate_max_downtime")})
  }

  /** `p` is a key of an object in `t`, and `d` what it is created with. */
  ghost predicate NewKey(s: Schema, t: Tree, elem: string, q: Path, p: Path, d: string) {
    q in t && exists j ::
      0 <= j < |KeysFor(s, elem)| && p == q + KeysFor(s, elem)[j].1 && NewValue(elem, KeysFor(s, elem)[j].0, d)
  }

  ghost predicate NewNested(s: Schema, t: Tree, kind: string, q: Path, p: Path, d: string) {
    q in t && d == "" && exists j :: 0 <= j < |KeysFor(s, kind)| && p == q + [KeysFor(s, kind)[j].0]
  }

  ghost predicate NewBase(s: Schema, p: Path, d: string) {
    exists j :: 0 <= j < |s.base| && p == s.base[j].1
                && d == if s.base[j].0 == "schema.version" then Decimal(s.version) else ""
  }

  ghost predicate NewItem(s: Schema, t: Tree, q: Path, p: Path, d: string) {
    || (exists e :: IsSimple(e) && IsObject(s, e, q) && NewKey(s, t, e, q, p, d))
    || (IsVolume(s, q) && NewKey(s, t, "volume", q, p, d))
    || (IsSnapshot(s, q) && NewKey(s, t, "snapshot", q, p, d))
    || (IsNested(s, "reservation", q) && NewNested(s, t, "reservation", q, p, d))
    || (IsNested(s, "rule.in", q) && NewNested(s, t, "rule", q, p, d))
    || (IsNested(s, "rule.out", q) && NewNested(s, t, "rule", q, p, d))
  }

  /** `apply` may create `p`, and then with the value `d`. */
  ghost predicate MayCreate(s: Schema, t: Tree, p: Path, d: string) {
    NewBase(s, p, d) || exists q :: NewItem(s, t, q, p, d)
  }

  lemma NewValueIs(elem: string, key: string, d: string)
    ensures NewValue(elem, key, d) <==> d == DefaultData(elem, key)
  {
  }

  lemma NewKeyIs(s: Schema, t: Tree, e: string, q: Path, p: Path, d: string)
    requires e in s.elems
    ensures NewKey(s, t, e, q, p, d) <==> q in t && KeyOf(s, e, q, p, d)
  {
    hide NewValue, DefaultData;
    var keys := s.elems[e];
    assert KeysFor(s, e) == keys;
    if NewKey(s, t, e, q, p, d) {
      var j :| 0 <= j < |keys| && p == q + keys[j].1 && NewValue(e, keys[j].0, d);
      NewValueIs(e, keys[j].0, d);
    }
    if KeyOf(s, e, q, p, d) {
      var j :| 0 <= j < |keys| && p == q + keys[j].1 && d == DefaultData(e, keys[j].0);
      NewValueIs(e, keys[j].0, d);
    }
  }

  lemma NewNestedIs(s: Schema, t: Tree, kind: string, q: Path, p: Path, d: string)
    requires kind in s.elems
    ensures NewNested(s, t, kind, q, p, d) <==> q in t && NestedKeyOf(s, kind, q, p, d)
  {
    var keys := s.elems[kind];
    assert KeysFor(s, kind) == keys;
    if NewNested(s, t, kind, q, p, d) {
      var j :| 0 <= j < |keys| && p == q + [keys[j].0];
      assert NestedKeyOf(s, kind, q, p, d);
    }
    if q in t && NestedKeyOf(s, kind, q, p, d) {
      var j :| 0 <= j < |keys| && p == q + [keys[j].0] && d == "";
      assert NewNested(s, t, kind, q, p, d);
    }
  }

  lemma PlainIsDemanded(s: Schema, t: Tree, q: Path, p: Path, d: string)
    requires WellFormed(s) && NewItem(s, t, q, p, d)
    ensures Demanded(s, t, p, d)
  {
    hide WellFormed, IsItem, IsObject, IsVolume, IsSnapshot, IsNested, IsNestedItem, NewKey, KeyOf;
    ItemNames();
    NestNames();
    Known(s);
    if e :| IsSimple(e) && IsObject(s, e, q) && NewKey(s, t, e, q, p, d) {
      ObjectPlain(s, e, q);
      NewKeyIs(s, t, e, q, p, d);
    } else if IsVolume(s, q) && NewKey(s, t, "volume", q, p, d) {
      VolumePlain(s, q);
      NewKeyIs(s, t, "volume", q, p, d);
    } else if IsSnapshot(s, q) && NewKey(s, t, "snapshot", q, p, d) {
      SnapshotPlain(s, q);
      NewKeyIs(s, t, "snapshot", q, p, d);
    } else {
      NestedPlain(s, "reservation", q);
      NestedPlain(s, "rule.in", q);
      NestedPlain(s, "rule.out", q);
    }
  }

  lemma DemandedItemPlain(s: Schema, t: Tree, e: string, q: Path, p: Path, d: string)
    requires WellFormed(s) && e in ITEMS && q in t && IsItem(s, e, q) && KeyOf(s, e, q, p, d)
    ensures NewItem(s, t, q, p, d)
  {
    hide WellFormed, IsItem, IsObject, IsVolume, IsSnapshot, IsNested, NewKey, KeyOf;
    ItemNames();
    Known(s);
    NewKeyIs(s, t, e, q, p, d);
    if e == "volume" {
      VolumePlain(s, q);
    } else if e == "snapshot" {
      SnapshotPlain(s, q);
    } else {
      ObjectPlain(s, e, q);
    }
  }

  lemma DemandedNestedPlain(s: Schema, t: Tree, n: string, q: Path, p: Path, d: string)
    requires WellFormed(s) && n in NESTED && q in t && IsNestedItem(s, n, q) && NestedKeyOf(s, Kind(n), q, p, d)
    ensures NewItem(s, t, q, p, d)
  {
    hide WellFormed, IsItem, IsObject, IsVolume, IsSnapshot, IsNested, IsNestedItem, NewKey, NewNested, NestedKeyOf;
    NestNames();
    Known(s);
    NestedPlain(s, n, q);
    NewNestedIs(s, t, Kind(n), q, p, d);
  }

  /** What the schema demands, and with which value, spelt out. */
  lemma DemandedIsPlain(s: Schema, t: Tree, p: Path, d: string)
    requires WellFormed(s)
    ensures Demanded(s, t, p, d) <==> MayCreate(s, t, p, d)
  {
    hide WellFormed, IsItem, IsNestedItem, KeyOf, NestedKeyOf, NewItem;
    Known(s);
    if q :| NewItem(s, t, q, p, d) {
      PlainIsDemanded(s, t, q, p, d);
    }
    if e, q :| e in ITEMS && q in t && IsItem(s, e, q) && KeyOf(s, e, q, p, d) {
      DemandedItemPlain(s, t, e, q, p, d);
    }
    if n, q :| n in NESTED && q in t && IsNestedItem(s, n, q) && NestedKeyOf(s, Kind(n), q, p, d) {
      DemandedNestedPlain(s, t, n, q, p, d);
    }
    BasePlain(s, p, d);
  }

  lemma BasePlain(s: Schema, p: Path, d: string)
    ensures NewBase(s, p, d) <==> DemandedBase(s, p, d)
  {
  }

  /** A tree satisfies the schema exactly when every key of every object is there. */
  lemma SatisfiedIsAllThere(s: Schema, t: Tree)
    requires WellFormed(s)
    ensures Satisfied(s, t) <==> AllThere(s, t)
  {
    hide WellFormed, Satisfied, AllThere;
    if Satisfied(s, t) {
      SatisfiedHasAll(s, t);
    }
    if AllThere(s, t) {
      AllSatisfies(s, t);
    }
  }

  lemma SatisfiedHasAll(s: Schema, t: Tree)
    requires WellFormed(s) && Satisfied(s, t)
    ensures AllThere(s, t)
  {
    hide WellFormed, IsItem, IsObject, IsVolume, IsSnapshot, IsNestedItem, IsNested, Satisfied;
    hide KeysThere, NestedKeysThere;
    SatisfiedBase(s, t);
    ItemNames();
    NestNames();
    forall e, q | IsSimple(e) && q in t && IsObject(s, e, q) ensures KeysThere(s, t, e, q) {
      ObjectPlain(s, e, q);
      ItemHasKeys(s, t, e, q);
    }
    forall q | q in t
      ensures IsVolume(s, q) ==> KeysThere(s, t, "volume", q)
      ensures IsSnapshot(s, q) ==> KeysThere(s, t, "snapshot", q)
    {
      VolumePlain(s, q);
      SnapshotPlain(s, q);
      if IsVolume(s, q) {
        ItemHasKeys(s, t, "volume", q);
      }
      if IsSnapshot(s, q) {
        ItemHasKeys(s, t, "snapshot", q);
      }
    }
    forall n, q | n in NESTED && q in t && IsNested(s, n, q) ensures NestedKeysThere(s, t, Kind(n), q) {
      NestedPlain(s, n, q);
      NestedHasKeys(s, t, n, q);
    }
  }

  lemma ItemHasKeys(s: Schema, t: Tree, e: string, q: Path)
    requires WellFormed(s) && Satisfied(s, t) && e in ITEMS && q in t && IsItem(s, e, q)
    ensures KeysThere(s, t, e, q)
  {
    hide WellFormed, Satisfied;
    Known(s);
    SatisfiedItems(s, t, e);
  }

  lemma NestedHasKeys(s: Schema, t: Tree, n: string, q: Path)
    requires WellFormed(s) && Satisfied(s, t) && n in NESTED && q in t && IsNestedItem(s, n, q)
    ensures NestedKeysThere(s, t, Kind(n), q)
  {
    hide WellFormed, Satisfied;
    Known(s);
    ItemNames();
    SatisfiedItems(s, t, "network");
  }

  lemma AllSatisfies(s: Schema, t: Tree)
    requires WellFormed(s) && AllThere(s, t)
    ensures Satisfied(s, t)
  {
    hide WellFormed, IsObject, IsVolume, IsSnapshot, IsNested, Demanded, NewValue;
    forall p, d | Demanded(s, t, p, d) ensures p in t {
      DemandedIsPlain(s, t, p, d);
    }
  }

  /** After `apply` everything is there, nothing that was there has changed, and what is new is what it may
      create. */
  lemma AppliedPlainly(s: Schema, t0: Tree, t: Tree)
    requires WellFormed(s) && AppliedTo(s, t0, t)
    ensures AllThere(s, t)
    ensures forall p | p in t0 :: p in t && t[p] == t0[p]
    ensures forall p | p in t && p !in t0 :: t[p].version == 0 && MayCreate(s, t, p, t[p].data)
  {
    hide WellFormed, Satisfied, Demanded, AllThere, MayCreate;
    SatisfiedIsAllThere(s, t);
    forall p | p in t && p !in t0 ensures MayCreate(s, t, p, t[p].data) {
      DemandedIsPlain(s, t, p, t[p].data);
    }
  }

  /** The node above some kind of object is missing, or a network lacks the node above its reservations or
      rules. */
  ghost predicate CannotList(s: Schema, t: Tree) {
    || (exists e :: (IsSimple(e) || e == "volume" || e == "snapshot") && RootAt(s, e) !in t)
    || (exists q :: q in t && IsObject(s, "network", q) && LacksNest(s, t, q))
  }

  predicate LacksNest(s: Schema, t: Tree, network: Path) {
    || network + NestAt(s, "reservation") !in t
    || network + NestAt(s, "rule.in") !in t
    || network + NestAt(s, "rule.out") !in t
  }

  /** That is when `validate` raises. */
  lemma UnanswerablePlainly(s: Schema, t: Tree)
    requires WellFormed(s)
    ensures Unanswerable(s, t) <==> CannotList(s, t)
  {
    hide WellFormed, IsItem, IsObject, Unlistable, LacksNest, Find;
    ItemNames();
    Known(s);
    forall e | e in ITEMS ensures UnlistableBelow(s, t, e, Root(s, e)) <==>
      e == "network" && exists q :: q in t && IsObject(s, "network", q) && LacksNest(s, t, q)
    {
      UnlistablePlainly(s, t, e);
    }
  }

  lemma UnlistablePlainly(s: Schema, t: Tree, e: string)
    requires WellFormed(s) && e in ITEMS
    ensures UnlistableBelow(s, t, e, Root(s, e)) <==>
            e == "network" && exists q :: q in t && IsObject(s, "network", q) && LacksNest(s, t, q)
  {
    hide WellFormed, IsObject, IsItem;
    ItemNames();
    Known(s);
    forall q ensures Unlistable(s, t, e, q) <==> e == "network" && LacksNest(s, t, q) {
      NestNames();
      Known(s);
    }
    hide Unlistable, LacksNest;
    forall q ensures e == "network" ==> (IsItem(s, e, q) <==> IsObject(s, e, q)) {
      if e == "network" {
        ObjectPlain(s, e, q);
      }
    }
    forall q | IsItem(s, e, q) ensures Root(s, e) <= q {
      ItemBelowRoot(s, e, q);
    }
  }

  lemma ItemBelowRoot(s: Schema, e: string, q: Path)
    requires WellFormed(s) && e in ITEMS && IsItem(s, e, q)
    ensures Root(s, e) <= q
  {
  }
}
