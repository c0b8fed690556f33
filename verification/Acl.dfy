/** Firewall rules of a network: `getNetworkACLs`, `add_acl` and `remove_acl`. Each rule stores its
    place as text, and the list is sorted by that text. */
module Acl {
  import opened Wrappers
  import opened Text

  type Name = string

  // Order of texts

  predicate Less(a: string, b: string) {
    b != "" && (a == "" || a[0] < b[0] || (a[0] == b[0] && Less(a[1..], b[1..])))
  }

  lemma {:induction false} LessTotal(a: string, b: string)
    ensures Less(a, b) || a == b || Less(b, a)
    ensures !(Less(a, b) && Less(b, a)) && !Less(a, a)
    decreases |a|
  {
    if a != "" && b != "" {
      LessTotal(a[1..], b[1..]);
      LessTotal(a[1..], a[1..]);
      assert a == [a[0]] + a[1..] && b == [b[0]] + b[1..];
    } else if a != "" {
      LessTotal(a[1..], a[1..]);
    }
  }

  lemma {:induction false} LessTransitive(a: string, b: string, c: string)
    requires Less(a, b) && Less(b, c)
    ensures Less(a, c)
    decreases |a|
  {
    if a != "" && a[0] == b[0] && b[0] == c[0] {
      LessTransitive(a[1..], b[1..], c[1..]);
    }
  }

  /** `str(order)`. */
  function OrderText(n: int): string {
    if n < 0 then "-" + Decimal(-n) else Decimal(n)
  }

  predicate Before(a: int, b: int) {
    Less(OrderText(a), OrderText(b))
  }

  lemma {:induction false} DecimalInjective(a: nat, b: nat)
    requires Decimal(a) == Decimal(b)
    ensures a == b
  {
    ParseDecimal(a);
    ParseDecimal(b);
  }

  lemma OrderTextSign(n: int)
    ensures OrderText(n) != "" && (OrderText(n)[0] == '-' <==> n < 0)
  {
    if n >= 0 {
      assert Decimal(n)[0] in Decimal(n);
    }
  }

  lemma BeforeTotal(a: int, b: int)
    requires a != b
    ensures Before(a, b) <==> !Before(b, a)
  {
    LessTotal(OrderText(a), OrderText(b));
    OrderTextSign(a);
    OrderTextSign(b);
    if OrderText(a) == OrderText(b) {
      if a < 0 {
        assert OrderText(a)[1..] == Decimal(-a) && OrderText(b)[1..] == Decimal(-b);
        DecimalInjective(-a, -b);
      } else {
        DecimalInjective(a, b);
      }
    }
  }

  /** Up to 9 the text order is the order of the numbers; "10" and "11" come before "2". */
  lemma OneDigit(a: nat, b: nat)
    requires a < 10 && b < 10
    ensures Before(a, b) <==> a < b
  {
    assert Decimal(a) == [Digit(a)] && Decimal(b) == [Digit(b)];
    var x: string, y: string := [Digit(a)], [Digit(b)];
    assert x[1..] == "" && y[1..] == "" && !Less("", "");
    assert x[0] < y[0] <==> a < b;
  }

  lemma TwoDigits(a: nat, b: nat)
    requires 10 <= a <= 11 && 2 <= b <= 3
    ensures Before(a, b)
  {
    assert Decimal(a / 10) == [Digit(1)];
    assert Decimal(a) == [Digit(1)] + [Digit(a % 10)] && Decimal(b) == [Digit(b)];
    assert Decimal(a)[0] == '1' && Decimal(b)[0] > '1';
    assert OrderText(a)[0] < OrderText(b)[0];
  }

  // One direction's rules, and how they are listed

  type Rules = map<Name, int>

  type Listed = seq<(Name, int)>

  predicate Distinct(r: Rules) {
    forall d, e | d in r && e in r && d != e :: r[d] != r[e]
  }

  /** The orders are 0, 1, ... without gap or repetition. */
  ghost predicate Dense(r: Rules) {
    Distinct(r) && forall o :: o in r.Values <==> 0 <= o < |r|
  }

  predicate Sorted(l: Listed) {
    forall i, j | 0 <= i < j < |l| :: Before(l[i].1, l[j].1)
  }

  /** Sorted by the text of the orders; of rules with equal orders only one. */
  predicate Lists(r: Rules, l: Listed) {
    && Sorted(l)
    && (forall x | x in l :: x.0 in r && r[x.0] == x.1)
    && (forall d | d in r :: exists x :: x in l && x.1 == r[d])
  }

  function Names(l: Listed): seq<Name> {
    seq(|l|, i requires 0 <= i < |l| => l[i].0)
  }

  predicate Once(names: seq<Name>) {
    forall i, j | 0 <= i < j < |names| :: names[i] != names[j]
  }

  lemma OnceCount(names: seq<Name>)
    requires Once(names)
    ensures |set d | d in names| == |names|
  {
    if names != [] {
      var n := |names| - 1;
      OnceCount(names[..n]);
      assert (set d | d in names) == (set d | d in names[..n]) + {names[n]};
      assert names[n] !in names[..n];
    }
  }

  /** With distinct orders the list holds every rule exactly once. */
  lemma ListsEach(r: Rules, l: Listed)
    requires Distinct(r) && Lists(r, l)
    ensures Once(Names(l)) && |l| == |r|
    ensures forall d :: d in Names(l) <==> d in r
    ensures forall i | 0 <= i < |l| :: l[i].1 == r[Names(l)[i]]
  {
    forall i, j | 0 <= i < j < |l| ensures Names(l)[i] != Names(l)[j] {
      LessTotal(OrderText(l[i].1), OrderText(l[i].1));
      assert l[i] in l && l[j] in l && Before(l[i].1, l[j].1);
    }
    forall d | d in r ensures d in Names(l) {
      var x :| x in l && x.1 == r[d];
      var i :| 0 <= i < |l| && l[i] == x;
      assert Names(l)[i] == x.0 == d;
    }
    forall d | d in Names(l) ensures d in r {
      var i :| 0 <= i < |l| && Names(l)[i] == d;
      assert l[i] in l;
    }
    OnceCount(Names(l));
    assert (set d | d in Names(l)) == r.Keys;
    forall i | 0 <= i < |l| ensures l[i].1 == r[Names(l)[i]] {
      assert l[i] in l;
    }
  }

  // `getNetworkACLs`

  function InsertSorted(l: Listed, e: (Name, int)): Listed {
    if l == [] then [e]
    else if l[0].1 == e.1 then [e] + l[1..]
    else if Before(e.1, l[0].1) then [e] + l
    else [l[0]] + InsertSorted(l[1..], e)
  }

  lemma BeforeTransitive(a: int, b: int, c: int)
    requires Before(a, b) && Before(b, c)
    ensures Before(a, c)
  {
    LessTransitive(OrderText(a), OrderText(b), OrderText(c));
  }

  lemma {:induction false} InsertSortedIs(l: Listed, e: (Name, int))
    requires Sorted(l)
    ensures Sorted(InsertSorted(l, e))
    ensures forall x | x in InsertSorted(l, e) :: x == e || x in l
    ensures e in InsertSorted(l, e)
    ensures forall x | x in l :: x in InsertSorted(l, e) || x.1 == e.1
  {
    hide Before;
    if l != [] {
      var rest := l[1..];
      assert l == [l[0]] + rest;
      assert Sorted(rest);
      assert forall x | x in rest :: Before(l[0].1, x.1);
      if l[0].1 == e.1 {
      } else if Before(e.1, l[0].1) {
        forall x | x in rest ensures Before(e.1, x.1) {
          BeforeTransitive(e.1, l[0].1, x.1);
        }
      } else {
        BeforeTotal(e.1, l[0].1);
        InsertSortedIs(rest, e);
        var tail := InsertSorted(rest, e);
        forall x | x in tail ensures Before(l[0].1, x.1) {
        }
      }
    }
  }

  /** The children of a rules directory, in whatever order the server lists them. */
  method ChildrenOf(r: Rules) returns (children: seq<Name>)
    ensures forall d :: d in children <==> d in r
  {
    children := [];
    var rest := r.Keys;
    while rest != {}
      invariant rest <= r.Keys
      invariant forall d :: d in children <==> d in r && d !in rest
    {
      var d :| d in rest;
      children, rest := children + [d], rest - {d};
    }
  }

  lemma EmptySorted()
    ensures Sorted([])
  {
  }

  /** `getNetworkACLs` for one direction: a dictionary from orders to rules, in the order of its keys. */
  method GetNetworkAcls(r: Rules) returns (l: Listed)
    ensures Lists(r, l)
  {
    hide Sorted, InsertSorted;
    var children := ChildrenOf(r);
    l := [];
    EmptySorted();
    for i := 0 to |children|
      invariant Sorted(l)
      invariant forall x | x in l :: x.0 in r && r[x.0] == x.1
      invariant forall j | 0 <= j < i :: exists x :: x in l && x.1 == r[children[j]]
    {
      var d := children[i];
      assert d in r;
      InsertSortedIs(l, (d, r[d]));
      var before := l;
      l := InsertSorted(l, (d, r[d]));
      forall j | 0 <= j < i + 1 ensures exists x :: x in l && x.1 == r[children[j]] {
        if j < i {
          var x :| x in before && x.1 == r[children[j]];
          assert x in l || ((d, r[d]) in l && r[d] == x.1);
        } else {
          assert (d, r[d]) in l;
        }
      }
    }
    forall d | d in r ensures exists x :: x in l && x.1 == r[d] {
      var j :| 0 <= j < |children| && children[j] == d;
    }
  }

  // Renumbering

  /** Each name mapped to its place. */
  function Numbered(names: seq<Name>): Rules
    requires Once(names)
  {
    map i | 0 <= i < |names| :: names[i] := i
  }

  lemma NumberedIs(names: seq<Name>)
    requires Once(names)
    ensures forall i | 0 <= i < |names| :: names[i] in Numbered(names) && Numbered(names)[names[i]] == i
    ensures forall d :: d in Numbered(names) <==> d in names
    ensures |Numbered(names)| == |names| && Dense(Numbered(names))
  {
    var r := Numbered(names);
    OnceCount(names);
    assert r.Keys == set d | d in names;
    assert |r.Keys| == |r|;
    forall k: int | 0 <= k < |names| ensures k in r.Values {
      assert names[k] in r && r[names[k]] == k;
    }
  }

  function WithNew(l: Listed, d: Name, at: nat): seq<Name>
    requires at <= |l|
  {
    Names(l)[..at] + [d] + Names(l)[at..]
  }

  /** The order stored for a new rule: the requested one, or one past the last. */
  function NewOrder(n: nat, order: Option<int>): int {
    if order == None || order.value > n then n else order.value
  }

  /** Where `list.insert` puts it: a negative index counts from the end. */
  function Place(n: nat, order: int): (at: nat)
    requires order <= n
    ensures at <= n
  {
    if order >= 0 then order else if n + order >= 0 then n + order else 0
  }

  lemma InsertOnce(names: seq<Name>, d: Name, at: nat)
    requires Once(names) && d !in names && at <= |names|
    ensures Once(names[..at] + [d] + names[at..])
    ensures forall x :: x in names[..at] + [d] + names[at..] <==> x == d || x in names
  {
    var more := names[..at] + [d] + names[at..];
    forall i, j | 0 <= i < j < |more| ensures more[i] != more[j] {
      var a, b := if i < at then i else i - 1, if j < at then j else j - 1;
      assert i != at ==> more[i] == names[a];
      assert j != at ==> more[j] == names[b];
    }
    forall x ensures x in more <==> x == d || x in names {
      assert names == names[..at] + names[at..];
    }
  }

  lemma WithNewOnce(r: Rules, l: Listed, d: Name, at: nat)
    requires Distinct(r) && Lists(r, l) && d !in r && at <= |l|
    ensures Once(WithNew(l, d, at))
    ensures forall x :: x in WithNew(l, d, at) <==> x == d || x in r
  {
    ListsEach(r, l);
    InsertOnce(Names(l), d, at);
  }

  /** One direction after `add_acl`. */
  function AddedRules(r: Rules, l: Listed, d: Name, order: Option<int>): Rules
    requires Distinct(r) && Lists(r, l) && d !in r
  {
    var n := NewOrder(|l|, order);
    WithNewOnce(r, l, d, Place(|l|, n));
    Numbered(WithNew(l, d, Place(|l|, n)))[d := n]
  }

  lemma DistinctWithout(r: Rules, d: Name)
    requires Distinct(r)
    ensures Distinct(r - {d})
  {
  }

  /** One direction after `remove_acl`. */
  function RemovedRules(r: Rules, l: Listed, d: Name): Rules
    requires Distinct(r) && Lists(r - {d}, l)
  {
    ListsEach(r - {d}, l);
    Numbered(Names(l))
  }

  lemma OverrideDense(names: seq<Name>, d: Name, n: int)
    requires Once(names) && d in names && n < |names| && (n >= 0 ==> names[n] == d)
    ensures var after := Numbered(names)[d := n];
      && (forall x :: x in after <==> x in names) && Distinct(after) && (Dense(after) <==> n >= 0)
  {
    NumberedIs(names);
    var after := Numbered(names)[d := n];
    if n >= 0 {
      assert after == Numbered(names);
    } else {
      assert after[d] == n && n in after.Values;
    }
  }

  /** After an addition the orders are 0, 1, ... exactly when the new order is not negative; they are
      distinct in any case, so the next addition or removal repairs them. */
  lemma AddDense(r: Rules, l: Listed, d: Name, order: Option<int>)
    requires Distinct(r) && Lists(r, l) && d !in r
    ensures var after := AddedRules(r, l, d, order);
      && after.Keys == r.Keys + {d} && Distinct(after)
      && (Dense(after) <==> order == None || order.value >= 0)
  {
    hide Lists, Distinct, Dense, Once, Names, Numbered;
    var n := NewOrder(|l|, order);
    var at := Place(|l|, n);
    WithNewOnce(r, l, d, at);
    WithNewAt(l, d, at);
    OverrideDense(WithNew(l, d, at), d, n);
  }

  lemma WithNewAt(l: Listed, d: Name, at: nat)
    requires at <= |l|
    ensures |WithNew(l, d, at)| == |l| + 1 && WithNew(l, d, at)[at] == d
  {
  }

  lemma RemoveDense(r: Rules, l: Listed, d: Name)
    requires Distinct(r) && Lists(r - {d}, l)
    ensures RemovedRules(r, l, d).Keys == r.Keys - {d} && Dense(RemovedRules(r, l, d))
  {
    ListsEach(r - {d}, l);
    NumberedIs(Names(l));
  }

  // Where rules end up

  /** `v` increases and holds each of 0..n-1 but `k`. */
  ghost predicate Skips(v: seq<int>, n: nat, k: nat) {
    && (forall i, j | 0 <= i < j < |v| :: v[i] < v[j])
    && (forall o :: o in v <==> 0 <= o < n && o != k)
  }

  lemma {:induction false} SkipsAt(v: seq<int>, n: nat, k: nat, i: nat)
    requires Skips(v, n, k) && i < |v|
    ensures v[i] == if i < k then i else i + 1
  {
    var c := if i < k then i else i + 1;
    if i > 0 {
      SkipsAt(v, n, k, i - 1);
    }
    assert v[i] in v;
    assert c <= v[i] && c in v;
    var p :| 0 <= p < |v| && v[p] == c;
  }

  /** The list is in the order of the numbers, too. */
  predicate ByNumber(l: Listed) {
    forall i, j | 0 <= i < j < |l| :: l[i].1 < l[j].1
  }

  lemma SmallByNumber(r: Rules, l: Listed)
    requires Lists(r, l) && forall d | d in r :: 0 <= r[d] < 10
    ensures ByNumber(l)
  {
    hide Before;
    forall i, j | 0 <= i < j < |l| ensures l[i].1 < l[j].1 {
      assert l[i] in l && l[j] in l;
      assert Before(l[i].1, l[j].1);
      OneDigit(l[i].1, l[j].1);
    }
  }

  function OrdersOf(l: Listed): seq<int> {
    seq(|l|, i requires 0 <= i < |l| => l[i].1)
  }

  lemma OrderListed(r: Rules, l: Listed, o: int)
    requires Lists(r, l)
    ensures o in OrdersOf(l) <==> o in r.Values
  {
    hide Sorted;
    if o in OrdersOf(l) {
      var i :| 0 <= i < |l| && OrdersOf(l)[i] == o;
      assert l[i] in l && l[i].0 in r && r[l[i].0] == o;
    }
    if o in r.Values {
      var d :| d in r && r[d] == o;
      var x :| x in l && x.1 == r[d];
      var i :| 0 <= i < |l| && l[i] == x;
      assert OrdersOf(l)[i] == o;
    }
  }

  /** `l` lists rules whose orders are 0..n-1 without `k`, by number: so it gives each its place. */
  lemma ListedAt(r: Rules, l: Listed, n: nat, k: nat)
    requires Distinct(r) && Lists(r, l) && ByNumber(l)
    requires forall o :: o in r.Values <==> 0 <= o < n && o != k
    ensures forall i | 0 <= i < |l| :: l[i].1 == if i < k then i else i + 1
  {
    hide Lists, Distinct;
    var v := OrdersOf(l);
    forall o ensures o in v <==> 0 <= o < n && o != k {
      OrderListed(r, l, o);
    }
    forall i | 0 <= i < |l| ensures l[i].1 == if i < k then i else i + 1 {
      SkipsAt(v, n, k, i);
    }
  }

  /** The new rule in its place, the rules from there on one further. */
  function Shifted(r: Rules, d: Name, at: int): Rules {
    map x | x in r.Keys + {d} :: if x == d then at else if r[x] < at then r[x] else r[x] + 1
  }

  /** The rules beyond the removed one a place closer. */
  function Closed(r: Rules, d: Name): Rules
    requires d in r
  {
    map x | x in r.Keys - {d} :: if r[x] < r[d] then r[x] else r[x] - 1
  }

  lemma AddedAt(r: Rules, l: Listed, d: Name, order: Option<int>, i: nat)
    requires Distinct(r) && Lists(r, l) && d !in r && i < |l|
    ensures l[i].0 in r && r[l[i].0] == l[i].1
    ensures var after := AddedRules(r, l, d, order);
      l[i].0 in after && after[l[i].0] == if i < Place(|l|, NewOrder(|l|, order)) then i else i + 1
  {
    hide Lists, Sorted, Distinct, Once, Dense, Numbered, WithNew;
    var at := Place(|l|, NewOrder(|l|, order));
    WithNewOnce(r, l, d, at);
    NumberedIs(WithNew(l, d, at));
    ListedIn(r, l, d);
    assert l[i] in l;
    WithNewOther(l, d, at, i);
  }

  lemma WithNewOther(l: Listed, d: Name, at: nat, i: nat)
    requires at <= |l| && i < |l|
    ensures var k := if i < at then i else i + 1;
      k < |WithNew(l, d, at)| && WithNew(l, d, at)[k] == l[i].0
  {
    assert Names(l)[i] == l[i].0;
  }

  lemma Holder(r: Rules, l: Listed, o: int) returns (i: nat)
    requires Distinct(r) && Lists(r, l) && o in r.Values
    ensures i < |l| && l[i].1 == o
  {
    var d :| d in r && r[d] == o;
    var x :| x in l && x.1 == r[d];
    i :| 0 <= i < |l| && l[i] == x;
  }

  lemma ListsSorted(r: Rules, l: Listed)
    requires Lists(r, l)
    ensures Sorted(l)
  {
  }

  lemma BeforeMeansPlace(l: Listed, i: nat, j: nat)
    requires Sorted(l) && i < |l| && j < |l| && Before(l[i].1, l[j].1)
    ensures i < j
  {
    LessTotal(OrderText(l[i].1), OrderText(l[j].1));
    LessTotal(OrderText(l[i].1), OrderText(l[i].1));
  }

  /** Adding puts the new rule at the requested place and keeps the others' order exactly when the
      direction had at most ten rules: with more, the eleventh is listed before the third. */
  lemma AddExact(r: Rules, l: Listed, d: Name, order: Option<int>)
    requires Dense(r) && Lists(r, l) && d !in r && (order == None || order.value >= 0)
    ensures var at := if order == None || order.value > |r| then |r| else order.value;
      AddedRules(r, l, d, order) == Shifted(r, d, at) <==> |r| <= 10
  {
    hide Lists, Before, Once, AddedRules;
    AllListed(r, l);
    ListsSorted(r, l);
    if |r| <= 10 {
      AddInPlace(r, l, d, order);
    } else {
      var i := Holder(r, l, 10);
      var j := Holder(r, l, 2);
      TwoDigits(10, 2);
      BeforeMeansPlace(l, i, j);
      AddedAt(r, l, d, order, i);
      AddedAt(r, l, d, order, j);
    }
  }

  lemma AllListed(r: Rules, l: Listed)
    requires Distinct(r) && Lists(r, l)
    ensures |l| == |r|
  {
    ListsEach(r, l);
  }

  /** For any order, negative ones included: the new rule's stored order is the one requested, or the number of
      rules if none or a higher one is; every other rule is stored its place in the list with the new one in
      it, where a negative order counts from the end. */
  lemma AddedPlaces(r: Rules, l: Listed, d: Name, order: Option<int>)
    requires Distinct(r) && Lists(r, l) && d !in r
    ensures var after := AddedRules(r, l, d, order);
      && d in after && after.Keys == r.Keys + {d}
      && (order != None && order.value <= |r| ==> after[d] == order.value)
      && (order == None || order.value > |r| ==> after[d] == |r|)
      && forall i | 0 <= i < |l| ::
           l[i].0 in after && after[l[i].0] == if order != None && BehindNew(i, order.value, |r|) then i + 1 else i
  {
    hide Lists, Distinct, AddedRules;
    AllListed(r, l);
    AddDense(r, l, d, order);
    NewHasOrder(r, l, d, order);
    forall i | 0 <= i < |l|
      ensures var after := AddedRules(r, l, d, order);
        l[i].0 in after && after[l[i].0] == if order != None && BehindNew(i, order.value, |r|) then i + 1 else i
    {
      AddedAt(r, l, d, order, i);
    }
  }

  /** The i-th of n rules comes behind a new one requested at `order`. */
  predicate BehindNew(i: nat, order: int, n: nat) {
    if order >= 0 then i >= order else i >= n + order
  }

  lemma AddInPlace(r: Rules, l: Listed, d: Name, order: Option<int>)
    requires Dense(r) && Lists(r, l) && d !in r && NewOrder(|l|, order) >= 0 && |r| <= 10
    ensures AddedRules(r, l, d, order) == Shifted(r, d, NewOrder(|l|, order))
  {
    hide Lists, Before, Once, AddedRules, ByNumber, Dense, Distinct;
    DenseOrders(r);
    SmallByNumber(r, l);
    ListedAt(r, l, |r|, |r|);
    forall x | x in r
      ensures x in AddedRules(r, l, d, order) && AddedRules(r, l, d, order)[x] == Shifted(r, d, NewOrder(|l|, order))[x]
    {
      AddInPlaceOne(r, l, d, order, x);
    }
    AddDense(r, l, d, order);
    NewHasOrder(r, l, d, order);
  }

  lemma AddInPlaceOne(r: Rules, l: Listed, d: Name, order: Option<int>, x: Name)
    requires Dense(r) && Lists(r, l) && d !in r && NewOrder(|l|, order) >= 0 && x in r
    requires forall i | 0 <= i < |l| :: l[i].1 == if i < |r| then i else i + 1
    ensures x in AddedRules(r, l, d, order) && AddedRules(r, l, d, order)[x] == Shifted(r, d, NewOrder(|l|, order))[x]
  {
    hide Lists, Before, Once, AddedRules, Dense, Distinct;
    DenseOrders(r);
    var i := Holder(r, l, r[x]);
    AddedAt(r, l, d, order, i);
    SameOrderSameRule(r, x, l[i].0);
    assert i == r[x];
  }

  lemma NewHasOrder(r: Rules, l: Listed, d: Name, order: Option<int>)
    requires Distinct(r) && Lists(r, l) && d !in r
    ensures d in AddedRules(r, l, d, order) && AddedRules(r, l, d, order)[d] == NewOrder(|l|, order)
  {
  }

  lemma SameOrderSameRule(r: Rules, x: Name, y: Name)
    requires Distinct(r) && x in r && y in r && r[x] == r[y]
    ensures x == y
  {
  }

  lemma DenseOrders(r: Rules)
    requires Dense(r)
    ensures Distinct(r) && forall x | x in r :: r[x] in r.Values && 0 <= r[x] < |r|
    ensures forall o :: o in r.Values <==> 0 <= o < |r| && o != |r|
  {
    assert forall x | x in r :: r[x] in r.Values;
  }

  /** The same for a removal: the remaining orders must be single digits. */
  lemma RemoveExact(r: Rules, l: Listed, d: Name)
    requires Dense(r) && d in r && Lists(r - {d}, l)
    ensures RemovedRules(r, l, d) == Closed(r, d) <==> |r| <= 10 || (|r| == 11 && r[d] == 10)
  {
    hide Lists, Before, Once, RemovedRules, ByNumber;
    ListsSorted(r - {d}, l);
    RemainingOrders(r, d);
    if |r| <= 10 || (|r| == 11 && r[d] == 10) {
      RemoveInPlace(r, l, d);
    } else {
      var big, small := if r[d] != 10 then 10 else 11, if r[d] != 2 then 2 else 3;
      var i := Holder(r - {d}, l, big);
      var j := Holder(r - {d}, l, small);
      TwoDigits(big, small);
      BeforeMeansPlace(l, i, j);
      RemovedAt(r, l, d, i);
      RemovedAt(r, l, d, j);
    }
  }

  lemma RemainingOrders(r: Rules, d: Name)
    requires Dense(r) && d in r
    ensures forall o :: o in (r - {d}).Values <==> 0 <= o < |r| && o != r[d]
    ensures r[d] in r.Values
  {
    forall o ensures o in (r - {d}).Values <==> 0 <= o < |r| && o != r[d] {
      if o in r.Values && o != r[d] {
        var x :| x in r && r[x] == o;
        assert x in r - {d} && (r - {d})[x] == o;
      }
      if o in (r - {d}).Values {
        var x :| x in r - {d} && (r - {d})[x] == o;
        assert r[x] in r.Values;
      }
    }
  }

  lemma RemovedAt(r: Rules, l: Listed, d: Name, i: nat)
    requires Distinct(r) && Lists(r - {d}, l) && i < |l|
    ensures l[i].0 in r && l[i].0 != d && r[l[i].0] == l[i].1
    ensures l[i].0 in RemovedRules(r, l, d) && RemovedRules(r, l, d)[l[i].0] == i
  {
    ListsEach(r - {d}, l);
    NumberedIs(Names(l));
    assert l[i] in l;
    assert Names(l)[i] == l[i].0;
  }

  lemma RemoveInPlace(r: Rules, l: Listed, d: Name)
    requires Dense(r) && d in r && Lists(r - {d}, l)
    requires |r| <= 10 || (|r| == 11 && r[d] == 10)
    ensures RemovedRules(r, l, d) == Closed(r, d)
  {
    hide Lists, Before, Once, RemovedRules, ByNumber, Sorted, Distinct;
    RemainingOrders(r, d);
    DistinctWithout(r, d);
    assert forall x | x in r - {d} :: (r - {d})[x] in (r - {d}).Values;
    SmallByNumber(r - {d}, l);
    ListedAt(r - {d}, l, |r|, r[d]);
    RemoveDense(r, l, d);
    forall x | x in r - {d} ensures RemovedRules(r, l, d)[x] == Closed(r, d)[x] {
      RemoveInPlaceOne(r, l, d, x);
    }
  }

  lemma RemoveInPlaceOne(r: Rules, l: Listed, d: Name, x: Name)
    requires Distinct(r) && d in r && Lists(r - {d}, l) && x in r - {d}
    requires forall i | 0 <= i < |l| :: l[i].1 == if i < r[d] then i else i + 1
    ensures x in RemovedRules(r, l, d) && RemovedRules(r, l, d)[x] == Closed(r, d)[x]
  {
    hide Lists, RemovedRules, Distinct;
    DistinctWithout(r, d);
    assert (r - {d})[x] in (r - {d}).Values;
    var i := Holder(r - {d}, l, r[x]);
    RemovedAt(r, l, d, i);
    SameOrderSameRule(r, x, l[i].0);
  }

  lemma WithNewItems(r: Rules, l: Listed, d: Name, at: nat, n: int)
    requires Distinct(r) && Lists(r, l) && d !in r && at <= |l|
    ensures var items := l[..at] + [(d, n)] + l[at..];
      && Names(items) == WithNew(l, d, at) && Once(Names(items))
      && forall x | x in items && x.0 != d :: x.0 in r && r[x.0] == x.1
  {
    hide Lists, Distinct, Once;
    ListedIn(r, l, d);
    assert Names(l[..at] + [(d, n)] + l[at..]) == WithNew(l, d, at);
    WithNewOnce(r, l, d, at);
  }

  /** Giving every listed rule its place leaves what the functions above say. */
  lemma AddIsNumbered(r: Rules, l: Listed, d: Name, order: Option<int>, items: Listed, after: Rules)
    requires Distinct(r) && Lists(r, l) && d !in r && after.Keys == r.Keys + {d}
    requires Names(items) == WithNew(l, d, Place(|l|, NewOrder(|l|, order)))
    requires forall i | 0 <= i < |items| && items[i].0 != d :: items[i].0 in after && after[items[i].0] == i
    requires after[d] == NewOrder(|l|, order)
    ensures after == AddedRules(r, l, d, order)
  {
    hide Lists, Distinct, Once, WithNew, Numbered;
    var names := WithNew(l, d, Place(|l|, NewOrder(|l|, order)));
    WithNewOnce(r, l, d, Place(|l|, NewOrder(|l|, order)));
    NumberedIs(names);
    forall x | x in r ensures x in Numbered(names) && after[x] == Numbered(names)[x] {
      var i :| 0 <= i < |names| && names[i] == x;
      assert items[i].0 == x;
    }
  }

  lemma OnlyNumbered(names: seq<Name>, r: Rules)
    requires Once(names) && forall d :: d in r <==> d in names
    requires forall i | 0 <= i < |names| :: names[i] in r && r[names[i]] == i
    ensures r == Numbered(names)
  {
    hide Once, Numbered, Dense;
    NumberedIs(names);
    forall d | d in names ensures r[d] == Numbered(names)[d] {
      var i :| 0 <= i < |names| && names[i] == d;
    }
  }

  lemma RemoveIsNumbered(r: Rules, l: Listed, d: Name, after: Rules)
    requires Distinct(r) && Lists(r - {d}, l) && after.Keys == r.Keys - {d}
    requires forall i | 0 <= i < |l| && l[i].0 != d :: l[i].0 in after && after[l[i].0] == i
    ensures after == RemovedRules(r, l, d)
  {
    hide Lists, Distinct, Once, Numbered;
    ListedIn(r - {d}, l, d);
    DistinctWithout(r, d);
    ListsEach(r - {d}, l);
    assert after.Keys == (r - {d}).Keys;
    forall i | 0 <= i < |l| ensures Names(l)[i] in after && after[Names(l)[i]] == i {
      assert l[i] in l;
    }
    OnlyNumbered(Names(l), after);
  }

  lemma ListedIn(r: Rules, l: Listed, d: Name)
    requires Lists(r, l) && d !in r
    ensures forall x | x in l :: x.0 in r && r[x.0] == x.1 && x.0 != d
  {
  }

  // A network, and any sequence of commands

  datatype Direction = In | Out

  datatype State = State(inbound: Rules, outbound: Rules) {
    function At(dir: Direction): Rules {
      if dir == In then inbound else outbound
    }

    function With(dir: Direction, r: Rules): (s: State)
      ensures s.At(dir) == r && forall e | e != dir :: s.At(e) == At(e)
    {
      if dir == In then this.(inbound := r) else this.(outbound := r)
    }

    predicate Has(d: Name) {
      d in inbound || d in outbound
    }
  }

  predicate Proper(s: State) {
    && Distinct(s.inbound) && Distinct(s.outbound) && s.inbound.Keys !! s.outbound.Keys && !s.Has("")
  }

  datatype Command = AddRule(direction: Direction, name: Name, order: Option<int>) | RemoveRule(name: Name)

  function Holding(s: State, d: Name): Direction {
    if d in s.inbound then In else Out
  }

  ghost predicate Step(s: State, c: Command, t: State)
    requires Proper(s)
  {
    match c
    case AddRule(dir, d, order) =>
      if s.Has(d) then t == s
      else exists l | Lists(s.At(dir), l) :: t == s.With(dir, AddedRules(s.At(dir), l, d, order))
    case RemoveRule(d) =>
      var dir := Holding(s, d);
      if !s.Has(d) then t == s
      else exists l | Lists(s.At(dir) - {d}, l) :: t == s.With(dir, RemovedRules(s.At(dir), l, d))
  }

  /** A command changes only the rules it is about: an addition adds one rule to its own direction, unless either
      has the name; a removal removes it from the direction that has it. */
  lemma StepChanges(s: State, c: Command, t: State)
    requires Proper(s) && Step(s, c, t)
    ensures c.AddRule? && !s.Has(c.name) ==>
              var one, other := if c.direction == In then t.inbound else t.outbound,
                                if c.direction == In then t.outbound else t.inbound;
              var old_, kept := if c.direction == In then s.inbound else s.outbound,
                                if c.direction == In then s.outbound else s.inbound;
              one.Keys == old_.Keys + {c.name} && other == kept
    ensures c.AddRule? && s.Has(c.name) ==> t == s
    ensures c.RemoveRule? ==> t.inbound.Keys == s.inbound.Keys - {c.name}
    ensures c.RemoveRule? ==> t.outbound.Keys == s.outbound.Keys - {c.name}
    ensures c.RemoveRule? && c.name !in s.inbound ==> t.inbound == s.inbound
    ensures c.RemoveRule? && c.name !in s.outbound ==> t.outbound == s.outbound
  {
    hide Lists, Distinct, Dense, AddedRules, RemovedRules;
    match c
    case AddRule(dir, d, order) =>
      if !s.Has(d) {
        var l :| Lists(s.At(dir), l) && t == s.With(dir, AddedRules(s.At(dir), l, d, order));
        AddDense(s.At(dir), l, d, order);
      }
    case RemoveRule(d) =>
      if s.Has(d) {
        var dir := Holding(s, d);
        var l :| Lists(s.At(dir) - {d}, l) && t == s.With(dir, RemovedRules(s.At(dir), l, d));
        RemoveDense(s.At(dir), l, d);
      }
  }

  ghost predicate AllDense(s: State)
    requires Proper(s)
  {
    Dense(s.inbound) && Dense(s.outbound)
  }

  predicate NotNegative(c: Command) {
    c.AddRule? && c.order != None ==> c.order.value >= 0
  }

  lemma StepKeeps(s: State, c: Command, t: State)
    requires Proper(s) && Step(s, c, t) && (c.AddRule? ==> c.name != "")
    ensures Proper(t)
    ensures AllDense(s) && NotNegative(c) ==> AllDense(t)
  {
    hide Lists, Distinct, Dense, AddedRules, RemovedRules;
    match c
    case AddRule(dir, d, order) =>
      if !s.Has(d) {
        var l :| Lists(s.At(dir), l) && t == s.With(dir, AddedRules(s.At(dir), l, d, order));
        AddDense(s.At(dir), l, d, order);
      }
    case RemoveRule(d) =>
      if s.Has(d) {
        var dir := Holding(s, d);
        var l :| Lists(s.At(dir) - {d}, l) && t == s.With(dir, RemovedRules(s.At(dir), l, d));
        RemoveDense(s.At(dir), l, d);
      }
  }

  ghost predicate Run(states: seq<State>, commands: seq<Command>) {
    && |states| == |commands| + 1
    && states[0] == State(map[], map[])
    && forall i | 0 <= i < |commands| :: Proper(states[i]) ==> Step(states[i], commands[i], states[i + 1])
  }

  /** Over any run without negative orders both directions hold the orders 0, 1, ... however many
      rules there are. */
  lemma {:induction false} AlwaysDense(states: seq<State>, commands: seq<Command>)
    requires Run(states, commands)
    requires forall c | c in commands && c.AddRule? :: c.name != "" && (c.order == None || c.order.value >= 0)
    ensures Proper(states[|commands|]) && AllDense(states[|commands|])
    ensures Dense(states[|commands|].inbound) && Dense(states[|commands|].outbound)
  {
    if commands != [] {
      var n := |commands| - 1;
      AlwaysDense(states[..n + 1], commands[..n]);
      StepKeeps(states[n], commands[n], states[n + 1]);
    }
  }

  class Network {
    var rules: State

    constructor ()
      ensures rules == State(map[], map[])
    {
      rules := State(map[], map[]);
    }

    /** The loop over a direction's list that rewrites every order that is not its place. */
    method Renumber(dir: Direction, items: Listed, d: Name)
      requires Once(Names(items))
      requires forall x | x in items && x.0 != d :: x.0 in rules.At(dir) && rules.At(dir)[x.0] == x.1
      modifies this
      ensures rules == old(rules).With(dir, rules.At(dir))
      ensures rules.At(dir).Keys == old(rules).At(dir).Keys
      ensures forall i | 0 <= i < |items| && items[i].0 != d ::
          items[i].0 in rules.At(dir) && rules.At(dir)[items[i].0] == i
    {
      for i := 0 to |items|
        invariant rules == old(rules).With(dir, rules.At(dir))
        invariant rules.At(dir).Keys == old(rules).At(dir).Keys
        invariant forall j | 0 <= j < |items| && items[j].0 != d ::
          items[j].0 in rules.At(dir) && rules.At(dir)[items[j].0] == if j < i then j else items[j].1
      {
        forall j | 0 <= j < |items| && j != i ensures items[j].0 != items[i].0 {
          assert Names(items)[j] != Names(items)[i];
        }
        if items[i].0 != d && i != items[i].1 {
          rules := rules.With(dir, rules.At(dir)[items[i].0 := i]);
        }
      }
    }

    method Known(d: Name) returns (known: bool)
      requires Proper(rules)
      ensures known <==> rules.Has(d)
    {
      var inbound := GetNetworkAcls(rules.inbound);
      var outbound := GetNetworkAcls(rules.outbound);
      ListsEach(rules.inbound, inbound);
      ListsEach(rules.outbound, outbound);
      known := d in Names(inbound) || d in Names(outbound);
    }

    /** `add_acl`: refused if either direction has the name. */
    method AddAcl(dir: Direction, d: Name, order: Option<int>) returns (ok: bool)
      requires Proper(rules) && d != ""
      modifies this
      ensures ok <==> !old(rules).Has(d)
      ensures Step(old(rules), AddRule(dir, d, order), rules) && Proper(rules)
    {
      hide Lists, Distinct, Dense, Once, Numbered;
      ghost var r := rules.At(dir);
      var known := Known(d);
      if known {
        return false;
      }
      var l := GetNetworkAcls(rules.At(dir));
      var n := NewOrder(|l|, order);
      var at := Place(|l|, n);
      var items := l[..at] + [(d, n)] + l[at..];
      WithNewItems(r, l, d, at, n);
      Renumber(dir, items, d);
      rules := rules.With(dir, rules.At(dir)[d := n]);
      AddIsNumbered(r, l, d, order, items, rules.At(dir));
      StepKeeps(old(rules), AddRule(dir, d, order), rules);
      return true;
    }

    /** `remove_acl`. */
    method RemoveAcl(d: Name) returns (ok: bool)
      requires Proper(rules)
      modifies this
      ensures ok <==> old(rules).Has(d)
      ensures Step(old(rules), RemoveRule(d), rules) && Proper(rules)
    {
      hide Lists, Distinct, Dense, Once, Numbered;
      var known := Known(d);
      if !known {
        return false;
      }
      var dir := Holding(rules, d);
      ghost var r := rules.At(dir);
      rules := rules.With(dir, rules.At(dir) - {d});
      var l := GetNetworkAcls(rules.At(dir));
      DistinctWithout(r, d);
      ListsEach(r - {d}, l);
      ListedIn(r - {d}, l, d);
      Renumber(dir, l, d);
      RemoveIsNumbered(r, l, d, rules.At(dir));
      StepKeeps(old(rules), RemoveRule(d), rules);
      return true;
    }
  }
}
