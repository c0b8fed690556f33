/** `format_bytes_tohuman` and `format_bytes_fromhuman`: a size printed with at most four digits and a
    binary unit, and read back. */
module ByteSize {
  import opened Wrappers

  /** Unit k is 1024^k bytes: B, K, M, G, T, P, E, Z, Y, R, Q. */
  const LARGEST := 10

  const DIGITS := 9999

  function Unit(k: nat): (u: nat)
    ensures u > 0
  {
    if k == 0 then 1 else 1024 * Unit(k - 1)
  }

  /** Up to Q, the eleventh unit. */
  lemma Units()
    ensures Unit(0) == 1 && Unit(1) == 0x400 && Unit(2) == 0x10_0000 && Unit(3) == 0x4000_0000
    ensures Unit(4) == 0x100_0000_0000 && Unit(5) == 0x4_0000_0000_0000 && Unit(6) == 0x1000_0000_0000_0000
    ensures Unit(7) == 0x40_0000_0000_0000_0000 && Unit(8) == 0x1_0000_0000_0000_0000_0000
    ensures Unit(9) == 0x400_0000_0000_0000_0000_0000 && Unit(10) == 0x10_0000_0000_0000_0000_0000_0000
  {
    assert Unit(2) == 0x10_0000 && Unit(4) == 0x100_0000_0000 && Unit(6) == 0x1000_0000_0000_0000;
    assert Unit(8) == 0x1_0000_0000_0000_0000_0000;
  }

  function CeilDiv(b: nat, u: nat): nat
    requires u > 0
  {
    (b + u - 1) / u
  }

  lemma MulMono(a: int, b: int, u: nat)
    ensures a <= b ==> a * u <= b * u
    ensures a < b && u > 0 ==> a * u < b * u
    ensures (a - 1) * u == a * u - u
  {
    if a <= b {
      assert b * u == a * u + (b - a) * u;
      if a < b && u > 0 {
        assert (b - a) * u >= 1;
      }
    }
  }

  lemma CeilDivBounds(b: nat, u: nat)
    requires u > 0
    ensures var q := CeilDiv(b, u); q * u < b + u && b <= q * u
  {
    var q, r := (b + u - 1) / u, (b + u - 1) % u;
    assert b + u - 1 == q * u + r;
  }

  /** Multiples decide every comparison with a rounded-up quotient. */
  lemma CeilDivAtMost(b: nat, u: nat, n: nat)
    requires u > 0
    ensures CeilDiv(b, u) <= n <==> b <= n * u
  {
    CeilDivBounds(b, u);
    var q := CeilDiv(b, u);
    MulMono(q, n, u);
    if n < q {
      MulMono(n, q - 1, u);
      MulMono(q, q, u);
    }
  }

  /** A printed size: the number and the unit's index. */
  datatype Human = Human(number: nat, unit: nat)

  /** `format_bytes_fromhuman` on what was printed. */
  function Bytes(h: Human): nat {
    h.number * Unit(h.unit)
  }

  /** The smallest unit in which `b` needs at most four digits, looking from `k` upwards. */
  function SmallestUnit(b: nat, k: nat): Option<nat>
    requires k <= LARGEST
    decreases LARGEST - k
  {
    if CeilDiv(b, Unit(k)) <= DIGITS then Some(k)
    else if k == LARGEST then None
    else SmallestUnit(b, k + 1)
  }

  /** None stands for the empty string. */
  function Printed(b: nat): Option<Human> {
    match SmallestUnit(b, 0)
    case None => None
    case Some(k) => Some(Human(CeilDiv(b, Unit(k)), k))
  }

  /** Goes from the largest unit down and prints again in every unit that is short enough. */
  method FormatBytesToHuman(b: nat) returns (human: Option<Human>)
    ensures human == Printed(b)
  {
    human := None;
    var k: int := LARGEST;
    while k >= 0
      invariant -1 <= k <= LARGEST
      invariant k < LARGEST ==> human == match SmallestUnit(b, k + 1)
                                         case None => None
                                         case Some(u) => Some(Human(CeilDiv(b, Unit(u)), u))
      invariant k == LARGEST ==> human == None
    {
      var number := CeilDiv(b, Unit(k));
      if number > DIGITS {
        SmallerIsLonger(b, k);
      } else {
        human := Some(Human(number, k));
      }
      k := k - 1;
    }
  }

  /** What is too long in one unit is too long in every smaller one, so it is never overwritten. */
  lemma SmallerIsLonger(b: nat, k: nat)
    requires k <= LARGEST && CeilDiv(b, Unit(k)) > DIGITS
    ensures SmallestUnit(b, k) == if k == LARGEST then None else SmallestUnit(b, k + 1)
  {
  }

  // Properties

  lemma {:induction false} SmallestUnitIs(b: nat, k: nat)
    requires k <= LARGEST
    ensures match SmallestUnit(b, k)
            case None => forall j | k <= j <= 10 :: b > 9999 * Unit(j)
            case Some(u) => k <= u <= 10 && b <= 9999 * Unit(u) && forall j | k <= j < u :: b > 9999 * Unit(j)
    decreases LARGEST - k
  {
    hide Unit, CeilDiv;
    CeilDivAtMost(b, Unit(k), DIGITS);
    if CeilDiv(b, Unit(k)) > DIGITS && k < LARGEST {
      SmallestUnitIs(b, k + 1);
    }
  }

  function Rounded(b: nat): nat
    requires Printed(b).Some?
  {
    Bytes(Printed(b).value)
  }

  /** A size is printable exactly up to 9999 of the largest unit. */
  lemma Printable(b: nat)
    ensures Printed(b).Some? <==> b <= 9999 * 0x10_0000_0000_0000_0000_0000_0000
  {
    Units();
    SmallestUnitIs(b, 0);
  }

  /** Reading back what was printed rounds up by less than one unit: exactly for at most 9999 bytes,
      otherwise by less than b * 1024 / 9999. */
  lemma RoundTrip(b: nat)
    requires Printed(b).Some?
    ensures var h := Printed(b).value;
            && h.number <= 9999
            && b <= Rounded(b) < b + Unit(h.unit)
            && (b <= 9999 ==> Rounded(b) == b)
            && (b > 9999 ==> 9999 * (Rounded(b) - b) < b * 1024)
  {
    SmallestUnitIs(b, 0);
    var k := Printed(b).value.unit;
    CeilDivBounds(b, Unit(k));
    Overshoot(b, k);
  }

  lemma Overshoot(b: nat, k: nat)
    requires k <= LARGEST && SmallestUnit(b, 0) == Some(k)
    ensures b <= DIGITS ==> k == 0 && Unit(k) == 1
    ensures b > DIGITS ==> DIGITS * Unit(k) < b * 1024
  {
    SmallestUnitIs(b, 0);
    if b <= DIGITS {
      assert Unit(0) == 1;
    } else {
      assert k > 0;
      assert b > DIGITS * Unit(k - 1);
    }
  }

  /** Rounding keeps the order of sizes. */
  lemma Monotone(a: nat, b: nat)
    requires a <= b && Printed(a).Some? && Printed(b).Some?
    ensures Rounded(a) <= Rounded(b)
  {
    SmallestUnitIs(a, 0);
    SmallestUnitIs(b, 0);
    RoundTrip(a);
    RoundTrip(b);
    var j, k := Printed(a).value.unit, Printed(b).value.unit;
    if j == k {
      CeilDivAtMost(b, Unit(k), CeilDiv(b, Unit(k)));
      CeilDivAtMost(a, Unit(k), CeilDiv(b, Unit(k)));
      MulMono(CeilDiv(a, Unit(k)), CeilDiv(b, Unit(k)), Unit(k));
    } else {
      assert j < k;
      assert b > DIGITS * Unit(j);
      MulMono(Printed(a).value.number, DIGITS, Unit(j));
    }
  }

  /** A rounded size is printed unchanged. */
  lemma Idempotent(b: nat)
    requires Printed(b).Some?
    ensures Printed(Rounded(b)) == Printed(b)
  {
    SmallestUnitIs(b, 0);
    RoundTrip(b);
    hide Unit, CeilDiv;
    var r, k, n := Rounded(b), Printed(b).value.unit, Printed(b).value.number;
    MulMono(n, DIGITS, Unit(k));
    UnitsGrow(k, LARGEST);
    Printable(r);
    Units();
    SameUnit(b, r, k);
    CeilDivExact(n, Unit(k));
  }

  lemma CeilDivExact(n: nat, u: nat)
    requires u > 0
    ensures CeilDiv(n * u, u) == n
  {
    CeilDivAtMost(n * u, u, n);
    if n > 0 {
      MulMono(n, n, u);
      CeilDivAtMost(n * u, u, n - 1);
    }
  }

  lemma SameUnit(b: nat, r: nat, k: nat)
    requires k <= LARGEST && SmallestUnit(b, 0) == Some(k) && b <= r <= DIGITS * Unit(k)
    ensures SmallestUnit(r, 0) == Some(k)
  {
    SmallestUnitIs(b, 0);
    SmallestUnitIs(r, 0);
  }

  lemma {:induction false} UnitsGrow(j: nat, k: nat)
    requires j <= k
    ensures Unit(j) <= Unit(k)
  {
    if j < k {
      UnitsGrow(j, k - 1);
    }
  }
}
