/** The few of Python's string operations that the models need. */
module Text {
  import opened Wrappers

  predicate IsDigit(c: char) {
    '0' <= c <= '9'
  }

  function Digit(n: nat): char
    requires n < 10
  {
    '0' + n as char
  }

  /** `str(n)` for a non-negative integer. */
  function Decimal(n: nat): (s: string)
    ensures s != [] && forall c | c in s :: IsDigit(c)
  {
    if n < 10 then [Digit(n)] else Decimal(n / 10) + [Digit(n % 10)]
  }

  /** What `str.splitlines` ends a line at. */
  predicate IsBreak(c: char) {
    || c == '\n' || c == '\r' || c == '\U{0B}' || c == '\U{0C}' || c == '\U{1C}' || c == '\U{1D}'
    || c == '\U{1E}' || c == '\U{85}' || c == '\U{2028}' || c == '\U{2029}'
  }

  predicate IsSpace(c: char) {
    || IsBreak(c) || c == ' ' || c == '\t' || c == '\U{1F}' || c == '\U{A0}' || c == '\U{1680}'
    || '\U{2000}' <= c <= '\U{200A}' || c == '\U{202F}' || c == '\U{205F}' || c == '\U{3000}'
  }

  /** `s.strip()`. */
  function Strip(s: string): string {
    if s == "" then ""
    else if IsSpace(s[0]) then Strip(s[1..])
    else if IsSpace(s[|s| - 1]) then Strip(s[..|s| - 1])
    else s
  }

  /** The characters of Unicode that `str.isspace` holds of. */
  lemma SpaceCodes(c: char)
    ensures var n := c as int;
            IsSpace(c) <==>
              || 9 <= n <= 13 || 28 <= n <= 32 || n == 133 || n == 160 || n == 5760 || 8192 <= n <= 8202
              || n == 8232 || n == 8233 || n == 8239 || n == 8287 || n == 12288
    ensures var n := c as int;
            IsBreak(c) <==> 10 <= n <= 13 || 28 <= n <= 30 || n == 133 || n == 8232 || n == 8233
  {
    var n := c as int;
    assert n == 10 ==> c == '\n';
    assert n == 13 ==> c == '\r';
    assert n == 9 ==> c == '\t';
    assert n == 32 ==> c == ' ';
  }

  predicate AllSpace(s: string) {
    forall c | c in s :: IsSpace(c)
  }

  /** `core` is `s` without the white space at either end. */
  ghost predicate IsCore(s: string, core: string) {
    && (exists a, b :: AllSpace(a) && AllSpace(b) && s == a + core + b)
    && (core == "" || (!IsSpace(core[0]) && !IsSpace(core[|core| - 1])))
  }

  lemma {:induction false} StripIsCore(s: string)
    ensures IsCore(s, Strip(s))
    decreases |s|
  {
    hide IsCore;
    if s == "" || (!IsSpace(s[0]) && !IsSpace(s[|s| - 1])) {
      OwnCore(s);
    } else if IsSpace(s[0]) {
      StripIsCore(s[1..]);
      CoreLeft(s, Strip(s));
    } else {
      StripIsCore(s[..|s| - 1]);
      CoreRight(s, Strip(s));
    }
  }

  lemma OwnCore(s: string)
    requires s == "" || (!IsSpace(s[0]) && !IsSpace(s[|s| - 1]))
    ensures IsCore(s, s)
  {
    assert AllSpace("") && s == "" + s + "";
  }

  lemma CoreLeft(s: string, core: string)
    requires s != "" && IsSpace(s[0]) && IsCore(s[1..], core)
    ensures IsCore(s, core)
  {
    var a, b :| AllSpace(a) && AllSpace(b) && s[1..] == a + core + b;
    assert AllSpace([s[0]] + a) && s == [s[0]] + a + core + b;
  }

  lemma CoreRight(s: string, core: string)
    requires s != "" && IsSpace(s[|s| - 1]) && IsCore(s[..|s| - 1], core)
    ensures IsCore(s, core)
  {
    var a, b :| AllSpace(a) && AllSpace(b) && s[..|s| - 1] == a + core + b;
    var c := s[|s| - 1];
    assert AllSpace(b + [c]) && s == a + core + (b + [c]);
  }

  /** There is only one. */
  lemma OneCore(s: string, c: string, d: string)
    requires IsCore(s, c) && IsCore(s, d)
    ensures c == d
  {
    var a, b :| AllSpace(a) && AllSpace(b) && s == a + c + b;
    var e, f :| AllSpace(e) && AllSpace(f) && s == e + d + f;
    if c == "" || d == "" {
      SpaceHasNoCore(s, c);
      SpaceHasNoCore(s, d);
    } else {
      assert s[|a|] == c[0] && s[|e|] == d[0];
      assert s[|a| + |c| - 1] == c[|c| - 1] && s[|e| + |d| - 1] == d[|d| - 1];
      assert |a| == |e| && |b| == |f|;
      assert c == s[|a|..|s| - |b|] == d;
    }
  }

  lemma SpaceHasNoCore(s: string, core: string)
    requires IsCore(s, core)
    ensures core == "" <==> AllSpace(s)
  {
    var a, b :| AllSpace(a) && AllSpace(b) && s == a + core + b;
    if core != "" {
      assert s[|a|] == core[0] && core[0] in s;
    }
  }

  /** A run of digits, between which single underscores may stand. */
  function ParseNat(s: string): Option<nat> {
    if s == [] || !IsDigit(s[|s| - 1]) then None
    else
      var d := s[|s| - 1] as int - '0' as int;
      if |s| == 1 then Some(d)
      else
        var grouped := |s| > 2 && s[|s| - 2] == '_';
        var high :- ParseNat(if grouped then s[..|s| - 2] else s[..|s| - 1]);
        Some(10 * high + d)
  }

  /** `int(s)`; None where Python raises ValueError. */
  function ParseInt(s: string): Option<int> {
    var t := Strip(s);
    if t == "" then None
    else if t[0] == '-' then
      var n :- ParseNat(t[1..]);
      var m: int := n;
      Some(-m)
    else
      var n :- ParseNat(if t[0] == '+' then t[1..] else t);
      Some(n)
  }

  lemma {:induction false} ParseDecimal(n: nat)
    ensures ParseNat(Decimal(n)) == Some(n)
  {
    if n >= 10 {
      ParseDecimal(n / 10);
      var high := Decimal(n / 10);
      assert Decimal(n)[..|Decimal(n)| - 1] == high;
      assert high[|high| - 1] in high;
    }
  }

  lemma ParseIntDecimal(n: nat)
    ensures ParseInt(Decimal(n)) == Some(n)
  {
    hide Decimal;
    var s := Decimal(n);
    assert IsDigit(s[0]) && IsDigit(s[|s| - 1]) by {
      assert s[0] in s && s[|s| - 1] in s;
    }
    ParseDecimal(n);
  }

  // What `int` reads

  /** Digits, between which single underscores may stand. */
  predicate IsNumeral(s: string) {
    && s != "" && IsDigit(s[0]) && IsDigit(s[|s| - 1])
    && (forall i | 0 <= i < |s| :: IsDigit(s[i]) || s[i] == '_')
    && (forall i | 0 <= i < |s| - 1 :: s[i] == '_' ==> s[i + 1] != '_')
  }

  lemma {:induction false} ParsesNumerals(s: string)
    ensures ParseNat(s).Some? <==> IsNumeral(s)
    decreases |s|
  {
    if |s| > 1 && IsDigit(s[|s| - 1]) {
      ParsesNumerals(s[..|s| - 1]);
      ParsesNumerals(s[..|s| - 2]);
    }
  }

  lemma ParseMore(s: string, c: char)
    requires ParseNat(s).Some? && IsDigit(c)
    ensures ParseNat(s + [c]) == ParseNat(s + "_" + [c]) == Some(10 * ParseNat(s).value + (c as int - '0' as int))
  {
    assert (s + [c])[..|s|] == s && (s + "_" + [c])[..|s|] == s;
  }

  lemma NumeralMore(s: string, c: char)
    requires IsNumeral(s) && IsDigit(c)
    ensures IsNumeral(s + [c]) && IsNumeral(s + "_" + [c])
  {
  }

  lemma OneMore(s: string, c: char)
    requires IsNumeral(s) && IsDigit(c)
    ensures ParseNat(s).Some? && IsNumeral(s + [c]) && IsNumeral(s + "_" + [c])
    ensures ParseNat(s + [c]) == ParseNat(s + "_" + [c]) == Some(10 * ParseNat(s).value + (c as int - '0' as int))
  {
    hide IsNumeral, ParseNat;
    ParsesNumerals(s);
    ParseMore(s, c);
    NumeralMore(s, c);
  }

  /** A longer numeral is a shorter one and a digit, perhaps with an underscore between them. */
  lemma LastDigit(s: string) returns (init: string, gap: string, c: char)
    requires IsNumeral(s) && |s| > 1
    ensures IsNumeral(init) && |init| < |s| && IsDigit(c) && (gap == "" || gap == "_") && s == init + gap + [c]
  {
    var n := |s|;
    c := s[n - 1];
    if s[n - 2] == '_' {
      init, gap := s[..n - 2], "_";
    } else {
      init, gap := s[..n - 1], "";
    }
  }

  /** Underscores mean nothing. */
  lemma {:induction false} Underscores(a: string, b: string)
    requires IsNumeral(a) && IsNumeral(b)
    ensures IsNumeral(a + "_" + b) && IsNumeral(a + b) && ParseNat(a + "_" + b) == ParseNat(a + b)
    decreases |b|
  {
    hide IsNumeral, ParseNat;
    OneNumeral(b);
    if |b| == 1 {
      assert b == [b[0]];
      OneMore(a, b[0]);
    } else {
      var init, gap, c := LastDigit(b);
      Underscores(a, init);
      OneMore(a + "_" + init, c);
      OneMore(a + init, c);
      assert a + "_" + (init + gap + [c]) == a + "_" + init + gap + [c];
      assert a + (init + gap + [c]) == a + init + gap + [c];
      assert gap == "" ==> a + init + gap == a + init && a + "_" + init + gap == a + "_" + init;
    }
  }

  lemma OneNumeral(s: string)
    requires IsNumeral(s)
    ensures s != "" && IsDigit(s[0]) && IsNumeral("0")
  {
  }

  /** Nor do leading zeros. */
  lemma {:induction false} LeadingZero(s: string)
    requires IsNumeral(s)
    ensures IsNumeral("0" + s) && ParseNat("0" + s) == ParseNat(s)
    decreases |s|
  {
    OneNumeral(s);
    if |s| == 1 {
      assert "0" + s == "0" + [s[0]];
      OneMore("0", s[0]);
    } else {
      hide IsNumeral, ParseNat;
      var init, gap, c := LastDigit(s);
      LeadingZero(init);
      OneMore(init, c);
      OneMore("0" + init, c);
      assert "0" + (init + gap + [c]) == "0" + init + gap + [c];
      assert gap == "" ==> "0" + init + gap == "0" + init && init + gap == init;
    }
  }

  lemma NumeralEnds(s: string)
    requires IsNumeral(s)
    ensures s != "" && s[0] != '-' && s[0] != '+' && !IsSpace(s[0]) && !IsSpace(s[|s| - 1])
    ensures !IsSpace('-') && !IsSpace('+')
  {
  }

  /** White space around a number, and a sign before it, are read. */
  lemma ParsesSigned(a: string, sign: string, s: string, b: string)
    requires AllSpace(a) && AllSpace(b) && IsNumeral(s) && (sign == "" || sign == "+" || sign == "-")
    ensures ParseNat(s).Some?
    ensures var n: int := ParseNat(s).value; ParseInt(a + sign + s + b) == Some(if sign == "-" then -n else n)
  {
    hide ParseNat, IsNumeral, Strip, IsSpace;
    ParsesNumerals(s);
    NumeralEnds(s);
    var t := sign + s;
    assert a + sign + s + b == a + t + b;
    assert IsCore(a + t + b, t);
    StripIsCore(a + t + b);
    OneCore(a + t + b, t, Strip(a + t + b));
    assert sign != "" ==> t[1..] == s;
    assert sign == "" ==> t == s;
  }

  /** Nothing else is a number. */
  lemma ParsesNothingElse(t: string) returns (a: string, sign: string, s: string, b: string)
    requires ParseInt(t).Some?
    ensures t == a + sign + s + b
    ensures AllSpace(a) && AllSpace(b) && IsNumeral(s) && (sign == "" || sign == "+" || sign == "-")
  {
    hide ParseNat, IsNumeral, Strip, IsSpace;
    StripIsCore(t);
    var core := Strip(t);
    a, b :| AllSpace(a) && AllSpace(b) && t == a + core + b;
    var signed := core[0] == '-' || core[0] == '+';
    sign, s := if signed then core[..1] else "", if signed then core[1..] else core;
    ParsesNumerals(s);
    assert core == sign + s;
  }

  /** `s.split(c)` for a single character. */
  function Split(s: string, c: char): (r: seq<string>)
    ensures |r| >= 1
  {
    if s == [] then [""]
    else
      var rest := Split(s[1..], c);
      if s[0] == c then [""] + rest else [[s[0]] + rest[0]] + rest[1..]
  }

  lemma {:induction false} SplitNone(s: string, c: char)
    requires c !in s
    ensures Split(s, c) == [s]
  {
    if s != [] {
      SplitNone(s[1..], c);
      assert [s[0]] + s[1..] == s;
    }
  }

  lemma {:induction false} SplitAt(a: string, c: char, b: string)
    requires c !in a
    ensures Split(a + [c] + b, c) == [a] + Split(b, c)
  {
    if a == [] {
      assert (a + [c] + b)[1..] == b;
    } else {
      assert (a + [c] + b)[1..] == a[1..] + [c] + b;
      SplitAt(a[1..], c, b);
      assert [a[0]] + a[1..] == a && (a + [c] + b)[0] == a[0];
    }
  }
}
