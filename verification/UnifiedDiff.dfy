/** The VM configuration travels as the current text plus a one-context-line unified diff, and is
    rebuilt by a hand-written patcher. Both sides here, on strings. */
module UnifiedDiff {
  import opened Wrappers
  import opened Text

  type Lines = seq<string>

  // Lines and texts

  predicate Clean(line: string) {
    forall c | c in line :: !IsBreak(c)
  }

  predicate AllClean(ls: Lines) {
    forall i | 0 <= i < |ls| :: Clean(ls[i])
  }

  /** `text.splitlines(keepends=True)`; `open_` is the line read so far. */
  function SplitLines(text: string, open_: string): Lines {
    if text == "" then
      if open_ == "" then [] else [open_]
    else if text[0] == '\r' && |text| > 1 && text[1] == '\n' then
      [open_ + "\r\n"] + SplitLines(text[2..], "")
    else if IsBreak(text[0]) then
      [open_ + [text[0]]] + SplitLines(text[1..], "")
    else
      SplitLines(text[1..], open_ + [text[0]])
  }

  /** Text up to and including one line break, or to the end: "\r\n" is one line break. */
  predicate OneLine(line: string) {
    line != "" && forall i | 0 <= i < |line| - 1 && IsBreak(line[i]) :: line[i..] == "\r\n"
  }

  /** `ls` are the lines of `text`: put together again they are the text, each but the last ends in its line
      break, and no "\r\n" is torn apart. */
  predicate LinesOf(text: string, ls: Lines) {
    && Concat(ls) == text
    && (forall i | 0 <= i < |ls| :: OneLine(ls[i]))
    && (forall i | 0 <= i < |ls| - 1 :: Broken(ls[i], ls[i + 1]))
  }

  predicate Broken(line: string, next: string) {
    line != "" && next != "" && IsBreak(line[|line| - 1]) && !(line[|line| - 1] == '\r' && next[0] == '\n')
  }

  lemma FirstLine(line: string, rest: string, ls: Lines)
    requires OneLine(line) && LinesOf(rest, ls) && (rest == "" || Broken(line, rest))
    ensures LinesOf(line + rest, [line] + ls)
  {
    var all := [line] + ls;
    assert all[1..] == ls;
    if ls != [] {
      assert OneLine(ls[0]) && rest == ls[0] + Concat(ls[1..]);
    }
    forall i | 0 <= i < |all| - 1 ensures Broken(all[i], all[i + 1]) {
      if i > 0 {
        assert Broken(ls[i - 1], ls[i]);
      }
    }
  }

  lemma NoLines()
    ensures LinesOf("", [])
  {
  }

  /** `splitlines` gives the lines of the text. */
  lemma {:induction false} SplitsIntoLines(text: string, open_: string)
    requires Clean(open_)
    ensures LinesOf(open_ + text, SplitLines(text, open_))
    decreases |text|
  {
    hide LinesOf, Clean, OneLine;
    if text == "" {
      NoLines();
      OpenLine(open_);
      assert open_ + text == open_;
    } else if text[0] == '\r' && |text| > 1 && text[1] == '\n' {
      OpenLine("");
      SplitsIntoLines(text[2..], "");
      assert text[..2] == "\r\n";
      LineEnds(open_, text, 2, SplitLines(text[2..], ""));
    } else if IsBreak(text[0]) {
      OpenLine("");
      SplitsIntoLines(text[1..], "");
      assert text[..1] == [text[0]];
      LineEnds(open_, text, 1, SplitLines(text[1..], ""));
    } else {
      StaysOpen(open_, text[0]);
      SplitsIntoLines(text[1..], open_ + [text[0]]);
      assert open_ + [text[0]] + text[1..] == open_ + text;
    }
  }

  lemma OpenLine(open_: string)
    ensures Clean("") && (Clean(open_) && open_ != "" ==> LinesOf(open_, [open_]))
  {
    assert Concat([open_][1..]) == "" && open_ + "" == open_;
  }

  lemma StaysOpen(open_: string, c: char)
    requires Clean(open_) && !IsBreak(c)
    ensures Clean(open_ + [c])
  {
  }

  /** The line break is the first `n` characters. */
  lemma LineEnds(open_: string, text: string, n: nat, ls: Lines)
    requires Clean(open_) && text != "" && IsBreak(text[0])
    requires n == if text[0] == '\r' && |text| > 1 && text[1] == '\n' then 2 else 1
    requires LinesOf("" + text[n..], ls)
    ensures LinesOf(open_ + text, [open_ + text[..n]] + ls)
  {
    hide LinesOf;
    var line := open_ + text[..n];
    assert "" + text[n..] == text[n..] && open_ + text == line + text[n..];
    assert n == 2 ==> text[..n] == "\r\n" && text[1] == '\n';
    forall i | 0 <= i < |line| - 1 && IsBreak(line[i]) ensures line[i..] == "\r\n" {
      assert i >= |open_|;
    }
    FirstLine(line, text[n..], ls);
  }

  /** `"\n".join(lines)`. */
  function Join(ls: Lines): string {
    if ls == [] then "" else if |ls| == 1 then ls[0] else ls[0] + "\n" + Join(ls[1..])
  }

  function Concat(ls: Lines): string {
    if ls == [] then "" else ls[0] + Concat(ls[1..])
  }

  function Terminated(ls: Lines): (r: Lines)
    ensures |r| == |ls|
  {
    if ls == [] then [] else [ls[0] + "\n"] + Terminated(ls[1..])
  }

  /** The lines of a text as `splitlines(keepends=True)` sees them: an empty last line is none. */
  function Kept(ls: Lines): Lines {
    if ls == [] then []
    else if |ls| == 1 then if ls[0] == "" then [] else [ls[0]]
    else [ls[0] + "\n"] + Kept(ls[1..])
  }

  lemma {:induction false} SplitClean(line: string, open_: string, rest: string)
    requires Clean(line)
    ensures SplitLines(line + rest, open_) == SplitLines(rest, open_ + line)
    decreases |line|
  {
    if line == "" {
      assert line + rest == rest && open_ + line == open_;
    } else {
      assert line[0] in line && (line + rest)[0] == line[0];
      assert (line + rest)[1..] == line[1..] + rest;
      SplitClean(line[1..], open_ + [line[0]], rest);
      assert open_ + [line[0]] + line[1..] == open_ + line;
    }
  }

  lemma {:induction false} SplitJoined(ls: Lines)
    requires AllClean(ls)
    ensures SplitLines(Join(ls), "") == Kept(ls)
    decreases |ls|
  {
    if ls == [] {
    } else if |ls| == 1 {
      SplitClean(ls[0], "", "");
      assert ls[0] + "" == ls[0] && "" + ls[0] == ls[0];
    } else {
      var rest := "\n" + Join(ls[1..]);
      assert Join(ls) == ls[0] + rest;
      SplitClean(ls[0], "", rest);
      assert "" + ls[0] == ls[0] && rest[1..] == Join(ls[1..]);
      SplitJoined(ls[1..]);
    }
  }

  lemma {:induction false} ConcatKept(ls: Lines)
    ensures Concat(Kept(ls)) == Join(ls)
    decreases |ls|
  {
    if |ls| > 1 {
      ConcatKept(ls[1..]);
      assert Kept(ls)[1..] == Kept(ls[1..]);
    } else if |ls| == 1 && ls[0] != "" {
      assert ls[0] + "" == ls[0];
    }
  }

  lemma {:induction false} KeptConcat(a: Lines, b: Lines)
    requires b != []
    ensures Kept(a + b) == Terminated(a) + Kept(b)
    decreases |a|
  {
    if a == [] {
      assert a + b == b;
    } else {
      assert (a + b)[1..] == a[1..] + b;
      KeptConcat(a[1..], b);
    }
  }

  // Edit scripts, as `SequenceMatcher` finds them between lines that start and end alike

  datatype Edit = Edit(removed: Lines, added: Lines, kept: Lines)

  datatype Script = Script(lead: Lines, edits: seq<Edit>)

  predicate ValidEdit(e: Edit) {
    && (e.removed != [] || e.added != []) && e.kept != []
    && AllClean(e.removed) && AllClean(e.added) && AllClean(e.kept)
  }

  predicate ValidEdits(es: seq<Edit>) {
    forall i | 0 <= i < |es| :: ValidEdit(es[i])
  }

  predicate ValidScript(s: Script) {
    s.lead != [] && AllClean(s.lead) && ValidEdits(s.edits)
  }

  function OldLines(es: seq<Edit>): Lines {
    if es == [] then [] else es[0].removed + es[0].kept + OldLines(es[1..])
  }

  function NewLines(es: seq<Edit>): Lines {
    if es == [] then [] else es[0].added + es[0].kept + NewLines(es[1..])
  }

  // `difflib.unified_diff` with n=1 and lineterm=""

  function Prefixed(c: char, ls: Lines): (r: Lines)
    ensures |r| == |ls|
  {
    if ls == [] then [] else [[c] + ls[0]] + Prefixed(c, ls[1..])
  }

  /** `_format_range_unified`: a length of one is left out, and an empty range starts one earlier. */
  function Range(start: nat, length: nat): string {
    if length == 1 then Decimal(start + 1)
    else Decimal(if length == 0 then start else start + 1) + "," + Decimal(length)
  }

  function Header(i: nat, oldLength: nat, j: nat, newLength: nat): string {
    "@@ -" + Range(i, oldLength) + " +" + Range(j, newLength) + " @@"
  }

  /** A group ends after an edit with more than two unchanged lines behind it, or the last one. */
  predicate EndsGroup(es: seq<Edit>)
    requires es != []
  {
    |es| == 1 || |es[0].kept| > 2
  }

  function Body(es: seq<Edit>): Lines
    requires es != [] && ValidEdits(es)
  {
    Prefixed('-', es[0].removed) + Prefixed('+', es[0].added) +
    if EndsGroup(es) then Prefixed(' ', es[0].kept[..1])
    else Prefixed(' ', es[0].kept) + Body(es[1..])
  }

  predicate IsContext(line: string) {
    line != "" && line[0] == ' '
  }

  /** With one line of context around each change, and more unchanged lines between two changes only where there
      is nothing to leave out: a hunk never shows three in a row. */
  lemma {:induction false} ContextIsShort(es: seq<Edit>, i: nat)
    requires es != [] && ValidEdits(es) && i + 2 < |Body(es)|
    ensures !(IsContext(Body(es)[i]) && IsContext(Body(es)[i + 1]) && IsContext(Body(es)[i + 2]))
    ensures !IsContext(Body(es)[0])
    decreases |es|
  {
    var changes := Prefixed('-', es[0].removed) + Prefixed('+', es[0].added);
    ChangesShown(es[0]);
    if !EndsGroup(es) {
      var rest := Body(es[1..]);
      var n := |changes| + |es[0].kept|;
      assert Body(es) == changes + Prefixed(' ', es[0].kept) + rest;
      ChangesShown(es[1]);
      assert rest[0] == (Prefixed('-', es[1].removed) + Prefixed('+', es[1].added))[0];
      if i >= n {
        ContextIsShort(es[1..], i - n);
      }
    }
  }

  lemma ChangesShown(e: Edit)
    requires ValidEdit(e)
    ensures var changes := Prefixed('-', e.removed) + Prefixed('+', e.added);
      changes != [] && forall i | 0 <= i < |changes| :: !IsContext(changes[i])
  {
    forall i | 0 <= i < |e.removed| ensures !IsContext(Prefixed('-', e.removed)[i]) {
      PrefixedAt('-', e.removed, i);
    }
    forall i | 0 <= i < |e.added| ensures !IsContext(Prefixed('+', e.added)[i]) {
      PrefixedAt('+', e.added, i);
    }
  }

  function OldLength(es: seq<Edit>): nat
    requires es != []
  {
    |es[0].removed| + if EndsGroup(es) then 1 else |es[0].kept| + OldLength(es[1..])
  }

  function NewLength(es: seq<Edit>): nat
    requires es != []
  {
    |es[0].added| + if EndsGroup(es) then 1 else |es[0].kept| + NewLength(es[1..])
  }

  /** The edits of the first group. */
  function GroupSize(es: seq<Edit>): (n: nat)
    requires es != []
    ensures 0 < n <= |es|
  {
    if EndsGroup(es) then 1 else 1 + GroupSize(es[1..])
  }

  function Last(ls: Lines): string
    requires ls != []
  {
    ls[|ls| - 1]
  }

  /** All hunks of `es`, whose first line has index i in the old text and j in the new one, and
      follows the unchanged line `before`. */
  function Hunks(before: string, i: nat, j: nat, es: seq<Edit>): Lines
    requires ValidEdits(es) && i > 0 && j > 0
    decreases |es|
  {
    if es == [] then []
    else
      var n := GroupSize(es);
      [Header(i - 1, 1 + OldLength(es), j - 1, 1 + NewLength(es))] + [" " + before] + Body(es) +
      Hunks(Last(es[n - 1].kept), i + |OldLines(es[..n])|, j + |NewLines(es[..n])|, es[n..])
  }

  /** The printed diff: nothing at all between equal texts. */
  function Diff(s: Script): Lines
    requires ValidScript(s)
  {
    if s.edits == [] then []
    else ["--- current", "+++ snapshot"] + Hunks(Last(s.lead), |s.lead|, |s.lead|, s.edits)
  }

  function Current(s: Script): Lines {
    s.lead + OldLines(s.edits)
  }

  function Snapshot(s: Script): Lines {
    s.lead + NewLines(s.edits)
  }

  // `parse_unified_diff`

  predicate StartsWith(line: string, prefix: string) {
    prefix <= line
  }

  /** The zero-based start of a hunk; None where the header cannot be read and an exception leaves the
      patcher. A header without a length is one of those. */
  function HunkStart(header: string): Option<int> {
    var parts := Split(header, ' ');
    if |parts| < 2 || parts[1] == "" then None
    else
      var range := Split(parts[1][1..], ',');
      if |range| != 2 then None
      else
        var start :- ParseInt(range[0]);
        var length :- ParseInt(range[1]);
        Some(start - 1)
  }

  function Prepend(a: Lines, r: Option<Lines>): Option<Lines> {
    match r case None => None case Some(b) => Some(a + b)
  }

  /** What the patcher still emits when it has reached line `idx` of the original and `ds` of the diff
      is left; None where it raises. */
  function Patch(ds: Lines, original: Lines, idx: nat): Option<Lines>
    decreases |ds|
  {
    if ds == [] then
      Some(if idx <= |original| then original[idx..] else [])
    else
      var line, rest := ds[0], ds[1..];
      if StartsWith(line, "---") || StartsWith(line, "+++") then
        Patch(rest, original, idx)
      else if StartsWith(line, "@@") then
        var start :- HunkStart(line);
        if start <= idx then Patch(rest, original, idx)
        else if start > |original| then None
        else Prepend(original[idx..start], Patch(rest, original, start))
      else if StartsWith(line, "-") then
        Patch(rest, original, idx + 1)
      else if StartsWith(line, "+") then
        Prepend([line[1..]], Patch(rest, original, idx))
      else if idx >= |original| then None
      else Prepend([original[idx]], Patch(rest, original, idx + 1))
  }

  lemma PrependNothing(r: Option<Lines>)
    ensures Prepend([], r) == r
  {
    if r.Some? {
      assert [] + r.value == r.value;
    }
  }

  lemma PrependTwice(a: Lines, b: Lines, r: Option<Lines>)
    ensures Prepend(a, Prepend(b, r)) == Prepend(a + b, r)
  {
    if r.Some? {
      assert a + (b + r.value) == a + b + r.value;
    }
  }

  method ParseUnifiedDiff(diffText: string, originalText: string) returns (result: Option<string>)
    ensures var patched := Patch(SplitLines(diffText, ""), SplitLines(originalText, ""), 0);
            && (result.Some? <==> patched.Some?)
            && (result.Some? ==> result.value == Strip(Concat(patched.value)))
            && (result.Some? ==> IsCore(Concat(patched.value), result.value))
  {
    hide SplitLines, HunkStart, Prepend, Strip, Concat, IsCore;
    var original := SplitLines(originalText, "");
    var diff := SplitLines(diffText, "");
    var patched: Lines := [];
    var idx, i := 0, 0;
    PrependNothing(Patch(diff, original, 0));
    while i < |diff|
      invariant 0 <= i <= |diff|
      invariant Prepend(patched, Patch(diff[i..], original, idx)) == Patch(diff, original, 0)
    {
      PrependNone(patched);
      var line := diff[i];
      ghost var rest := diff[i + 1..];
      assert diff[i..][0] == line && diff[i..][1..] == rest;
      if StartsWith(line, "---") || StartsWith(line, "+++") {
      } else if StartsWith(line, "@@") {
        var start := HunkStart(line);
        if start.None? {
          return None;
        }
        ghost var from, before := idx, patched;
        while idx < start.value
          invariant from <= idx && (idx <= start.value || idx == from)
          invariant idx > from ==> idx <= |original| && patched == before + original[from..idx]
          invariant idx == from ==> patched == before
        {
          if idx >= |original| {
            return None;
          }
          patched := patched + [original[idx]];
          idx := idx + 1;
        }
        if idx > from {
          PrependTwice(before, original[from..idx], Patch(rest, original, idx));
        }
      } else if StartsWith(line, "-") {
        idx := idx + 1;
      } else if StartsWith(line, "+") {
        PrependTwice(patched, [line[1..]], Patch(rest, original, idx));
        patched := patched + [line[1..]];
      } else {
        if idx >= |original| {
          return None;
        }
        PrependTwice(patched, [original[idx]], Patch(rest, original, idx + 1));
        patched := patched + [original[idx]];
        idx := idx + 1;
      }
      i := i + 1;
    }
    PrependSome(patched, if idx <= |original| then original[idx..] else []);
    patched := patched + (if idx <= |original| then original[idx..] else []);
    StripIsCore(Concat(patched));
    result := Some(Strip(Concat(patched)));
  }

  // The round trip

  /** Printed as a removed or an added line, it looks like a file header and is ignored. */
  predicate BadRemoved(line: string) {
    StartsWith(line, "--")
  }

  predicate BadAdded(line: string) {
    StartsWith(line, "++")
  }

  predicate Good(e: Edit) {
    && (forall k | 0 <= k < |e.removed| :: !BadRemoved(e.removed[k]))
    && (forall k | 0 <= k < |e.added| :: !BadAdded(e.added[k]))
  }

  predicate NoneBad(es: seq<Edit>) {
    forall i | 0 <= i < |es| :: Good(es[i])
  }

  lemma NotTripled(c: char, line: string)
    requires c != '\n' && !StartsWith(line, [c, c])
    ensures !StartsWith([c] + line + "\n", [c, c, c])
  {
    var printed := [c] + line + "\n";
    if |line| >= 2 {
      assert line[..2] == [line[0], line[1]];
      assert printed[1] == line[0] && printed[2] == line[1];
    } else {
      assert printed[|line| + 1] == '\n';
    }
  }

  lemma {:induction false} PatchRemoved(ls: Lines, more: Lines, original: Lines, idx: nat)
    requires forall k | 0 <= k < |ls| :: !BadRemoved(ls[k])
    ensures Patch(Terminated(Prefixed('-', ls)) + more, original, idx) == Patch(more, original, idx + |ls|)
    decreases |ls|
  {
    var ds := Terminated(Prefixed('-', ls)) + more;
    if ls == [] {
      assert ds == more;
    } else {
      var line := "-" + ls[0] + "\n";
      assert ds[0] == line && ds[1..] == Terminated(Prefixed('-', ls[1..])) + more;
      NotTripled('-', ls[0]);
      assert line[0] == '-' && "-" + ls[0] == ['-'] + ls[0];
      PatchRemoved(ls[1..], more, original, idx + 1);
    }
  }

  lemma {:induction false} PatchAdded(ls: Lines, more: Lines, original: Lines, idx: nat)
    requires forall k | 0 <= k < |ls| :: !BadAdded(ls[k])
    ensures Patch(Terminated(Prefixed('+', ls)) + more, original, idx) ==
            Prepend(Terminated(ls), Patch(more, original, idx))
    decreases |ls|
  {
    var ds := Terminated(Prefixed('+', ls)) + more;
    if ls == [] {
      assert ds == more;
      PrependNothing(Patch(more, original, idx));
    } else {
      var line := "+" + ls[0] + "\n";
      assert ds[0] == line && ds[1..] == Terminated(Prefixed('+', ls[1..])) + more;
      NotTripled('+', ls[0]);
      assert line[0] == '+' && line[1..] == ls[0] + "\n";
      PatchAdded(ls[1..], more, original, idx);
      PrependTwice([ls[0] + "\n"], Terminated(ls[1..]), Patch(more, original, idx));
    }
  }

  lemma PatchSpace(line: string, more: Lines, original: Lines, idx: nat)
    ensures Patch([" " + line + "\n"] + more, original, idx) ==
            if idx >= |original| then None else Prepend([original[idx]], Patch(more, original, idx + 1))
  {
    var shown := " " + line + "\n";
    assert shown[0] == ' ' && ([shown] + more)[1..] == more;
  }

  lemma ContextHead(ls: Lines, more: Lines)
    ensures Terminated(Prefixed(' ', ls)) + more ==
            if ls == [] then more else [" " + ls[0] + "\n"] + (Terminated(Prefixed(' ', ls[1..])) + more)
  {
    hide Prefixed, Terminated;
    FirstPrefixed(' ', ls);
    if ls == [] {
      assert Terminated(Prefixed(' ', ls)) == [];
    } else {
      FirstTerminated(" " + ls[0], Prefixed(' ', ls[1..]));
    }
  }

  lemma FirstPrefixed(c: char, ls: Lines)
    ensures ls != [] ==> Prefixed(c, ls) == [[c] + ls[0]] + Prefixed(c, ls[1..])
  {
  }

  lemma FirstTerminated(line: string, ls: Lines)
    ensures Terminated([line] + ls) == [line + "\n"] + Terminated(ls)
  {
    assert ([line] + ls)[1..] == ls;
  }

  lemma {:induction false} PatchContext(ls: Lines, more: Lines, original: Lines, idx: nat)
    ensures Patch(Terminated(Prefixed(' ', ls)) + more, original, idx) ==
            if idx + |ls| > |original| && ls != [] then None
            else Prepend(if ls == [] then [] else original[idx..idx + |ls|], Patch(more, original, idx + |ls|))
    decreases |ls|
  {
    hide Patch, Terminated, Prefixed, Prepend;
    ContextHead(ls, more);
    if ls == [] {
      PrependNothing(Patch(more, original, idx));
    } else {
      PatchSpace(ls[0], Terminated(Prefixed(' ', ls[1..])) + more, original, idx);
      PatchContext(ls[1..], more, original, idx + 1);
      PrependNone(if idx < |original| then [original[idx]] else []);
      if idx + |ls| <= |original| {
        if |ls| > 1 {
          PrependTwice([original[idx]], original[idx + 1..idx + |ls|], Patch(more, original, idx + |ls|));
          assert [original[idx]] + original[idx + 1..idx + |ls|] == original[idx..idx + |ls|];
        } else {
          PrependNothing(Patch(more, original, idx + 1));
          assert original[idx..idx + 1] == [original[idx]];
        }
      }
    }
  }

  lemma Spaces(minus: string, plus: string, range: string)
    requires minus == "-" + range
    ensures "@@ -" + range + " +" + plus + " @@" + "\n" == "@@" + [' '] + (minus + [' '] + ("+" + plus + " @@" + "\n"))
  {
    assert "@@ -" + range == "@@" + [' '] + minus;
    assert " +" + plus == [' '] + ("+" + plus);
  }

  lemma HeaderShape(i: nat, m: nat, j: nat, n: nat)
    requires m > 1
    ensures var range := "-" + Decimal(i + 1) + "," + Decimal(m);
            Header(i, m, j, n) + "\n" == "@@" + [' '] + (range + [' '] + ("+" + Range(j, n) + " @@" + "\n"))
  {
    hide Decimal;
    var range := "-" + Decimal(i + 1) + "," + Decimal(m);
    assert "-" + Range(i, m) == range;
    hide Range;
    Spaces("-" + Range(i, m), Range(j, n), Range(i, m));
  }

  lemma RangeSplit(a: nat, b: nat)
    ensures var range := "-" + Decimal(a) + "," + Decimal(b);
            && ' ' !in range && range != "" && Split(range[1..], ',') == [Decimal(a), Decimal(b)]
  {
    var range := "-" + Decimal(a) + "," + Decimal(b);
    assert range[1..] == Decimal(a) + [','] + Decimal(b);
    assert ',' !in Decimal(a) && ',' !in Decimal(b);
    SplitAt(Decimal(a), ',', Decimal(b));
    SplitNone(Decimal(b), ',');
  }

  /** The patcher reads the printed start of every hunk whose range carries a length. */
  lemma HeaderRead(i: nat, m: nat, j: nat, n: nat)
    requires m > 1
    ensures HunkStart(Header(i, m, j, n) + "\n") == Some(i)
  {
    hide Header, Range, Decimal, Split;
    var range := "-" + Decimal(i + 1) + "," + Decimal(m);
    var tail := "+" + Range(j, n) + " @@" + "\n";
    HeaderShape(i, m, j, n);
    RangeSplit(i + 1, m);
    SplitAt("@@", ' ', range + [' '] + tail);
    SplitAt(range, ' ', tail);
    ParseIntDecimal(i + 1);
    ParseIntDecimal(m);
  }

  /** What the patcher makes of any header, printed by difflib or not: of the second word all but its first
      character, which must be two numbers with a comma between them. */
  lemma HunkStartReads(a: string, c: char, start: string, length: string, tail: string)
    requires ' ' !in a && c != ' ' && ' ' !in start && ' ' !in length && ',' !in start && ',' !in length
    ensures HunkStart(a + " " + [c] + start + "," + length + " " + tail) ==
            if ParseInt(start).Some? && ParseInt(length).Some? then Some(ParseInt(start).value - 1) else None
    ensures HunkStart(a + " " + [c] + start + "," + length) ==
            if ParseInt(start).Some? && ParseInt(length).Some? then Some(ParseInt(start).value - 1) else None
  {
    hide Split, ParseInt;
    var range := [c] + start + [','] + length;
    assert a + " " + [c] + start + "," + length == a + [' '] + range;
    SplitAt(a, ' ', range);
    SplitNone(range, ' ');
    assert a + " " + [c] + start + "," + length + " " + tail == a + [' '] + (range + [' '] + tail);
    SplitAt(a, ' ', range + [' '] + tail);
    SplitAt(range, ' ', tail);
    assert range[1..] == start + [','] + length;
    SplitAt(start, ',', length);
    SplitNone(length, ',');
  }

  lemma HunkStartNeedsComma(a: string, b: string, tail: string)
    requires ' ' !in a && ' ' !in b && (b == "" || ',' !in b[1..])
    ensures HunkStart(a + " " + b + " " + tail) == None && HunkStart(a) == None
  {
    hide Split, ParseInt;
    assert a + " " + b + " " + tail == a + [' '] + (b + [' '] + tail);
    SplitAt(a, ' ', b + [' '] + tail);
    SplitAt(b, ' ', tail);
    SplitNone(a, ' ');
    if b != "" {
      SplitNone(b[1..], ',');
    }
  }

  /** A hunk that starts beyond the end of the original raises; one that starts at or before the line reached is
      applied right there. */
  lemma HunkElsewhere(line: string, rest: Lines, original: Lines, idx: nat)
    requires StartsWith(line, "@@") && HunkStart(line).Some?
    ensures HunkStart(line).value > idx && HunkStart(line).value > |original| ==>
              Patch([line] + rest, original, idx) == None
    ensures HunkStart(line).value <= idx ==> Patch([line] + rest, original, idx) == Patch(rest, original, idx)
  {
    assert ([line] + rest)[1..] == rest;
    assert line[0] == '@' && !StartsWith(line, "---") && !StartsWith(line, "+++");
  }

  /** A hunk's old range of one line is printed without its length, and cannot be read. One arises where
      lines are only added before the first line, or after the last. */
  lemma ShortRangeRaises(i: nat, j: nat, n: nat, more: Lines, original: Lines, idx: nat)
    ensures HunkStart(Header(i, 1, j, n) + "\n") == None
    ensures Patch([Header(i, 1, j, n) + "\n"] + more, original, idx) == None
  {
    hide Range, Decimal, Split;
    var line, range, tail := Header(i, 1, j, n) + "\n", "-" + Decimal(i + 1), "+" + Range(j, n) + " @@" + "\n";
    ShortShape(i, j, n);
    ShortSplit(i + 1);
    SplitAt("@@", ' ', range + [' '] + tail);
    SplitAt(range, ' ', tail);
    assert line[0] == '@' && line[1] == '@' && line[..2] == "@@";
    assert StartsWith(line, "@@") && !StartsWith(line, "---") && !StartsWith(line, "+++");
  }

  lemma ShortShape(i: nat, j: nat, n: nat)
    ensures Header(i, 1, j, n) + "\n" ==
            "@@" + [' '] + ("-" + Decimal(i + 1) + [' '] + ("+" + Range(j, n) + " @@" + "\n"))
  {
    hide Decimal;
    assert Range(i, 1) == Decimal(i + 1);
    hide Range;
    Spaces("-" + Decimal(i + 1), Range(j, n), Decimal(i + 1));
  }

  lemma ShortSplit(a: nat)
    ensures var range := "-" + Decimal(a); ' ' !in range && range != "" && Split(range[1..], ',') == [Decimal(a)]
  {
    var range := "-" + Decimal(a);
    assert range[1..] == Decimal(a);
    assert ',' !in Decimal(a) && ' ' !in Decimal(a);
    SplitNone(Decimal(a), ',');
  }

  lemma PatchHeader(i: nat, m: nat, j: nat, n: nat, more: Lines, original: Lines, idx: nat)
    requires m > 1 && idx <= i <= |original|
    ensures Patch([Header(i, m, j, n) + "\n"] + more, original, idx) ==
            Prepend(original[idx..i], Patch(more, original, i))
  {
    var line := Header(i, m, j, n) + "\n";
    HeaderRead(i, m, j, n);
    assert ([line] + more)[0] == line && ([line] + more)[1..] == more;
    assert line[0] == '@' && line[1] == '@' && line[..2] == "@@";
    assert StartsWith(line, "@@") && !StartsWith(line, "---") && !StartsWith(line, "+++");
    if i == idx {
      assert original[idx..i] == [];
      PrependNothing(Patch(more, original, i));
    }
  }

  lemma {:induction false} TerminatedConcat(a: Lines, b: Lines)
    ensures Terminated(a + b) == Terminated(a) + Terminated(b)
  {
    if a == [] {
      assert a + b == b;
    } else {
      assert (a + b)[1..] == a[1..] + b;
      TerminatedConcat(a[1..], b);
    }
  }

  lemma {:induction false} KeptShorter(ls: Lines)
    ensures |Kept(ls)| <= |ls|
    decreases |ls|
  {
    if |ls| > 1 {
      KeptShorter(ls[1..]);
    }
  }

  lemma KeptDrop(ls: Lines, m: nat)
    requires m <= |Kept(ls)|
    ensures m <= |ls| && Kept(ls)[m..] == Kept(ls[m..])
  {
    hide Kept;
    KeptShorter(ls);
    var a, b := ls[..m], ls[m..];
    if b == [] {
      KeptHead(b);
    } else {
      KeptConcat(a, b);
      assert a + b == ls;
    }
  }

  lemma KeptHead(ls: Lines)
    ensures |ls| <= 1 ==> |Kept(ls)| <= |ls|
    ensures |ls| > 1 ==> Kept(ls) == [ls[0] + "\n"] + Kept(ls[1..])
    ensures Kept([]) == []
  {
  }

  lemma OldOrNewEmpty(es: seq<Edit>)
    requires ValidEdits(es)
    ensures es == [] <==> OldLines(es) == []
    ensures es == [] <==> NewLines(es) == []
  {
    assert es != [] ==> es[0].kept != [];
  }

  /** The line of context that ends a group is one the patcher can find: the empty line behind a final
      line break is none. */
  predicate GroupShown(es: seq<Edit>)
    requires es != [] && ValidEdits(es)
  {
    if EndsGroup(es) then |es| > 1 || |es[0].kept| > 1 || es[0].kept[0] != "" else GroupShown(es[1..])
  }

  /** The same of the last group. */
  predicate TailShown(es: seq<Edit>)
    requires ValidEdits(es)
  {
    es == [] || (var kept := es[|es| - 1].kept; |kept| > 1 || kept[0] != "")
  }

  /** The printed changes of one edit, before its context. */
  lemma ChangesPatched(e: Edit, context: Lines, more: Lines, original: Lines, idx: nat)
    requires Good(e)
    ensures Patch(Terminated(Prefixed('-', e.removed) + Prefixed('+', e.added) + context) + more, original, idx) ==
            Prepend(Terminated(e.added), Patch(Terminated(context) + more, original, idx + |e.removed|))
  {
    hide Patch, Terminated, Prefixed, BadRemoved, BadAdded;
    var minus, plus := Terminated(Prefixed('-', e.removed)), Terminated(Prefixed('+', e.added));
    var shown := Terminated(context);
    TerminatedConcat(Prefixed('-', e.removed) + Prefixed('+', e.added), context);
    TerminatedConcat(Prefixed('-', e.removed), Prefixed('+', e.added));
    assert minus + plus + shown + more == minus + (plus + (shown + more));
    PatchRemoved(e.removed, plus + (shown + more), original, idx);
    PatchAdded(e.added, shown + more, original, idx + |e.removed|);
  }

  /** What is kept of an edit and of all that follows it. */
  lemma KeptEdit(es: seq<Edit>)
    requires es != [] && ValidEdits(es)
    ensures Kept(OldLines(es)) == Terminated(es[0].removed) + Kept(es[0].kept + OldLines(es[1..]))
    ensures Kept(NewLines(es)) == Terminated(es[0].added) + Kept(es[0].kept + NewLines(es[1..]))
    ensures |es| > 1 ==> Kept(es[0].kept + OldLines(es[1..])) == Terminated(es[0].kept) + Kept(OldLines(es[1..]))
    ensures |es| > 1 ==> Kept(es[0].kept + NewLines(es[1..])) == Terminated(es[0].kept) + Kept(NewLines(es[1..]))
  {
    OldOrNewEmpty(es[1..]);
    KeptThree(es[0].removed, es[0].kept, OldLines(es[1..]));
    KeptThree(es[0].added, es[0].kept, NewLines(es[1..]));
  }

  lemma KeptThree(a: Lines, b: Lines, c: Lines)
    requires b != []
    ensures Kept(a + b + c) == Terminated(a) + Kept(b + c)
    ensures c != [] ==> Kept(b + c) == Terminated(b) + Kept(c)
  {
    KeptConcat(a, b + c);
    assert a + b + c == a + (b + c);
    if c != [] {
      KeptConcat(b, c);
    }
  }

  ghost predicate BodyResult(es: seq<Edit>, more: Lines, original: Lines, idx: nat)
    requires es != [] && ValidEdits(es)
  {
    && (GroupShown(es) ==> OldLength(es) <= |Kept(OldLines(es))| && NewLength(es) <= |Kept(NewLines(es))|)
    && Patch(Terminated(Body(es)) + more, original, idx) ==
       if GroupShown(es)
       then Prepend(Kept(NewLines(es))[..NewLength(es)], Patch(more, original, idx + OldLength(es)))
       else None
  }

  /** One group's removed, added and unchanged lines, from the first changed line on. */
  lemma {:induction false} BodyPatched(es: seq<Edit>, more: Lines, original: Lines, idx: nat)
    requires es != [] && ValidEdits(es) && NoneBad(es)
    requires idx <= |original| && original[idx..] == Kept(OldLines(es))
    ensures BodyResult(es, more, original, idx)
    decreases |es|
  {
    hide Patch, BodyResult, Kept, Terminated, EndsGroup, ValidEdits, NoneBad, OldLines;
    var e := es[0];
    OldRest(es, original, idx);
    if EndsGroup(es) {
      LastBody(es, more, original, idx);
    } else {
      InnerFacts(es);
      NoneBadRest(es);
      BodyPatched(es[1..], more, original, idx + |e.removed| + |e.kept|);
      InnerBody(es, more, original, idx);
    }
  }

  lemma NoneBadRest(es: seq<Edit>)
    requires es != [] && NoneBad(es)
    ensures Good(es[0]) && NoneBad(es[1..])
  {
    hide Good;
  }

  /** What remains of the old text after an edit's removed lines, and after its unchanged ones. */
  lemma OldRest(es: seq<Edit>, original: Lines, idx: nat)
    requires es != [] && ValidEdits(es) && idx <= |original| && original[idx..] == Kept(OldLines(es))
    ensures var e, rest := es[0], OldLines(es[1..]);
      && idx + |e.removed| <= |original| && original[idx + |e.removed|..] == Kept(e.kept + rest)
      && (|es| > 1 ==> idx + |e.removed| + |e.kept| <= |original|
                       && original[idx + |e.removed| + |e.kept|..] == Kept(rest))
  {
    hide Kept, Terminated, OldLines, ValidEdits;
    KeptEdit(es);
    var e := es[0];
    assert original[idx..][|e.removed|..] == original[idx + |e.removed|..];
    assert |es| > 1 ==> original[idx + |e.removed|..][|e.kept|..] == original[idx + |e.removed| + |e.kept|..];
  }

  lemma LastFacts(es: seq<Edit>)
    requires es != [] && ValidEdits(es) && NoneBad(es) && EndsGroup(es)
    ensures Good(es[0]) && es[0].kept != []
    ensures Body(es) == Prefixed('-', es[0].removed) + Prefixed('+', es[0].added) + Prefixed(' ', es[0].kept[..1])
    ensures OldLength(es) == |es[0].removed| + 1 && NewLength(es) == |es[0].added| + 1
  {
    hide Prefixed, Good;
    assert ValidEdit(es[0]);
  }

  lemma OneFurther(a: Lines, b: Lines)
    requires b != []
    ensures (a + b)[..|a| + 1] == a + [b[0]]
  {
  }

  lemma LastBody(es: seq<Edit>, more: Lines, original: Lines, idx: nat)
    requires es != [] && ValidEdits(es) && NoneBad(es) && EndsGroup(es)
    requires idx + |es[0].removed| <= |original|
    requires original[idx + |es[0].removed|..] == Kept(es[0].kept + OldLines(es[1..]))
    ensures BodyResult(es, more, original, idx)
  {
    hide Patch, Kept, Terminated, Prefixed, ValidEdits, NoneBad, Good, Body, OldLength, NewLength, EndsGroup,
      GroupShown,
      OldLines, NewLines, Prepend;
    var e, idx1 := es[0], idx + |es[0].removed|;
    LastFacts(es);
    KeptEdit(es);
    ChangesPatched(e, Prefixed(' ', e.kept[..1]), more, original, idx);
    LastContext(es, more, original, idx1);
    if GroupShown(es) {
      var context := original[idx1..][..1];
      PrependTwice(Terminated(e.added), context, Patch(more, original, idx1 + 1));
      OneFurther(Terminated(e.added), Kept(e.kept + NewLines(es[1..])));
      assert context == [original[idx1..][0]];
    } else {
      PrependNone(Terminated(e.added));
    }
  }

  lemma InnerFacts(es: seq<Edit>)
    requires es != [] && ValidEdits(es) && !EndsGroup(es)
    ensures |es| > 1 && ValidEdits(es[1..])
    ensures OldLength(es) == |es[0].removed| + |es[0].kept| + OldLength(es[1..])
    ensures NewLength(es) == |es[0].added| + |es[0].kept| + NewLength(es[1..])
    ensures GroupShown(es) == GroupShown(es[1..])
  {
  }

  lemma InnerBody(es: seq<Edit>, more: Lines, original: Lines, idx: nat)
    requires es != [] && ValidEdits(es) && NoneBad(es) && !EndsGroup(es)
    requires idx + |es[0].removed| <= |original|
    requires original[idx + |es[0].removed|..] == Kept(es[0].kept + OldLines(es[1..]))
    requires BodyResult(es[1..], more, original, idx + |es[0].removed| + |es[0].kept|)
    ensures BodyResult(es, more, original, idx)
  {
    hide Patch, Kept, Terminated, ValidEdits, Body, OldLines, NewLines, NoneBad, OldLength, NewLength,
      EndsGroup, GroupShown, Prepend;
    InnerFacts(es);
    KeptEdit(es);
    InnerChanges(es, more, original, idx);
    var e, rest := es[0], es[1..];
    if GroupShown(es) {
      Assemble(Terminated(e.added), Terminated(e.kept), Kept(NewLines(rest)), NewLength(rest),
               Patch(more, original, idx + OldLength(es)));
    } else {
      PrependNone(Terminated(e.added));
      PrependNone(Terminated(e.kept));
    }
  }

  lemma PrependSome(a: Lines, b: Lines)
    ensures Prepend(a, Some(b)) == Some(a + b)
  {
  }

  lemma PrependNone(a: Lines)
    ensures Prepend(a, None) == None
  {
  }

  lemma Assemble(a: Lines, b: Lines, c: Lines, n: nat, last: Option<Lines>)
    requires n <= |c|
    ensures Prepend(a, Prepend(b, Prepend(c[..n], last))) == Prepend((a + (b + c))[..|a| + |b| + n], last)
  {
    PrependTwice(b, c[..n], last);
    PrependTwice(a, b + c[..n], last);
    assert a + (b + c[..n]) == (a + (b + c))[..|a| + |b| + n];
  }

  lemma InnerIs(es: seq<Edit>)
    requires es != [] && ValidEdits(es) && !EndsGroup(es)
    ensures es[0].kept != [] && |es| > 1 && ValidEdits(es[1..])
    ensures Body(es) == Prefixed('-', es[0].removed) + Prefixed('+', es[0].added)
                        + (Prefixed(' ', es[0].kept) + Body(es[1..]))
  {
    hide AllClean, Prefixed;
    assert ValidEdit(es[0]);
  }

  lemma InnerChanges(es: seq<Edit>, more: Lines, original: Lines, idx: nat)
    requires es != [] && ValidEdits(es) && NoneBad(es) && !EndsGroup(es)
    requires idx + |es[0].removed| <= |original|
    requires original[idx + |es[0].removed|..] == Terminated(es[0].kept) + Kept(OldLines(es[1..]))
    ensures Patch(Terminated(Body(es)) + more, original, idx) ==
            Prepend(Terminated(es[0].added),
                    Prepend(Terminated(es[0].kept),
                            Patch(Terminated(Body(es[1..])) + more, original, idx + |es[0].removed| + |es[0].kept|)))
  {
    hide AllClean, Good, NoneBad, EndsGroup, Patch, Kept, Terminated, Prefixed, ValidEdits, Body, OldLines,
      NewLines, Prepend;
    var e, rest := es[0], es[1..];
    NoneBadRest(es);
    InnerIs(es);
    ChangesPatched(e, Prefixed(' ', e.kept) + Body(rest), more, original, idx);
    ContextThenBody(e.kept, Body(rest), OldLines(rest), more, original, idx + |e.removed|);
  }

  lemma ContextThenBody(kept: Lines, body: Lines, old_: Lines, more: Lines, original: Lines, idx: nat)
    requires kept != [] && idx <= |original| && original[idx..] == Terminated(kept) + Kept(old_)
    ensures Patch(Terminated(Prefixed(' ', kept) + body) + more, original, idx) ==
            Prepend(Terminated(kept), Patch(Terminated(body) + more, original, idx + |kept|))
  {
    TerminatedConcat(Prefixed(' ', kept), body);
    PatchContext(kept, Terminated(body) + more, original, idx);
    hide Patch, Terminated, Prefixed, Kept;
    assert Terminated(Prefixed(' ', kept) + body) + more == Terminated(Prefixed(' ', kept)) + (Terminated(body) + more);
    assert original[idx..idx + |kept|] == original[idx..][..|kept|] == Terminated(kept);
  }

  lemma LastContext(es: seq<Edit>, more: Lines, original: Lines, idx: nat)
    requires es != [] && ValidEdits(es) && EndsGroup(es) && idx <= |original|
    requires original[idx..] == Kept(es[0].kept + OldLines(es[1..]))
    ensures Kept(es[0].kept + OldLines(es[1..])) == [] <==> !GroupShown(es)
    ensures GroupShown(es) ==>
            && Kept(es[0].kept + NewLines(es[1..])) != []
            && Kept(es[0].kept + OldLines(es[1..]))[0] == Kept(es[0].kept + NewLines(es[1..]))[0]
    ensures Patch(Terminated(Prefixed(' ', es[0].kept[..1])) + more, original, idx) ==
            if GroupShown(es) then Prepend(original[idx..][..1], Patch(more, original, idx + 1)) else None
  {
    var k := es[0].kept;
    OldOrNewEmpty(es[1..]);
    assert |k + OldLines(es[1..])| == 1 <==> |k| == 1 && |es| == 1;
    assert |k + NewLines(es[1..])| == 1 <==> |k| == 1 && |es| == 1;
    PatchContext(k[..1], more, original, idx);
    if idx < |original| {
      assert original[idx..][..1] == original[idx..idx + 1];
    }
  }

  /** The last edit of a group either ends the script or has more than two unchanged lines. */
  lemma {:induction false} GroupLast(es: seq<Edit>)
    requires es != [] && ValidEdits(es)
    ensures GroupSize(es) < |es| ==> |es[GroupSize(es) - 1].kept| > 2
    ensures GroupShown(es) <==> GroupSize(es) < |es| || TailShown(es)
    ensures OldLength(es) > 0
    decreases |es|
  {
    if !EndsGroup(es) {
      GroupLast(es[1..]);
      assert es[GroupSize(es) - 1] == es[1..][GroupSize(es[1..]) - 1];
    }
  }

  lemma DropInto(a: Lines, b: Lines, c: Lines)
    ensures b != [] ==> (a + b + c)[|a| + 1..] == b[1..] + c
  {
  }

  lemma DropPast(a: Lines, b: Lines, c: Lines, m: nat)
    requires m <= |c|
    ensures (a + b + c)[|a| + |b| + m..] == c[m..]
  {
  }

  /** Where a group leaves off in the old text: one unchanged line of its last edit was shown. */
  lemma {:induction false} GroupEndOld(es: seq<Edit>)
    requires es != [] && ValidEdits(es)
    ensures var n := GroupSize(es);
            && |OldLines(es[..n])| == OldLength(es) + |es[n - 1].kept| - 1
            && OldLength(es) <= |OldLines(es)|
            && OldLines(es)[OldLength(es)..] == es[n - 1].kept[1..] + OldLines(es[n..])
    decreases |es|
  {
    hide OldLines, OldLength, GroupSize, EndsGroup, AllClean;
    var e, rest, n := es[0], es[1..], GroupSize(es);
    OldFacts(es);
    OldFacts(es[..n]);
    DropInto(e.removed, e.kept, OldLines(rest));
    assert es[..n][0] == e;
    if EndsGroup(es) {
      assert es[..n][1..] == [];
    } else {
      GroupEndOld(rest);
      DropPast(e.removed, e.kept, OldLines(rest), OldLength(rest));
      assert es[..n][1..] == rest[..n - 1] && es[n..] == rest[n - 1..] && es[n - 1] == rest[n - 2];
    }
  }

  lemma OldFacts(es: seq<Edit>)
    requires es != []
    ensures OldLines(es) == es[0].removed + es[0].kept + OldLines(es[1..]) && OldLines([]) == []
    ensures EndsGroup(es) ==> GroupSize(es) == 1 && OldLength(es) == |es[0].removed| + 1
    ensures !EndsGroup(es) ==> |es| > 1 && GroupSize(es) == 1 + GroupSize(es[1..])
    ensures !EndsGroup(es) ==> OldLength(es) == |es[0].removed| + |es[0].kept| + OldLength(es[1..])
  {
  }

  lemma NewFacts(es: seq<Edit>)
    requires es != []
    ensures NewLines(es) == es[0].added + es[0].kept + NewLines(es[1..]) && NewLines([]) == []
    ensures EndsGroup(es) ==> GroupSize(es) == 1 && NewLength(es) == |es[0].added| + 1
    ensures !EndsGroup(es) ==> |es| > 1 && GroupSize(es) == 1 + GroupSize(es[1..])
    ensures !EndsGroup(es) ==> NewLength(es) == |es[0].added| + |es[0].kept| + NewLength(es[1..])
  {
  }

  /** And in the new one. */
  lemma {:induction false} GroupEndNew(es: seq<Edit>)
    requires es != [] && ValidEdits(es)
    ensures var n := GroupSize(es);
            && |NewLines(es[..n])| == NewLength(es) + |es[n - 1].kept| - 1
            && NewLength(es) <= |NewLines(es)|
            && NewLines(es)[NewLength(es)..] == es[n - 1].kept[1..] + NewLines(es[n..])
    decreases |es|
  {
    hide NewLines, NewLength, GroupSize, EndsGroup, AllClean;
    var e, rest, n := es[0], es[1..], GroupSize(es);
    NewFacts(es);
    NewFacts(es[..n]);
    DropInto(e.added, e.kept, NewLines(rest));
    if EndsGroup(es) {
      assert es[..n][1..] == [];
    } else {
      GroupEndNew(rest);
      DropPast(e.added, e.kept, NewLines(rest), NewLength(rest));
      assert es[..n][1..] == rest[..n - 1] && es[n..] == rest[n - 1..] && es[n - 1] == rest[n - 2];
    }
  }

  lemma SuffixEdits(es: seq<Edit>, n: nat)
    requires n <= |es| && ValidEdits(es) && NoneBad(es)
    ensures ValidEdits(es[n..]) && NoneBad(es[n..])
    ensures n > 0 ==> es[n - 1].kept != []
    ensures n < |es| ==> TailShown(es[n..]) == TailShown(es)
  {
    hide Good, AllClean;
    if n < |es| {
      assert es[n..][|es| - n - 1] == es[|es| - 1];
    }
  }

  function Before(pre: Lines): string {
    if pre == [] then "" else Last(pre)
  }

  /** What patching gives from an intermediate position on: the unchanged lines not copied yet, then
      all the rest of the new text. */
  function Patched(pre: Lines, es: seq<Edit>): Option<Lines>
    requires ValidEdits(es)
  {
    if TailShown(es) then Some(Kept(pre + NewLines(es))) else None
  }

  /** All hunks. `pre` are the unchanged lines not copied yet, the last of them shown as context. */
  lemma {:induction false} HunksPatched(pre: Lines, i: nat, j: nat, es: seq<Edit>, original: Lines, idx: nat)
    requires ValidEdits(es) && NoneBad(es) && i > 0 && j > 0
    requires idx <= |original| && original[idx..] == Kept(pre + OldLines(es))
    requires i == idx + |pre| && (es != [] ==> pre != [])
    ensures Patch(Terminated(Hunks(Before(pre), i, j, es)), original, idx) == Patched(pre, es)
    decreases |es|, 1
  {
    if es == [] {
      assert pre + OldLines(es) == pre + NewLines(es);
    } else {
      HunksStep(pre, i, j, es, original, idx);
    }
  }

  lemma {:induction false} HunksStep(pre: Lines, i: nat, j: nat, es: seq<Edit>, original: Lines, idx: nat)
    requires ValidEdits(es) && NoneBad(es) && i > 0 && j > 0
    requires idx <= |original| && original[idx..] == Kept(pre + OldLines(es))
    requires i == idx + |pre| && es != [] && pre != []
    ensures Patch(Terminated(Hunks(Before(pre), i, j, es)), original, idx) == Patched(pre, es)
    decreases |es|, 0, 1
  {
    hide Patch, Kept, Terminated, Body, OldLines, NewLines, Good, AllClean, GroupShown, OldLength, NewLength,
      Header, Hunks, Patched;
    OldOrNewEmpty(es);
    KeptConcat(pre, OldLines(es));
    KeptConcat(pre, NewLines(es));
    assert original[i..] == Kept(OldLines(es));
    assert original[idx..i] == Terminated(pre);
    GroupLast(es);
    HunksUnfold(pre, i, j, es);
    OneHunk(pre, i, j, es, MoreHunks(i, j, es), original, idx);
    BodyPatched(es, Terminated(MoreHunks(i, j, es)), original, i);
    NextHunks(pre, i, j, es, original);
  }

  lemma HunksUnfold(pre: Lines, i: nat, j: nat, es: seq<Edit>)
    requires es != [] && ValidEdits(es) && i > 0 && j > 0 && pre != []
    ensures Hunks(Before(pre), i, j, es) ==
            [Header(i - 1, 1 + OldLength(es), j - 1, 1 + NewLength(es))] + [" " + Last(pre)] + Body(es)
            + MoreHunks(i, j, es)
  {
    hide Header, Body, OldLines, NewLines, OldLength, NewLength;
  }

  function MoreHunks(i: nat, j: nat, es: seq<Edit>): Lines
    requires es != [] && ValidEdits(es) && i > 0 && j > 0
  {
    var n := GroupSize(es);
    Hunks(Last(es[n - 1].kept), i + |OldLines(es[..n])|, j + |NewLines(es[..n])|, es[n..])
  }

  /** The header and the leading context line. */
  lemma OneHunk(pre: Lines, i: nat, j: nat, es: seq<Edit>, more: Lines, original: Lines, idx: nat)
    requires es != [] && ValidEdits(es) && j > 0 && pre != [] && i == idx + |pre| <= |original|
    requires original[idx..i] == Terminated(pre)
    requires OldLength(es) > 0
    ensures Patch(Terminated([Header(i - 1, 1 + OldLength(es), j - 1, 1 + NewLength(es))] + [" " + Last(pre)]
                             + Body(es) + more),
                  original, idx) ==
            Prepend(Terminated(pre), Patch(Terminated(Body(es)) + Terminated(more), original, i))
  {
    hide Patch, Terminated, Prepend, Header, Body, OldLength, NewLength, ValidEdits;
    OneHeader(i - 1, 1 + OldLength(es), j - 1, 1 + NewLength(es), Last(pre), Body(es), more, original, idx);
    assert original[idx..i - 1] + original[i - 1..i] == original[idx..i];
  }

  lemma TerminatedFour(a: Lines, b: Lines, c: Lines, d: Lines)
    ensures Terminated(a + b + c + d) == Terminated(a) + (Terminated(b) + (Terminated(c) + Terminated(d)))
  {
    hide Terminated;
    TerminatedConcat(a + b + c, d);
    TerminatedConcat(a + b, c);
    TerminatedConcat(a, b);
  }

  lemma OneHeader(i: nat, m: nat, j: nat, n: nat, before: string, body: Lines, more: Lines, original: Lines, idx: nat)
    requires m > 1 && idx <= i < |original|
    ensures Patch(Terminated([Header(i, m, j, n)] + [" " + before] + body + more), original, idx) ==
            Prepend(original[idx..i] + original[i..i + 1], Patch(Terminated(body) + Terminated(more), original, i + 1))
  {
    hide Header, Patch, Terminated, Prefixed;
    var header, context, rest := Header(i, m, j, n), [" " + before], Terminated(body) + Terminated(more);
    Single(header);
    Single(" " + before);
    PrefixedOne(' ', before);
    TerminatedFour([header], context, body, more);
    PatchHeader(i, m, j, n, Terminated(context) + rest, original, idx);
    PatchContext([before], rest, original, i);
    PrependTwice(original[idx..i], original[i..i + 1], Patch(rest, original, i + 1));
  }

  lemma PrefixedOne(c: char, line: string)
    ensures Prefixed(c, [line]) == [[c] + line]
  {
  }

  lemma Single(line: string)
    ensures Terminated([line]) == [line + "\n"]
  {
    assert [line][1..] == [];
  }

  lemma {:induction false} NextHunks(pre: Lines, i: nat, j: nat, es: seq<Edit>, original: Lines)
    requires es != [] && ValidEdits(es) && NoneBad(es) && i > 0 && j > 0 && i <= |original|
    requires original[i..] == Kept(OldLines(es))
    requires GroupShown(es) ==> OldLength(es) <= |Kept(OldLines(es))| && NewLength(es) <= |Kept(NewLines(es))|
    requires Kept(pre + NewLines(es)) == Terminated(pre) + Kept(NewLines(es))
    ensures Prepend(Terminated(pre),
                    if GroupShown(es)
                    then Prepend(Kept(NewLines(es))[..NewLength(es)],
                                 Patch(Terminated(MoreHunks(i, j, es)), original, i + OldLength(es)))
                    else None) == Patched(pre, es)
    decreases |es|, 0, 0
  {
    hide Patch, Kept, Terminated, Body, Good, AllClean, GroupShown, OldLength, NewLength, Header, Hunks,
      OldLines, NewLines, GroupSize, Prepend;
    GroupLast(es);
    var n := GroupSize(es);
    SuffixEdits(es, n);
    if GroupShown(es) {
      var tail := es[n - 1].kept[1..];
      GroupEndOld(es);
      GroupEndNew(es);
      KeptDrop(OldLines(es), OldLength(es));
      KeptDrop(NewLines(es), NewLength(es));
      assert original[i + OldLength(es)..] == Kept(OldLines(es))[OldLength(es)..];
      HunksPatched(tail, i + |OldLines(es[..n])|, j + |NewLines(es[..n])|, es[n..], original, i + OldLength(es));
      MoreIsNext(i, j, es);
      Combine(Terminated(pre), Kept(NewLines(es)), NewLength(es), TailShown(es));
    } else {
      PrependNone(Terminated(pre));
    }
  }

  lemma MoreIsNext(i: nat, j: nat, es: seq<Edit>)
    requires es != [] && ValidEdits(es) && i > 0 && j > 0
    requires GroupSize(es) < |es| ==> |es[GroupSize(es) - 1].kept| > 2
    ensures var n := GroupSize(es);
            MoreHunks(i, j, es) ==
            Hunks(Before(es[n - 1].kept[1..]), i + |OldLines(es[..n])|, j + |NewLines(es[..n])|, es[n..])
  {
    hide OldLines, NewLines, AllClean, Header, Body, OldLength, NewLength, GroupSize;
    var n := GroupSize(es);
    if n < |es| {
      hide Hunks;
      assert Last(es[n - 1].kept[1..]) == Last(es[n - 1].kept);
    } else {
      assert es[n..] == [];
    }
  }

  lemma Combine(a: Lines, b: Lines, n: nat, shown: bool)
    requires n <= |b|
    ensures Prepend(a, Prepend(b[..n], if shown then Some(b[n..]) else None)) == if shown then Some(a + b) else None
  {
    if shown {
      PrependTwice(a, b[..n], Some(b[n..]));
      assert a + b[..n] + b[n..] == a + b;
    }
  }

  lemma {:induction false} TerminatedLast(ls: Lines)
    requires ls != []
    ensures Terminated(ls) == Terminated(ls[..|ls| - 1]) + [Last(ls) + "\n"]
    ensures Last(ls) != "" ==> Kept(ls) == Terminated(ls[..|ls| - 1]) + [Last(ls)]
  {
    var init := ls[..|ls| - 1];
    assert ls == init + [Last(ls)];
    Single(Last(ls));
    TerminatedConcat(init, [Last(ls)]);
    KeptConcat(init, [Last(ls)]);
  }

  /** The text of a final line of context plays no part, so its missing line break does not either. */
  lemma {:induction false} LastContextFree(ds: Lines, a: string, b: string, original: Lines, idx: nat)
    requires a != "" && b != "" && a[0] == ' ' && b[0] == ' '
    ensures Patch(ds + [a], original, idx) == Patch(ds + [b], original, idx)
    decreases |ds|
  {
    if ds == [] {
      assert (ds + [a])[1..] == [] && (ds + [b])[1..] == [];
    } else {
      var line, rest := ds[0], ds[1..];
      assert (ds + [a])[1..] == rest + [a] && (ds + [b])[1..] == rest + [b];
      LastContextFree(rest, a, b, original, idx);
      LastContextFree(rest, a, b, original, idx + 1);
      if StartsWith(line, "@@") && HunkStart(line).Some? && HunkStart(line).value > idx {
        LastContextFree(rest, a, b, original, HunkStart(line).value);
      }
    }
  }

  lemma {:induction false} PrefixedAt(c: char, ls: Lines, k: nat)
    requires k < |ls|
    ensures Prefixed(c, ls)[k] == [c] + ls[k]
    decreases k
  {
    if k > 0 {
      PrefixedAt(c, ls[1..], k - 1);
    }
  }

  /** Every diff line is without a line break of its own, and the last one is context. */
  lemma {:induction false} BodyLines(es: seq<Edit>)
    requires es != [] && ValidEdits(es)
    ensures AllClean(Body(es)) && Body(es) != [] && Last(Body(es)) != "" && Last(Body(es))[0] == ' '
    decreases |es|
  {
    var e := es[0];
    forall k | 0 <= k < |e.removed| ensures Clean(Prefixed('-', e.removed)[k]) { PrefixedAt('-', e.removed, k); }
    forall k | 0 <= k < |e.added| ensures Clean(Prefixed('+', e.added)[k]) { PrefixedAt('+', e.added, k); }
    forall k | 0 <= k < |e.kept| ensures Clean(Prefixed(' ', e.kept)[k]) { PrefixedAt(' ', e.kept, k); }
    PrefixedAt(' ', e.kept[..1], 0);
    if !EndsGroup(es) {
      BodyLines(es[1..]);
    }
  }

  lemma HeaderClean(i: nat, m: nat, j: nat, n: nat)
    ensures Clean(Header(i, m, j, n))
  {
    hide Decimal;
    forall k: nat ensures Clean(Decimal(k)) {
      assert forall x | x in Decimal(k) :: IsDigit(x);
    }
  }

  lemma {:induction false} HunkLines(before: string, i: nat, j: nat, es: seq<Edit>)
    requires es != [] && ValidEdits(es) && i > 0 && j > 0 && Clean(before)
    ensures var ds := Hunks(before, i, j, es);
            AllClean(ds) && ds != [] && Last(ds) != "" && Last(ds)[0] == ' '
    decreases |es|
  {
    hide Header, Body, OldLines, NewLines, OldLength, NewLength, AllClean, Clean;
    var n := GroupSize(es);
    var header := Header(i - 1, 1 + OldLength(es), j - 1, 1 + NewLength(es));
    HeaderClean(i - 1, 1 + OldLength(es), j - 1, 1 + NewLength(es));
    BodyLines(es);
    ContextClean(before);
    CleanConcat([header], [" " + before]);
    CleanConcat([header] + [" " + before], Body(es));
    var first := [header] + [" " + before] + Body(es);
    assert Last(first) == Last(Body(es));
    assert Hunks(before, i, j, es) == first + MoreHunks(i, j, es);
    CleanConcat(first, MoreHunks(i, j, es));
    if n < |es| {
      LastKeptClean(es, n);
      HunkLines(Last(es[n - 1].kept), i + |OldLines(es[..n])|, j + |NewLines(es[..n])|, es[n..]);
      assert Last(first + MoreHunks(i, j, es)) == Last(MoreHunks(i, j, es));
    } else {
      assert MoreHunks(i, j, es) == [] && first + [] == first;
    }
  }

  lemma LastKeptClean(es: seq<Edit>, n: nat)
    requires ValidEdits(es) && 0 < n <= |es|
    ensures es[n - 1].kept != [] && Clean(Last(es[n - 1].kept)) && ValidEdits(es[n..])
  {
    assert ValidEdit(es[n - 1]);
  }

  lemma ContextClean(line: string)
    requires Clean(line)
    ensures Clean(" " + line)
  {
  }

  lemma CleanConcat(a: Lines, b: Lines)
    ensures AllClean(a + b) <==> AllClean(a) && AllClean(b)
    ensures forall line :: AllClean([line]) <==> Clean(line)
    ensures AllClean([])
  {
    assert forall i | 0 <= i < |a| :: (a + b)[i] == a[i];
    assert forall i | 0 <= i < |b| :: (a + b)[|a| + i] == b[i];
    forall line ensures AllClean([line]) <==> Clean(line) {
      assert [line][0] == line;
    }
  }

  /** For any edit script between texts that begin and end alike, whose removed lines do not start
      with "--" and whose added lines do not start with "++", the patcher turns the current text into
      the lines of the snapshot; unless the last line shown is the empty one behind a final line
      break, where it raises. Equal texts print no diff and come back as they are. */
  lemma RoundTrip(s: Script)
    requires ValidScript(s) && NoneBad(s.edits)
    ensures Patch(SplitLines(Join(Diff(s)), ""), SplitLines(Join(Current(s)), ""), 0) ==
            if TailShown(s.edits) then Some(Kept(Snapshot(s))) else None
  {
    CurrentClean(s);
    SplitJoined(Current(s));
    var original := Kept(Current(s));
    if s.edits == [] {
      assert Current(s) == Snapshot(s);
    } else {
      var hunks := Hunks(Last(s.lead), |s.lead|, |s.lead|, s.edits);
      HunkLines(Last(s.lead), |s.lead|, |s.lead|, s.edits);
      HunksPatched(s.lead, |s.lead|, |s.lead|, s.edits, original, 0);
      hide Hunks, OldLines, NewLines, Kept, Terminated, Good;
      DiffRead(hunks, original);
    }
  }

  lemma DiffRead(hunks: Lines, original: Lines)
    requires AllClean(hunks) && hunks != [] && Last(hunks) != "" && Last(hunks)[0] == ' '
    ensures Patch(SplitLines(Join(["--- current", "+++ snapshot"] + hunks), ""), original, 0) ==
            Patch(Terminated(hunks), original, 0)
  {
    var files := ["--- current", "+++ snapshot"];
    FileLines();
    hide Clean, Terminated, Kept, Patch, SplitLines, Join;
    CleanConcat(files, hunks);
    SplitJoined(files + hunks);
    KeptConcat(files, hunks);
    TerminatedLast(hunks);
    LastContextFree(Terminated(hunks[..|hunks| - 1]), Last(hunks), Last(hunks) + "\n", original, 0);
    FilesSkipped(Kept(hunks), original);
  }

  lemma FileLines()
    ensures AllClean(["--- current", "+++ snapshot"])
    ensures Terminated(["--- current", "+++ snapshot"]) == ["--- current\n", "+++ snapshot\n"]
  {
    assert ["--- current", "+++ snapshot"] == ["--- current"] + ["+++ snapshot"];
    TerminatedConcat(["--- current"], ["+++ snapshot"]);
    Single("--- current");
    Single("+++ snapshot");
    assert "--- current" + "\n" == "--- current\n" && "+++ snapshot" + "\n" == "+++ snapshot\n";
  }

  lemma FilesSkipped(rest: Lines, original: Lines)
    ensures Patch(["--- current\n", "+++ snapshot\n"] + rest, original, 0) == Patch(rest, original, 0)
  {
    var a, b := "--- current\n", "+++ snapshot\n";
    var all := [a, b] + rest;
    assert all[0] == a && all[1..] == [b] + rest && all[1..][0] == b && all[1..][1..] == rest;
    assert StartsWith(a, "---") && StartsWith(b, "+++");
  }

  lemma {:induction false} OldClean(es: seq<Edit>)
    requires ValidEdits(es)
    ensures AllClean(OldLines(es)) && AllClean(NewLines(es))
    decreases |es|
  {
    if es != [] {
      OldClean(es[1..]);
    }
  }

  lemma CurrentClean(s: Script)
    requires ValidScript(s)
    ensures AllClean(Current(s)) && AllClean(Snapshot(s)) && Clean(Last(s.lead))
  {
    OldClean(s.edits);
  }

  /** So the receiver rebuilds the snapshot's text, without the white space around it. */
  lemma TextRoundTrip(s: Script)
    requires ValidScript(s) && NoneBad(s.edits) && TailShown(s.edits)
    ensures var patched := Patch(SplitLines(Join(Diff(s)), ""), SplitLines(Join(Current(s)), ""), 0);
            patched.Some? && IsCore(Join(Snapshot(s)), Strip(Concat(patched.value)))
  {
    StripIsCore(Join(Snapshot(s)));
    RoundTrip(s);
    ConcatKept(Snapshot(s));
  }

  // When it fails: counting lines

  function Count(p: string -> bool, ls: Lines): nat {
    if ls == [] then 0 else (if p(ls[0]) then 1 else 0) + Count(p, ls[1..])
  }

  lemma {:induction false} CountConcat(p: string -> bool, a: Lines, b: Lines)
    ensures Count(p, a + b) == Count(p, a) + Count(p, b)
    decreases |a|
  {
    if a == [] {
      assert a + b == b;
    } else {
      assert (a + b)[1..] == a[1..] + b;
      CountConcat(p, a[1..], b);
    }
  }

  lemma {:induction false} CountBound(p: string -> bool, ls: Lines)
    ensures Count(p, ls) <= |ls|
    ensures (forall k | 0 <= k < |ls| :: !p(ls[k])) <==> Count(p, ls) == 0
    ensures (forall k | 0 <= k < |ls| :: p(ls[k])) <==> Count(p, ls) == |ls|
  {
    if ls != [] {
      CountBound(p, ls[1..]);
      assert forall k | 0 <= k < |ls| - 1 :: ls[1..][k] == ls[k + 1];
      assert forall k | 0 < k < |ls| :: ls[k] == ls[1..][k - 1];
    }
  }

  const IS_MINUS: string -> bool := line => StartsWith(line, "-") && !StartsWith(line, "---")
  const IS_PLUS: string -> bool := line => StartsWith(line, "+") && !StartsWith(line, "+++")
  const FINE: string -> bool := line => !BadRemoved(line)
  const PLUSES: string -> bool := line => BadAdded(line)

  const KIND: string -> bool := line => !BadAdded(line)

  const FINE_REMOVED: Edit -> nat := (e: Edit) => Count(FINE, e.removed)
  const KIND_ADDED: Edit -> nat := (e: Edit) => Count(KIND, e.added)

  function Total(f: Edit -> nat, es: seq<Edit>): nat {
    if es == [] then 0 else f(es[0]) + Total(f, es[1..])
  }

  lemma {:induction false} TotalConcat(f: Edit -> nat, es: seq<Edit>, n: nat)
    requires n <= |es|
    ensures Total(f, es) == Total(f, es[..n]) + Total(f, es[n..])
  {
    if n == 0 {
      assert es[n..] == es;
    } else {
      TotalConcat(f, es[1..], n - 1);
      assert es[1..][..n - 1] == es[..n][1..] && es[1..][n - 1..] == es[n..];
    }
  }

  /** A line break at the end of a line changes no count. */
  lemma Breaks(line: string)
    ensures IS_MINUS(line + "\n") == IS_MINUS(line) && IS_PLUS(line + "\n") == IS_PLUS(line)
    ensures PLUSES(line + "\n") == PLUSES(line)
  {
    PrefixBreak(line, "-");
    PrefixBreak(line, "---");
    PrefixBreak(line, "+");
    PrefixBreak(line, "++");
    PrefixBreak(line, "+++");
  }

  lemma PrefixBreak(line: string, prefix: string)
    requires forall k | 0 <= k < |prefix| :: prefix[k] != '\n'
    ensures StartsWith(line + "\n", prefix) == StartsWith(line, prefix)
  {
    if |prefix| > |line| {
      assert (line + "\n")[|line|] != prefix[|line|];
    }
  }

  lemma {:induction false} CountKept(ls: Lines)
    ensures Count(PLUSES, Kept(ls)) == Count(PLUSES, ls)
    ensures Count(IS_MINUS, Kept(ls)) == Count(IS_MINUS, ls)
    ensures Count(IS_PLUS, Kept(ls)) == Count(IS_PLUS, ls)
    ensures |Kept(ls)| == |ls| - if ls != [] && Last(ls) == "" then 1 else 0
  {
    if |ls| > 1 {
      CountKept(ls[1..]);
      Breaks(ls[0]);
      assert Kept(ls)[1..] == Kept(ls[1..]);
    } else if |ls| == 1 {
      assert ls[1..] == [] && [ls[0]][1..] == [];
    }
  }

  function From(original: Lines, idx: nat): Lines {
    if idx <= |original| then original[idx..] else []
  }

  lemma FromNext(p: string -> bool, original: Lines, idx: nat, n: nat)
    requires idx <= n
    ensures n <= |original| ==>
              Count(p, From(original, idx)) == Count(p, original[idx..n]) + Count(p, From(original, n))
    ensures Count(p, From(original, idx)) >= Count(p, From(original, n))
  {
    hide Count;
    CountNone(p);
    if n <= |original| {
      CountConcat(p, original[idx..n], original[n..]);
      assert original[idx..n] + original[n..] == original[idx..];
    }
  }

  lemma CountNone(p: string -> bool)
    ensures Count(p, []) == 0
  {
  }

  lemma CountOne(p: string -> bool, line: string)
    ensures Count(p, [line]) == if p(line) then 1 else 0
  {
    assert [line][1..] == [];
  }

  /** Whatever the diff, the patcher emits no line starting with "++" that was not in the original. */
  lemma {:induction false} NoNewPluses(ds: Lines, original: Lines, idx: nat)
    requires Patch(ds, original, idx).Some?
    ensures Count(PLUSES, Patch(ds, original, idx).value) <= Count(PLUSES, From(original, idx))
    decreases |ds|
  {
    if ds != [] {
      var line, rest := ds[0], ds[1..];
      if StartsWith(line, "---") || StartsWith(line, "+++") {
        NoNewPluses(rest, original, idx);
      } else if StartsWith(line, "@@") {
        var start := HunkStart(line).value;
        if start <= idx {
          NoNewPluses(rest, original, idx);
        } else {
          NoNewPluses(rest, original, start);
          CountConcat(PLUSES, original[idx..start], Patch(rest, original, start).value);
          FromNext(PLUSES, original, idx, start);
        }
      } else if StartsWith(line, "-") {
        NoNewPluses(rest, original, idx + 1);
        FromNext(PLUSES, original, idx, idx + 1);
      } else if StartsWith(line, "+") {
        NoNewPluses(rest, original, idx);
        CountConcat(PLUSES, [line[1..]], Patch(rest, original, idx).value);
        AddedPlus(line);
      } else {
        NoNewPluses(rest, original, idx + 1);
        CountConcat(PLUSES, [original[idx]], Patch(rest, original, idx + 1).value);
        FromNext(PLUSES, original, idx, idx + 1);
        assert original[idx..idx + 1] == [original[idx]];
      }
    }
  }

  lemma AddedPlus(line: string)
    requires StartsWith(line, "+") && !StartsWith(line, "+++")
    ensures Count(PLUSES, [line[1..]]) == 0
  {
    var added := line[1..];
    var none: Lines := [];
    assert line == ['+'] + added && [added][1..] == none;
    Tripled('+', added);
  }

  /** Whatever the diff, the patcher drops at most one line for each removal it recognises. */
  lemma {:induction false} LengthBound(ds: Lines, original: Lines, idx: nat)
    requires Patch(ds, original, idx).Some?
    ensures |Patch(ds, original, idx).value| >= |original| - idx - Count(IS_MINUS, ds) + Count(IS_PLUS, ds)
    decreases |ds|
  {
    if ds != [] {
      var line, rest := ds[0], ds[1..];
      if StartsWith(line, "---") || StartsWith(line, "+++") {
        LengthBound(rest, original, idx);
        Exclusive(line);
      } else if StartsWith(line, "@@") {
        Exclusive(line);
        var start := HunkStart(line).value;
        LengthBound(rest, original, if start <= idx then idx else start);
      } else if StartsWith(line, "-") {
        Exclusive(line);
        LengthBound(rest, original, idx + 1);
      } else if StartsWith(line, "+") {
        Exclusive(line);
        LengthBound(rest, original, idx);
      } else {
        LengthBound(rest, original, idx + 1);
      }
    }
  }

  lemma Exclusive(line: string)
    ensures StartsWith(line, "---") ==> StartsWith(line, "-")
    ensures StartsWith(line, "+++") ==> StartsWith(line, "+")
    ensures StartsWith(line, "-") ==> !StartsWith(line, "+")
    ensures StartsWith(line, "@@") ==> !StartsWith(line, "-") && !StartsWith(line, "+")
  {
    assert forall c: char :: StartsWith(line, [c]) ==> line[0] == c;
    assert StartsWith(line, "@@") ==> line[0] == '@';
  }

  lemma {:induction false} CountPrefixed(ls: Lines)
    ensures Count(IS_MINUS, Prefixed('-', ls)) == Count(FINE, ls) && Count(IS_PLUS, Prefixed('-', ls)) == 0
    ensures Count(IS_PLUS, Prefixed('+', ls)) == Count(KIND, ls) && Count(IS_MINUS, Prefixed('+', ls)) == 0
    ensures Count(IS_MINUS, Prefixed(' ', ls)) == 0 && Count(IS_PLUS, Prefixed(' ', ls)) == 0
  {
    if ls != [] {
      CountPrefixed(ls[1..]);
      Tripled('-', ls[0]);
      Tripled('+', ls[0]);
      assert ([' '] + ls[0])[0] == ' ';
    }
  }

  lemma Tripled(c: char, line: string)
    ensures StartsWith([c] + line, [c, c, c]) == StartsWith(line, [c, c])
    ensures ([c] + line)[0] == c && StartsWith([c] + line, [c])
  {
    if |line| >= 2 {
      assert line[..2] == [line[0], line[1]] && ([c] + line)[..3] == [c, line[0], line[1]];
      assert StartsWith(line, [c, c]) <==> line[..2] == [c, c];
      assert StartsWith([c] + line, [c, c, c]) <==> ([c] + line)[..3] == [c, c, c];
    }
  }

  lemma {:induction false} CountBody(es: seq<Edit>)
    requires es != [] && ValidEdits(es)
    ensures Count(IS_MINUS, Body(es)) == Total(FINE_REMOVED, es[..GroupSize(es)])
    ensures Count(IS_PLUS, Body(es)) == Total(KIND_ADDED, es[..GroupSize(es)])
    decreases |es|
  {
    hide Count, Prefixed, AllClean;
    var e, n := es[0], GroupSize(es);
    CountPrefixed(e.removed);
    CountPrefixed(e.added);
    CountPrefixed(e.kept);
    CountPrefixed(e.kept[..1]);
    var changes := Prefixed('-', e.removed) + Prefixed('+', e.added);
    var rest := if EndsGroup(es) then Prefixed(' ', e.kept[..1]) else Prefixed(' ', e.kept) + Body(es[1..]);
    CountTwo(Prefixed('-', e.removed), Prefixed('+', e.added));
    CountTwo(changes, rest);
    assert es[..n][0] == e;
    if EndsGroup(es) {
      assert es[..n][1..] == [];
    } else {
      CountBody(es[1..]);
      CountTwo(Prefixed(' ', e.kept), Body(es[1..]));
      assert es[..n][1..] == es[1..][..n - 1];
    }
  }

  /** The lengths in a header count the lines the hunk shows of the old text, and of the new one. */
  lemma {:induction false} HeaderCounts(es: seq<Edit>)
    requires es != [] && ValidEdits(es)
    ensures OldLength(es) + Count(Starts('+'), Body(es)) == |Body(es)|
    ensures NewLength(es) + Count(Starts('-'), Body(es)) == |Body(es)|
    decreases |es|
  {
    var e := es[0];
    var changes := Prefixed('-', e.removed) + Prefixed('+', e.added);
    var rest := if EndsGroup(es) then Prefixed(' ', e.kept[..1]) else Prefixed(' ', e.kept) + Body(es[1..]);
    assert Body(es) == changes + rest;
    forall c: char ensures Count(Starts(c), Body(es)) ==
      Count(Starts(c), Prefixed('-', e.removed)) + Count(Starts(c), Prefixed('+', e.added)) + Count(Starts(c), rest)
    {
      CountConcat(Starts(c), Prefixed('-', e.removed), Prefixed('+', e.added));
      CountConcat(Starts(c), changes, rest);
    }
    forall c, d, ls ensures Count(Starts(c), Prefixed(d, ls)) == if c == d then |ls| else 0 {
      CountStarts(c, d, ls);
    }
    if !EndsGroup(es) {
      HeaderCounts(es[1..]);
      CountConcat(Starts('+'), Prefixed(' ', e.kept), Body(es[1..]));
      CountConcat(Starts('-'), Prefixed(' ', e.kept), Body(es[1..]));
    }
  }

  function Starts(c: char): string -> bool {
    (line: string) => line != "" && line[0] == c
  }

  lemma {:induction false} CountStarts(c: char, d: char, ls: Lines)
    ensures Count(Starts(c), Prefixed(d, ls)) == if c == d then |ls| else 0
    decreases |ls|
  {
    if ls != [] {
      CountStarts(c, d, ls[1..]);
      assert ([d] + ls[0])[0] == d;
    }
  }

  lemma CountTwo(a: Lines, b: Lines)
    ensures Count(IS_MINUS, a + b) == Count(IS_MINUS, a) + Count(IS_MINUS, b)
    ensures Count(IS_PLUS, a + b) == Count(IS_PLUS, a) + Count(IS_PLUS, b)
  {
    CountConcat(IS_MINUS, a, b);
    CountConcat(IS_PLUS, a, b);
  }

  lemma CountHead(i: nat, m: nat, j: nat, n: nat, before: string)
    ensures var head := [Header(i, m, j, n)] + [" " + before];
            Count(IS_MINUS, head) == 0 && Count(IS_PLUS, head) == 0
  {
    var h: string, c: string := Header(i, m, j, n), " " + before;
    var none: Lines := [];
    assert h[0] == '@' && c[0] == ' ';
    assert [h][1..] == none && [c][1..] == none;
    CountTwo([h], [c]);
  }

  lemma CountNoHunks(before: string, i: nat, j: nat)
    requires i > 0 && j > 0
    ensures ValidEdits([]) && Hunks(before, i, j, []) == []
    ensures Count(IS_MINUS, []) == 0 && Count(IS_PLUS, []) == 0 && Total(FINE_REMOVED, []) == 0
    ensures Total(KIND_ADDED, []) == 0
  {
  }

  lemma {:induction false} CountHunks(before: string, i: nat, j: nat, es: seq<Edit>)
    requires ValidEdits(es) && i > 0 && j > 0
    ensures Count(IS_MINUS, Hunks(before, i, j, es)) == Total(FINE_REMOVED, es)
    ensures Count(IS_PLUS, Hunks(before, i, j, es)) == Total(KIND_ADDED, es)
    decreases |es|
  {
    hide Count, Total, Hunks, GroupSize, ValidEdits, Last;
    if es == [] {
      CountNoHunks(before, i, j);
    } else {
      var n := GroupSize(es);
      LastKeptClean(es, n);
      CountHunks(Last(es[n - 1].kept), i + |OldLines(es[..n])|, j + |NewLines(es[..n])|, es[n..]);
      CountFirstHunk(before, i, j, es);
      TotalConcat(FINE_REMOVED, es, n);
      TotalConcat(KIND_ADDED, es, n);
    }
  }

  lemma CountFirstHunk(before: string, i: nat, j: nat, es: seq<Edit>)
    requires es != [] && ValidEdits(es) && i > 0 && j > 0
    ensures Count(IS_MINUS, Hunks(before, i, j, es)) ==
            Total(FINE_REMOVED, es[..GroupSize(es)]) + Count(IS_MINUS, MoreHunks(i, j, es))
    ensures Count(IS_PLUS, Hunks(before, i, j, es)) ==
            Total(KIND_ADDED, es[..GroupSize(es)]) + Count(IS_PLUS, MoreHunks(i, j, es))
  {
    hide Header, Body, OldLength, NewLength, Count, Total, GroupSize, MoreHunks, Hunks, ValidEdits;
    HunksUnfold([before], i, j, es);
    var head := [Header(i - 1, 1 + OldLength(es), j - 1, 1 + NewLength(es))] + [" " + before];
    CountHead(i - 1, 1 + OldLength(es), j - 1, 1 + NewLength(es), before);
    CountBody(es);
    CountTwo(head, Body(es));
    CountTwo(head + Body(es), MoreHunks(i, j, es));
  }

  const BAD_REMOVALS: Edit -> nat := (e: Edit) => Count(line => BadRemoved(line), e.removed)
  const BAD_ADDITIONS: Edit -> nat := (e: Edit) => Count(PLUSES, e.added)

  lemma {:induction false} CountOthers(ls: Lines)
    ensures Count(FINE, ls) + Count(line => BadRemoved(line), ls) == |ls|
    ensures Count(KIND, ls) + Count(PLUSES, ls) == |ls|
  {
    if ls != [] {
      CountOthers(ls[1..]);
    }
  }

  lemma BadEdit(e: Edit)
    ensures FINE_REMOVED(e) + BAD_REMOVALS(e) == |e.removed| && KIND_ADDED(e) + BAD_ADDITIONS(e) == |e.added|
    ensures Good(e) <==> BAD_REMOVALS(e) == 0 && BAD_ADDITIONS(e) == 0
  {
    CountOthers(e.removed);
    CountOthers(e.added);
    CountBound(line => BadRemoved(line), e.removed);
    CountBound(PLUSES, e.added);
  }

  const REMOVED_PLUSES: Edit -> nat := (e: Edit) => Count(PLUSES, e.removed)

  /** At least one line starting with "++" is added, and as many are removed, with no more lines starting
      with "--" removed than that: what the patcher fails to add and to remove may then be the same. */
  predicate MayCancel(es: seq<Edit>) {
    && 0 < Total(BAD_ADDITIONS, es) <= Total(REMOVED_PLUSES, es)
    && Total(BAD_REMOVALS, es) <= Total(BAD_ADDITIONS, es)
  }

  /** The texts differ by what the edits remove and add. */
  lemma {:induction false} OldAndNew(es: seq<Edit>)
    requires ValidEdits(es)
    ensures |NewLines(es)| + Total(FINE_REMOVED, es) + Total(BAD_REMOVALS, es) ==
            |OldLines(es)| + Total(KIND_ADDED, es) + Total(BAD_ADDITIONS, es)
    ensures Count(PLUSES, NewLines(es)) + Total(REMOVED_PLUSES, es) ==
            Count(PLUSES, OldLines(es)) + Total(BAD_ADDITIONS, es)
    ensures NoneBad(es) <==> Total(BAD_REMOVALS, es) == 0 && Total(BAD_ADDITIONS, es) == 0
    ensures es != [] ==> NewLines(es) != [] && OldLines(es) != [] && Last(NewLines(es)) == Last(OldLines(es))
    decreases |es|
  {
    if es != [] {
      var e, rest := es[0], es[1..];
      BadEdit(e);
      EditPluses(e, OldLines(rest), NewLines(rest));
      OldAndNew(rest);
      NoneBadCons(es);
      hide Good, Count;
      assert ValidEdit(e);
      if rest == [] {
        assert OldLines(es) == e.removed + e.kept && NewLines(es) == e.added + e.kept;
      }
    }
  }

  lemma NoneBadCons(es: seq<Edit>)
    requires es != []
    ensures NoneBad(es) <==> Good(es[0]) && NoneBad(es[1..])
  {
    hide Good;
    assert forall i | 0 < i < |es| :: es[i] == es[1..][i - 1];
  }

  lemma EditPluses(e: Edit, old_: Lines, new_: Lines)
    ensures Count(PLUSES, e.removed + e.kept + old_) ==
        Count(PLUSES, e.removed) + Count(PLUSES, e.kept) + Count(PLUSES, old_)
    ensures Count(PLUSES, e.added + e.kept + new_) ==
        Count(PLUSES, e.added) + Count(PLUSES, e.kept) + Count(PLUSES, new_)
  {
    CountConcat(PLUSES, e.removed + e.kept, old_);
    CountConcat(PLUSES, e.removed, e.kept);
    CountConcat(PLUSES, e.added + e.kept, new_);
    CountConcat(PLUSES, e.added, e.kept);
  }

  /** The two texts end alike, so both or neither lose an empty last line. */
  lemma TextCounts(s: Script)
    requires ValidScript(s)
    ensures |Kept(Snapshot(s))| + Total(FINE_REMOVED, s.edits) + Total(BAD_REMOVALS, s.edits) ==
            |Kept(Current(s))| + Total(KIND_ADDED, s.edits) + Total(BAD_ADDITIONS, s.edits)
    ensures Count(PLUSES, Kept(Snapshot(s))) + Total(REMOVED_PLUSES, s.edits) ==
            Count(PLUSES, Kept(Current(s))) + Total(BAD_ADDITIONS, s.edits)
  {
    OldAndNew(s.edits);
    CountKept(Snapshot(s));
    CountKept(Current(s));
    CountConcat(PLUSES, s.lead, OldLines(s.edits));
    CountConcat(PLUSES, s.lead, NewLines(s.edits));
    assert Last(Snapshot(s)) == Last(Current(s));
  }

  lemma DiffCounts(s: Script)
    requires ValidScript(s)
    ensures Count(IS_MINUS, SplitLines(Join(Diff(s)), "")) == Total(FINE_REMOVED, s.edits)
    ensures Count(IS_PLUS, SplitLines(Join(Diff(s)), "")) == Total(KIND_ADDED, s.edits)
  {
    if s.edits == [] {
      assert Diff(s) == [] && Join([]) == "" && SplitLines("", "") == [];
    } else {
      SomeDiffCounts(s);
    }
  }

  lemma CountFiles()
    ensures var files := ["--- current", "+++ snapshot"]; Count(IS_MINUS, files) == 0 && Count(IS_PLUS, files) == 0
  {
    var old_: string, new_: string := "--- current", "+++ snapshot";
    hide Count;
    assert old_[0] == '-' && new_[0] == '+';
    assert StartsWith(old_, "---") && StartsWith(new_, "+++");
    CountOne(IS_MINUS, old_);
    CountOne(IS_MINUS, new_);
    CountOne(IS_PLUS, old_);
    CountOne(IS_PLUS, new_);
    CountTwo([old_], [new_]);
    assert [old_] + [new_] == ["--- current", "+++ snapshot"];
  }

  lemma SomeDiffCounts(s: Script)
    requires ValidScript(s) && s.edits != []
    ensures Count(IS_MINUS, SplitLines(Join(Diff(s)), "")) == Total(FINE_REMOVED, s.edits)
    ensures Count(IS_PLUS, SplitLines(Join(Diff(s)), "")) == Total(KIND_ADDED, s.edits)
  {
    hide Hunks, Clean, AllClean, Kept, SplitLines, Join, Total, Count, ValidEdits;
    CurrentClean(s);
    var files, hunks := ["--- current", "+++ snapshot"], Hunks(Last(s.lead), |s.lead|, |s.lead|, s.edits);
    HunkLines(Last(s.lead), |s.lead|, |s.lead|, s.edits);
    CountHunks(Last(s.lead), |s.lead|, |s.lead|, s.edits);
    FileLines();
    CleanConcat(files, hunks);
    assert Diff(s) == files + hunks;
    SplitJoined(files + hunks);
    CountKept(files + hunks);
    CountTwo(files, hunks);
    CountFiles();
  }

  /** Unless mistakes may cancel, the patcher returns the snapshot's lines if and only if no removed line
      starts with "--", no added line starts with "++", and the last line shown is not the empty one
      behind a final line break. */
  lemma RoundTripExact(s: Script)
    requires ValidScript(s) && !MayCancel(s.edits)
    ensures Patch(SplitLines(Join(Diff(s)), ""), SplitLines(Join(Current(s)), ""), 0) == Some(Kept(Snapshot(s))) <==>
            NoneBad(s.edits) && TailShown(s.edits)
  {
    if NoneBad(s.edits) {
      RoundTrip(s);
    } else {
      var ds, original := SplitLines(Join(Diff(s)), ""), SplitLines(Join(Current(s)), "");
      assert original[0..] == original;
      if Patch(ds, original, 0) == Some(Kept(Snapshot(s))) {
        CurrentClean(s);
        SplitJoined(Current(s));
        NoNewPluses(ds, original, 0);
        LengthBound(ds, original, 0);
        TextCounts(s);
        DiffCounts(s);
        OldAndNew(s.edits);
        hide NoneBad, Total, Count;
        assert false;
      }
    }
  }

  // Mistakes that do cancel

  /** A line starting with "--" is removed before one starting with "++", which is then added back. */
  function Cancelling(a: string, b: string, c: string, d: string): Script {
    Script([c], [Edit(["--" + a, "++" + b], ["++" + b], [d])])
  }

  lemma PatchOver(line: string, more: Lines, original: Lines, idx: nat)
    ensures StartsWith(line, "---") || StartsWith(line, "+++") ==>
              Patch([line] + more, original, idx) == Patch(more, original, idx)
    ensures StartsWith(line, "-") && !StartsWith(line, "---") ==>
              Patch([line] + more, original, idx) == Patch(more, original, idx + 1)
  {
    assert ([line] + more)[1..] == more;
    if StartsWith(line, "-") {
      assert line[0] == '-';
      assert !StartsWith(line, "+++") && !StartsWith(line, "@@");
    }
  }

  lemma CancellingLines(a: string, b: string, c: string, d: string)
    requires Clean(a) && Clean(b) && Clean(c) && Clean(d)
    ensures var s, es := Cancelling(a, b, c, d), Cancelling(a, b, c, d).edits;
      && ValidScript(s) && !NoneBad(es)
      && OldLines(es) == ["--" + a] + (["++" + b] + [d]) && NewLines(es) == ["++" + b] + [d]
      && Body(es) == ["-" + ("--" + a)] + (["-" + ("++" + b)] + (["+" + ("++" + b)] + [" " + d]))
      && MoreHunks(1, 1, es) == []
  {
    var es := Cancelling(a, b, c, d).edits;
    var e := es[0];
    assert es[1..] == [] && EndsGroup(es) && GroupSize(es) == 1;
    assert !Good(e) by {
      assert BadRemoved(e.removed[0]);
    }
    assert e.removed[1..] == ["++" + b] && e.removed == ["--" + a] + ["++" + b];
    PrefixedOne(' ', d);
    PrefixedOne('-', "++" + b);
    PrefixedOne('+', "++" + b);
    assert Prefixed('-', e.removed) == ["-" + ("--" + a)] + Prefixed('-', e.removed[1..]);
    assert e.kept[..1] == [d];
  }

  lemma CancellingBody(a: string, b: string, d: string, original: Lines)
    requires |original| > 2
    ensures Patch(["-" + ("--" + a) + "\n"] + (["-" + ("++" + b) + "\n"]
                  + (["+" + ("++" + b) + "\n"] + [" " + d + "\n"])), original, 1)
            == Some(original[2..])
  {
    hide Patch;
    var first, second, third := "-" + ("--" + a) + "\n", "-" + ("++" + b) + "\n", "+" + ("++" + b) + "\n";
    assert first[..3] == "---" && third[..3] == "+++" && second[..1] == "-" && second[1] == '+';
    assert StartsWith(first, "---") && StartsWith(third, "+++");
    assert StartsWith(second, "-") && !StartsWith(second, "---");
    PatchOver(first, [second] + ([third] + [" " + d + "\n"]), original, 1);
    PatchOver(second, [third] + [" " + d + "\n"], original, 1);
    PatchOver(third, [" " + d + "\n"], original, 2);
    PatchSpace(d, [], original, 2);
    assert [" " + d + "\n"] + [] == [" " + d + "\n"];
    PatchNothing(original, 3);
    assert [original[2]] + original[3..] == original[2..];
  }

  lemma CancellingKept(a: string, b: string, c: string, d: string)
    ensures var original, back := Kept([c] + (["--" + a] + (["++" + b] + [d]))), Kept(["++" + b] + [d]);
      && |original| > 2 && original[..1] == Terminated([c]) && original[2..] == back
      && Kept([c] + (["++" + b] + [d])) == Terminated([c]) + back
  {
    var back := ["++" + b] + [d];
    KeptConcat([c], ["--" + a] + back);
    KeptConcat(["--" + a], back);
    KeptConcat([c], back);
    KeptHead(back);
  }

  lemma PatchNothing(original: Lines, idx: nat)
    requires idx <= |original|
    ensures Patch([], original, idx) == Some(original[idx..])
  {
  }

  /** Both mistakes are made, and cancel out: bad lines alone do not make the patcher fail. */
  lemma MistakesCancel(a: string, b: string, c: string, d: string)
    requires Clean(a) && Clean(b) && Clean(c) && Clean(d)
    ensures var s := Cancelling(a, b, c, d);
      && ValidScript(s) && !NoneBad(s.edits)
      && Patch(SplitLines(Join(Diff(s)), ""), SplitLines(Join(Current(s)), ""), 0) == Some(Kept(Snapshot(s)))
  {
    hide Patch, Header, Kept, Terminated, Join, SplitLines, Hunks, Body, OldLines, NewLines, MoreHunks, Clean;
    var s := Cancelling(a, b, c, d);
    var es, original := s.edits, Kept(Current(s));
    CancellingLines(a, b, c, d);
    CurrentClean(s);
    SplitJoined(Current(s));
    HunkLines(c, 1, 1, es);
    DiffRead(Hunks(c, 1, 1, es), original);
    HunksUnfold([c], 1, 1, es);
    CancellingKept(a, b, c, d);
    OneHunk([c], 1, 1, es, [], original, 0);
    TerminatedFour(["-" + ("--" + a)], ["-" + ("++" + b)], ["+" + ("++" + b)], [" " + d]);
    Single("-" + ("--" + a));
    Single("-" + ("++" + b));
    Single("+" + ("++" + b));
    Single(" " + d);
    CancellingBody(a, b, d, original);
    var w, x, y, z := ["-" + ("--" + a)], ["-" + ("++" + b)], ["+" + ("++" + b)], [" " + d];
    assert w + x + y + z == w + (x + (y + z));
    assert Terminated(Body(es)) + Terminated([]) == Terminated(Body(es));
    assert Patch(Terminated(Body(es)), original, 1) == Some(original[2..]);
    assert Before([c]) == c;
    assert Patch(Terminated(Hunks(c, 1, 1, es)), original, 0) == Prepend(Terminated([c]), Some(original[2..]));
  }
}
