/** Brace matching over sanitized source, and the inline modules it delimits. */
module ModuleRanges {
  import opened Options
  import opened Sequences
  import opened Text
  import RustSanitizer

  // ------------------------------------------------------------ Matching braces

  function Weight(c: char): int {
    if c == '{' then 1 else if c == '}' then -1 else 0
  }

  /** Opening minus closing braces in `t[lo..hi]`. */
  function Net(t: string, lo: nat, hi: nat): int
    requires lo <= hi <= |t|
  {
    if lo == hi then 0 else Net(t, lo, hi - 1) + Weight(t[hi - 1])
  }

  /** `c` closes the brace at `o`: the text between them is balanced and never dips. */
  ghost predicate Closes(t: string, o: nat, c: nat) {
    && o < c < |t| && t[o] == '{' && t[c] == '}'
    && Net(t, o, c + 1) == 0
    && forall k :: o < k <= c ==> Net(t, o, k) > 0
  }

  lemma {:induction false} NetSplits(t: string, lo: nat, mid: nat, hi: nat)
    requires lo <= mid <= hi <= |t|
    ensures Net(t, lo, hi) == Net(t, lo, mid) + Net(t, mid, hi)
  {
    if mid < hi {
      NetSplits(t, lo, mid, hi - 1);
    }
  }

  /** Every brace still on the stack is open, with as many opens above it as the stack
      says. */
  ghost predicate StackOk(t: string, stack: seq<nat>, i: nat)
    requires i <= |t|
  {
    && (forall j, k :: 0 <= j < k < |stack| ==> stack[j] < stack[k])
    && (forall j :: 0 <= j < |stack| ==> stack[j] < i && t[stack[j]] == '{' && Net(t, stack[j], i) == |stack| - j)
    && (forall j, k :: 0 <= j < |stack| && stack[j] < k <= i ==> Net(t, stack[j], k) > 0)
  }

  /** Each opening brace so far is either paired with its closer or still on the stack. */
  ghost predicate PairsOk(t: string, stack: seq<nat>, pairs: map<nat, nat>, i: nat)
    requires i <= |t|
  {
    && (forall o :: o in pairs ==> pairs[o] < i && Closes(t, o, pairs[o]))
    && (forall o: nat :: o < i && t[o] == '{' ==> o in pairs || o in stack)
  }

  method MatchBraces(t: string) returns (pairs: map<nat, nat>)
    ensures IsMatching(t, pairs)
  {
    pairs := map[];
    var stack: seq<nat> := [];
    var i: nat := 0;
    NothingOpen(t);
    while i < |t|
      invariant i <= |t| && BracesOk(t, stack, pairs, i)
    {
      stack, pairs := ReadBrace(t, stack, pairs, i);
      i := i + 1;
    }
    ClosersArePaired(t, stack, pairs);
  }

  /** Push an opening brace, or pair a closing one with the last pushed. */
  method ReadBrace(t: string, stack: seq<nat>, pairs: map<nat, nat>, i: nat)
    returns (stack': seq<nat>, pairs': map<nat, nat>)
    requires i < |t| && BracesOk(t, stack, pairs, i)
    ensures BracesOk(t, stack', pairs', i + 1)
  {
    BraceStep(t, stack, pairs, i);
    stack', pairs' := stack, pairs;
    if t[i] == '{' {
      stack' := stack + [i];
    } else if t[i] == '}' && stack != [] {
      pairs' := pairs[stack[|stack| - 1] := i];
      stack' := stack[..|stack| - 1];
    }
  }

  ghost predicate BracesOk(t: string, stack: seq<nat>, pairs: map<nat, nat>, i: nat)
    requires i <= |t|
  {
    StackOk(t, stack, i) && PairsOk(t, stack, pairs, i)
  }

  lemma NothingOpen(t: string)
    ensures BracesOk(t, [], map[], 0)
  {
  }

  lemma BraceStep(t: string, stack: seq<nat>, pairs: map<nat, nat>, i: nat)
    requires i < |t| && BracesOk(t, stack, pairs, i)
    ensures if t[i] == '{' then BracesOk(t, stack + [i], pairs, i + 1)
            else if t[i] == '}' && stack != [] then
              BracesOk(t, stack[..|stack| - 1], pairs[stack[|stack| - 1] := i], i + 1)
            else BracesOk(t, stack, pairs, i + 1)
  {
    StackStep(t, stack, i);
    PairsStep(t, stack, pairs, i);
  }

  /** At the end of the text nothing on the stack has a closer. */
  lemma ClosersArePaired(t: string, stack: seq<nat>, pairs: map<nat, nat>)
    requires BracesOk(t, stack, pairs, |t|)
    ensures IsMatching(t, pairs)
  {
    assert StackOk(t, stack, |t|) && PairsOk(t, stack, pairs, |t|);
    forall o: nat, c: nat | Closes(t, o, c) ensures o in pairs && pairs[o] == c {
      forall j | 0 <= j < |stack| ensures stack[j] != o {
        assert stack[j] <= c ==> Net(t, stack[j], c + 1) > 0;
      }
      UniqueCloser(t, o, c, pairs[o]);
    }
  }

  /** What one character does to the open braces. */
  lemma StackStep(t: string, stack: seq<nat>, i: nat)
    requires i < |t| && StackOk(t, stack, i)
    ensures t[i] == '{' ==> StackOk(t, stack + [i], i + 1)
    ensures t[i] == '}' && stack != [] ==>
              StackOk(t, stack[..|stack| - 1], i + 1) && Closes(t, stack[|stack| - 1], i)
    ensures (t[i] == '}' && stack == []) || (t[i] != '{' && t[i] != '}') ==> StackOk(t, stack, i + 1)
  {
    forall j | 0 <= j < |stack| ensures Net(t, stack[j], i + 1) == |stack| - j + Weight(t[i]) {
    }
  }

  lemma PairsStep(t: string, stack: seq<nat>, pairs: map<nat, nat>, i: nat)
    requires i < |t| && PairsOk(t, stack, pairs, i)
    ensures t[i] == '{' ==> PairsOk(t, stack + [i], pairs, i + 1)
    ensures t[i] == '}' && stack != [] && Closes(t, stack[|stack| - 1], i) ==>
              PairsOk(t, stack[..|stack| - 1], pairs[stack[|stack| - 1] := i], i + 1)
    ensures (t[i] == '}' && stack == []) || (t[i] != '{' && t[i] != '}') ==> PairsOk(t, stack, pairs, i + 1)
  {
    if stack != [] {
      assert stack == stack[..|stack| - 1] + [stack[|stack| - 1]];
    }
  }

  lemma UniqueCloser(t: string, o: nat, c1: nat, c2: nat)
    requires Closes(t, o, c1) && Closes(t, o, c2)
    ensures c1 == c2
  {
  }

  /** Two matched pairs are nested or disjoint. */
  lemma NestedOrDisjoint(t: string, o1: nat, c1: nat, o2: nat, c2: nat)
    requires Closes(t, o1, c1) && Closes(t, o2, c2) && o1 < o2
    ensures c1 < o2 || c2 < c1
  {
    if o2 <= c1 {
      NetSplits(t, o1, o2, c1 + 1);
      assert Net(t, o1, o2) > 0;
    }
  }

  // ------------------------------------------------------------ Inline modules

  datatype ModuleRange = ModuleRange(open: nat, close: nat, name: string)

  /** The character classes of the regular expressions. */
  datatype Classes = Classes(isWord: char -> bool, isSpace: char -> bool)

  predicate NameStart(c: char) {
    'A' <= c <= 'Z' || 'a' <= c <= 'z' || c == '_'
  }

  predicate NotNameChar(c: char) {
    !NameStart(c) && !('0' <= c <= '9')
  }

  /** The end of the run of spaces at `i`. */
  function SkipSpace(t: string, classes: Classes, i: nat): (j: nat)
    requires i <= |t|
    ensures i <= j <= |t|
    decreases |t| - i
  {
    if i < |t| && classes.isSpace(t[i]) then SkipSpace(t, classes, i + 1) else i
  }

  /** A `mod name {` at `i`: the bounds of the name and the index of the brace. */
  function ModuleAt(t: string, classes: Classes, i: nat): (m: Option<(nat, nat, nat)>)
    requires i <= |t|
    ensures m.Some? ==> i < m.value.0 <= m.value.1 <= m.value.2 < |t| && t[m.value.2] == '{'
  {
    if !OccursAt(t, "mod", i) || (i > 0 && classes.isWord(t[i - 1])) then None
    else
      var name := SkipSpace(t, classes, i + 3);
      if name == i + 3 || name == |t| || !NameStart(t[name]) then None
      else
        var end := FindChar(t, NotNameChar, name);
        var brace := SkipSpace(t, classes, end);
        if brace < |t| && t[brace] == '{' then Some((name, end, brace)) else None
  }

  /** The match at `i`, kept when its brace is matched, and where the search goes on. */
  function NextRange(t: string, classes: Classes, pairs: map<nat, nat>, i: nat): (r: (nat, seq<ModuleRange>))
    requires i < |t|
    ensures i < r.0 <= |t|
    ensures r.1 == [] || (|r.1| == 1 && r.1[0].open == r.0 - 1 && r.0 - 1 in pairs && r.1[0].close == pairs[r.0 - 1])
  {
    match ModuleAt(t, classes, i)
    case None => (i + 1, [])
    case Some((name, end, brace)) =>
      (brace + 1, if brace in pairs then [ModuleRange(brace, pairs[brace], t[name..end])] else [])
  }

  /** The non-overlapping matches from `i` on. */
  function RangesFrom(t: string, classes: Classes, pairs: map<nat, nat>, i: nat): seq<ModuleRange>
    requires i <= |t|
    decreases |t| - i
  {
    if i == |t| then []
    else
      var (next, found) := NextRange(t, classes, pairs, i);
      found + RangesFrom(t, classes, pairs, next)
  }

  /** The whole operation: every range is a matched pair of the sanitized text, in order
      of its opening brace, and any two are nested or disjoint. */
  method FindModuleRanges(source: string, classes: Classes) returns (ranges: seq<ModuleRange>)
    ensures var t := RustSanitizer.Sanitize(source);
      && (forall r :: r in ranges ==> Closes(t, r.open, r.close))
      && (forall j, k :: 0 <= j < k < |ranges| ==>
            || ranges[j].close < ranges[k].open
            || (ranges[j].open < ranges[k].open && ranges[k].close < ranges[j].close))
      && (forall pairs: map<nat, nat> :: IsMatching(t, pairs) ==> ranges == RangesFrom(t, classes, pairs, 0))
  {
    var t := RustSanitizer.SanitizeRust(source);
    var braces := MatchBraces(t);
    ranges := CollectRanges(t, classes, braces);
    RangesAreMatched(t, classes, braces, 0);
    forall j, k | 0 <= j < k < |ranges|
      ensures ranges[j].close < ranges[k].open
              || (ranges[j].open < ranges[k].open && ranges[k].close < ranges[j].close)
    {
      RangesNestOrDisjoint(t, classes, braces, j, k);
    }
    forall pairs: map<nat, nat> | IsMatching(t, pairs) ensures pairs == braces {
      MatchingIsUnique(t, pairs, braces);
    }
  }

  /** The pairs are exactly the braces and their closers. */
  ghost predicate IsMatching(t: string, pairs: map<nat, nat>) {
    forall o: nat, c: nat :: (o in pairs && pairs[o] == c) <==> Closes(t, o, c)
  }

  lemma MatchingIsUnique(t: string, p: map<nat, nat>, q: map<nat, nat>)
    requires IsMatching(t, p) && IsMatching(t, q)
    ensures p == q
  {
    forall o | o in p ensures o in q && q[o] == p[o] {
      assert Closes(t, o, p[o]);
    }
    forall o | o in q ensures o in p {
      assert Closes(t, o, q[o]);
    }
  }

  method CollectRanges(t: string, classes: Classes, braces: map<nat, nat>) returns (ranges: seq<ModuleRange>)
    ensures ranges == RangesFrom(t, classes, braces, 0)
  {
    ranges := [];
    var i: nat := 0;
    while i < |t|
      invariant i <= |t|
      invariant ranges + RangesFrom(t, classes, braces, i) == RangesFrom(t, classes, braces, 0)
      decreases |t| - i
    {
      var (next, found) := NextRange(t, classes, braces, i);
      Associative(ranges, found, RangesFrom(t, classes, braces, next));
      ranges := ranges + found;
      i := next;
    }
  }

  /** Matched pairs, none opening before `i`, in order of their opening braces. */
  ghost predicate Ordered(t: string, ranges: seq<ModuleRange>, i: nat) {
    && (forall k :: 0 <= k < |ranges| ==> i <= ranges[k].open && Closes(t, ranges[k].open, ranges[k].close))
    && (forall j, k :: 0 <= j < k < |ranges| ==> ranges[j].open < ranges[k].open)
  }

  lemma OrderedCons(t: string, found: seq<ModuleRange>, rest: seq<ModuleRange>, i: nat, next: nat)
    requires i < next && Ordered(t, rest, next)
    requires found == [] || (|found| == 1 && found[0].open == next - 1 && Closes(t, found[0].open, found[0].close))
    ensures Ordered(t, found + rest, i)
  {
  }

  lemma {:induction false} RangesAreMatched(t: string, classes: Classes, pairs: map<nat, nat>, i: nat)
    requires i <= |t| && forall o :: o in pairs ==> Closes(t, o, pairs[o])
    ensures Ordered(t, RangesFrom(t, classes, pairs, i), i)
    decreases |t| - i
  {
    if i < |t| {
      var (next, found) := NextRange(t, classes, pairs, i);
      RangesAreMatched(t, classes, pairs, next);
      OrderedCons(t, found, RangesFrom(t, classes, pairs, next), i, next);
    }
  }

  // ------------------------------------------------ Modules as they are written

  /** No space is part of a name or a brace, and every name character is a word character. */
  ghost predicate Sane(classes: Classes) {
    && (forall c :: classes.isSpace(c) ==> NotNameChar(c) && c != '{')
    && (forall c :: !NotNameChar(c) ==> classes.isWord(c))
  }

  /** `mod`, a name and a brace, with spaces between them, stand at `i` as words. */
  ghost predicate Written(t: string, classes: Classes, i: nat, name: nat, end: nat, brace: nat) {
    && i + 3 < name < end <= brace < |t|
    && t[i] == 'm' && t[i + 1] == 'o' && t[i + 2] == 'd' && (i > 0 ==> !classes.isWord(t[i - 1]))
    && (forall k :: i + 3 <= k < name ==> classes.isSpace(t[k]))
    && NameStart(t[name]) && (forall k :: name <= k < end ==> !NotNameChar(t[k]))
    && (forall k :: end <= k < brace ==> classes.isSpace(t[k]))
    && t[brace] == '{'
  }

  lemma {:induction false} SkipSpaceStops(t: string, classes: Classes, i: nat)
    requires i <= |t|
    ensures var j := SkipSpace(t, classes, i);
      (forall k :: i <= k < j ==> classes.isSpace(t[k])) && (j < |t| ==> !classes.isSpace(t[j]))
    decreases |t| - i
  {
    if i < |t| && classes.isSpace(t[i]) {
      SkipSpaceStops(t, classes, i + 1);
    }
  }

  lemma KeywordAt(t: string, i: nat)
    ensures OccursAt(t, "mod", i) <==> i + 3 <= |t| && t[i] == 'm' && t[i + 1] == 'o' && t[i + 2] == 'd'
  {
    if i + 3 <= |t| {
      assert t[i..i + 3] == [t[i], t[i + 1], t[i + 2]];
    }
  }

  /** A module is read off the text exactly where one is written, with those bounds. */
  lemma ReadIsWritten(t: string, classes: Classes, i: nat)
    requires i <= |t| && ModuleAt(t, classes, i).Some?
    ensures var (name, end, brace) := ModuleAt(t, classes, i).value; Written(t, classes, i, name, end, brace)
  {
    KeywordAt(t, i);
    var (name, end, brace) := ModuleAt(t, classes, i).value;
    SkipSpaceStops(t, classes, i + 3);
    FindCharIsFirst(t, NotNameChar, name);
    SkipSpaceStops(t, classes, end);
  }

  lemma WrittenIsRead(t: string, classes: Classes, i: nat, name: nat, end: nat, brace: nat)
    requires Sane(classes) && Written(t, classes, i, name, end, brace)
    ensures ModuleAt(t, classes, i) == Some((name, end, brace))
  {
    KeywordAt(t, i);
    SkipSpaceStops(t, classes, i + 3);
    assert !NotNameChar(t[name]);
    assert SkipSpace(t, classes, i + 3) == name;
    FindCharIsFirst(t, NotNameChar, name);
    assert NotNameChar(t[end]);
    assert FindChar(t, NotNameChar, name) == end;
    SkipSpaceStops(t, classes, end);
    assert SkipSpace(t, classes, end) == brace;
  }

  /** Written modules do not overlap: the next one starts behind the brace. */
  lemma WrittenApart(t: string, classes: Classes, i: nat, name: nat, end: nat, brace: nat,
                     i': nat, name': nat, end': nat, brace': nat)
    requires Sane(classes) && i < i'
    requires Written(t, classes, i, name, end, brace) && Written(t, classes, i', name', end', brace')
    ensures brace < i'
  {
    assert !NotNameChar(t[i']) && !NotNameChar(t[i' + 1]) && !NotNameChar(t[i' + 2]);
    assert !NotNameChar(t[name']) && classes.isSpace(t[i' + 3]);
    assert i' <= brace ==> i' == name;
  }

  /** Every module written from `i` on whose brace is matched is listed, under its name. */
  lemma {:induction false} RangesAreComplete(t: string, classes: Classes, pairs: map<nat, nat>, from: nat,
                                             i: nat, name: nat, end: nat, brace: nat)
    requires Sane(classes) && from <= i && Written(t, classes, i, name, end, brace) && brace in pairs
    ensures from <= |t|
    ensures ModuleRange(brace, pairs[brace], t[name..end]) in RangesFrom(t, classes, pairs, from)
    decreases |t| - from
  {
    WrittenIsRead(t, classes, i, name, end, brace);
    if from < i {
      if ModuleAt(t, classes, from).Some? {
        ReadIsWritten(t, classes, from);
        var (name0, end0, brace0) := ModuleAt(t, classes, from).value;
        WrittenApart(t, classes, from, name0, end0, brace0, i, name, end, brace);
      }
      RangesAreComplete(t, classes, pairs, NextRange(t, classes, pairs, from).0, i, name, end, brace);
    }
  }

  /** And nothing else is listed. */
  lemma {:induction false} RangesAreWritten(t: string, classes: Classes, pairs: map<nat, nat>, from: nat,
                                            r: ModuleRange)
    returns (i: nat, name: nat, end: nat)
    requires from <= |t| && r in RangesFrom(t, classes, pairs, from)
    ensures from <= i && Written(t, classes, i, name, end, r.open)
    ensures r.open in pairs && r.close == pairs[r.open] && r.name == t[name..end]
    decreases |t| - from
  {
    var (next, found) := NextRange(t, classes, pairs, from);
    if r in found {
      ReadIsWritten(t, classes, from);
      i, name, end := from, ModuleAt(t, classes, from).value.0, ModuleAt(t, classes, from).value.1;
    } else {
      i, name, end := RangesAreWritten(t, classes, pairs, next, r);
    }
  }

  /** Of any two returned ranges, one encloses the other or they do not meet. */
  lemma RangesNestOrDisjoint(t: string, classes: Classes, pairs: map<nat, nat>, j: nat, k: nat)
    requires forall o :: o in pairs ==> Closes(t, o, pairs[o])
    requires j < k < |RangesFrom(t, classes, pairs, 0)|
    ensures var r := RangesFrom(t, classes, pairs, 0);
      r[j].close < r[k].open || (r[j].open < r[k].open && r[k].close < r[j].close)
  {
    RangesAreMatched(t, classes, pairs, 0);
    var r := RangesFrom(t, classes, pairs, 0);
    NestedOrDisjoint(t, r[j].open, r[j].close, r[k].open, r[k].close);
  }
}
