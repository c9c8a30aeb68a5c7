/** Redaction of `name=value` and bearer values, and the bounded composition. */
module AssignmentRedaction {
  import opened Options
  import opened Sequences
  import opened Text
  import opened Redaction

  const ASSIGNMENTS: seq<Marker> := ["password=", "token=", "secret=", "api_key=", "apikey="]
  const BEARER: Marker := "authorization: bearer "

  predicate EndsValue(c: char) {
    IsWhitespace(c) || c == '&' || c == '"' || c == '\'' || c == ',' || c == ';'
  }

  // ----------------------------------------------------------- Collecting ranges

  /** The ranges one marker contributes from `from` on: the scan resumes after a value. */
  function Hits(s: string, marker: Marker, from: nat): seq<Range>
    requires from <= |s|
    decreases |s| - from
  {
    match Find(Lower(s), marker, from)
    case None => []
    case Some(i) =>
      var start := i + |marker|;
      var end := FindChar(s, EndsValue, start);
      if end > start then [Range(start, end)] + Hits(s, marker, end) else Hits(s, marker, end)
  }

  function AllHits(s: string, markers: seq<Marker>): seq<Range> {
    if markers == [] then [] else Hits(s, markers[0], 0) + AllHits(s, markers[1..])
  }

  /** `s` goes on with a value at `i`, and `end` is where it stops. */
  predicate ValueAt(s: string, i: nat, end: nat) {
    && i < end <= |s|
    && (forall k :: i <= k < end ==> !EndsValue(s[k]))
    && (end < |s| ==> EndsValue(s[end]))
  }

  /** A value right behind an occurrence of the marker that starts at or after `from`. */
  ghost predicate HitOk(s: string, marker: Marker, from: nat, r: Range) {
    && ValueAt(s, r.start, r.end)
    && from + |marker| <= r.start && OccursAt(Lower(s), marker, r.start - |marker|)
  }

  ghost predicate HitsOk(s: string, marker: Marker, from: nat, ranges: seq<Range>) {
    forall r :: r in ranges ==> HitOk(s, marker, from, r)
  }

  lemma FirstHitOk(s: string, marker: Marker, from: nat, i: nat, end: nat, rest: seq<Range>)
    requires from <= i && OccursAt(Lower(s), marker, i) && StopsAt(s, i + |marker|, end)
    requires HitsOk(s, marker, end, rest)
    ensures HitsOk(s, marker, from, if end > i + |marker| then [Range(i + |marker|, end)] + rest else rest)
  {
    forall r | r in rest ensures HitOk(s, marker, from, r) {
      assert HitOk(s, marker, end, r);
    }
  }

  lemma {:induction false} HitsAreOk(s: string, marker: Marker, from: nat)
    requires from <= |s|
    ensures HitsOk(s, marker, from, Hits(s, marker, from))
    decreases |s| - from
  {
    FindIsFirst(Lower(s), marker, from);
    match Find(Lower(s), marker, from)
    case None =>
    case Some(i) =>
      var end := FirstHit(s, marker, from, i);
      HitsAreOk(s, marker, end);
      FirstHitOk(s, marker, from, i, end, Hits(s, marker, end));
  }

  lemma HitsAreValues(s: string, marker: Marker, from: nat)
    requires from <= |s|
    ensures forall r :: r in Hits(s, marker, from) ==> ValueAt(s, r.start, r.end) && from <= r.start
  {
    HitsAreOk(s, marker, from);
    assert forall r :: r in Hits(s, marker, from) ==> HitOk(s, marker, from, r);
  }

  lemma {:induction false} AllHitsAreValues(s: string, markers: seq<Marker>)
    ensures forall r :: r in AllHits(s, markers) ==> ValueAt(s, r.start, r.end)
  {
    if markers != [] {
      HitsAreValues(s, markers[0], 0);
      AllHitsAreValues(s, markers[1..]);
    }
  }

  /** Two collected ranges are disjoint or share their end. */
  lemma DisjointOrSameEnd(s: string, a: Range, b: Range)
    requires ValueAt(s, a.start, a.end) && ValueAt(s, b.start, b.end) && a.start <= b.start
    ensures a.end <= b.start || a.end == b.end
  {
  }

  /** No occurrence of the marker starts inside another one. */
  ghost predicate NoSelfOverlap(marker: string) {
    forall t: string, i: nat, j: nat :: OccursAt(t, marker, i) && OccursAt(t, marker, j) && i < j ==> i + |marker| <= j
  }

  /** An occurrence followed by a value is either hit or starts inside a hit value. */
  ghost predicate Accounted(s: string, marker: string, ranges: seq<Range>, p: nat) {
    exists r :: r in ranges && (r.start == p + |marker| || r.start <= p < r.end)
  }

  ghost predicate FollowedByValue(s: string, marker: string, p: nat) {
    OccursAt(Lower(s), marker, p) && p + |marker| < |s| && !EndsValue(s[p + |marker|])
  }

  lemma {:induction false} HitsAccount(s: string, marker: Marker, from: nat)
    requires from <= |s| && NoSelfOverlap(marker)
    ensures AllAccounted(s, marker, Hits(s, marker, from), from)
    decreases |s| - from
  {
    FindIsFirst(Lower(s), marker, from);
    match Find(Lower(s), marker, from)
    case None =>
    case Some(i) =>
      var end := FirstHit(s, marker, from, i);
      HitsAccount(s, marker, end);
      FirstHitAccounts(s, marker, from, i, end, Hits(s, marker, end));
  }

  /** From `start` on, `end` is the first character that ends a value, or the end. */
  ghost predicate StopsAt(s: string, start: nat, end: nat) {
    && start <= end <= |s|
    && (end < |s| ==> EndsValue(s[end]))
    && forall k :: start <= k < end ==> !EndsValue(s[k])
  }

  lemma FindCharStops(s: string, start: nat)
    requires start <= |s|
    ensures StopsAt(s, start, FindChar(s, EndsValue, start))
  {
    FindCharIsFirst(s, EndsValue, start);
  }

  lemma HitsUnfold(s: string, marker: Marker, from: nat, i: nat)
    requires from <= |s| && Find(Lower(s), marker, from) == Some(i)
    ensures Hits(s, marker, from) ==
              if FindChar(s, EndsValue, i + |marker|) > i + |marker| then
                [Range(i + |marker|, FindChar(s, EndsValue, i + |marker|))]
                + Hits(s, marker, FindChar(s, EndsValue, i + |marker|))
              else Hits(s, marker, FindChar(s, EndsValue, i + |marker|))
  {
  }

  lemma FirstHit(s: string, marker: Marker, from: nat, i: nat) returns (end: nat)
    requires from <= |s| && Find(Lower(s), marker, from) == Some(i)
    ensures StopsAt(s, i + |marker|, end)
    ensures Hits(s, marker, from) ==
              if end > i + |marker| then [Range(i + |marker|, end)] + Hits(s, marker, end)
              else Hits(s, marker, end)
  {
    end := FindChar(s, EndsValue, i + |marker|);
    assert StopsAt(s, i + |marker|, end) by { FindCharStops(s, i + |marker|); }
    HitsUnfold(s, marker, from, i);
  }

  ghost predicate AllAccounted(s: string, marker: string, ranges: seq<Range>, from: nat) {
    forall p: nat :: p >= from && FollowedByValue(s, marker, p) ==> Accounted(s, marker, ranges, p)
  }

  lemma FirstHitAccounts(s: string, marker: Marker, from: nat, i: nat, end: nat, rest: seq<Range>)
    requires NoSelfOverlap(marker) && OccursAt(Lower(s), marker, i) && i + |marker| <= end <= |s|
    requires end < |s| ==> EndsValue(s[end])
    requires forall p: nat :: from <= p < i ==> !OccursAt(Lower(s), marker, p)
    requires AllAccounted(s, marker, rest, end)
    ensures var start := i + |marker|;
      AllAccounted(s, marker, if end > start then [Range(start, end)] + rest else rest, from)
  {
    forall p: nat | p >= from && FollowedByValue(s, marker, p)
      ensures Accounted(s, marker, if end > i + |marker| then [Range(i + |marker|, end)] + rest else rest, p)
    {
      HitAccounts(s, marker, i, end, rest, p);
    }
  }

  /** The first hit accounts for itself and for whatever starts inside its value. */
  lemma HitAccounts(s: string, marker: Marker, i: nat, end: nat, rest: seq<Range>, p: nat)
    requires NoSelfOverlap(marker) && OccursAt(Lower(s), marker, i) && i + |marker| <= end <= |s|
    requires end < |s| ==> EndsValue(s[end])
    requires i <= p && FollowedByValue(s, marker, p) && (p >= end ==> Accounted(s, marker, rest, p))
    ensures var start := i + |marker|;
      Accounted(s, marker, if end > start then [Range(start, end)] + rest else rest, p)
  {
    var hit := Range(i + |marker|, end);
    if p >= end {
      AccountedByMore(s, marker, [hit], rest, p);
    } else {
      assert p == i || i + |marker| <= p;
      assert ([hit] + rest)[0] == hit;
    }
  }

  lemma AccountedByMore(s: string, marker: string, more: seq<Range>, ranges: seq<Range>, p: nat)
    requires Accounted(s, marker, ranges, p)
    ensures Accounted(s, marker, more + ranges, p)
    ensures Accounted(s, marker, ranges + more, p)
  {
    var r :| r in ranges && (r.start == p + |marker| || r.start <= p < r.end);
    assert r in more + ranges;
    assert r in ranges + more;
  }

  lemma {:induction false} AllHitsAccount(s: string, markers: seq<Marker>, m: Marker, p: nat)
    requires m in markers && NoSelfOverlap(m) && FollowedByValue(s, m, p)
    ensures Accounted(s, m, AllHits(s, markers), p)
  {
    if m == markers[0] {
      HitsAccount(s, m, 0);
      AccountedByMore(s, m, AllHits(s, markers[1..]), Hits(s, m, 0), p);
    } else {
      AllHitsAccount(s, markers[1..], m, p);
      AccountedByMore(s, m, Hits(s, markers[0], 0), AllHits(s, markers[1..]), p);
    }
  }

  // ---------------------------------------------------------- Sorting the ranges

  predicate Below(a: Range, b: Range) {
    a.start < b.start || (a.start == b.start && a.end <= b.end)
  }

  ghost predicate Sorted(ranges: seq<Range>) {
    forall i, j :: 0 <= i < j < |ranges| ==> Below(ranges[i], ranges[j])
  }

  function Insert(r: Range, sorted: seq<Range>): seq<Range> {
    if sorted == [] then [r]
    else if Below(r, sorted[0]) then [r] + sorted
    else [sorted[0]] + Insert(r, sorted[1..])
  }

  function Sort(ranges: seq<Range>): seq<Range> {
    if ranges == [] then [] else Insert(ranges[0], Sort(ranges[1..]))
  }

  lemma {:induction false} InsertKeepsMembers(r: Range, sorted: seq<Range>)
    ensures multiset(Insert(r, sorted)) == multiset(sorted) + multiset{r}
  {
    if sorted != [] && !Below(r, sorted[0]) {
      InsertKeepsMembers(r, sorted[1..]);
      assert sorted == [sorted[0]] + sorted[1..];
    }
  }

  lemma {:induction false} InsertSorts(r: Range, sorted: seq<Range>)
    requires Sorted(sorted)
    ensures Sorted(Insert(r, sorted))
  {
    if sorted != [] && !Below(r, sorted[0]) {
      InsertSorts(r, sorted[1..]);
      InsertKeepsMembers(r, sorted[1..]);
      var rest := Insert(r, sorted[1..]);
      forall i | 0 <= i < |rest| ensures Below(sorted[0], rest[i]) {
        assert rest[i] in multiset(rest);
      }
    }
  }

  lemma {:induction false} SortSorts(ranges: seq<Range>)
    ensures Sorted(Sort(ranges))
    ensures multiset(Sort(ranges)) == multiset(ranges)
  {
    if ranges != [] {
      SortSorts(ranges[1..]);
      InsertSorts(ranges[0], Sort(ranges[1..]));
      InsertKeepsMembers(ranges[0], Sort(ranges[1..]));
      assert ranges == [ranges[0]] + ranges[1..];
    }
  }

  lemma SortKeepsMembers(ranges: seq<Range>)
    ensures forall r :: r in Sort(ranges) <==> r in ranges
  {
    SortSorts(ranges);
    forall r ensures r in Sort(ranges) <==> r in ranges {
      assert r in multiset(Sort(ranges)) <==> r in Sort(ranges);
      assert r in multiset(ranges) <==> r in ranges;
    }
  }

  // ------------------------------------------------------------------ Splicing

  ghost predicate ValuesOnly(s: string, ranges: seq<Range>) {
    forall r :: r in ranges ==> ValueAt(s, r.start, r.end)
  }

  /** Skipping loses nothing: each range lies within an applied one with the same end, or
      within the part already behind the cursor. */
  lemma {:induction false} SkippingLosesNothing(s: string, ranges: seq<Range>, cursor: nat, r: Range)
    requires Sorted(ranges) && ValuesOnly(s, ranges) && r in ranges
    requires forall x :: x in ranges && x.start < cursor ==> x.end <= cursor
    ensures r.end <= cursor || exists a :: a in Applied(ranges, cursor) && a.start <= r.start && a.end == r.end
    decreases |ranges|
  {
    var head := ranges[0];
    assert forall x :: x in ranges[1..] ==> x in ranges && Below(head, x);
    if head.start < cursor {
      if r != head {
        SkippingLosesNothing(s, ranges[1..], cursor, r);
      }
    } else {
      assert head in Applied(ranges, cursor);
      forall x | x in ranges[1..] && x.start < head.end ensures x.end <= head.end {
        DisjointOrSameEnd(s, head, x);
      }
      if r != head {
        SkippingLosesNothing(s, ranges[1..], head.end, r);
        if r.end <= head.end {
          DisjointOrSameEnd(s, head, r);
        } else {
          var a :| a in Applied(ranges[1..], head.end) && a.start <= r.start && a.end == r.end;
          assert a in Applied(ranges, cursor);
        }
      }
    }
  }

  // ------------------------------------------------- What is left in the output

  const ALL: seq<Marker> := ASSIGNMENTS + [BEARER]

  /** At `e` the text has a redaction, the end of a value, or its own end. */
  ghost predicate ValueGone(s: string, e: nat) {
    e == |s| || (e < |s| && EndsValue(s[e])) || OccursAt(s, REDACTED, e)
  }

  /** No occurrence of the marker, in any case, is followed by a value. */
  ghost predicate Scrubbed(s: string, marker: string) {
    forall i: nat :: OccursAt(Lower(s), marker, i) ==> ValueGone(s, i + |marker|)
  }

  ghost predicate AccountedFrom(s: string, marker: string, ranges: seq<Range>, cursor: nat) {
    forall p: nat :: p >= cursor && FollowedByValue(s, marker, p) ==>
      exists r :: r in ranges && (r.start == p + |marker| || cursor <= r.start <= p < r.end)
  }

  lemma LowerJoins(a: string, b: string, c: string)
    ensures Lower(a + b + c) == Lower(a) + Lower(b) + Lower(c)
  {
  }

  /** An occurrence inside a slice is one of the whole text. */
  lemma SliceOccurs(s: string, from: nat, to: nat, marker: string, i: nat)
    requires from <= to <= |s| && OccursAt(Lower(s[from..to]), marker, i)
    ensures OccursAt(Lower(s), marker, from + i)
  {
    assert Lower(s)[from + i..from + i + |marker|] == Lower(s[from..to])[i..i + |marker|];
  }

  lemma AccountedAfterHead(s: string, marker: string, ranges: seq<Range>, cursor: nat)
    requires ranges != [] && Sorted(ranges) && ValuesOnly(s, ranges) && AccountedFrom(s, marker, ranges, cursor)
    requires marker != ""
    ensures var cursor' := if ranges[0].start < cursor then cursor else ranges[0].end;
      AccountedFrom(s, marker, ranges[1..], cursor')
  {
    var head := ranges[0];
    var cursor' := if head.start < cursor then cursor else head.end;
    forall p | p >= cursor' && FollowedByValue(s, marker, p)
      ensures exists r :: r in ranges[1..] && (r.start == p + |marker| || cursor' <= r.start <= p < r.end)
    {
      var r :| r in ranges && (r.start == p + |marker| || cursor <= r.start <= p < r.end);
      assert r in ranges[1..];
      if r.start != p + |marker| && r.start < cursor' {
        DisjointOrSameEnd(s, head, r);
      }
    }
  }

  /** Before the first range, an occurrence that does not reach it has no value. */
  lemma BeforeHead(s: string, marker: string, ranges: seq<Range>, cursor: nat, i: nat)
    requires ranges != [] && Sorted(ranges) && ValuesOnly(s, ranges) && AccountedFrom(s, marker, ranges, cursor)
    requires cursor <= ranges[0].start && marker != ""
    requires OccursAt(Lower(s[cursor..ranges[0].start]), marker, i) && cursor + i + |marker| < ranges[0].start
    ensures EndsValue(s[cursor + i + |marker|])
  {
    assert forall r :: r in ranges ==> ranges[0].start <= r.start;
    SliceOccurs(s, cursor, ranges[0].start, marker, i);
    assert !FollowedByValue(s, marker, cursor + i);
  }

  lemma GoneShifts(a: string, b: string, e: nat)
    requires ValueGone(b, e)
    ensures ValueGone(a + b, |a| + e)
  {
    if OccursAt(b, REDACTED, e) {
      assert (a + b)[|a| + e..|a| + e + 10] == b[e..e + 10];
    }
  }

  lemma HeadGone(a: string, b: string, e: nat)
    requires e <= |a| && ValueGone(a, e)
    ensures ValueGone(a + REDACTED + b, e)
  {
    var t := a + REDACTED + b;
    if e == |a| {
      assert t[e..e + 10] == REDACTED;
    } else if OccursAt(a, REDACTED, e) {
      assert t[e..e + 10] == a[e..e + 10];
    } else {
      assert t[e] == a[e];
    }
  }

  lemma HeadScrubs(a: string, b: string, marker: string)
    requires Clean(marker, Lower(REDACTED)) && Scrubbed(a, marker) && Scrubbed(b, marker)
    ensures Scrubbed(a + REDACTED + b, marker)
  {
    var t := a + REDACTED + b;
    LowerJoins(a, REDACTED, b);
    forall i: nat | OccursAt(Lower(t), marker, i) ensures ValueGone(t, i + |marker|) {
      OccurrenceSplits(Lower(a), Lower(REDACTED), Lower(b), marker, i);
      var e := i + |marker|;
      if OccursAt(Lower(a), marker, i) {
        HeadGone(a, b, e);
      } else {
        assert t == (a + REDACTED) + b && |a + REDACTED| == |a| + 10;
        GoneShifts(a + REDACTED, b, e - |a| - 10);
      }
    }
  }

  lemma TailScrubs(s: string, cursor: nat, marker: string)
    requires cursor <= |s| && AccountedFrom(s, marker, [], cursor)
    ensures Scrubbed(s[cursor..], marker)
  {
    forall i: nat | OccursAt(Lower(s[cursor..]), marker, i) ensures ValueGone(s[cursor..], i + |marker|) {
      assert s[cursor..] == s[cursor..|s|];
      SliceOccurs(s, cursor, |s|, marker, i);
      assert !FollowedByValue(s, marker, cursor + i);
    }
  }

  lemma BeforeHeadScrubs(s: string, marker: string, ranges: seq<Range>, cursor: nat)
    requires ranges != [] && Sorted(ranges) && ValuesOnly(s, ranges) && AccountedFrom(s, marker, ranges, cursor)
    requires cursor <= ranges[0].start && marker != ""
    ensures Scrubbed(s[cursor..ranges[0].start], marker)
  {
    var a := s[cursor..ranges[0].start];
    forall i: nat | OccursAt(Lower(a), marker, i) ensures ValueGone(a, i + |marker|) {
      if i + |marker| < |a| {
        BeforeHead(s, marker, ranges, cursor, i);
      }
    }
  }

  lemma {:induction false} SpliceScrubs(s: string, ranges: seq<Range>, cursor: nat, marker: string)
    requires cursor <= |s| && Sorted(ranges) && ValuesOnly(s, ranges)
    requires Clean(marker, Lower(REDACTED)) && AccountedFrom(s, marker, ranges, cursor)
    ensures Scrubbed(Splice(s, ranges, cursor), marker)
    decreases |ranges|
  {
    if ranges == [] {
      TailScrubs(s, cursor, marker);
    } else {
      AccountedAfterHead(s, marker, ranges, cursor);
      var cursor' := if ranges[0].start < cursor then cursor else ranges[0].end;
      SpliceScrubs(s, ranges[1..], cursor', marker);
      if ranges[0].start >= cursor {
        BeforeHeadScrubs(s, marker, ranges, cursor);
        HeadScrubs(s[cursor..ranges[0].start], Splice(s, ranges[1..], cursor'), marker);
      }
    }
  }

  // -------------------------------------------------------------- The six markers

  /** Where two occurrences overlap, the marker agrees with itself. */
  lemma OverlapAgrees(t: string, marker: string, i: nat, j: nat)
    requires |marker| > 1 && OccursAt(t, marker, i) && OccursAt(t, marker, j) && i < j
    ensures j < i + |marker| ==> marker[j - i] == marker[0] && marker[i + |marker| - 1 - j] == marker[|marker| - 1]
    ensures j + 1 < i + |marker| ==> marker[j + 1 - i] == marker[1]
  {
    var n := |marker|;
    assert forall k :: i <= k < i + n ==> t[k] == t[i..i + n][k - i];
    assert forall k :: j <= k < j + n ==> t[k] == t[j..j + n][k - j];
  }

  /** A marker whose last character occurs nowhere else in it. */
  lemma UniqueEndNoOverlap(marker: string)
    requires |marker| > 1 && forall k :: 0 <= k < |marker| - 1 ==> marker[k] != marker[|marker| - 1]
    ensures NoSelfOverlap(marker)
  {
    forall t: string, i: nat, j: nat | OccursAt(t, marker, i) && OccursAt(t, marker, j) && i < j
      ensures i + |marker| <= j
    {
      OverlapAgrees(t, marker, i, j);
    }
  }

  /** The second letter of the bearer marker occurs nowhere else in it. */
  lemma BearerNoOverlap()
    ensures NoSelfOverlap(BEARER)
  {
    assert |BEARER| == 22 && forall k :: 0 <= k < 22 && BEARER[k] == 'u' ==> k == 1;
    forall t: string, i: nat, j: nat | OccursAt(t, BEARER, i) && OccursAt(t, BEARER, j) && i < j
      ensures i + |BEARER| <= j
    {
      OverlapAgrees(t, BEARER, i, j);
    }
  }

  lemma MarkersFit(m: Marker)
    requires m in ALL
    ensures NoSelfOverlap(m) && Clean(m, Lower(REDACTED))
  {
    assert Lower(REDACTED) == "[redacted]";
    if m == BEARER {
      BearerNoOverlap();
    } else {
      AssignmentsEndUniquely(m);
      UniqueEndNoOverlap(m);
    }
  }

  lemma AssignmentsEndUniquely(m: Marker)
    requires m in ASSIGNMENTS
    ensures |m| > 1 && m[|m| - 1] == '=' && '[' !in m && ']' !in m
    ensures forall k :: 0 <= k < |m| - 1 ==> m[k] != '=' && !EndsValue(m[k])
  {
  }

  /** The whole assignment pass. */
  function RedactAssignments(s: string): string {
    AllHitsAreValues(s, ALL);
    SortKeepsMembers(AllHits(s, ALL));
    Splice(s, Sort(AllHits(s, ALL)), 0)
  }

  /** In its output no occurrence of any of the six markers, in any letter case, is
      followed by anything but a redaction, a value end or the end of the text. */
  lemma AssignmentsScrubbed(s: string, m: Marker)
    requires m in ALL
    ensures Scrubbed(RedactAssignments(s), m)
  {
    var hits := AllHits(s, ALL);
    AllHitsAreValues(s, ALL);
    SortKeepsMembers(hits);
    SortSorts(hits);
    MarkersFit(m);
    forall p: nat | FollowedByValue(s, m, p)
      ensures exists r :: r in Sort(hits) && (r.start == p + |m| || 0 <= r.start <= p < r.end)
    {
      AllHitsAccount(s, ALL, m, p);
      var r :| r in hits && (r.start == p + |m| || r.start <= p < r.end);
      assert r in Sort(hits);
    }
    SpliceScrubs(s, Sort(hits), 0, m);
  }

  // ---------------------------------------------------- What is taken from the input

  /** The ranges that the pass blanks. */
  function Blanked(s: string): seq<Range> {
    Applied(Sort(AllHits(s, ALL)), 0)
  }

  lemma HitsAreBlanked(s: string, r: Range)
    requires r in AllHits(s, ALL)
    ensures exists a :: a in Blanked(s) && a.start <= r.start && a.end == r.end
  {
    var hits := AllHits(s, ALL);
    AllHitsAreValues(s, ALL);
    SortSorts(hits);
    SortKeepsMembers(hits);
    SkippingLosesNothing(s, Sort(hits), 0, r);
  }

  /** Every value assigned with one of the five `=` markers is blanked to its end. */
  lemma AssignedValuesBlanked(s: string, m: Marker, p: nat, end: nat)
    requires m in ASSIGNMENTS && OccursAt(Lower(s), m, p) && ValueAt(s, p + |m|, end)
    ensures exists a :: a in Blanked(s) && a.start <= p + |m| && a.end == end
  {
    assert m in ALL;
    MarkersFit(m);
    AllHitsAccount(s, ALL, m, p);
    AllHitsAreValues(s, ALL);
    var r :| r in AllHits(s, ALL) && (r.start == p + |m| || r.start <= p < r.end);
    NoEndInMarker(s, m, p);
    assert r.end == end;
    HitsAreBlanked(s, r);
  }

  lemma NoEndInMarker(s: string, m: Marker, p: nat)
    requires m in ASSIGNMENTS && OccursAt(Lower(s), m, p)
    ensures forall k :: p <= k < p + |m| ==> !EndsValue(s[k])
  {
    AssignmentsEndUniquely(m);
    forall k | p <= k < p + |m| ensures !EndsValue(s[k]) {
      assert Lower(s)[p..p + |m|][k - p] == LowerChar(s[k]);
    }
  }

  /** An occurrence followed by a value begins inside the value of an earlier one. */
  ghost predicate NestedAt(s: string, marker: string, p1: nat, p2: nat) {
    && OccursAt(Lower(s), marker, p1)
    && FollowedByValue(s, marker, p2)
    && p1 + |marker| <= p2
    && forall k :: p1 + |marker| <= k <= p2 ==> !EndsValue(s[k])
  }

  /** A bearer header that begins inside the value of an earlier one. */
  ghost predicate NestedBearer(s: string, p1: nat, p2: nat) {
    NestedAt(s, BEARER, p1, p2)
  }

  /** The bearer scan covers the first character of the value at `p`. */
  ghost predicate BearerCovered(s: string, p: nat) {
    exists r :: r in Hits(s, BEARER, 0) && r.start <= p + |BEARER| < r.end
  }

  lemma BearerText()
    ensures |BEARER| == 22 && BEARER[14] == ' ' && EndsValue(' ')
  {
  }

  /** From `from` on, the bearer scan covers no value of a header that started earlier. */
  lemma LaterHitsStartLate(s: string, from: nat)
    requires from <= |s|
    ensures forall r :: r in Hits(s, BEARER, from) ==> from + |BEARER| <= r.start
  {
    HitsAreOk(s, BEARER, from);
    assert forall r :: r in Hits(s, BEARER, from) ==> HitOk(s, BEARER, from, r);
  }

  /** The blank within a header ends any value that the header starts in. */
  lemma BlankInHeader(s: string, hit: Range, p: nat)
    requires ValueAt(s, hit.start, hit.end) && hit.start <= p < hit.end && FollowedByValue(s, BEARER, p)
    ensures hit.end <= p + 14
  {
    BearerText();
    assert Lower(s)[p..p + 22][14] == LowerChar(s[p + 14]);
    assert EndsValue(s[p + 14]);
  }

  /** A header inside a hit value is missed: the scan resumes at the blank within it. */
  lemma {:induction false} InsideHitIsMissed(s: string, from: nat, hit: Range, p: nat)
    requires from <= |s| && from <= p && hit in Hits(s, BEARER, from) && hit.start <= p < hit.end
    requires FollowedByValue(s, BEARER, p)
    ensures forall r :: r in Hits(s, BEARER, from) ==> !(r.start <= p + |BEARER| < r.end)
    decreases |s| - from
  {
    var i := Find(Lower(s), BEARER, from).value;
    var end := FirstHit(s, BEARER, from, i);
    var rest := Hits(s, BEARER, end);
    HitsAreValues(s, BEARER, from);
    LaterHitsStartLate(s, end);
    if hit in rest {
      InsideHitIsMissed(s, end, hit, p);
    } else {
      assert hit == Range(i + |BEARER|, end);
      BlankInHeader(s, hit, p);
    }
  }

  /** The bearer scan covers every bearer value exactly when no bearer header begins
      inside the value of another. */
  lemma BearerCoveredIff(s: string)
    ensures (forall p: nat :: FollowedByValue(s, BEARER, p) ==> BearerCovered(s, p))
            <==> !exists p1: nat, p2: nat :: NestedBearer(s, p1, p2)
  {
    BearerNoOverlap();
    HitsAccount(s, BEARER, 0);
    HitsAreValues(s, BEARER, 0);
    HitsFollowMarkers(s, BEARER, 0);
    forall p: nat | FollowedByValue(s, BEARER, p) && !BearerCovered(s, p)
      ensures exists p1: nat, p2: nat :: NestedBearer(s, p1, p2)
    {
      assert Accounted(s, BEARER, Hits(s, BEARER, 0), p);
      var r :| r in Hits(s, BEARER, 0) && (r.start == p + |BEARER| || r.start <= p < r.end);
      assert NestedBearer(s, r.start - |BEARER|, p);
    }
    forall p1: nat, p2: nat | NestedBearer(s, p1, p2)
      ensures exists p: nat :: FollowedByValue(s, BEARER, p) && !BearerCovered(s, p)
    {
      NestedIsMissed(s, p1, p2);
    }
  }

  lemma HitsFollowMarkers(s: string, marker: Marker, from: nat)
    requires from <= |s|
    ensures forall r :: r in Hits(s, marker, from) ==>
              r.start >= |marker| && OccursAt(Lower(s), marker, r.start - |marker|)
  {
    HitsAreOk(s, marker, from);
    assert forall r :: r in Hits(s, marker, from) ==> HitOk(s, marker, from, r);
  }

  lemma NestedIsMissed(s: string, p1: nat, p2: nat)
    requires NestedBearer(s, p1, p2)
    ensures exists p: nat :: FollowedByValue(s, BEARER, p) && !BearerCovered(s, p)
  {
    BearerNoOverlap();
    HitsAccount(s, BEARER, 0);
    HitsAreValues(s, BEARER, 0);
    assert FollowedByValue(s, BEARER, p1);
    assert Accounted(s, BEARER, Hits(s, BEARER, 0), p1);
    var r :| r in Hits(s, BEARER, 0) && (r.start == p1 + |BEARER| || r.start <= p1 < r.end);
    var p := if r.start == p1 + |BEARER| then p2 else p1;
    InsideHitIsMissed(s, 0, r, p);
    assert FollowedByValue(s, BEARER, p) && !BearerCovered(s, p);
  }

  lemma {:induction false} HitOfSomeMarker(s: string, markers: seq<Marker>, r: Range)
    requires r in AllHits(s, markers)
    ensures exists m :: m in markers && r in Hits(s, m, 0)
  {
    if r in Hits(s, markers[0], 0) {
      assert markers[0] in markers;
    } else {
      HitOfSomeMarker(s, markers[1..], r);
    }
  }

  /** What the pass blanks comes from one of the markers' scans. */
  lemma BlankedIsHit(s: string, a: Range)
    requires a in Blanked(s)
    ensures ValueAt(s, a.start, a.end) && exists m :: m in ALL && a in Hits(s, m, 0)
  {
    var hits := AllHits(s, ALL);
    AllHitsAreValues(s, ALL);
    SortKeepsMembers(hits);
    SpliceApplies(s, Sort(hits), 0);
    HitOfSomeMarker(s, ALL, a);
  }

  /** The pass blanks the first character of the bearer value at `p`. */
  ghost predicate BearerBlanked(s: string, p: nat) {
    exists a :: a in Blanked(s) && a.start <= p + |BEARER| < a.end
  }

  lemma {:induction false} MarkerHitsAreHits(s: string, markers: seq<Marker>, m: Marker, r: Range)
    requires m in markers && r in Hits(s, m, 0)
    ensures r in AllHits(s, markers)
  {
    if m != markers[0] {
      MarkerHitsAreHits(s, markers[1..], m, r);
    }
  }

  /** A blanked range behind a bearer header starts right there, behind a blank, and so
      comes from no `=` marker. */
  lemma BehindHeaderIsBearer(s: string, p: nat, a: Range)
    requires FollowedByValue(s, BEARER, p) && a in Blanked(s) && a.start <= p + |BEARER| < a.end
    ensures a in Hits(s, BEARER, 0)
  {
    BlankedIsHit(s, a);
    BearerText();
    assert Lower(s)[p..p + 22][21] == LowerChar(s[p + 21]);
    assert EndsValue(s[p + 21]);
    assert a.start == p + 22;
    var m :| m in ALL && a in Hits(s, m, 0);
    HitsFollowMarkers(s, m, 0);
    assert LowerChar(s[a.start - 1]) == Lower(s)[a.start - |m|..a.start][|m| - 1];
    if m != BEARER {
      AssignmentsEndUniquely(m);
    }
  }

  lemma BlankedIffCovered(s: string, p: nat)
    requires FollowedByValue(s, BEARER, p)
    ensures BearerBlanked(s, p) <==> BearerCovered(s, p)
  {
    if BearerCovered(s, p) {
      var r :| r in Hits(s, BEARER, 0) && r.start <= p + |BEARER| < r.end;
      assert BEARER in ALL;
      MarkerHitsAreHits(s, ALL, BEARER, r);
      HitsAreBlanked(s, r);
    }
    if BearerBlanked(s, p) {
      var a :| a in Blanked(s) && a.start <= p + |BEARER| < a.end;
      BehindHeaderIsBearer(s, p, a);
    }
  }

  /** The pass blanks every bearer value of a text exactly when no bearer header of the text
      begins inside the value of another. */
  lemma BearersBlankedIff(s: string)
    ensures (forall p: nat :: FollowedByValue(s, BEARER, p) ==> BearerBlanked(s, p))
            <==> !exists p1: nat, p2: nat :: NestedBearer(s, p1, p2)
  {
    BearerCoveredIff(s);
    forall p: nat | FollowedByValue(s, BEARER, p) ensures BearerBlanked(s, p) <==> BearerCovered(s, p) {
      BlankedIffCovered(s, p);
    }
  }

  lemma BearerLetters()
    ensures |BEARER| == 22 && !EndsValue(BEARER[0]) && Lower(BEARER) == BEARER
  {
    assert forall k :: 0 <= k < 22 ==> LowerChar(BEARER[k]) == BEARER[k];
  }

  lemma DoubledText(s: string, m: string)
    requires m != "" && s == m + m + "x"
    ensures |s| == 2 * |m| + 1 && s[|m|] == m[0] && s[2 * |m|] == 'x'
    ensures OccursAt(Lower(s), Lower(m), 0) && OccursAt(Lower(s), Lower(m), |m|)
  {
    LowerJoins(m, m, "x");
  }

  /** A doubled header is such a text. */
  lemma DoubledBearerIsNested(s: string)
    requires s == BEARER + BEARER + "x"
    ensures NestedBearer(s, 0, 22)
  {
    BearerLetters();
    DoubledNested(s, BEARER);
  }

  lemma DoubledNested(s: string, m: string)
    requires m != "" && Lower(m) == m && !EndsValue(m[0]) && s == m + m + "x"
    ensures NestedAt(s, m, 0, |m|)
  {
    DoubledText(s, m);
    assert !EndsValue('x');
  }

  /** The value of the second of two headers in a row is not blanked. */
  lemma DoubledBearerLeaks(s: string)
    requires s == BEARER + BEARER + "x"
    ensures FollowedByValue(s, BEARER, 22) && !BearerBlanked(s, 22)
  {
    DoubledBearerIsNested(s);
    BearerLetters();
    var r := FirstHeaderIsHit(s);
    InsideHitIsMissed(s, 0, r, 22);
    BlankedIffCovered(s, 22);
  }

  /** A header at the very start is hit. */
  lemma FirstHeaderIsHit(s: string) returns (r: Range)
    requires FollowedByValue(s, BEARER, 0)
    ensures r in Hits(s, BEARER, 0) && r.start == |BEARER| && ValueAt(s, r.start, r.end)
  {
    BearerNoOverlap();
    HitsAccount(s, BEARER, 0);
    HitsAreOk(s, BEARER, 0);
    assert Accounted(s, BEARER, Hits(s, BEARER, 0), 0);
    r :| r in Hits(s, BEARER, 0) && (r.start == 0 + |BEARER| || r.start <= 0 < r.end);
    assert HitOk(s, BEARER, 0, r);
  }

  /** A whole value right behind an occurrence of one of the markers. */
  ghost predicate BehindMarker(s: string, r: Range) {
    && ValueAt(s, r.start, r.end)
    && exists m :: m in ALL && r.start >= |m| && OccursAt(Lower(s), m, r.start - |m|)
  }

  /** The pass replaces values right behind one of its markers and changes nothing else. */
  lemma OnlyValuesChange(s: string)
    ensures OnlyCut(s, Blanked(s), RedactAssignments(s))
    ensures forall r :: r in Blanked(s) ==> BehindMarker(s, r)
  {
    var hits := AllHits(s, ALL);
    AllHitsAreValues(s, ALL);
    SortKeepsMembers(hits);
    SpliceApplies(s, Sort(hits), 0);
    SpliceOnlyCuts(s, Blanked(s));
    forall r | r in Blanked(s) ensures BehindMarker(s, r) {
      BlankedIsHit(s, r);
      var m :| m in ALL && r in Hits(s, m, 0);
      HitsFollowMarkers(s, m, 0);
    }
  }

  // ----------------------------------------------------------------- Composition

  /** The splice never touches an earlier token redaction: a range starts right after
      a character that no redaction and no token marker ends with. */
  ghost predicate StartsAfter(s: string, ranges: seq<Range>, last: set<char>) {
    forall r :: r in ranges ==> 0 < r.start <= r.end <= |s| && s[r.start - 1] in last
  }

  lemma {:induction false} SpliceKeepsRedacted(s: string, ranges: seq<Range>, cursor: nat,
                                               marker: string, last: set<char>)
    requires cursor <= |s| && StartsAfter(s, ranges, last)
    requires Clean(marker, REDACTED) && Redacted(s, marker)
    requires marker[|marker| - 1] !in last && forall c :: c in last ==> c !in REDACTED
    ensures Redacted(Splice(s, ranges, cursor), marker)
    decreases |ranges|
  {
    if ranges == [] {
      SuffixRedacted(s, cursor, marker);
    } else if ranges[0].start < cursor {
      SpliceKeepsRedacted(s, ranges[1..], cursor, marker, last);
    } else {
      var start := ranges[0].start;
      SpliceKeepsRedacted(s, ranges[1..], ranges[0].end, marker, last);
      JoinKeepsRedacted(s, cursor, start, Splice(s, ranges[1..], ranges[0].end), marker);
    }
  }

  lemma JoinKeepsRedacted(s: string, cursor: nat, start: nat, b: string, marker: string)
    requires cursor <= start <= |s| && 0 < start
    requires Clean(marker, REDACTED) && Redacted(s, marker) && Redacted(b, marker)
    requires s[start - 1] != marker[|marker| - 1] && s[start - 1] !in REDACTED
    ensures Redacted(s[cursor..start] + REDACTED + b, marker)
  {
    var a := s[cursor..start];
    forall j: nat | OccursAt(a, marker, j)
      ensures RedactedAt(a, j + |marker|) && j + |marker| + 10 < |a|
    {
      var e := j + |marker|;
      SliceOfSlice(s, cursor, start, j, e);
      assert OccursAt(s, marker, cursor + j);
      assert a[j..e][|marker| - 1] == s[cursor + e - 1];
      assert RedactedAt(s, cursor + e);
      RedactionBeforeCut(s, start, cursor + e);
      SliceOfSlice(s, cursor, start, e, e + 10);
    }
    JoinRedacted(a, b, marker);
  }

  const VALUE_OPENERS: set<char> := {'=', ' '}

  lemma AssignmentMarkerEnds(m: Marker)
    requires m in ALL
    ensures m[|m| - 1] in VALUE_OPENERS
  {
    if m != BEARER {
      AssignmentsEndUniquely(m);
    }
  }

  lemma {:induction false} HitsStartAfterOpeners(s: string, markers: seq<Marker>)
    requires forall m :: m in markers ==> m in ALL
    ensures StartsAfter(s, AllHits(s, markers), VALUE_OPENERS)
  {
    if markers != [] {
      var m := markers[0];
      HitsStartAfterOpeners(s, markers[1..]);
      HitsFollowMarkers(s, m, 0);
      HitsAreValues(s, m, 0);
      AssignmentMarkerEnds(m);
      forall r | r in Hits(s, m, 0) ensures 0 < r.start <= r.end <= |s| && s[r.start - 1] in VALUE_OPENERS {
        assert Lower(s)[r.start - |m|..r.start][|m| - 1] == LowerChar(s[r.start - 1]);
      }
    }
  }

  lemma TokenMarkersEndElsewhere(m: Marker)
    requires m in MARKERS
    ensures m[|m| - 1] !in VALUE_OPENERS
  {
  }

  /** Both passes, before the text is cut to size. */
  function Redact(s: string): string {
    RedactAssignments(RedactMarkers(s, MARKERS))
  }

  /** The second pass keeps what the first one achieved, and adds its own. */
  lemma BothPassesHold(s: string)
    ensures forall m :: m in MARKERS ==> Redacted(Redact(s), m)
    ensures forall m :: m in ALL ==> Scrubbed(Redact(s), m)
  {
    var first := RedactMarkers(s, MARKERS);
    var hits := AllHits(first, ALL);
    SixMarkersRedacted(s);
    MarkersClean();
    HitsStartAfterOpeners(first, ALL);
    SortKeepsMembers(hits);
    forall m | m in MARKERS ensures Redacted(Redact(s), m) {
      TokenMarkersEndElsewhere(m);
      SpliceKeepsRedacted(first, Sort(hits), 0, m, VALUE_OPENERS);
    }
    forall m | m in ALL ensures Scrubbed(Redact(s), m) {
      AssignmentsScrubbed(first, m);
    }
  }

  // ------------------------------------------------------------------ Truncation

  function Utf8Length(c: char): nat {
    if c < '\U{80}' then 1 else if c < '\U{800}' then 2 else if c as int < 0x10000 then 3 else 4
  }

  function Bytes(s: string): nat {
    if s == "" then 0 else Utf8Length(s[0]) + Bytes(s[1..])
  }

  /** How many leading characters fit in the budget. */
  function Fitting(s: string, budget: nat): (n: nat)
    ensures n <= |s|
  {
    if s == "" || Utf8Length(s[0]) > budget then 0 else 1 + Fitting(s[1..], budget - Utf8Length(s[0]))
  }

  const ELLIPSIS := "\U{2026}"

  function Truncate(s: string, maxBytes: nat): string {
    if Bytes(s) <= maxBytes then s else s[..Fitting(s, maxBytes)] + ELLIPSIS
  }

  /** The longest prefix within the budget. */
  lemma {:induction false} FittingIsLongest(s: string, budget: nat)
    ensures var n := Fitting(s, budget);
      && Bytes(s[..n]) <= budget
      && (n < |s| ==> Bytes(s[..n + 1]) > budget)
  {
    if s != "" && Utf8Length(s[0]) <= budget {
      FittingIsLongest(s[1..], budget - Utf8Length(s[0]));
      var n := Fitting(s, budget);
      assert s[..n][1..] == s[1..][..n - 1];
      if n < |s| {
        assert s[..n + 1][1..] == s[1..][..n];
      }
    } else if s != "" {
      assert s[..1] == [s[0]];
    }
  }

  lemma {:induction false} BytesJoin(a: string, b: string)
    ensures Bytes(a + b) == Bytes(a) + Bytes(b)
    decreases |a|
  {
    if a == "" {
      assert a + b == b;
    } else {
      assert (a + b)[1..] == a[1..] + b;
      BytesJoin(a[1..], b);
    }
  }

  lemma BytesGrow(s: string, j: nat, k: nat)
    requires j <= k <= |s|
    ensures Bytes(s[..j]) <= Bytes(s[..k])
    ensures j < |s| ==> Bytes(s[..j + 1]) == Bytes(s[..j]) + Utf8Length(s[j])
  {
    assert s[..k] == s[..j] + s[j..k];
    BytesJoin(s[..j], s[j..k]);
    if j < |s| {
      assert s[..j + 1] == s[..j] + [s[j]];
      BytesJoin(s[..j], [s[j]]);
      assert Bytes([s[j]]) == Utf8Length(s[j]);
    }
  }

  /** The prefix ends at `k` when it fits and one more character would not. */
  lemma FittingIs(s: string, budget: nat, k: nat)
    requires k < |s| && Bytes(s[..k]) <= budget < Bytes(s[..k + 1])
    ensures Fitting(s, budget) == k
  {
    var n := Fitting(s, budget);
    FittingIsLongest(s, budget);
    if n < k {
      BytesGrow(s, n + 1, k);
    } else if k < n {
      BytesGrow(s, k + 1, n);
    }
  }

  lemma EllipsisSize(s: string)
    ensures Bytes(s + ELLIPSIS) == Bytes(s) + 3
  {
    BytesJoin(s, ELLIPSIS);
    assert ELLIPSIS[1..] == "";
  }

  /** A four-byte character starts three bytes before the budget is used up. */
  ghost predicate WideAtEdge(s: string, budget: nat) {
    exists k: nat :: k < |s| && Utf8Length(s[k]) == 4 && Bytes(s[..k]) + 3 == budget
  }

  /** The ellipsis comes on top of the budget: a truncated text exceeds it by up to three
      bytes, and stays within it exactly when a four-byte character left the room. */
  lemma TruncatedSize(s: string, maxBytes: nat)
    ensures Bytes(Truncate(s, maxBytes)) <= maxBytes + 3
    ensures Bytes(Truncate(s, maxBytes)) <= maxBytes <==> Bytes(s) <= maxBytes || WideAtEdge(s, maxBytes)
  {
    if Bytes(s) > maxBytes {
      var n := Fitting(s, maxBytes);
      FittingIsLongest(s, maxBytes);
      EllipsisSize(s[..n]);
      assert n < |s| by { assert s[..|s|] == s; }
      BytesGrow(s, n, n);
      if WideAtEdge(s, maxBytes) {
        var k: nat :| k < |s| && Utf8Length(s[k]) == 4 && Bytes(s[..k]) + 3 == maxBytes;
        BytesGrow(s, k, k);
        FittingIs(s, maxBytes, k);
      }
    }
  }

  lemma ShortTextOverruns()
    ensures Bytes(Truncate("abcd", 3)) == 6
  {
    assert "abcd"[1..] == "bcd" && "bcd"[1..] == "cd" && "cd"[1..] == "d" && "d"[1..] == "";
    assert Fitting("d", 0) == 0 && Fitting("cd", 1) == 1 && Fitting("bcd", 2) == 2;
    assert Bytes("d") == 1 && Bytes("cd") == 2 && Bytes("bcd") == 3;
    BytesGrow("abcd", 3, 4);
    assert "abcd"[..4] == "abcd";
    EllipsisSize("abcd"[..3]);
  }

  /** What the whole redaction returns, against the budget it was given. */
  lemma BoundHoldsIff(s: string, maxBytes: nat)
    ensures Bytes(RedactAndBound(s, maxBytes)) <= maxBytes + 3
    ensures Bytes(RedactAndBound(s, maxBytes)) <= maxBytes
            <==> Bytes(Redact(s)) <= maxBytes || WideAtEdge(Redact(s), maxBytes)
  {
    TruncatedSize(Redact(s), maxBytes);
  }

  function RedactAndBound(s: string, maxBytes: nat): string {
    Truncate(Redact(s), maxBytes)
  }

  /** After truncation a token marker is followed by the redaction, or by what is left of
      it before the ellipsis: no character of the token ever shows. */
  ghost predicate HiddenAt(s: string, e: nat) {
    || OccursAt(s, REDACTED, e)
    || (exists k :: 0 <= k < 10 && e + k <= |s| && s[e..] == REDACTED[..k] + ELLIPSIS)
  }

  lemma TokensStayHidden(s: string, maxBytes: nat, m: Marker, i: nat)
    requires m in MARKERS && OccursAt(RedactAndBound(s, maxBytes), m, i)
    ensures HiddenAt(RedactAndBound(s, maxBytes), i + |m|)
  {
    BothPassesHold(s);
    var full := Redact(s);
    if Bytes(full) > maxBytes {
      var n := Fitting(full, maxBytes);
      NoEllipsisInMarkers(m);
      CutStaysHidden(full, n, m, i);
    }
  }

  lemma NoEllipsisInMarkers(m: Marker)
    requires m in MARKERS || m in ALL
    ensures '\U{2026}' !in m
  {
  }

  /** After truncation a value marker is followed by a value end, the end of the text, the
      redaction, or what is left of it before the ellipsis. */
  lemma ValuesStayHidden(s: string, maxBytes: nat, m: Marker, i: nat)
    requires m in ALL && OccursAt(Lower(RedactAndBound(s, maxBytes)), m, i)
    ensures var t, e := RedactAndBound(s, maxBytes), i + |m|;
      e == |t| || EndsValue(t[e]) || HiddenAt(t, e)
  {
    BothPassesHold(s);
    var full := Redact(s);
    if Bytes(full) > maxBytes {
      NoEllipsisInMarkers(m);
      CutStaysScrubbed(full, Fitting(full, maxBytes), m, i);
    }
  }

  lemma CutStaysScrubbed(full: string, n: nat, m: Marker, i: nat)
    requires n <= |full| && Scrubbed(full, m) && '\U{2026}' !in m
    requires OccursAt(Lower(full[..n] + ELLIPSIS), m, i)
    ensures var t, e := full[..n] + ELLIPSIS, i + |m|;
      e == |t| || EndsValue(t[e]) || HiddenAt(t, e)
  {
    var t, e := full[..n] + ELLIPSIS, i + |m|;
    CutOccurs(full, n, m, i);
    assert ValueGone(full, e);
    if e == n {
      assert t[e..] == REDACTED[..0] + ELLIPSIS;
    } else if EndsValue(full[e]) {
      assert t[e] == full[e];
    } else {
      CutRedaction(full, n, e);
    }
  }

  /** Where a redaction stood, it still does, or what is left of it before the ellipsis. */
  lemma CutRedaction(full: string, n: nat, e: nat)
    requires e <= n <= |full| && OccursAt(full, REDACTED, e)
    ensures HiddenAt(full[..n] + ELLIPSIS, e)
  {
    var t := full[..n] + ELLIPSIS;
    assert forall k :: e <= k < e + 10 ==> full[k] == full[e..e + 10][k - e];
    if e + 10 <= n {
      assert t[e..e + 10] == full[e..e + 10];
    } else {
      assert t[e..] == REDACTED[..n - e] + ELLIPSIS;
    }
  }

  lemma CutOccurs(full: string, n: nat, m: Marker, i: nat)
    requires n <= |full| && '\U{2026}' !in m && OccursAt(Lower(full[..n] + ELLIPSIS), m, i)
    ensures i + |m| <= n && OccursAt(Lower(full), m, i)
  {
    var t, e := full[..n] + ELLIPSIS, i + |m|;
    assert Lower(t)[n] == '\U{2026}';
    assert forall k :: i <= k < e ==> Lower(t)[k] == Lower(t)[i..e][k - i];
    assert e <= n;
    assert Lower(full)[i..e] == Lower(t)[i..e];
  }

  lemma CutStaysHidden(full: string, n: nat, m: Marker, i: nat)
    requires n <= |full| && Redacted(full, m) && '\U{2026}' !in m
    requires OccursAt(full[..n] + ELLIPSIS, m, i)
    ensures HiddenAt(full[..n] + ELLIPSIS, i + |m|)
  {
    var t, e := full[..n] + ELLIPSIS, i + |m|;
    assert t[n] == '\U{2026}';
    assert forall k :: i <= k < e ==> t[k] == t[i..e][k - i];
    assert e <= n;
    SliceOfSlice(t, 0, n, i, e);
    assert t[0..n] == full[..n] == full[0..n];
    SliceOfSlice(full, 0, n, i, e);
    assert OccursAt(full, m, i);
    CutRedaction(full, n, e);
  }

  // ------------------------------------------------------------- The loops

  lemma HitsOnce(s: string, marker: Marker, from: nat, start: nat, end: nat)
    requires from <= |s| && Find(Lower(s), marker, from).Some?
    requires start == Find(Lower(s), marker, from).value + |marker| && end == FindChar(s, EndsValue, start)
    ensures from < end
    ensures Hits(s, marker, from) ==
              if end > start then [Range(start, end)] + Hits(s, marker, end) else Hits(s, marker, end)
  {
  }

  method CollectHits(value: string, marker: Marker) returns (ranges: seq<Range>)
    ensures ranges == Hits(value, marker, 0)
  {
    var lower := Lower(value);
    ranges := [];
    var from: nat := 0;
    var found := Find(lower, marker, from);
    ghost var rest := Hits(value, marker, from);
    while found.Some?
      invariant from <= |value| && found == Find(lower, marker, from)
      invariant rest == Hits(value, marker, from) && ranges + rest == Hits(value, marker, 0)
      decreases |value| - from
    {
      var start := found.value + |marker|;
      var end := FindChar(value, EndsValue, start);
      HitsOnce(value, marker, from, start, end);
      if end > start {
        Associative(ranges, [Range(start, end)], Hits(value, marker, end));
        ranges := ranges + [Range(start, end)];
      }
      from := end;
      found, rest := Find(lower, marker, from), Hits(value, marker, from);
    }
    assert rest == [];
  }

  method CollectAll(value: string, markers: seq<Marker>) returns (ranges: seq<Range>)
    ensures ranges == AllHits(value, markers)
  {
    ranges := [];
    var i := 0;
    while i < |markers|
      invariant 0 <= i <= |markers|
      invariant ranges + AllHits(value, markers[i..]) == AllHits(value, markers)
    {
      var hits := CollectHits(value, markers[i]);
      assert markers[i..][1..] == markers[i + 1..];
      assert ranges + (hits + AllHits(value, markers[i + 1..])) == (ranges + hits) + AllHits(value, markers[i + 1..]);
      ranges := ranges + hits;
      i := i + 1;
    }
  }

  method SpliceRanges(value: string, ranges: seq<Range>) returns (result: string)
    requires forall r :: r in ranges ==> r.start <= r.end <= |value|
    ensures result == Splice(value, ranges, 0)
  {
    result := "";
    var cursor: nat := 0;
    var i := 0;
    while i < |ranges|
      invariant 0 <= i <= |ranges| && cursor <= |value|
      invariant result + Splice(value, ranges[i..], cursor) == Splice(value, ranges, 0)
    {
      var r := ranges[i];
      assert r in ranges && ranges[i..][1..] == ranges[i + 1..];
      if r.start >= cursor {
        var piece := value[cursor..r.start] + REDACTED;
        Associative(result, piece, Splice(value, ranges[i + 1..], r.end));
        result := result + piece;
        cursor := r.end;
      }
      i := i + 1;
    }
    result := result + value[cursor..];
  }

  method RedactAssignmentValues(value: string) returns (result: string)
    ensures result == RedactAssignments(value)
  {
    var ranges := CollectAll(value, ALL);
    AllHitsAreValues(value, ALL);
    SortKeepsMembers(ranges);
    result := SpliceRanges(value, Sort(ranges));
  }
}
