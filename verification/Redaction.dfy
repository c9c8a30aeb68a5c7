/** Credential redaction of permission texts. */
module Redaction {
  import opened Options
  import opened Sequences
  import opened Text

  const REDACTED := "[REDACTED]"

  type Marker = m: string | m != "" witness "-"

  predicate EndsToken(c: char) {
    IsWhitespace(c) || c == '"' || c == '\'' || c == ',' || c == ')' || c == ']'
  }

  // --------------------------------------------------- Tokens after a marker

  /** What the token scanner computes, piece by piece. */
  function RedactMarker(s: string, marker: Marker): string
    decreases |s|
  {
    match Find(s, marker, 0)
    case None => s
    case Some(i) =>
      var start := i + |marker|;
      s[..start] + REDACTED + RedactMarker(s[FindChar(s, EndsToken, start)..], marker)
  }

  method RedactTokenAfterMarker(value: string, marker: Marker) returns (result: string)
    ensures result == RedactMarker(value, marker)
  {
    result := "";
    var remaining := value;
    var found := Find(remaining, marker, 0);
    while found.Some?
      invariant found == Find(remaining, marker, 0)
      invariant result + RedactMarker(remaining, marker) == RedactMarker(value, marker)
      decreases |remaining|
    {
      var head, rest := RedactNext(remaining, marker, found.value);
      MoveOver(result, head, RedactMarker(rest, marker), RedactMarker(remaining, marker));
      result := result + head;
      remaining := rest;
      found := Find(remaining, marker, 0);
    }
    NothingToRedact(remaining, marker);
    result := result + remaining;
  }

  /** The text up to the first token, blanked, and what comes behind it. */
  method RedactNext(remaining: string, marker: Marker, i: nat) returns (head: string, rest: string)
    requires Find(remaining, marker, 0) == Some(i)
    ensures RedactMarker(remaining, marker) == head + RedactMarker(rest, marker) && |rest| < |remaining|
  {
    RedactOnce(remaining, marker, i);
    head := remaining[..i + |marker|] + REDACTED;
    rest := remaining[FindChar(remaining, EndsToken, i + |marker|)..];
  }

  lemma NothingToRedact(s: string, marker: Marker)
    requires Find(s, marker, 0).None?
    ensures RedactMarker(s, marker) == s
  {
  }

  lemma RedactOnce(s: string, marker: Marker, i: nat)
    requires Find(s, marker, 0) == Some(i)
    ensures RedactMarker(s, marker) ==
              s[..i + |marker|] + REDACTED + RedactMarker(s[FindChar(s, EndsToken, i + |marker|)..], marker)
  {
  }

  lemma MoveOver(done: string, head: string, tail: string, whole: string)
    requires whole == head + tail
    ensures done + whole == (done + head) + tail
  {
    Associative(done, head, tail);
  }

  /** A marker that cannot overlap a redaction: no brackets, and its last character is
      not one of the ten. */
  ghost predicate Clean(marker: string, redaction: string) {
    && marker != ""
    && '[' !in marker && ']' !in marker
    && marker[|marker| - 1] !in redaction
    && |redaction| == 10 && redaction[0] == '[' && redaction[9] == ']'
  }

  /** Occurrences in `a + redaction + b` lie in `a` or in `b`. */
  lemma OccurrenceSplits(a: string, redaction: string, b: string, marker: string, i: nat)
    requires Clean(marker, redaction) && OccursAt(a + redaction + b, marker, i)
    ensures OccursAt(a, marker, i) || (i >= |a| + 10 && OccursAt(b, marker, i - |a| - 10))
  {
    var t, n := a + redaction + b, |marker|;
    forall k | i <= k < i + n ensures t[k] in marker {
      assert t[i..i + n][k - i] == t[k];
    }
    assert forall k :: |a| <= k < |a| + 10 ==> t[k] in redaction;
    assert t[|a|] == '[' && t[|a| + 9] == ']';
    assert t[i + n - 1] == t[i..i + n][n - 1] == marker[n - 1];
    if i + n <= |a| {
      assert a[i..i + n] == t[i..i + n];
    } else if i >= |a| + 10 {
      assert b[i - |a| - 10..i - |a| - 10 + n] == t[i..i + n];
    }
  }

  /** At `e` the text goes on with a redaction and then a token end or its own end. */
  ghost predicate RedactedAt(s: string, e: nat) {
    OccursAt(s, REDACTED, e) && (e + 10 == |s| || EndsToken(s[e + 10]))
  }

  /** Every occurrence of the marker has its token redacted. */
  ghost predicate Redacted(s: string, marker: string) {
    forall i: nat :: OccursAt(s, marker, i) ==> RedactedAt(s, i + |marker|)
  }

  /** Redaction starts with the text's own first character, if any. */
  lemma SameStart(s: string, marker: Marker)
    ensures var r := RedactMarker(s, marker);
      (s == "" <==> r == "") && (s != "" ==> r[0] == s[0])
  {
  }

  lemma RedactedShifts(a: string, b: string, e: nat)
    requires RedactedAt(b, e)
    ensures RedactedAt(a + b, |a| + e)
  {
    assert (a + b)[|a| + e..|a| + e + 10] == b[e..e + 10];
  }

  lemma RedactedExtends(a: string, b: string, e: nat)
    requires RedactedAt(a, e) && e + 10 < |a|
    ensures RedactedAt(a + b, e)
  {
    assert (a + b)[e..e + 10] == a[e..e + 10];
    assert (a + b)[e + 10] == a[e + 10];
  }

  /** Every occurrence is redacted within the text, or ends it. */
  ghost predicate InnerRedacted(s: string, marker: string) {
    forall i: nat :: OccursAt(s, marker, i) ==>
      i + |marker| == |s| || (RedactedAt(s, i + |marker|) && i + |marker| + 10 < |s|)
  }

  /** A piece, the redaction, and what follows it. */
  lemma JoinRedacted(a: string, b: string, marker: string)
    requires Clean(marker, REDACTED)
    requires InnerRedacted(a, marker) && Redacted(b, marker)
    requires OccursAt(a, marker, if |a| < |marker| then 0 else |a| - |marker|) ==> b == "" || EndsToken(b[0])
    ensures Redacted(a + REDACTED + b, marker)
  {
    var t := a + REDACTED + b;
    forall j: nat | OccursAt(t, marker, j) ensures RedactedAt(t, j + |marker|) {
      OccurrenceSplits(a, REDACTED, b, marker, j);
      if OccursAt(a, marker, j) {
        assert j + |marker| == |a| ==> j == |a| - |marker|;
        JoinedBefore(a, b, marker, j);
      } else {
        RedactedShifts(a + REDACTED, b, j + |marker| - |a| - 10);
      }
    }
  }

  lemma JoinedBefore(a: string, b: string, marker: string, j: nat)
    requires InnerRedacted(a, marker) && OccursAt(a, marker, j)
    requires j + |marker| == |a| ==> b == "" || EndsToken(b[0])
    ensures RedactedAt(a + REDACTED + b, j + |marker|)
  {
    var t, e := a + REDACTED + b, j + |marker|;
    if e == |a| {
      assert t[e..e + 10] == REDACTED;
    } else {
      assert RedactedAt(a, e) && t == a + (REDACTED + b);
      RedactedExtends(a, REDACTED + b, e);
    }
  }

  /** Up to and including its first occurrence, a marker occurs only at the end. */
  lemma FirstPiece(s: string, marker: Marker)
    requires Find(s, marker, 0).Some?
    ensures InnerRedacted(s[..Find(s, marker, 0).value + |marker|], marker)
  {
    FindIsFirst(s, marker, 0);
    var a := s[..Find(s, marker, 0).value + |marker|];
    forall j: nat | OccursAt(a, marker, j) ensures j + |marker| == |a| {
      assert s[j..j + |marker|] == a[j..j + |marker|];
      assert OccursAt(s, marker, j);
    }
  }

  lemma FirstToken(s: string, marker: Marker, i: nat) returns (end: nat)
    requires Find(s, marker, 0) == Some(i)
    ensures 0 < i + |marker| <= end <= |s| && (end < |s| ==> EndsToken(s[end]))
    ensures forall k :: i + |marker| <= k < end ==> !EndsToken(s[k])
    ensures RedactMarker(s, marker) == s[..i + |marker|] + REDACTED + RedactMarker(s[end..], marker)
  {
    end := FindChar(s, EndsToken, i + |marker|);
    FindCharIsFirst(s, EndsToken, i + |marker|);
    RedactOnce(s, marker, i);
  }

  /** The scanner redacts its own marker. */
  lemma {:induction false} MarkerIsRedacted(s: string, marker: Marker)
    requires Clean(marker, REDACTED)
    ensures Redacted(RedactMarker(s, marker), marker)
    decreases |s|
  {
    FindIsFirst(s, marker, 0);
    match Find(s, marker, 0)
    case None =>
    case Some(i) =>
      var end := FirstToken(s, marker, i);
      MarkerIsRedacted(s[end..], marker);
      FirstPiece(s, marker);
      SameStart(s[end..], marker);
      JoinRedacted(s[..i + |marker|], RedactMarker(s[end..], marker), marker);
  }

  lemma SuffixRedacted(s: string, k: nat, marker: string)
    requires k <= |s| && Redacted(s, marker)
    ensures Redacted(s[k..], marker)
  {
    forall j: nat | OccursAt(s[k..], marker, j) ensures RedactedAt(s[k..], j + |marker|) {
      assert s[k + j..k + j + |marker|] == s[k..][j..j + |marker|];
      assert OccursAt(s, marker, k + j);
      var e := j + |marker|;
      assert s[k..][e..e + 10] == s[k + e..k + e + 10];
    }
  }

  /** A redaction cannot reach into a marker, so cutting after one keeps it whole. */
  lemma PieceStaysRedacted(s: string, marker: string, other: string, i: nat)
    requires Clean(marker, REDACTED) && Redacted(s, other) && OccursAt(s, marker, i)
    ensures InnerRedacted(s[..i + |marker|], other)
  {
    var a := s[..i + |marker|];
    assert s[i..i + |marker|][|marker| - 1] == s[|a| - 1];
    forall j: nat | OccursAt(a, other, j) && j + |other| < |a|
      ensures RedactedAt(a, j + |other|) && j + |other| + 10 < |a|
    {
      var e := j + |other|;
      assert s[0..|a|] == a;
      SliceOfSlice(s, 0, |a|, j, e);
      assert OccursAt(s, other, j);
      RedactionBeforeCut(s, |a|, e);
    }
  }

  /** Cutting behind a character that is in no redaction leaves a redaction before it whole. */
  lemma RedactionBeforeCut(s: string, cut: nat, e: nat)
    requires RedactedAt(s, e) && e < cut <= |s| && s[cut - 1] !in REDACTED
    ensures e + 10 < cut && RedactedAt(s[..cut], e)
  {
    forall k | e <= k < e + 10 ensures s[k] in REDACTED {
      assert s[k] == s[e..e + 10][k - e];
    }
    assert s[0..cut] == s[..cut];
    SliceOfSlice(s, 0, cut, e, e + 10);
  }

  /** It never undoes another marker's redaction and exposes no new occurrence. */
  lemma {:induction false} OtherStaysRedacted(s: string, marker: Marker, other: string)
    requires Clean(marker, REDACTED) && Clean(other, REDACTED) && Redacted(s, other)
    ensures Redacted(RedactMarker(s, marker), other)
    decreases |s|
  {
    FindIsFirst(s, marker, 0);
    match Find(s, marker, 0)
    case None =>
    case Some(i) =>
      var k := FirstToken(s, marker, i);
      SuffixRedacted(s, k, other);
      OtherStaysRedacted(s[k..], marker, other);
      PieceStaysRedacted(s, marker, other, i);
      SameStart(s[k..], marker);
      JoinRedacted(s[..i + |marker|], RedactMarker(s[k..], marker), other);
  }

  // ----------------------------------------------------- Nothing else changes

  /** A half-open range of indices to blank. */
  datatype Range = Range(start: nat, end: nat)

  ghost predicate Within(ranges: seq<Range>, length: nat) {
    forall r :: r in ranges ==> r.start <= r.end <= length
  }

  /** The text from `cursor` on, with the ranges blanked; overlapped ones are skipped. */
  function Splice(s: string, ranges: seq<Range>, cursor: nat): string
    requires cursor <= |s| && Within(ranges, |s|)
    decreases |ranges|
  {
    if ranges == [] then s[cursor..]
    else if ranges[0].start < cursor then Splice(s, ranges[1..], cursor)
    else s[cursor..ranges[0].start] + REDACTED + Splice(s, ranges[1..], ranges[0].end)
  }

  /** The ranges that are not skipped. */
  function Applied(ranges: seq<Range>, cursor: nat): seq<Range> {
    if ranges == [] then []
    else if ranges[0].start < cursor then Applied(ranges[1..], cursor)
    else [ranges[0]] + Applied(ranges[1..], ranges[0].end)
  }

  /** Ranges from `cursor` on, in order and apart. */
  predicate InOrder(cuts: seq<Range>, cursor: nat, length: nat)
    decreases |cuts|
  {
    if cuts == [] then cursor <= length
    else cursor <= cuts[0].start <= cuts[0].end <= length && InOrder(cuts[1..], cuts[0].end, length)
  }

  lemma {:induction false} InOrderWithin(cuts: seq<Range>, cursor: nat, length: nat)
    requires InOrder(cuts, cursor, length)
    ensures cursor <= length && forall r :: r in cuts ==> cursor <= r.start <= r.end <= length
    decreases |cuts|
  {
    if cuts != [] {
      InOrderWithin(cuts[1..], cuts[0].end, length);
    }
  }

  /** The ranges not skipped are in order, and blanking them is all that splicing does. */
  lemma {:induction false} SpliceApplies(s: string, ranges: seq<Range>, cursor: nat)
    requires cursor <= |s| && Within(ranges, |s|)
    ensures InOrder(Applied(ranges, cursor), cursor, |s|)
    ensures forall r :: r in Applied(ranges, cursor) ==> r in ranges
    ensures Splice(s, ranges, cursor) == Splice(s, Applied(ranges, cursor), cursor)
    decreases |ranges|
  {
    if ranges != [] {
      if ranges[0].start < cursor {
        SpliceApplies(s, ranges[1..], cursor);
      } else {
        assert ranges[0] in ranges;
        SpliceApplies(s, ranges[1..], ranges[0].end);
        var rest := Applied(ranges[1..], ranges[0].end);
        assert ([ranges[0]] + rest)[1..] == rest;
      }
    }
  }

  /** How far the blanked ranges up to `k` move the text behind them. */
  function Shift(cuts: seq<Range>, k: nat): int
    decreases |cuts|
  {
    if cuts == [] then 0
    else (if cuts[0].end <= k then 10 - (cuts[0].end - cuts[0].start) else 0) + Shift(cuts[1..], k)
  }

  lemma {:induction false} NoShiftBefore(cuts: seq<Range>, cursor: nat, length: nat, k: nat)
    requires InOrder(cuts, cursor, length) && k < cursor
    ensures Shift(cuts, k) == 0
    decreases |cuts|
  {
    if cuts != [] {
      NoShiftBefore(cuts[1..], cuts[0].end, length, k);
    }
  }

  ghost predicate Outside(cuts: seq<Range>, k: nat) {
    forall r :: r in cuts ==> !(r.start <= k < r.end)
  }

  lemma OutsideTail(cuts: seq<Range>, k: nat)
    requires cuts != [] && Outside(cuts, k)
    ensures !(cuts[0].start <= k < cuts[0].end) && Outside(cuts[1..], k)
  {
    assert cuts[0] in cuts;
  }

  lemma SpliceHead(s: string, cuts: seq<Range>, cursor: nat)
    requires cuts != [] && InOrder(cuts, cursor, |s|) && cursor <= |s| && Within(cuts, |s|)
    ensures cursor <= cuts[0].start <= cuts[0].end <= |s|
    ensures InOrder(cuts[1..], cuts[0].end, |s|) && Within(cuts[1..], |s|)
    ensures Splice(s, cuts, cursor) ==
              s[cursor..cuts[0].start] + REDACTED + Splice(s, cuts[1..], cuts[0].end)
  {
  }

  /** `c` stands at `j`. */
  predicate StandsAt(t: string, j: int, c: char) {
    0 <= j < |t| && t[j] == c
  }

  lemma JoinedStands(a: string, tail: string, j: int, c: char)
    ensures StandsAt(a, j, c) ==> StandsAt(a + REDACTED + tail, j, c)
    ensures StandsAt(tail, j, c) ==> StandsAt(a + REDACTED + tail, |a| + 10 + j, c)
  {
  }

  lemma ShiftHead(cuts: seq<Range>, cursor: nat, length: nat, k: nat)
    requires cuts != [] && InOrder(cuts, cursor, length) && cuts[0].start <= cuts[0].end
    ensures k < cuts[0].start ==> Shift(cuts, k) == 0
    ensures k >= cuts[0].end ==>
              Shift(cuts, k) == 10 - (cuts[0].end - cuts[0].start) + Shift(cuts[1..], k)
  {
    if k < cuts[0].start {
      NoShiftBefore(cuts[1..], cuts[0].end, length, k);
    }
  }

  /** Every character outside the ranges is kept, in its place but for the shift. */
  lemma {:induction false} SpliceKeepsRest(s: string, cuts: seq<Range>, cursor: nat, k: nat)
    requires InOrder(cuts, cursor, |s|) && cursor <= k < |s|
    requires Outside(cuts, k)
    requires cursor <= |s| && Within(cuts, |s|)
    ensures StandsAt(Splice(s, cuts, cursor), k - cursor + Shift(cuts, k), s[k])
    decreases |cuts|
  {
    if cuts != [] {
      var head, rest := cuts[0], cuts[1..];
      OutsideTail(cuts, k);
      SpliceHead(s, cuts, cursor);
      ShiftHead(cuts, cursor, |s|, k);
      var tail := Splice(s, rest, head.end);
      if k < head.start {
        JoinedStands(s[cursor..head.start], tail, k - cursor, s[k]);
      } else {
        SpliceKeepsRest(s, rest, head.end, k);
        JoinedStands(s[cursor..head.start], tail, k - head.end + Shift(rest, k), s[k]);
      }
    }
  }

  lemma {:induction false} SpliceLength(s: string, cuts: seq<Range>, cursor: nat)
    requires InOrder(cuts, cursor, |s|)
    requires cursor <= |s| && Within(cuts, |s|)
    ensures |Splice(s, cuts, cursor)| == |s| - cursor + Shift(cuts, |s|)
    decreases |cuts|
  {
    if cuts != [] {
      SpliceLength(s, cuts[1..], cuts[0].end);
    }
  }

  /** Every character of `s` outside the ranges is found in `t`, in its place but for the
      shift. */
  ghost predicate KeepsRest(s: string, cuts: seq<Range>, t: string) {
    forall k :: 0 <= k < |s| && Outside(cuts, k) ==> StandsAt(t, k + Shift(cuts, k), s[k])
  }

  /** The output `t` is the text `s` with the ranges replaced, and nothing else changed. */
  ghost predicate OnlyCut(s: string, cuts: seq<Range>, t: string) {
    InOrder(cuts, 0, |s|) && |t| == |s| + Shift(cuts, |s|) && KeepsRest(s, cuts, t)
  }

  lemma SpliceOnlyCuts(s: string, cuts: seq<Range>)
    requires InOrder(cuts, 0, |s|) && Within(cuts, |s|)
    ensures OnlyCut(s, cuts, Splice(s, cuts, 0))
  {
    SpliceLength(s, cuts, 0);
    var t := Splice(s, cuts, 0);
    forall k | 0 <= k < |s| && Outside(cuts, k) ensures StandsAt(t, k + Shift(cuts, k), s[k]) {
      SpliceKeepsRest(s, cuts, 0, k);
    }
  }

  /** A token right behind an occurrence of the marker; it may be empty. */
  ghost predicate TokenAfter(s: string, marker: string, r: Range) {
    && |marker| <= r.start <= r.end <= |s| && OccursAt(s, marker, r.start - |marker|)
    && (forall k :: r.start <= k < r.end ==> !EndsToken(s[k]))
    && (r.end < |s| ==> EndsToken(s[r.end]))
  }

  /** The pass over the text from `from` on, as ranges of the whole text. */
  lemma {:induction false} PassSplices(s: string, marker: Marker, from: nat) returns (cuts: seq<Range>)
    requires from <= |s|
    ensures InOrder(cuts, from, |s|)
    ensures forall r :: r in cuts ==> TokenAfter(s, marker, r) && r.start <= r.end <= |s|
    ensures RedactMarker(s[from..], marker) == Splice(s, cuts, from)
    decreases |s| - from
  {
    var rest := s[from..];
    FindIsFirst(rest, marker, 0);
    match Find(rest, marker, 0) {
      case None => cuts := [];
      case Some(i) =>
        var end := FirstToken(rest, marker, i);
        var head := Range(from + i + |marker|, from + end);
        TokenInWhole(s, marker, from, i, end);
        assert rest[end..] == s[head.end..] && rest[..i + |marker|] == s[from..head.start];
        var later := PassSplices(s, marker, head.end);
        cuts := [head] + later;
        assert cuts[1..] == later;
    }
  }

  lemma TokenInWhole(s: string, marker: Marker, from: nat, i: nat, end: nat)
    requires from <= |s| && OccursAt(s[from..], marker, i) && i + |marker| <= end <= |s| - from
    requires forall k :: i + |marker| <= k < end ==> !EndsToken(s[from..][k])
    requires end < |s| - from ==> EndsToken(s[from..][end])
    ensures TokenAfter(s, marker, Range(from + i + |marker|, from + end))
  {
    assert s[from + i..from + i + |marker|] == s[from..][i..i + |marker|];
    forall k | from + i + |marker| <= k < from + end ensures !EndsToken(s[k]) {
      assert s[k] == s[from..][k - from];
    }
  }

  /** A pass replaces tokens behind its marker and changes nothing else. */
  lemma OnlyTokensChange(s: string, marker: Marker) returns (cuts: seq<Range>)
    ensures OnlyCut(s, cuts, RedactMarker(s, marker)) && forall r :: r in cuts ==> TokenAfter(s, marker, r)
  {
    cuts := PassSplices(s, marker, 0);
    assert s[0..] == s;
    SpliceOnlyCuts(s, cuts);
  }

  // ----------------------------------------------------------- All six markers

  const MARKERS: seq<Marker> := ["nsec1", "ghp_", "gho_", "github_pat_", "glpat-", "sk-"]

  function RedactMarkers(s: string, markers: seq<Marker>): string
    decreases |markers|
  {
    if markers == [] then s else RedactMarkers(RedactMarker(s, markers[0]), markers[1..])
  }

  lemma {:induction false} LaterPassesKeep(s: string, markers: seq<Marker>, other: string)
    requires forall m :: m in markers ==> Clean(m, REDACTED)
    requires Clean(other, REDACTED) && Redacted(s, other)
    ensures Redacted(RedactMarkers(s, markers), other)
    decreases |markers|
  {
    if markers != [] {
      OtherStaysRedacted(s, markers[0], other);
      LaterPassesKeep(RedactMarker(s, markers[0]), markers[1..], other);
    }
  }

  lemma {:induction false} AllMarkersRedacted(s: string, markers: seq<Marker>, m: Marker)
    requires forall m :: m in markers ==> Clean(m, REDACTED)
    requires m in markers
    ensures Redacted(RedactMarkers(s, markers), m)
    decreases |markers|
  {
    var s' := RedactMarker(s, markers[0]);
    if m == markers[0] {
      MarkerIsRedacted(s, m);
      LaterPassesKeep(s', markers[1..], m);
    } else {
      AllMarkersRedacted(s', markers[1..], m);
    }
  }

  lemma MarkersClean()
    ensures forall m :: m in MARKERS ==> Clean(m, REDACTED)
  {
  }

  /** After the whole pass, every occurrence of every marker is followed by the redaction
      and then a token end or the end of the text, whatever the text was. */
  lemma SixMarkersRedacted(s: string)
    ensures forall m :: m in MARKERS ==> Redacted(RedactMarkers(s, MARKERS), m)
  {
    MarkersClean();
    forall m | m in MARKERS ensures Redacted(RedactMarkers(s, MARKERS), m) {
      AllMarkersRedacted(s, MARKERS, m);
    }
  }

  // -------------------------------------------------- A pass is not idempotent

  lemma BracketEndsToken(s: string, e: nat, end: nat)
    requires OccursAt(s, REDACTED, e) && e <= end <= |s| && (end < |s| ==> EndsToken(s[end]))
    requires forall k :: e <= k < end ==> !EndsToken(s[k])
    ensures end == e + 9
  {
    assert forall k :: e <= k < e + 10 ==> s[k] == s[e..e + 10][k - e];
    assert s[e + 9] == ']' && forall k :: e <= k < e + 9 ==> !EndsToken(s[k]);
  }

  lemma {:induction false} RedactedGrows(s: string, marker: Marker)
    requires Clean(marker, REDACTED) && Redacted(s, marker)
    ensures |RedactMarker(s, marker)| >= |s|
    ensures Find(s, marker, 0).Some? ==> |RedactMarker(s, marker)| > |s|
    decreases |s|
  {
    FindIsFirst(s, marker, 0);
    match Find(s, marker, 0)
    case None =>
    case Some(i) =>
      assert RedactedAt(s, i + |marker|);
      var end := FirstToken(s, marker, i);
      BracketEndsToken(s, i + |marker|, end);
      SuffixRedacted(s, end, marker);
      RedactedGrows(s[end..], marker);
      assert |RedactMarker(s, marker)| == i + |marker| + 10 + |RedactMarker(s[end..], marker)|;
  }

  lemma {:induction false} MarkerSurvives(s: string, marker: Marker)
    requires Find(s, marker, 0).Some?
    ensures Find(RedactMarker(s, marker), marker, 0).Some?
  {
    FindIsFirst(s, marker, 0);
    FindIsFirst(RedactMarker(s, marker), marker, 0);
    var i := Find(s, marker, 0).value;
    assert RedactMarker(s, marker)[i..i + |marker|] == s[i..i + |marker|];
    assert OccursAt(RedactMarker(s, marker), marker, i);
  }

  /** Redacting twice changes nothing exactly when there was nothing to redact, because the
      closing bracket of a redaction itself ends a token. */
  lemma IdempotentIffAbsent(s: string, marker: Marker)
    requires Clean(marker, REDACTED)
    ensures RedactMarker(RedactMarker(s, marker), marker) == RedactMarker(s, marker)
            <==> forall i: nat :: !OccursAt(s, marker, i)
  {
    FindIsFirst(s, marker, 0);
    if Find(s, marker, 0).Some? {
      MarkerIsRedacted(s, marker);
      MarkerSurvives(s, marker);
      RedactedGrows(RedactMarker(s, marker), marker);
    }
  }
}
