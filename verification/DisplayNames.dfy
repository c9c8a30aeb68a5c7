/** Session titles and git author names made from free-form display names. */
module DisplayNames {
  import opened Options
  import opened Sequences
  import opened Text

  const MAX_CHARS: nat := 80

  // ------------------------------------------------------------- Normalisation

  function Words(s: string): seq<string>
    decreases |s|
  {
    if s == "" then []
    else if IsWhitespace(s[0]) then Words(s[1..])
    else
      var k := FindChar(s, IsWhitespace, 1);
      [s[..k]] + Words(s[k..])
  }

  function Strip(word: string, drop: char -> bool): string {
    if word == "" then ""
    else if drop(word[0]) then Strip(word[1..], drop)
    else [word[0]] + Strip(word[1..], drop)
  }

  /** The words without their dropped characters, and without words that were nothing else. */
  function StripAll(words: seq<string>, drop: char -> bool): seq<string> {
    if words == [] then []
    else
      var w := Strip(words[0], drop);
      if w == "" then StripAll(words[1..], drop) else [w] + StripAll(words[1..], drop)
  }

  function Join(words: seq<string>): string {
    if words == [] then "" else if |words| == 1 then words[0] else words[0] + " " + Join(words[1..])
  }

  function Collapse(s: string, drop: char -> bool): string {
    Join(StripAll(Words(s), drop))
  }

  function Take(s: string, n: nat): string {
    if |s| <= n then s else s[..n]
  }

  function TrimEnd(s: string): string {
    if s != "" && IsWhitespace(s[|s| - 1]) then TrimEnd(s[..|s| - 1]) else s
  }

  function Normalise(s: string, drop: char -> bool): string {
    TrimEnd(Take(Collapse(s, drop), MAX_CHARS))
  }

  function SanitizeSessionTitle(raw: string): Option<string> {
    var title := Normalise(raw, IsControl);
    if title == "" then None else Some(title)
  }

  predicate IsGitCrud(c: char) {
    c <= ' ' || c == '"' || c == '\'' || c == ',' || c == ':' || c == ';' || c == '<' || c == '>' || c == '\\'
  }

  /** Unicode general category Cf. */
  predicate IsUnicodeFormat(c: char) {
    var n := c as int;
    || n == 0xAD || 0x600 <= n <= 0x605 || n == 0x61C || n == 0x6DD || n == 0x70F
    || 0x890 <= n <= 0x891 || n == 0x8E2 || n == 0x180E || 0x200B <= n <= 0x200F
    || 0x202A <= n <= 0x202E || 0x2060 <= n <= 0x2064 || 0x2066 <= n <= 0x206F
    || n == 0xFEFF || 0xFFF9 <= n <= 0xFFFB || n == 0x110BD || n == 0x110CD
    || 0x13430 <= n <= 0x1343F || 0x1BCA0 <= n <= 0x1BCA3 || 0x1D173 <= n <= 0x1D17A
    || n == 0xE0001 || 0xE0020 <= n <= 0xE007F
  }

  predicate DroppedFromGit(c: char) {
    IsControl(c) || IsUnicodeFormat(c) || c == '<' || c == '>'
  }

  predicate HasNonCrud(s: string) {
    exists i :: 0 <= i < |s| && !IsGitCrud(s[i])
  }

  function SanitizeGitUserName(raw: string): Option<string> {
    var name := Normalise(raw, DroppedFromGit);
    if HasNonCrud(name) then Some(name) else None
  }

  // ------------------------------------------------------------- Normal forms

  predicate CleanChar(c: char, drop: char -> bool) {
    !IsWhitespace(c) && !drop(c)
  }

  ghost predicate CleanWord(w: string, drop: char -> bool) {
    w != "" && forall i :: 0 <= i < |w| ==> CleanChar(w[i], drop)
  }

  /** Clean characters and single inner spaces only. */
  ghost predicate Tidy(s: string, drop: char -> bool) {
    && (forall i :: 0 <= i < |s| ==> s[i] == ' ' || CleanChar(s[i], drop))
    && (s != "" ==> s[0] != ' ' && s[|s| - 1] != ' ')
    && (forall i :: 0 <= i < |s| - 1 ==> s[i] != ' ' || s[i + 1] != ' ')
  }

  lemma {:induction false} WordsHaveNoSpace(s: string)
    ensures forall w :: w in Words(s) ==> w != "" && forall i :: 0 <= i < |w| ==> !IsWhitespace(w[i])
    decreases |s|
  {
    if s != "" {
      if IsWhitespace(s[0]) {
        WordsHaveNoSpace(s[1..]);
      } else {
        FindCharIsFirst(s, IsWhitespace, 1);
        WordsHaveNoSpace(s[FindChar(s, IsWhitespace, 1)..]);
      }
    }
  }

  lemma {:induction false} StripCleans(word: string, drop: char -> bool)
    ensures forall c :: c in Strip(word, drop) ==> c in word && !drop(c)
  {
    if word != "" {
      StripCleans(word[1..], drop);
    }
  }

  lemma {:induction false} StripAllCleans(words: seq<string>, drop: char -> bool)
    requires forall w :: w in words ==> forall i :: 0 <= i < |w| ==> !IsWhitespace(w[i])
    ensures forall w :: w in StripAll(words, drop) ==> CleanWord(w, drop)
  {
    if words != [] {
      StripAllCleans(words[1..], drop);
      StripCleans(words[0], drop);
      var w := Strip(words[0], drop);
      forall i | 0 <= i < |w| ensures CleanChar(w[i], drop) {
        assert w[i] in w && w[i] in words[0];
      }
    }
  }

  lemma {:induction false} JoinTidies(words: seq<string>, drop: char -> bool)
    requires forall w :: w in words ==> CleanWord(w, drop)
    ensures Tidy(Join(words), drop) && (words != [] ==> Join(words) != "")
  {
    if words != [] {
      assert CleanWord(words[0], drop);
      assert IsWhitespace(' ');
      if |words| > 1 {
        JoinTidies(words[1..], drop);
      }
    }
  }

  lemma CollapseTidies(s: string, drop: char -> bool)
    ensures Tidy(Collapse(s, drop), drop)
  {
    WordsHaveNoSpace(s);
    StripAllCleans(Words(s), drop);
    JoinTidies(StripAll(Words(s), drop), drop);
  }

  /** Tidy but for a space at the end. */
  ghost predicate TidyStart(s: string, drop: char -> bool) {
    && (forall i :: 0 <= i < |s| ==> s[i] == ' ' || CleanChar(s[i], drop))
    && (s != "" ==> s[0] != ' ')
    && (forall i :: 0 <= i < |s| - 1 ==> s[i] != ' ' || s[i + 1] != ' ')
  }

  lemma TrimTidies(s: string, drop: char -> bool)
    requires TidyStart(s, drop)
    ensures Tidy(TrimEnd(s), drop) && TrimEnd(s) <= s
  {
    assert IsWhitespace(' ');
    if s != "" && IsWhitespace(s[|s| - 1]) {
      assert s[|s| - 1] == ' ';
      var t := s[..|s| - 1];
      assert t != "" && t[|t| - 1] == s[|s| - 2] && CleanChar(s[|s| - 2], drop);
      assert TrimEnd(s) == TrimEnd(t) == t;
    }
  }

  /** A tidy text cut anywhere is tidy again once its end is trimmed. */
  lemma CutTidies(s: string, drop: char -> bool, n: nat)
    requires Tidy(s, drop)
    ensures var t := TrimEnd(Take(s, n));
      Tidy(t, drop) && |t| <= n && t <= s
  {
    TrimTidies(Take(s, n), drop);
  }

  lemma {:induction false} CleanWordsStay(w: string, drop: char -> bool)
    requires forall i :: 0 <= i < |w| ==> CleanChar(w[i], drop)
    ensures Strip(w, drop) == w
  {
    if w != "" {
      CleanWordsStay(w[1..], drop);
    }
  }

  lemma JoinCons(w: string, words: seq<string>, drop: char -> bool)
    requires w != "" && Strip(w, drop) == w
    ensures StripAll([w] + words, drop) == [w] + StripAll(words, drop)
    ensures Join(StripAll([w] + words, drop)) ==
              if StripAll(words, drop) == [] then w else w + " " + Join(StripAll(words, drop))
  {
    assert ([w] + words)[1..] == words;
    assert ([w] + StripAll(words, drop))[1..] == StripAll(words, drop);
  }

  lemma TidyTail(s: string, drop: char -> bool, k: nat)
    requires Tidy(s, drop) && k < |s| && s[k] == ' '
    ensures k + 1 < |s| && Tidy(s[k + 1..], drop)
  {
  }

  /** A tidy text starts with a clean word, after which comes a space or nothing. */
  lemma FirstWord(s: string, drop: char -> bool)
    requires Tidy(s, drop) && s != ""
    ensures var k := FindChar(s, IsWhitespace, 1);
      && Words(s) == [s[..k]] + Words(s[k..])
      && Strip(s[..k], drop) == s[..k]
      && (k < |s| ==> s[k] == ' ')
  {
    assert CleanChar(s[0], drop) && IsWhitespace(' ');
    FindCharIsFirst(s, IsWhitespace, 1);
    CleanWordsStay(s[..FindChar(s, IsWhitespace, 1)], drop);
  }

  lemma FirstWordEnds(s: string, drop: char -> bool) returns (k: nat)
    requires Tidy(s, drop) && s != ""
    ensures 0 < k <= |s| && (k < |s| ==> s[k] == ' ')
    ensures Words(s) == [s[..k]] + Words(s[k..]) && Strip(s[..k], drop) == s[..k]
  {
    k := FindChar(s, IsWhitespace, 1);
    FirstWord(s, drop);
  }

  lemma SkipSpace(s: string, k: nat)
    requires k < |s| && s[k] == ' '
    ensures Words(s[k..]) == Words(s[k + 1..])
  {
    assert IsWhitespace(' ') && s[k..][0] == ' ' && s[k..][1..] == s[k + 1..];
  }

  /** A tidy text has a word. */
  lemma TidyIsNotEmpty(s: string, drop: char -> bool)
    requires s != "" && Collapse(s, drop) == s
    ensures StripAll(Words(s), drop) != []
  {
  }

  lemma CollapseStep(s: string, drop: char -> bool, k: nat)
    requires 0 < k && k + 1 < |s| && s[k] == ' '
    requires Words(s) == [s[..k]] + Words(s[k..]) && Strip(s[..k], drop) == s[..k]
    requires Collapse(s[k + 1..], drop) == s[k + 1..]
    ensures Collapse(s, drop) == s
  {
    assert s == s[..k] + " " + s[k + 1..];
    SkipSpace(s, k);
    JoinCons(s[..k], Words(s[k..]), drop);
    TidyIsNotEmpty(s[k + 1..], drop);
  }

  lemma CollapseWord(s: string, drop: char -> bool)
    requires s != "" && Words(s) == [s[..|s|]] + Words(s[|s|..]) && Strip(s[..|s|], drop) == s[..|s|]
    ensures Collapse(s, drop) == s
  {
    assert s[|s|..] == "" && s[..|s|] == s;
    JoinCons(s, [], drop);
  }

  /** Collapsing a tidy text changes nothing. */
  lemma {:induction false} TidyStays(s: string, drop: char -> bool)
    requires Tidy(s, drop)
    ensures Collapse(s, drop) == s
    decreases |s|
  {
    if s != "" {
      var k := FirstWordEnds(s, drop);
      if k < |s| {
        TidyTail(s, drop, k);
        TidyStays(s[k + 1..], drop);
        CollapseStep(s, drop, k);
      } else {
        CollapseWord(s, drop);
      }
    }
  }

  /** What both sanitizers produce is tidy, at most 80 characters, and a fixed point. */
  lemma NormaliseIsIdempotent(s: string, drop: char -> bool)
    ensures var t := Normalise(s, drop);
      Tidy(t, drop) && |t| <= MAX_CHARS && Normalise(t, drop) == t
  {
    var t := Normalise(s, drop);
    CollapseTidies(s, drop);
    CutTidies(Collapse(s, drop), drop, MAX_CHARS);
    TidyStays(t, drop);
  }

  // ------------------------------------------------------ What the words are

  /** Whitespace separates words, wherever it stands. */
  lemma {:induction false} WordsSplit(a: string, c: char, b: string)
    requires IsWhitespace(c)
    ensures Words(a + [c] + b) == Words(a) + Words(b)
    decreases |a|
  {
    var s := a + [c] + b;
    if a == "" {
      assert s[1..] == b;
    } else if IsWhitespace(a[0]) {
      assert s[1..] == a[1..] + [c] + b;
      WordsSplit(a[1..], c, b);
    } else {
      var k := FirstSpace(a, c, b);
      WordsSplit(a[k..], c, b);
      SplitBehind(a, c, b, k);
    }
  }

  lemma SplitBehind(a: string, c: char, b: string, k: nat)
    requires k <= |a| && Words(a) == [a[..k]] + Words(a[k..])
    requires Words(a + [c] + b) == [(a + [c] + b)[..k]] + Words((a + [c] + b)[k..])
    requires Words(a[k..] + [c] + b) == Words(a[k..]) + Words(b)
    ensures Words(a + [c] + b) == Words(a) + Words(b)
  {
    SliceJoined(a, c, b, k);
    Associative([a[..k]], Words(a[k..]), Words(b));
  }

  lemma SliceJoined(a: string, c: char, b: string, k: nat)
    requires k <= |a|
    ensures (a + [c] + b)[..k] == a[..k] && (a + [c] + b)[k..] == a[k..] + [c] + b
  {
  }

  /** The first word of a text ends where it ends in the part before a whitespace. */
  lemma FirstSpace(a: string, c: char, b: string) returns (k: nat)
    requires a != "" && !IsWhitespace(a[0]) && IsWhitespace(c)
    ensures 0 < k <= |a|
    ensures Words(a) == [a[..k]] + Words(a[k..])
    ensures Words(a + [c] + b) == [(a + [c] + b)[..k]] + Words((a + [c] + b)[k..])
  {
    var s := a + [c] + b;
    k := FindChar(a, IsWhitespace, 1);
    FindCharIsFirst(a, IsWhitespace, 1);
    FindCharIsFirst(s, IsWhitespace, 1);
    assert s[|a|] == c && forall i :: 0 <= i < |a| ==> s[i] == a[i];
    assert FindChar(s, IsWhitespace, 1) == k;
  }

  /** A text without whitespace is one word. */
  lemma OneWord(w: string)
    requires w != "" && forall i :: 0 <= i < |w| ==> !IsWhitespace(w[i])
    ensures Words(w) == [w]
  {
    FindCharIsFirst(w, IsWhitespace, 1);
    assert w[..|w|] == w && w[|w|..] == "";
  }

  /** Each word is stripped on its own, and dropped when nothing is left of it. */
  lemma {:induction false} StripAllSplits(a: seq<string>, b: seq<string>, drop: char -> bool)
    ensures StripAll(a + b, drop) == StripAll(a, drop) + StripAll(b, drop)
  {
    if a == [] {
      assert a + b == b;
    } else {
      assert (a + b)[1..] == a[1..] + b;
      StripAllSplits(a[1..], b, drop);
    }
  }

  lemma StripOne(w: string, drop: char -> bool)
    ensures Kept(Strip(w, drop), drop) == Kept(w, drop) && forall c :: c in Strip(w, drop) ==> c in w && !drop(c)
    ensures StripAll([w], drop) == if Strip(w, drop) == "" then [] else [Strip(w, drop)]
  {
    StripKeeps(w, drop);
    StripCleans(w, drop);
  }

  lemma {:induction false} WordsOfJoin(words: seq<string>, drop: char -> bool)
    requires forall w :: w in words ==> CleanWord(w, drop)
    ensures Words(Join(words)) == words
  {
    if words != [] {
      assert CleanWord(words[0], drop);
      forall i | 0 <= i < |words[0]| ensures !IsWhitespace(words[0][i]) {
        assert CleanChar(words[0][i], drop);
      }
      OneWord(words[0]);
      if |words| > 1 {
        assert IsWhitespace(' ');
        WordsSplit(words[0], ' ', Join(words[1..]));
        WordsOfJoin(words[1..], drop);
        assert words == [words[0]] + words[1..];
      }
    }
  }

  /** Collapsing keeps the words apart: they are the stripped words of the original. */
  lemma CollapseWords(s: string, drop: char -> bool)
    ensures Words(Collapse(s, drop)) == StripAll(Words(s), drop)
  {
    WordsHaveNoSpace(s);
    StripAllCleans(Words(s), drop);
    WordsOfJoin(StripAll(Words(s), drop), drop);
  }

  /** Where a tidy text is cut: at the limit, or just before a space that would end it. */
  lemma CutsAt(s: string, drop: char -> bool, n: nat)
    requires Tidy(s, drop) && n > 0
    ensures TrimEnd(Take(s, n)) == if |s| <= n then s else if s[n - 1] == ' ' then s[..n - 1] else s[..n]
  {
    var t := Take(s, n);
    assert IsWhitespace(' ');
    if t != "" {
      assert t[|t| - 1] == ' ' || CleanChar(t[|t| - 1], drop);
      if t[|t| - 1] == ' ' {
        assert |t| > 1 && CleanChar(t[|t| - 2], drop);
        assert t[..|t| - 1][|t| - 2] == t[|t| - 2];
        assert s[..n][..n - 1] == s[..n - 1];
      }
    }
  }

  /** A name is the collapsed text, cut at eighty characters only when it is longer. */
  lemma NormaliseCuts(s: string, drop: char -> bool)
    ensures var c := Collapse(s, drop);
      Normalise(s, drop) == if |c| <= 80 then c else if c[79] == ' ' then c[..79] else c[..80]
  {
    CollapseTidies(s, drop);
    CutsAt(Collapse(s, drop), drop, MAX_CHARS);
  }

  // ------------------------------------------------------ What the names keep

  /** The clean characters of a text, in order. */
  function Kept(s: string, drop: char -> bool): string {
    if s == "" then "" else (if CleanChar(s[0], drop) then [s[0]] else "") + Kept(s[1..], drop)
  }

  function KeptAll(words: seq<string>, drop: char -> bool): string {
    if words == [] then "" else Kept(words[0], drop) + KeptAll(words[1..], drop)
  }

  lemma {:induction false} KeptJoins(a: string, b: string, drop: char -> bool)
    ensures Kept(a + b, drop) == Kept(a, drop) + Kept(b, drop)
    decreases |a|
  {
    if a == "" {
      assert a + b == b;
    } else {
      assert (a + b)[1..] == a[1..] + b && (a + b)[0] == a[0];
      KeptJoins(a[1..], b, drop);
      Associative(if CleanChar(a[0], drop) then [a[0]] else "", Kept(a[1..], drop), Kept(b, drop));
    }
  }

  lemma {:induction false} WordsKeep(s: string, drop: char -> bool)
    ensures KeptAll(Words(s), drop) == Kept(s, drop)
    decreases |s|
  {
    if s != "" {
      if IsWhitespace(s[0]) {
        WordsKeep(s[1..], drop);
      } else {
        var k := FindChar(s, IsWhitespace, 1);
        WordsKeep(s[k..], drop);
        KeptJoins(s[..k], s[k..], drop);
        assert s[..k] + s[k..] == s;
      }
    }
  }

  lemma {:induction false} StripKeeps(w: string, drop: char -> bool)
    ensures Kept(Strip(w, drop), drop) == Kept(w, drop)
  {
    if w != "" {
      StripKeeps(w[1..], drop);
      assert ([w[0]] + Strip(w[1..], drop))[1..] == Strip(w[1..], drop);
    }
  }

  lemma {:induction false} StripAllKeeps(words: seq<string>, drop: char -> bool)
    ensures KeptAll(StripAll(words, drop), drop) == KeptAll(words, drop)
  {
    if words != [] {
      StripAllKeeps(words[1..], drop);
      StripKeeps(words[0], drop);
      var w := Strip(words[0], drop);
      assert w != "" ==> ([w] + StripAll(words[1..], drop))[1..] == StripAll(words[1..], drop);
    }
  }

  lemma NoSpaceKept(drop: char -> bool)
    ensures Kept(" ", drop) == ""
  {
    assert IsWhitespace(' ');
  }

  lemma SpaceIsLost(a: string, b: string, drop: char -> bool)
    ensures Kept(a + " " + b, drop) == Kept(a, drop) + Kept(b, drop)
  {
    KeptJoins(a + " ", b, drop);
    KeptJoins(a, " ", drop);
    NoSpaceKept(drop);
  }

  lemma {:induction false} JoinKeeps(words: seq<string>, drop: char -> bool)
    ensures Kept(Join(words), drop) == KeptAll(words, drop)
  {
    if |words| == 1 {
      assert KeptAll(words[1..], drop) == "";
    } else if words != [] {
      JoinKeeps(words[1..], drop);
      SpaceIsLost(words[0], Join(words[1..]), drop);
    }
  }

  /** Collapsing loses no clean character and changes no order. */
  lemma CollapseKeeps(s: string, drop: char -> bool)
    ensures Kept(Collapse(s, drop), drop) == Kept(s, drop)
  {
    WordsKeep(s, drop);
    StripAllKeeps(Words(s), drop);
    JoinKeeps(StripAll(Words(s), drop), drop);
  }

  /** A normalised name has the first clean characters of the original, in order; all of
      them unless it was cut. */
  lemma NormaliseKeepsPrefix(s: string, drop: char -> bool)
    ensures Kept(Normalise(s, drop), drop) <= Kept(s, drop)
    ensures |Collapse(s, drop)| <= MAX_CHARS ==> Kept(Normalise(s, drop), drop) == Kept(s, drop)
  {
    var c, t := Collapse(s, drop), Normalise(s, drop);
    CollapseKeeps(s, drop);
    CollapseTidies(s, drop);
    CutTidies(c, drop, MAX_CHARS);
    assert c == t + c[|t|..];
    KeptJoins(t, c[|t|..], drop);
  }

  lemma {:induction false} KeptMembers(s: string, drop: char -> bool)
    ensures forall c :: c in Kept(s, drop) <==> c in s && CleanChar(c, drop)
  {
    if s != "" {
      KeptMembers(s[1..], drop);
      assert s == [s[0]] + s[1..];
    }
  }

  lemma TitleNormalForm(raw: string)
    ensures match SanitizeSessionTitle(raw)
            case Some(t) => t != "" && |t| <= MAX_CHARS && Tidy(t, IsControl) && SanitizeSessionTitle(t) == Some(t)
            case None => forall i :: 0 <= i < |raw| ==> IsWhitespace(raw[i]) || IsControl(raw[i])
  {
    NormaliseIsIdempotent(raw, IsControl);
    if SanitizeSessionTitle(raw).None? {
      CollapseTidies(raw, IsControl);
      var c := Collapse(raw, IsControl);
      if c != "" {
        FirstCharSurvives(c, IsControl);
      }
      CollapseKeeps(raw, IsControl);
      KeptMembers(raw, IsControl);
      assert forall i :: 0 <= i < |raw| ==> raw[i] in raw;
    }
  }

  /** A git name keeps a character git accepts; a name is refused only when it had none, or
      none among its first eighty. */
  lemma GitNameNormalForm(raw: string)
    ensures match SanitizeGitUserName(raw)
            case Some(t) =>
              |t| <= MAX_CHARS && Tidy(t, DroppedFromGit) && HasNonCrud(t) && SanitizeGitUserName(t) == Some(t)
            case None =>
              |Collapse(raw, DroppedFromGit)| <= MAX_CHARS ==>
                forall i :: 0 <= i < |raw| ==> IsWhitespace(raw[i]) || DroppedFromGit(raw[i]) || IsGitCrud(raw[i])
  {
    NormaliseIsIdempotent(raw, DroppedFromGit);
    NormaliseKeepsPrefix(raw, DroppedFromGit);
    var t := Normalise(raw, DroppedFromGit);
    KeptMembers(raw, DroppedFromGit);
    KeptMembers(t, DroppedFromGit);
    assert forall i :: 0 <= i < |raw| ==> raw[i] in raw;
  }

  /** A git name can neither break out of its author line nor hide text: no angle bracket, no
      control character, no zero-width or direction mark, and something besides what git
      strips itself. */
  lemma GitNameIsSafe(raw: string)
    requires SanitizeGitUserName(raw).Some?
    ensures var t := SanitizeGitUserName(raw).value;
      && (forall i :: 0 <= i < |t| ==>
            var n := t[i] as int;
            && t[i] != '<' && t[i] != '>' && n >= 32 && !(0x7F <= n < 0xA0)
            && n != 0xAD && n != 0xFEFF && !(0x200B <= n <= 0x200F) && !(0x202A <= n <= 0x202E)
            && !(0x2060 <= n <= 0x2064) && !(0x2066 <= n <= 0x206F))
      && exists i :: 0 <= i < |t| && t[i] > ' ' && t[i] !in "\"',:;<>\\"
  {
    GitNameNormalForm(raw);
    var t := SanitizeGitUserName(raw).value;
    forall i | 0 <= i < |t| ensures t[i] == ' ' || !DroppedFromGit(t[i]) {
      assert t[i] == ' ' || CleanChar(t[i], DroppedFromGit);
    }
    var i :| 0 <= i < |t| && !IsGitCrud(t[i]);
    var crud := "\"',:;<>\\";
    assert crud == ['"', '\'', ',', ':', ';', '<', '>', '\\'];
  }

  /** Printable ASCII is kept, but for the angle brackets. */
  lemma GitKeepsAscii(c: char)
    requires ' ' < c <= '~' && c != '<' && c != '>'
    ensures CleanChar(c, DroppedFromGit) && (c !in "\"',:;\\" ==> !IsGitCrud(c))
  {
    var crud := "\"',:;\\";
    assert '"' == crud[0] && '\'' == crud[1] && ',' == crud[2] && ':' == crud[3] && ';' == crud[4] && '\\' == crud[5];
  }

  lemma FirstCharSurvives(c: string, drop: char -> bool)
    requires Tidy(c, drop) && c != ""
    ensures TrimEnd(Take(c, MAX_CHARS)) != ""
  {
    var cut := Take(c, MAX_CHARS);
    assert cut[0] == c[0] && CleanChar(cut[0], drop);
    TrimKeepsFirst(cut);
  }

  lemma {:induction false} TrimKeepsFirst(s: string)
    requires s != "" && !IsWhitespace(s[0])
    ensures TrimEnd(s) != ""
    decreases |s|
  {
    if IsWhitespace(s[|s| - 1]) {
      TrimKeepsFirst(s[..|s| - 1]);
    }
  }

  // ----------------------------------------------------------- Composed titles

  const SEPARATOR := " \U{B7} "

  function ComposeLimited(agent: string, channel: Option<string>, maxChars: nat): string {
    match (if channel.Some? then SanitizeSessionTitle(channel.value) else None)
    case None => agent
    case Some(name) =>
      var reserved := |agent| + |SEPARATOR| + 1;
      var cut := TrimEnd(Take(name, if reserved > maxChars then 0 else maxChars - reserved));
      if cut == "" then agent else agent + SEPARATOR + "#" + cut
  }

  function ComposeTitle(agent: string, channel: Option<string>): string {
    ComposeLimited(agent, channel, MAX_CHARS)
  }

  function ComposeScopedTitle(agent: string, channel: Option<string>, root: Option<string>): string {
    if root.None? || root.value == "" then ComposeTitle(agent, channel)
    else
      var suffix := SEPARATOR + Take(root.value, 8);
      var budget := MAX_CHARS - |suffix|;
      ComposeLimited(TrimEnd(Take(agent, budget)), channel, budget) + suffix
  }

  lemma {:induction false} TrimShortens(s: string)
    ensures |TrimEnd(s)| <= |s| && TrimEnd(s) <= s
    decreases |s|
  {
    if s != "" && IsWhitespace(s[|s| - 1]) {
      TrimShortens(s[..|s| - 1]);
    }
  }

  /** The agent's name always survives in full, and the limit holds exactly when the name
      alone is within it. */
  lemma LimitHoldsIff(agent: string, channel: Option<string>, maxChars: nat)
    ensures agent <= ComposeLimited(agent, channel, maxChars)
    ensures |ComposeLimited(agent, channel, maxChars)| <= maxChars <==> |agent| <= maxChars
  {
    if channel.Some? && SanitizeSessionTitle(channel.value).Some? {
      var name := SanitizeSessionTitle(channel.value).value;
      var reserved := |agent| + |SEPARATOR| + 1;
      TrimShortens(Take(name, if reserved > maxChars then 0 else maxChars - reserved));
    }
  }

  /** The channel is shown behind the separator and a hash exactly when it has a name and
      there is room for one character of it; the name is cut only when it does not fit. */
  lemma ChannelShownIff(agent: string, raw: string, maxChars: nat)
    ensures ComposeLimited(agent, None, maxChars) == agent
    ensures var title, name := ComposeLimited(agent, Some(raw), maxChars), SanitizeSessionTitle(raw);
      if name.None? || |agent| + 4 >= maxChars then title == agent
      else
        var room := maxChars - |agent| - 4;
        title == agent + " \U{B7} #" +
          (if |name.value| <= room then name.value
           else if name.value[room - 1] == ' ' then name.value[..room - 1] else name.value[..room])
        && |title| > |agent| + 4
  {
    var name := SanitizeSessionTitle(raw);
    if name.Some? {
      TitleNormalForm(raw);
      var room := maxChars - |agent| - 4;
      if room > 0 {
        CutsAt(name.value, IsControl, room);
        assert room == 1 ==> name.value[room - 1] != ' ';
        Associative(agent, SEPARATOR, "#");
        assert SEPARATOR + "#" == " \U{B7} #";
      } else {
        assert Take(name.value, 0) == "";
      }
    }
  }

  /** With room for everything, a thread's title is the agent, the channel and the root. */
  lemma ScopedTitleWhole(agent: string, raw: string, root: string)
    requires root != "" && agent != "" && !IsWhitespace(agent[|agent| - 1])
    requires SanitizeSessionTitle(raw).Some?
    requires |agent| + 4 + |SanitizeSessionTitle(raw).value| + 3 + |Take(root, 8)| <= 80
    ensures ComposeScopedTitle(agent, Some(raw), Some(root)) ==
              agent + " \U{B7} #" + SanitizeSessionTitle(raw).value + (" \U{B7} " + Take(root, 8))
  {
    var suffix := SEPARATOR + Take(root, 8);
    var budget := MAX_CHARS - |suffix|;
    assert SanitizeSessionTitle(raw).value != "" by {
      TitleNormalForm(raw);
    }
    assert TrimEnd(Take(agent, budget)) == agent;
    assert ComposeLimited(agent, Some(raw), budget) == agent + " \U{B7} #" + SanitizeSessionTitle(raw).value by {
      ChannelShownIff(agent, raw, budget);
    }
  }

  /** A thread's title ends with the separator and the first eight characters of its root. */
  lemma ScopedTitleEndsWithRoot(agent: string, channel: Option<string>, root: string)
    requires root != ""
    ensures var t := ComposeScopedTitle(agent, channel, Some(root));
      var suffix := SEPARATOR + Take(root, 8);
      |suffix| <= |t| <= MAX_CHARS && t[|t| - |suffix|..] == suffix
  {
    var suffix := SEPARATOR + Take(root, 8);
    var budget := MAX_CHARS - |suffix|;
    var name := TrimEnd(Take(agent, budget));
    TrimShortens(Take(agent, budget));
    LimitHoldsIff(name, channel, budget);
    SuffixOf(ComposeLimited(name, channel, budget), suffix);
  }

  lemma SuffixOf(a: string, suffix: string)
    ensures |a + suffix| == |a| + |suffix| && (a + suffix)[|a + suffix| - |suffix|..] == suffix
  {
  }

  /** Titles stay within 80 characters exactly when they name a thread or the agent's name
      does on its own. */
  lemma ScopedTitleBoundIff(agent: string, channel: Option<string>, root: Option<string>)
    ensures |ComposeScopedTitle(agent, channel, root)| <= MAX_CHARS
            <==> (root.Some? && root.value != "") || |agent| <= MAX_CHARS
  {
    if root.Some? && root.value != "" {
      ScopedTitleEndsWithRoot(agent, channel, root.value);
    } else {
      LimitHoldsIff(agent, channel, MAX_CHARS);
    }
  }
}
