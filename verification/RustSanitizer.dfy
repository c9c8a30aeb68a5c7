/** Blanking of comments and literals in Rust source, keeping every offset. */
module RustSanitizer {
  import opened Options
  import opened Text

  // ------------------------------------------------------------------- Tokens

  predicate IsNewline(c: char) {
    c == '\n'
  }

  predicate IsHex(c: char) {
    '0' <= c <= '9' || 'A' <= c <= 'F' || 'a' <= c <= 'f'
  }

  predicate NotHexOrUnderscore(c: char) {
    !IsHex(c) && c != '_'
  }

  predicate NotHash(c: char) {
    c != '#'
  }

  /** The character at `i`, or NUL past the end. */
  function CharAt(s: string, i: nat): char {
    if i < |s| then s[i] else '\0'
  }

  /** The two-character mark at `i`. */
  predicate Pair(s: string, i: nat, a: char, b: char) {
    i + 1 < |s| && s[i] == a && s[i + 1] == b
  }

  /** One step inside a block comment: the next index and nesting depth. */
  function BlockStep(s: string, i: nat, depth: nat): (r: (nat, nat))
    requires i < |s| && depth > 0
    ensures i < r.0 <= |s|
  {
    if Pair(s, i, '/', '*') then (i + 2, depth + 1)
    else if Pair(s, i, '*', '/') then (i + 2, depth - 1)
    else (i + 1, depth)
  }

  /** Scan the inside of a block comment from `i` at nesting `depth`. */
  function BlockEnd(s: string, i: nat, depth: nat): (e: nat)
    requires i <= |s|
    ensures i <= e <= |s|
    decreases |s| - i
  {
    if i == |s| || depth == 0 then i
    else
      var r := BlockStep(s, i, depth);
      BlockEnd(s, r.0, r.1)
  }

  /** The end of a character literal whose contents start at `j`. */
  function CharBodyEnd(s: string, j: nat): Option<nat>
    requires j <= |s|
  {
    if CharAt(s, j) == '\\' && j < |s| then
      var k := if j + 3 <= |s| then FindChar(s, NotHexOrUnderscore, j + 3) else j;
      if CharAt(s, j + 1) == 'u' && CharAt(s, j + 2) == '{' && k > j + 3
         && CharAt(s, k) == '}' && CharAt(s, k + 1) == '\'' then Some(k + 2)
      else if CharAt(s, j + 1) == 'x' && IsHex(CharAt(s, j + 2)) && IsHex(CharAt(s, j + 3))
              && CharAt(s, j + 4) == '\'' then Some(j + 5)
      else if j + 2 < |s| && s[j + 1] != '\n' && s[j + 2] == '\'' then Some(j + 3)
      else None
    else if j + 1 < |s| && s[j] != '\'' && s[j] != '\n' && s[j + 1] == '\'' then Some(j + 2)
    else None
  }

  /** A character or byte literal at `i`. */
  function CharLiteralEnd(s: string, i: nat): Option<nat> {
    if i < |s| && s[i] == '\'' then CharBodyEnd(s, i + 1)
    else if i + 1 < |s| && s[i] == 'b' && s[i + 1] == '\'' then CharBodyEnd(s, i + 2)
    else None
  }

  /** The index of the opening quote of a raw string at `i`, and its number of hashes. */
  function RawQuote(s: string, i: nat): Option<(nat, nat)> {
    var r := if CharAt(s, i) == 'b' then i + 1 else i;
    if CharAt(s, r) != 'r' || r >= |s| then None
    else
      var q := FindChar(s, NotHash, r + 1);
      if q - (r + 1) <= 255 && CharAt(s, q) == '"' then Some((q, q - (r + 1))) else None
  }

  function Hashes(n: nat): (h: string)
    ensures |h| == n
  {
    if n == 0 then "" else "#" + Hashes(n - 1)
  }

  function RawEnd(s: string, quote: nat, hashes: nat): (e: nat)
    requires quote < |s|
    ensures quote < e <= |s|
  {
    match Find(s, "\"" + Hashes(hashes), quote + 1)
    case Some(end) => end + 1 + hashes
    case None => |s|
  }

  /** Just past the closing quote of a string whose contents start at `i`. */
  function StringEnd(s: string, i: nat): (e: nat)
    requires i <= |s|
    ensures i <= e <= |s|
    decreases |s| - i
  {
    if i == |s| then i
    else if s[i] == '\\' then (if i + 2 <= |s| then StringEnd(s, i + 2) else |s|)
    else if s[i] == '"' then i + 1
    else StringEnd(s, i + 1)
  }

  /** The end of the comment or literal that starts at `i`, or `i` for a code character. */
  function TokenEnd(s: string, i: nat): (e: nat)
    requires i < |s|
    ensures i <= e
  {
    if Pair(s, i, '/', '/') then FindChar(s, IsNewline, i + 2)
    else if Pair(s, i, '/', '*') then BlockEnd(s, i + 2, 1)
    else if CharLiteralEnd(s, i).Some? then CharLiteralEnd(s, i).value
    else if RawQuote(s, i).Some? then RawEnd(s, RawQuote(s, i).value.0, RawQuote(s, i).value.1)
    else if s[i] == '"' then StringEnd(s, i + 1)
    else if Pair(s, i, 'b', '"') then StringEnd(s, i + 2)
    else i
  }

  lemma CharLiteralShape(s: string, i: nat)
    requires CharLiteralEnd(s, i).Some?
    ensures i + 3 <= CharLiteralEnd(s, i).value <= |s|
    ensures forall k :: i <= k < CharLiteralEnd(s, i).value ==> s[k] != '\n'
  {
    var j := if s[i] == '\'' then i + 1 else i + 2;
    if s[j] == '\\' && j + 3 <= |s| {
      FindCharIsFirst(s, NotHexOrUnderscore, j + 3);
    }
  }

  /** Only a lone quote at the very end makes a token of one character. */
  lemma TokenLength(s: string, i: nat)
    requires i < |s|
    ensures var e := TokenEnd(s, i); e <= |s| && (e == i || e >= i + 2 || e == |s|)
  {
    if CharLiteralEnd(s, i).Some? {
      CharLiteralShape(s, i);
    }
  }

  // ------------------------------------------------------------- The sanitizer

  function BlankChar(c: char): char {
    if c == '\n' then '\n' else ' '
  }

  function Blank(s: string): (r: string)
    ensures |r| == |s| && forall i :: 0 <= i < |s| ==> r[i] == BlankChar(s[i])
  {
    seq(|s|, i requires 0 <= i < |s| => BlankChar(s[i]))
  }

  /** The sanitized text from `i` on. */
  function SanitizeFrom(s: string, i: nat): (r: string)
    requires i <= |s|
    ensures |r| == |s| - i
    decreases |s| - i
  {
    if i == |s| then ""
    else
      TokenLength(s, i);
      var e := TokenEnd(s, i);
      if e == i then [s[i]] + SanitizeFrom(s, i + 1) else Blank(s[i..e]) + SanitizeFrom(s, e)
  }

  function Sanitize(s: string): string {
    SanitizeFrom(s, 0)
  }

  /** Scanning from `i` leaves the character at `k` as code. */
  predicate IsCode(s: string, i: nat, k: nat)
    requires i <= |s|
    decreases |s| - i
  {
    if i > k || i == |s| then false
    else
      TokenLength(s, i);
      var e := TokenEnd(s, i);
      if e == i then k == i || IsCode(s, i + 1, k) else k >= e && IsCode(s, e, k)
  }

  lemma {:induction false} SanitizedChar(s: string, i: nat, k: nat)
    requires i <= k < |s|
    ensures SanitizeFrom(s, i)[k - i] == if IsCode(s, i, k) then s[k] else BlankChar(s[k])
    ensures IsCode(s, i, k) ==> TokenEnd(s, k) == k
    decreases |s| - i
  {
    var e := SanitizedStep(s, i);
    if e == i && k > i {
      SanitizedChar(s, i + 1, k);
    } else if e > i && k >= e {
      SanitizedChar(s, e, k);
    }
  }

  /** What scanning on from `i` makes of the text behind it. */
  lemma SanitizedStep(s: string, i: nat) returns (e: nat)
    requires i < |s|
    ensures i <= e <= |s| && e == TokenEnd(s, i)
    ensures e == i ==> SanitizeFrom(s, i) == [s[i]] + SanitizeFrom(s, i + 1)
    ensures e > i ==> SanitizeFrom(s, i) == Blank(s[i..e]) + SanitizeFrom(s, e)
    ensures forall k: nat :: IsCode(s, i, k) <==>
              i <= k && if e == i then k == i || IsCode(s, i + 1, k) else k >= e && IsCode(s, e, k)
  {
    TokenLength(s, i);
    e := TokenEnd(s, i);
  }

  /** Length and newlines are kept, and every other character stays or becomes a space. */
  lemma KeepsOffsets(s: string)
    ensures |Sanitize(s)| == |s|
    ensures forall k :: 0 <= k < |s| ==> (Sanitize(s)[k] == '\n' <==> s[k] == '\n')
    ensures forall k :: 0 <= k < |s| ==> Sanitize(s)[k] == s[k] || Sanitize(s)[k] == ' '
  {
    forall k | 0 <= k < |s|
      ensures (Sanitize(s)[k] == '\n' <==> s[k] == '\n') && (Sanitize(s)[k] == s[k] || Sanitize(s)[k] == ' ')
    {
      SanitizedChar(s, 0, k);
    }
  }

  /** A character of the output that is neither a space nor a newline was code there. */
  lemma VisibleIsCode(s: string, k: nat)
    requires k < |s| && Sanitize(s)[k] != ' ' && Sanitize(s)[k] != '\n'
    ensures Sanitize(s)[k] == s[k] && IsCode(s, 0, k) && TokenEnd(s, k) == k
  {
    SanitizedChar(s, 0, k);
  }

  /** No quote and no comment opener is left. */
  lemma LeavesNoOpeners(s: string)
    ensures '"' !in Sanitize(s)
    ensures forall k: nat :: !Pair(Sanitize(s), k, '/', '/') && !Pair(Sanitize(s), k, '/', '*')
  {
    var t := Sanitize(s);
    forall k | 0 <= k < |s| ensures t[k] != '"' {
      if t[k] == '"' {
        VisibleIsCode(s, k);
        QuoteOpens(s, k);
      }
    }
    forall k: nat ensures !Pair(t, k, '/', '/') && !Pair(t, k, '/', '*') {
      if k + 1 < |s| && t[k] == '/' && (t[k + 1] == '/' || t[k + 1] == '*') {
        VisibleIsCode(s, k);
        VisibleIsCode(s, k + 1);
        SlashOpens(s, k);
      }
    }
  }

  lemma QuoteOpens(s: string, k: nat)
    requires k < |s| && s[k] == '"'
    ensures TokenEnd(s, k) > k
  {
    if CharLiteralEnd(s, k).Some? {
      CharLiteralShape(s, k);
    }
  }

  lemma SlashOpens(s: string, k: nat)
    requires k + 1 < |s| && s[k] == '/' && (s[k + 1] == '/' || s[k + 1] == '*')
    ensures TokenEnd(s, k) > k
  {
    assert s[k..k + 2] == [s[k], s[k + 1]];
  }

  // -------------------------------------------------------------- Idempotence

  /** A blanked character belongs to a token no character of which is code. */
  lemma {:induction false} BlankedInToken(s: string, i: nat, k: nat) returns (a: nat)
    requires i <= k < |s| && !IsCode(s, i, k)
    ensures i <= a <= k < TokenEnd(s, a) <= |s|
    ensures forall m :: a <= m < TokenEnd(s, a) ==> !IsCode(s, i, m)
    decreases |s| - i
  {
    TokenLength(s, i);
    var e := TokenEnd(s, i);
    if e == i {
      a := BlankedInToken(s, i + 1, k);
    } else if k >= e {
      a := BlankedInToken(s, e, k);
    } else {
      a := i;
    }
  }

  /** A blanked character between two code characters cannot be. */
  lemma NoLoneBlank(s: string, k: nat)
    requires 0 < k && k + 1 < |s| && IsCode(s, 0, k - 1) && IsCode(s, 0, k + 1)
    ensures IsCode(s, 0, k)
  {
    if !IsCode(s, 0, k) {
      var a := BlankedInToken(s, 0, k);
      TokenLength(s, a);
    }
  }

  /** Every position of a literal but one is visible. */
  lemma LiteralVisible(t: string, k: nat) returns (free: nat)
    requires CharLiteralEnd(t, k).Some?
    ensures k < free < CharLiteralEnd(t, k).value - 1 < |t|
    ensures forall m :: k <= m < CharLiteralEnd(t, k).value && m != free ==> t[m] != ' ' && t[m] != '\n'
  {
    CharLiteralShape(t, k);
    var j := if t[k] == '\'' then k + 1 else k + 2;
    if t[j] == '\\' && j + 3 <= |t| {
      FindCharIsFirst(t, NotHexOrUnderscore, j + 3);
    }
    free := if t[j] != '\\' then j else j + 1;
  }

  /** A literal read off the sanitized text was already one in the source. */
  lemma LiteralWasThere(s: string, k: nat)
    requires CharLiteralEnd(Sanitize(s), k).Some?
    ensures CharLiteralEnd(s, k).Some?
  {
    var t := Sanitize(s);
    KeepsOffsets(s);
    var free := LiteralVisible(t, k);
    var e := CharLiteralEnd(t, k).value;
    forall m | k <= m < e && m != free ensures s[m] == t[m] && IsCode(s, 0, m) {
      VisibleIsCode(s, m);
    }
    assert IsCode(s, 0, free - 1) && IsCode(s, 0, free + 1);
    NoLoneBlank(s, free);
    SanitizedChar(s, 0, free);
    SameLiteral(t, s, k);
  }

  /** Literals depend only on their own characters. */
  lemma SameLiteral(t: string, s: string, k: nat)
    requires |s| == |t| && CharLiteralEnd(t, k).Some?
    requires forall m :: k <= m < CharLiteralEnd(t, k).value && m < |s| ==> s[m] == t[m]
    ensures CharLiteralEnd(s, k).Some?
  {
    CharLiteralShape(t, k);
    var e := CharLiteralEnd(t, k).value;
    var j := if t[k] == '\'' then k + 1 else k + 2;
    if t[j] == '\\' && j + 3 <= |t| {
      FindCharIsFirst(t, NotHexOrUnderscore, j + 3);
      FindCharIsFirst(s, NotHexOrUnderscore, j + 3);
      assert s[j] == '\\' && s[e - 1] == '\'';
      var kt, ks := FindChar(t, NotHexOrUnderscore, j + 3), FindChar(s, NotHexOrUnderscore, j + 3);
      if e == kt + 2 {
        assert NotHexOrUnderscore(s[kt]);
        assert ks == kt;
      }
    }
  }

  lemma SanitizedHasNoTokens(s: string, k: nat)
    requires k < |s|
    ensures |Sanitize(s)| == |s| && TokenEnd(Sanitize(s), k) == k
  {
    var t := Sanitize(s);
    KeepsOffsets(s);
    LeavesNoOpeners(s);
    if CharLiteralEnd(t, k).Some? {
      LiteralWasThere(s, k);
      CharLiteralShape(t, k);
      VisibleIsCode(s, k);
      CharLiteralShape(s, k);
      LiteralIsToken(s, k);
    }
  }

  lemma LiteralIsToken(s: string, k: nat)
    requires k < |s| && CharLiteralEnd(s, k).Some?
    ensures TokenEnd(s, k) > k
  {
    CharLiteralShape(s, k);
  }

  lemma {:induction false} NoTokensNoChange(t: string, i: nat)
    requires i <= |t| && forall k :: i <= k < |t| ==> TokenEnd(t, k) == k
    ensures SanitizeFrom(t, i) == t[i..]
    decreases |t| - i
  {
    if i < |t| {
      NoTokensNoChange(t, i + 1);
    }
  }

  /** Sanitizing twice is sanitizing once. */
  lemma Idempotent(s: string)
    ensures Sanitize(Sanitize(s)) == Sanitize(s)
  {
    var t := Sanitize(s);
    KeepsOffsets(s);
    forall k | 0 <= k < |t| ensures TokenEnd(t, k) == k {
      SanitizedHasNoTokens(s, k);
    }
    NoTokensNoChange(t, 0);
  }

  // --------------------------------------------- Tokens as they are written

  /** How the contents of a block comment are put together: single characters and whole
      comments nested in it. */
  datatype Body = Empty | Letter(next: Body) | Nested(inner: Body, next: Body)

  function Length(b: Body): nat {
    match b
    case Empty => 0
    case Letter(next) => 1 + Length(next)
    case Nested(inner, next) => 4 + Length(inner) + Length(next)
  }

  /** The text at `i` is put together that way: no single character opens or closes. */
  predicate Spells(s: string, i: nat, b: Body)
    decreases b
  {
    match b
    case Empty => i <= |s|
    case Letter(next) =>
      i < |s| && !Pair(s, i, '/', '*') && !Pair(s, i, '*', '/') && Spells(s, i + 1, next)
    case Nested(inner, next) =>
      && Pair(s, i, '/', '*') && Spells(s, i + 2, inner)
      && Pair(s, i + 2 + Length(inner), '*', '/') && Spells(s, i + 4 + Length(inner), next)
  }

  lemma BlockStepped(s: string, i: nat, depth: nat)
    requires i < |s| && depth > 0
    ensures BlockEnd(s, i, depth) == BlockEnd(s, BlockStep(s, i, depth).0, BlockStep(s, i, depth).1)
  {
  }

  /** The scan gets from `i` to `j` at one depth. */
  ghost predicate Scans(s: string, i: nat, j: nat) {
    i <= j <= |s| && forall depth: nat :: depth > 0 ==> BlockEnd(s, i, depth) == BlockEnd(s, j, depth)
  }

  lemma LetterIsScanned(s: string, i: nat, j: nat)
    requires i < |s| && !Pair(s, i, '/', '*') && !Pair(s, i, '*', '/') && Scans(s, i + 1, j)
    ensures Scans(s, i, j)
  {
    forall depth: nat | depth > 0 ensures BlockEnd(s, i, depth) == BlockEnd(s, j, depth) {
      BlockStepped(s, i, depth);
    }
  }

  lemma NestedIsScanned(s: string, i: nat, m: nat, j: nat)
    requires Pair(s, i, '/', '*') && Scans(s, i + 2, m) && Pair(s, m, '*', '/') && Scans(s, m + 2, j)
    ensures Scans(s, i, j)
  {
    forall depth: nat | depth > 0 ensures BlockEnd(s, i, depth) == BlockEnd(s, j, depth) {
      BlockStepped(s, i, depth);
      BlockStepped(s, m, depth + 1);
    }
  }

  /** Scanning over a body comes out right behind it at the same depth. */
  lemma {:induction false} BodyIsScanned(s: string, i: nat, b: Body)
    requires Spells(s, i, b)
    ensures Scans(s, i, i + Length(b))
    decreases b
  {
    match b
    case Empty =>
    case Letter(next) =>
      BodyIsScanned(s, i + 1, next);
      LetterIsScanned(s, i, i + 1 + Length(next));
    case Nested(inner, next) =>
      BodyIsScanned(s, i + 2, inner);
      BodyIsScanned(s, i + 4 + Length(inner), next);
      NestedIsScanned(s, i, i + 2 + Length(inner), i + 4 + Length(inner) + Length(next));
  }

  /** A block comment token is exactly the comment, however deeply nested. */
  lemma CommentIsOneToken(s: string, i: nat, b: Body)
    requires Pair(s, i, '/', '*') && Spells(s, i + 2, b) && Pair(s, i + 2 + Length(b), '*', '/')
    ensures TokenEnd(s, i) == i + 4 + Length(b)
  {
    BlockOpensToken(s, i);
    BlockEndsBehind(s, i + 2, b);
  }

  lemma BlockOpensToken(s: string, i: nat)
    requires Pair(s, i, '/', '*')
    ensures TokenEnd(s, i) == BlockEnd(s, i + 2, 1)
  {
  }

  lemma BlockEndsBehind(s: string, i: nat, b: Body)
    requires Spells(s, i, b) && Pair(s, i + Length(b), '*', '/')
    ensures i <= |s| && BlockEnd(s, i, 1) == i + Length(b) + 2
  {
    var end := i + Length(b);
    assert Scans(s, i, end) by { BodyIsScanned(s, i, b); }
    BlockStepped(s, end, 1);
    assert BlockEnd(s, end + 2, 0) == end + 2;
  }

  datatype Item = Plain(c: char) | Escaped(c: char)

  function PrintItems(items: seq<Item>, rest: string): string {
    if items == [] then rest
    else (if items[0].Plain? then [items[0].c] else ['\\', items[0].c]) + PrintItems(items[1..], rest)
  }

  /** A string token is exactly the string: escapes never close it. */
  lemma {:induction false} StringIsScanned(s: string, i: nat, items: seq<Item>, rest: string)
    requires i <= |s| && s[i..] == PrintItems(items, "\"" + rest)
    requires forall x :: x in items && x.Plain? ==> x.c != '"' && x.c != '\\'
    ensures StringEnd(s, i) == |s| - |rest|
    decreases |items|
  {
    if items == [] {
      assert s[i] == s[i..][0] == '"';
    } else {
      var width := if items[0].Plain? then 1 else 2;
      assert s[i] == s[i..][0];
      assert items[0] in items;
      assert s[i + width..] == s[i..][width..] == PrintItems(items[1..], "\"" + rest);
      StringIsScanned(s, i + width, items[1..], rest);
    }
  }

  /** A string or byte string token is exactly the literal. */
  lemma StringIsOneToken(s: string, i: nat, quote: nat, items: seq<Item>, rest: string)
    requires quote < |s| && s[quote] == '"' && (quote == i || (quote == i + 1 && s[i] == 'b'))
    requires s[quote + 1..] == PrintItems(items, "\"" + rest)
    requires forall x :: x in items && x.Plain? ==> x.c != '"' && x.c != '\\'
    ensures TokenEnd(s, i) == |s| - |rest|
  {
    StringIsScanned(s, quote + 1, items, rest);
  }

  lemma RawQuoteAt(s: string, i: nat, r: nat, n: nat)
    requires n <= 255 && r + 1 + n < |s| && s[r] == 'r' && (r == i || (r == i + 1 && s[i] == 'b'))
    requires s[r + 1 + n] == '"' && forall k :: r < k < r + 1 + n ==> s[k] == '#'
    ensures RawQuote(s, i) == Some((r + 1 + n, n))
  {
    FindCharIsFirst(s, NotHash, r + 1);
  }

  lemma RawEndAt(s: string, quote: nat, n: nat, end: nat)
    requires quote < end && OccursAt(s, "\"" + Hashes(n), end)
    requires forall k: nat :: quote < k < end ==> !OccursAt(s, "\"" + Hashes(n), k)
    ensures RawEnd(s, quote, n) == end + 1 + n
  {
    FindIsFirst(s, "\"" + Hashes(n), quote + 1);
  }

  /** A raw string token, with or without the byte prefix, runs to the first quote followed
      by as many hashes as it opened with, whatever quotes, backslashes or comment marks
      lie in between. */
  lemma RawIsOneToken(s: string, i: nat, r: nat, n: nat, end: nat)
    requires n <= 255 && r + 1 + n < end && OccursAt(s, "\"" + Hashes(n), end)
    requires s[r] == 'r' && (r == i || (r == i + 1 && s[i] == 'b'))
    requires s[r + 1 + n] == '"' && forall k :: r < k < r + 1 + n ==> s[k] == '#'
    requires forall k: nat :: r + 1 + n < k < end ==> !OccursAt(s, "\"" + Hashes(n), k)
    ensures TokenEnd(s, i) == end + 1 + n
  {
    RawQuoteAt(s, i, r, n);
    RawEndAt(s, r + 1 + n, n, end);
  }

  /** A line comment token runs up to the next newline or to the end of the text. */
  lemma LineCommentIsOneToken(s: string, i: nat, end: nat)
    requires Pair(s, i, '/', '/') && i + 2 <= end <= |s| && (end == |s| || s[end] == '\n')
    requires forall k :: i + 2 <= k < end ==> s[k] != '\n'
    ensures TokenEnd(s, i) == end
  {
    FindCharIsFirst(s, IsNewline, i + 2);
  }

  lemma HexDigits(c: char)
    ensures IsHex(c) <==> c in "0123456789abcdefABCDEF"
  {
    var digits := "0123456789abcdefABCDEF";
    if '0' <= c <= '9' {
      assert digits[c as int - '0' as int] == c;
    } else if 'a' <= c <= 'f' {
      assert digits[c as int - 'a' as int + 10] == c;
    } else if 'A' <= c <= 'F' {
      assert digits[c as int - 'A' as int + 16] == c;
    }
  }

  /** What stands between the quotes of a character literal. */
  datatype CharBody = Single(c: char) | Simple(c: char) | Hex(high: char, low: char) | Unicode(digits: string)

  predicate BodyOk(body: CharBody) {
    match body
    case Single(c) => c != '\'' && c != '\\' && c != '\n'
    case Simple(c) => c != '\n'
    case Hex(high, low) => IsHex(high) && IsHex(low)
    case Unicode(digits) => digits != "" && forall k :: 0 <= k < |digits| ==> !NotHexOrUnderscore(digits[k])
  }

  function PrintBody(body: CharBody): string {
    match body
    case Single(c) => [c]
    case Simple(c) => ['\\', c]
    case Hex(high, low) => ['\\', 'x', high, low]
    case Unicode(digits) => "\\u{" + digits + "}"
  }

  /** The body is written at `j`, closed by its quote. */
  ghost predicate BodyWritten(s: string, j: nat, body: CharBody) {
    var text := PrintBody(body);
    && BodyOk(body) && j + |text| < |s| && s[j + |text|] == '\''
    && forall k {:trigger text[k]} :: 0 <= k < |text| ==> s[j + k] == text[k]
  }

  /** The literal is written at `i`, with its opening quote there or behind a byte prefix. */
  ghost predicate CharWritten(s: string, i: nat, quote: nat, body: CharBody) {
    && (quote == i || (quote == i + 1 && CharAt(s, i) == 'b'))
    && CharAt(s, quote) == '\'' && BodyWritten(s, quote + 1, body)
  }

  lemma UnicodeBodyEnds(s: string, j: nat, digits: string)
    requires BodyWritten(s, j, Unicode(digits))
    ensures CharBodyEnd(s, j) == Some(j + |digits| + 5)
  {
    var text := PrintBody(Unicode(digits));
    assert text[0] == '\\' && text[1] == 'u' && text[2] == '{' && text[|digits| + 3] == '}';
    assert forall k :: 0 <= k < |digits| ==> text[k + 3] == digits[k];
    forall m | j + 3 <= m < j + 3 + |digits| ensures !NotHexOrUnderscore(s[m]) {
      assert s[m] == text[m - j] == digits[m - j - 3];
    }
    FindCharIsFirst(s, NotHexOrUnderscore, j + 3);
  }

  lemma BodyEnds(s: string, j: nat, body: CharBody)
    requires BodyWritten(s, j, body)
    ensures CharBodyEnd(s, j) == Some(j + |PrintBody(body)| + 1)
  {
    var text := PrintBody(body);
    match body
    case Single(c) => assert text[0] == c;
    case Simple(c) => assert text[0] == '\\' && text[1] == c;
    case Hex(high, low) => assert text[0] == '\\' && text[1] == 'x' && text[2] == high && text[3] == low;
    case Unicode(digits) => UnicodeBodyEnds(s, j, digits);
  }

  /** A written character literal, plain or escaped, is one token. */
  lemma CharIsOneToken(s: string, i: nat, quote: nat, body: CharBody)
    requires CharWritten(s, i, quote, body)
    ensures i < |s| && TokenEnd(s, i) == quote + |PrintBody(body)| + 2
  {
    BodyEnds(s, quote + 1, body);
  }

  /** The body a literal was read from. */
  lemma BodyIsWritten(s: string, j: nat) returns (body: CharBody)
    requires j <= |s| && CharBodyEnd(s, j).Some?
    ensures BodyWritten(s, j, body)
  {
    var e := CharBodyEnd(s, j).value;
    if s[j] != '\\' {
      body := Single(s[j]);
    } else {
      if j + 3 <= |s| {
        FindCharIsFirst(s, NotHexOrUnderscore, j + 3);
      }
      if e == j + 3 {
        body := Simple(s[j + 1]);
      } else if e == j + 5 && s[j + 1] == 'x' {
        body := Hex(s[j + 2], s[j + 3]);
      } else {
        body := Unicode(s[j + 3..e - 2]);
      }
    }
  }

  /** And only a written literal is read as one: a lifetime such as `'a` is code. */
  lemma LiteralIsWritten(s: string, i: nat) returns (quote: nat, body: CharBody)
    requires CharLiteralEnd(s, i).Some?
    ensures CharWritten(s, i, quote, body)
  {
    quote := if s[i] == '\'' then i else i + 1;
    body := BodyIsWritten(s, quote + 1);
  }

  /** The hashes and quote that open a raw string, with or without the byte prefix. */
  ghost predicate RawOpens(s: string, i: nat, r: nat, n: nat) {
    && n <= 255 && r + 1 + n < |s| && s[r] == 'r' && (r == i || (r == i + 1 && s[i] == 'b'))
    && s[r + 1 + n] == '"' && forall k :: r < k < r + 1 + n ==> s[k] == '#'
  }

  /** A character opens a token exactly when a comment, a character literal, a raw string or
      a string is written there. */
  lemma OpensIff(s: string, i: nat)
    requires i < |s|
    ensures TokenEnd(s, i) > i <==>
      || Pair(s, i, '/', '/') || Pair(s, i, '/', '*')
      || (exists quote: nat, body :: CharWritten(s, i, quote, body))
      || (exists r: nat, n: nat :: RawOpens(s, i, r, n))
      || s[i] == '"' || Pair(s, i, 'b', '"')
  {
    if CharLiteralEnd(s, i).Some? {
      var quote, body := LiteralIsWritten(s, i);
      CharLiteralShape(s, i);
    }
    if quote: nat, body :| CharWritten(s, i, quote, body) {
      CharIsOneToken(s, i, quote, body);
    }
    RawOpensIff(s, i);
  }

  lemma RawOpensIff(s: string, i: nat)
    ensures RawQuote(s, i).Some? <==> exists r: nat, n: nat :: RawOpens(s, i, r, n)
  {
    if RawQuote(s, i).Some? {
      var r := if s[i] == 'b' then i + 1 else i;
      FindCharIsFirst(s, NotHash, r + 1);
      assert RawOpens(s, i, r, RawQuote(s, i).value.1);
    }
    if r: nat, n: nat :| RawOpens(s, i, r, n) {
      RawQuoteAt(s, i, r, n);
    }
  }

  /** Comments and strings that are never closed run to the end of the text. */
  lemma {:induction false} UnclosedBlockEnds(s: string, i: nat, depth: nat)
    requires i <= |s| && depth > 0 && forall k: nat :: k >= i ==> !Pair(s, k, '*', '/')
    ensures BlockEnd(s, i, depth) == |s|
    decreases |s| - i
  {
    if i < |s| {
      UnclosedBlockEnds(s, BlockStep(s, i, depth).0, BlockStep(s, i, depth).1);
    }
  }

  lemma {:induction false} UnclosedStringEnds(s: string, i: nat, items: seq<Item>, rest: string)
    requires i <= |s| && s[i..] == PrintItems(items, rest) && (rest == "" || rest == "\\")
    requires forall x :: x in items && x.Plain? ==> x.c != '"' && x.c != '\\'
    ensures StringEnd(s, i) == |s|
    decreases |items|
  {
    if items == [] {
      assert rest != "" ==> s[i] == s[i..][0];
    } else {
      var width := if items[0].Plain? then 1 else 2;
      assert s[i] == s[i..][0];
      assert items[0] in items;
      assert s[i + width..] == s[i..][width..] == PrintItems(items[1..], rest);
      UnclosedStringEnds(s, i + width, items[1..], rest);
    }
  }

  lemma UnclosedComment(s: string, i: nat)
    requires Pair(s, i, '/', '*') && forall k: nat :: k >= i + 2 ==> !Pair(s, k, '*', '/')
    ensures TokenEnd(s, i) == |s|
  {
    BlockOpensToken(s, i);
    UnclosedBlockEnds(s, i + 2, 1);
  }

  lemma UnclosedString(s: string, i: nat, quote: nat, items: seq<Item>, rest: string)
    requires quote < |s| && s[quote] == '"' && (quote == i || (quote == i + 1 && s[i] == 'b'))
    requires s[quote + 1..] == PrintItems(items, rest) && (rest == "" || rest == "\\")
    requires forall x :: x in items && x.Plain? ==> x.c != '"' && x.c != '\\'
    ensures TokenEnd(s, i) == |s|
  {
    UnclosedStringEnds(s, quote + 1, items, rest);
  }

  lemma UnclosedRaw(s: string, i: nat, r: nat, n: nat)
    requires RawOpens(s, i, r, n) && forall k: nat :: k > r + 1 + n ==> !OccursAt(s, "\"" + Hashes(n), k)
    ensures TokenEnd(s, i) == |s|
  {
    RawQuoteAt(s, i, r, n);
    FindIsFirst(s, "\"" + Hashes(n), r + 2 + n);
  }

  // ---------------------------------------------------------------- The loops

  method ScanBlock(source: string, start: nat) returns (index: nat)
    requires start <= |source|
    ensures index == BlockEnd(source, start, 1)
  {
    var depth: nat := 1;
    index := start;
    while index < |source| && depth > 0
      invariant start <= index <= |source|
      invariant BlockEnd(source, index, depth) == BlockEnd(source, start, 1)
      decreases |source| - index
    {
      if Pair(source, index, '/', '*') {
        depth := depth + 1;
        index := index + 2;
      } else if Pair(source, index, '*', '/') {
        depth := depth - 1;
        index := index + 2;
      } else {
        index := index + 1;
      }
    }
  }

  /** `index` may overrun the text by one after a final backslash. */
  method ScanString(source: string, start: nat) returns (index: nat)
    requires start <= |source|
    ensures (if index < |source| then index else |source|) == StringEnd(source, start)
  {
    index := start;
    while index < |source|
      invariant start <= index <= |source| + 1
      invariant index <= |source| ==> StringEnd(source, index) == StringEnd(source, start)
      invariant index > |source| ==> StringEnd(source, start) == |source|
      decreases |source| + 1 - index
    {
      if source[index] == '\\' {
        index := index + 2;
      } else if source[index] == '"' {
        return index + 1;
      } else {
        index := index + 1;
      }
    }
  }

  method BlankRange(chars: array<char>, start: nat, end: nat, keepNewlines: bool)
    requires start <= end <= chars.Length
    modifies chars
    ensures forall k :: 0 <= k < chars.Length ==>
              chars[k] == if start <= k < end && !(keepNewlines && old(chars[k]) == '\n') then ' ' else old(chars[k])
  {
    for offset := start to end
      invariant forall k :: 0 <= k < chars.Length ==>
                  chars[k] == if start <= k < offset && !(keepNewlines && old(chars[k]) == '\n') then ' '
                              else old(chars[k])
    {
      if !keepNewlines || chars[offset] != '\n' {
        chars[offset] := ' ';
      }
    }
  }

  lemma LineCommentHasNoNewline(s: string, i: nat)
    requires i < |s| && Pair(s, i, '/', '/')
    ensures TokenEnd(s, i) <= |s| && forall k :: i <= k < TokenEnd(s, i) ==> s[k] != '\n'
  {
    FindCharIsFirst(s, IsNewline, i + 2);
    assert s[i..i + 2][0] == s[i] && s[i..i + 2][1] == s[i + 1];
  }

  /** The end of the token at `index`, and whether its newlines have to be spared. */
  method ScanToken(source: string, index: nat) returns (end: nat, keepNewlines: bool)
    requires index < |source|
    ensures end == TokenEnd(source, index) <= |source|
    ensures !keepNewlines ==> forall k :: index <= k < end ==> source[k] != '\n'
  {
    keepNewlines := true;
    TokenLength(source, index);
    if Pair(source, index, '/', '/') {
      LineCommentHasNoNewline(source, index);
      return FindChar(source, IsNewline, index + 2), false;
    }
    if Pair(source, index, '/', '*') {
      end := ScanBlock(source, index + 2);
      return;
    }
    var literal := CharLiteralEnd(source, index);
    if literal.Some? {
      CharLiteralShape(source, index);
      return literal.value, false;
    }
    var raw := RawQuote(source, index);
    if raw.Some? {
      return RawEnd(source, raw.value.0, raw.value.1), true;
    }
    var open := if Pair(source, index, 'b', '"') then index + 1 else index;
    if source[open] == '"' {
      end := ScanString(source, open + 1);
      end := if end < |source| then end else |source|;
      return;
    }
    end := index;
  }

  /** Blank the token at `index`, or step over one code character. */
  method SanitizeNext(chars: array<char>, source: string, index: nat) returns (next: nat)
    requires index < |source| == chars.Length
    requires forall k :: index <= k < |source| ==> chars[k] == source[k]
    modifies chars
    ensures index < next <= |source|
    ensures next == if TokenEnd(source, index) == index then index + 1 else TokenEnd(source, index)
    ensures forall k :: 0 <= k < index || next <= k < |source| ==> chars[k] == old(chars[k])
    ensures forall k :: index <= k < next ==>
              chars[k] == if TokenEnd(source, index) == index then source[k] else BlankChar(source[k])
  {
    var end, keepNewlines := ScanToken(source, index);
    if end == index {
      next := index + 1;
    } else {
      BlankRange(chars, index, end, keepNewlines);
      next := end;
    }
  }

  lemma {:induction false} SanitizeOnce(s: string, i: nat)
    requires i < |s|
    ensures var e := TokenEnd(s, i);
      var next := if e == i then i + 1 else e;
      && next <= |s|
      && (forall k :: i <= k < next ==> SanitizeFrom(s, i)[k - i] == if e == i then s[k] else BlankChar(s[k]))
      && SanitizeFrom(s, i)[next - i..] == SanitizeFrom(s, next)
  {
    TokenLength(s, i);
  }

  method SanitizeRust(source: string) returns (result: string)
    ensures result == Sanitize(source)
  {
    var chars := new char[|source|](i requires 0 <= i < |source| => source[i]);
    var index: nat := 0;
    ghost var whole := Sanitize(source);
    while index < |source|
      invariant index <= |source|
      invariant forall k :: index <= k < |source| ==> chars[k] == source[k]
      invariant forall k :: 0 <= k < index ==> chars[k] == whole[k]
      invariant whole[index..] == SanitizeFrom(source, index)
      decreases |source| - index
    {
      SanitizeOnce(source, index);
      ghost var before := index;
      index := SanitizeNext(chars, source, index);
      assert whole[index..] == whole[before..][index - before..];
      assert forall k :: before <= k < index ==> whole[k] == whole[before..][k - before];
    }
    result := chars[..];
  }
}
