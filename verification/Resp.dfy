/** The Redis RESP codec: commands written, replies read. */
module Resp {
  import opened Options
  import opened Sequences

  type byte = b: int | 0 <= b < 256
  type Bytes = seq<byte>

  const CR: byte := 13
  const LF: byte := 10
  const CRLF: Bytes := [CR, LF]
  const PLUS: byte := 43
  const MINUS: byte := 45
  const COLON: byte := 58
  const DOLLAR: byte := 36
  const STAR: byte := 42
  const UNDERSCORE: byte := 95

  /** Text is kept as its UTF-8 bytes. */
  datatype Value = Text(utf8: Bytes) | Number(n: int) | Nil | List(items: seq<Value>)

  datatype Error =
    | Closed
    | MalformedLine
    | NotUtf8
    | NotANumber
    | NegativeRead
    | MalformedBulk
    | UnknownPrefix
    | Remote(message: Bytes)

  datatype Reply = Got(value: Value) | Raised(error: Error)
  datatype Replies = GotAll(values: seq<Value>) | RaisedAt(error: Error)

  // ------------------------------------------------------------------- UTF-8

  predicate Continues(b: byte) {
    0x80 <= b < 0xC0
  }

  /** The length of the well-formed sequence a string starts with; zero for none. */
  function Utf8Head(s: Bytes): (n: nat)
    ensures n <= |s|
  {
    if s == [] then 0
    else if s[0] < 0x80 then 1
    else if 0xC2 <= s[0] <= 0xDF && |s| >= 2 && Continues(s[1]) then 2
    else if |s| >= 3 && Continues(s[1]) && Continues(s[2])
            && ((s[0] == 0xE0 && s[1] >= 0xA0) || 0xE1 <= s[0] <= 0xEC
                || (s[0] == 0xED && s[1] < 0xA0) || 0xEE <= s[0] <= 0xEF) then 3
    else if |s| >= 4 && Continues(s[1]) && Continues(s[2]) && Continues(s[3])
            && ((s[0] == 0xF0 && s[1] >= 0x90) || 0xF1 <= s[0] <= 0xF3 || (s[0] == 0xF4 && s[1] < 0x90)) then 4
    else 0
  }

  predicate IsUtf8(s: Bytes)
    decreases |s|
  {
    s == [] || (Utf8Head(s) > 0 && IsUtf8(s[Utf8Head(s)..]))
  }

  /** A Unicode scalar value: any code point but a surrogate. */
  type Scalar = c: int | 0 <= c < 0xD800 || 0xE000 <= c < 0x110000

  function Encode(c: Scalar): Bytes {
    if c < 0x80 then [c]
    else if c < 0x800 then [0xC0 + c / 0x40, 0x80 + c % 0x40]
    else if c < 0x10000 then [0xE0 + c / 0x40 / 0x40, 0x80 + c / 0x40 % 0x40, 0x80 + c % 0x40]
    else [0xF0 + c / 0x40 / 0x40 / 0x40, 0x80 + c / 0x40 / 0x40 % 0x40, 0x80 + c / 0x40 % 0x40, 0x80 + c % 0x40]
  }

  function EncodeAll(text: seq<Scalar>): Bytes {
    if text == [] then [] else Encode(text[0]) + EncodeAll(text[1..])
  }

  /** A well-formed sequence is the encoding of one scalar, whatever follows it. */
  lemma EncodeIsHead(c: Scalar, rest: Bytes)
    ensures Utf8Head(Encode(c) + rest) == |Encode(c)|
  {
    var s := Encode(c) + rest;
    assert forall i :: 0 <= i < |Encode(c)| ==> s[i] == Encode(c)[i];
  }

  /** The payload of a byte under its marker. */
  function Payload(b: byte, marker: byte): int {
    b as int - marker as int
  }

  lemma Sextet(high: nat, low: nat)
    requires low < 0x40
    ensures (0x40 * high + low) / 0x40 == high && (0x40 * high + low) % 0x40 == low
  {
  }

  lemma PairDecodes(a: byte, b: byte) returns (c: Scalar)
    requires Utf8Head([a, b]) == 2
    ensures Encode(c) == [a, b]
  {
    Sextet(a - 0xC0, b - 0x80);
    c := 0x40 * Payload(a, 0xC0) + Payload(b, 0x80);
  }

  lemma TripleDecodes(a: byte, b: byte, d: byte) returns (c: Scalar)
    requires Utf8Head([a, b, d]) == 3
    ensures Encode(c) == [a, b, d]
  {
    var top := 0x40 * Payload(a, 0xE0) + Payload(b, 0x80);
    Sextet(a - 0xE0, b - 0x80);
    Sextet(top, d - 0x80);
    c := 0x40 * top + Payload(d, 0x80);
  }

  lemma QuadDecodes(a: byte, b: byte, d: byte, e: byte) returns (c: Scalar)
    requires Utf8Head([a, b, d, e]) == 4
    ensures Encode(c) == [a, b, d, e]
  {
    var top := 0x40 * Payload(a, 0xF0) + Payload(b, 0x80);
    var upper := 0x40 * top + Payload(d, 0x80);
    Sextet(a - 0xF0, b - 0x80);
    Sextet(top, d - 0x80);
    Sextet(upper, e - 0x80);
    c := 0x40 * upper + Payload(e, 0x80);
  }

  /** The scalar a well-formed sequence encodes. */
  lemma HeadDecodes(s: Bytes) returns (c: Scalar)
    requires Utf8Head(s) > 0
    ensures Encode(c) == s[..Utf8Head(s)]
  {
    var n := Utf8Head(s);
    if n == 1 {
      c := s[0];
    } else if n == 2 {
      c := PairDecodes(s[0], s[1]);
    } else if n == 3 {
      c := TripleDecodes(s[0], s[1], s[2]);
    } else {
      c := QuadDecodes(s[0], s[1], s[2], s[3]);
    }
  }

  lemma {:induction false} EncodedIsUtf8(text: seq<Scalar>)
    ensures IsUtf8(EncodeAll(text))
  {
    if text != [] {
      EncodeIsHead(text[0], EncodeAll(text[1..]));
      EncodedIsUtf8(text[1..]);
      assert EncodeAll(text)[|Encode(text[0])|..] == EncodeAll(text[1..]);
    }
  }

  lemma EncodesBoth(s: Bytes, n: nat, c: Scalar, others: seq<Scalar>)
    requires n <= |s| && Encode(c) == s[..n] && EncodeAll(others) == s[n..]
    ensures EncodeAll([c] + others) == s
  {
    assert ([c] + others)[1..] == others;
    assert s == s[..n] + s[n..];
  }

  lemma {:induction false} Utf8Decodes(s: Bytes) returns (text: seq<Scalar>)
    requires IsUtf8(s)
    ensures EncodeAll(text) == s
    decreases |s|
  {
    if s == [] {
      text := [];
    } else {
      var c := HeadDecodes(s);
      var others := Utf8Decodes(s[Utf8Head(s)..]);
      text := [c] + others;
      EncodesBoth(s, Utf8Head(s), c, others);
    }
  }

  /** Bytes are UTF-8 exactly when they encode some text. */
  lemma Utf8Iff(s: Bytes)
    ensures IsUtf8(s) <==> exists text :: EncodeAll(text) == s
  {
    if IsUtf8(s) {
      var text := Utf8Decodes(s);
      assert EncodeAll(text) == s;
    } else {
      forall text | EncodeAll(text) == s ensures false {
        EncodedIsUtf8(text);
      }
    }
  }

  // ----------------------------------------------------------------- Integers

  predicate IsDigit(b: byte) {
    48 <= b <= 57
  }

  predicate IsSpace(b: byte) {
    9 <= b <= 13 || b == 32
  }

  function DropSpace(s: Bytes): Bytes {
    if s != [] && IsSpace(s[0]) then DropSpace(s[1..]) else s
  }

  function DropSpaceEnd(s: Bytes): Bytes {
    if s != [] && IsSpace(s[|s| - 1]) then DropSpaceEnd(s[..|s| - 1]) else s
  }

  /** Digits, with single underscores allowed between them, after the value so far. */
  function Digits(s: Bytes, sofar: nat): Option<nat>
    decreases |s|
  {
    if s == [] || !IsDigit(s[0]) then None
    else
      var n := 10 * sofar + (s[0] - 48);
      if |s| == 1 then Some(n)
      else if s[1] == UNDERSCORE then Digits(s[2..], n)
      else Digits(s[1..], n)
  }

  /** `int(line)`. */
  function ParseInt(line: Bytes): Option<int> {
    var s := DropSpaceEnd(DropSpace(line));
    if s == [] then None
    else if s[0] == MINUS || s[0] == PLUS then
      match Digits(s[1..], 0)
      case Some(n) =>
        var m: int := n;
        Some(if s[0] == MINUS then -m else m)
      case None => None
    else match Digits(s, 0)
      case Some(n) => Some(n)
      case None => None
  }

  function Decimal(n: nat): (d: Bytes)
    ensures d != [] && forall i :: 0 <= i < |d| ==> IsDigit(d[i])
  {
    if n < 10 then [48 + n] else Decimal(n / 10) + [48 + n % 10]
  }

  function Signed(n: int): Bytes {
    if n < 0 then [MINUS] + Decimal(-n) else Decimal(n)
  }

  lemma {:induction false} DigitsSnoc(d: Bytes, sofar: nat, last: byte)
    requires d != [] && (forall i :: 0 <= i < |d| ==> IsDigit(d[i])) && IsDigit(last)
    requires Digits(d, sofar).Some?
    ensures Digits(d + [last], sofar) == Some(10 * Digits(d, sofar).value + (last - 48))
    decreases |d|
  {
    var e := d + [last];
    var n := 10 * sofar + (d[0] - 48);
    assert e[0] == d[0] && e[1..] == d[1..] + [last];
    if |d| == 1 {
      assert e[1] == last && e[1..] == [last];
    } else {
      assert e[1] == d[1];
      DigitsSnoc(d[1..], n, last);
    }
  }

  lemma {:induction false} DecimalParses(n: nat)
    ensures Digits(Decimal(n), 0) == Some(n)
  {
    if n >= 10 {
      DecimalParses(n / 10);
      DigitsSnoc(Decimal(n / 10), 0, 48 + n % 10);
    }
  }

  lemma SignedParses(n: int)
    ensures ParseInt(Signed(n)) == Some(n)
  {
    DecimalParses(if n < 0 then -n else n);
    var s := Signed(n);
    assert !IsSpace(s[0]) && !IsSpace(s[|s| - 1]);
    assert n < 0 ==> s[1..] == Decimal(-n);
  }

  /** Tabs, line feeds, vertical tabs, form feeds, carriage returns and spaces only. */
  ghost predicate AllBlank(s: Bytes) {
    forall i :: 0 <= i < |s| ==> s[i] in {9, 10, 11, 12, 13, 32}
  }

  /** Blanks around a number are skipped. */
  lemma PaddedParses(before: Bytes, n: int, after: Bytes)
    requires AllBlank(before) && AllBlank(after)
    ensures ParseInt(before + Signed(n) + after) == Some(n)
  {
    var s := Signed(n);
    assert !IsSpace(s[0]) && !IsSpace(s[|s| - 1]);
    DropsBlanks(before, s + after);
    assert before + s + after == before + (s + after);
    DropsBlanksEnd(s, after);
    SignedParses(n);
    assert DropSpace(s) == s && DropSpaceEnd(s) == s;
  }

  lemma {:induction false} DropsBlanks(before: Bytes, rest: Bytes)
    requires AllBlank(before)
    requires rest != [] && !IsSpace(rest[0])
    ensures DropSpace(before + rest) == rest
  {
    if before == [] {
      assert before + rest == rest;
    } else {
      assert (before + rest)[1..] == before[1..] + rest;
      DropsBlanks(before[1..], rest);
    }
  }

  lemma {:induction false} DropsBlanksEnd(s: Bytes, after: Bytes)
    requires AllBlank(after)
    requires s != [] && !IsSpace(s[|s| - 1])
    ensures DropSpaceEnd(s + after) == s
  {
    if after == [] {
      assert s + after == s;
    } else {
      var last := after[|after| - 1];
      assert (s + after)[|s + after| - 1] == last;
      assert (s + after)[..|s + after| - 1] == s + after[..|after| - 1];
      DropsBlanksEnd(s, after[..|after| - 1]);
    }
  }

  // ------------------------------------------------------------------- Reading

  /** The length of the first line with its newline, or of all the text without one. */
  function LineLength(s: Bytes): (n: nat)
    ensures n <= |s| && (s != [] ==> n > 0)
  {
    if s == [] then 0 else if s[0] == LF then 1 else 1 + LineLength(s[1..])
  }

  /** `_read_line`: the outcome and what is left of the stream. */
  function ReadLine(s: Bytes): (r: (Option<Bytes>, Bytes))
    ensures |r.1| <= |s| && (s != [] ==> |r.1| < |s|)
  {
    var n := LineLength(s);
    if n >= 2 && s[n - 2..n] == CRLF then (Some(s[..n - 2]), s[n..]) else (None, s[n..])
  }

  function LineError(s: Bytes): Error {
    if s == [] then Closed else MalformedLine
  }

  /** The body of a bulk string of the given length. */
  function ReadBulk(s: Bytes, length: int): (r: (Reply, Bytes))
    ensures |r.1| <= |s|
  {
    if length == -1 then (Got(Nil), s)
    else if length < 0 then (Raised(NegativeRead), s)
    else
      var n := Min(length, |s|);
      var data, rest := s[..n], s[n..];
      var end := Min(2, |rest|);
      if |data| != length || rest[..end] != CRLF then (Raised(MalformedBulk), rest[end..])
      else if !IsUtf8(data) then (Raised(NotUtf8), rest[end..])
      else (Got(Text(data)), rest[end..])
  }

  /** `read_resp` on a stream that delivers exactly `s`. */
  function ReadResp(s: Bytes): (r: (Reply, Bytes))
    ensures |r.1| <= |s| && (s != [] ==> |r.1| < |s|)
    ensures s == [] ==> r.0.Raised?
    decreases |s|, 0
  {
    if s == [] then (Raised(Closed), [])
    else
      var after := s[1..];
      if s[0] !in {PLUS, MINUS, COLON, DOLLAR, STAR} then (Raised(UnknownPrefix), after)
      else
        var (line, rest) := ReadLine(after);
        if line.None? then (Raised(LineError(after)), rest)
        else if s[0] == PLUS then (if IsUtf8(line.value) then Got(Text(line.value)) else Raised(NotUtf8), rest)
        else if s[0] == MINUS then (Raised(if IsUtf8(line.value) then Remote(line.value) else NotUtf8), rest)
        else match ParseInt(line.value)
          case None => (Raised(NotANumber), rest)
          case Some(n) =>
            if s[0] == COLON then (Got(Number(n)), rest)
            else if s[0] == DOLLAR then ReadBulk(rest, n)
            else if n == -1 then (Got(Nil), rest)
            else
              var (items, left) := ReadItems(rest, n);
              (match items
               case GotAll(values) => Got(List(values))
               case RaisedAt(error) => Raised(error), left)
  }

  /** The elements of an array, or any number of replies in a row. */
  function ReadItems(s: Bytes, n: int): (r: (Replies, Bytes))
    ensures |r.1| <= |s|
    decreases |s|, 1
  {
    if n <= 0 then (GotAll([]), s)
    else
      var (first, rest) := ReadResp(s);
      match first
      case Raised(error) => (RaisedAt(error), rest)
      case Got(value) =>
        var (others, left) := ReadItems(rest, n - 1);
        (match others
         case GotAll(values) => GotAll([value] + values)
         case RaisedAt(error) => RaisedAt(error), left)
  }

  // ------------------------------------------------------------------- Writing

  function PrintLine(prefix: byte, n: int): Bytes {
    [prefix] + Signed(n) + CRLF
  }

  /** The wire form of a reply, with every text as a bulk string. */
  function Print(v: Value): Bytes
    decreases v, 0
  {
    match v
    case Text(utf8) => PrintLine(DOLLAR, |utf8|) + utf8 + CRLF
    case Number(n) => PrintLine(COLON, n)
    case Nil => PrintLine(DOLLAR, -1)
    case List(items) => PrintLine(STAR, |items|) + PrintAll(items)
  }

  function PrintAll(items: seq<Value>): Bytes
    decreases items, 1
  {
    if items == [] then [] else Print(items[0]) + PrintAll(items[1..])
  }

  predicate Readable(v: Value)
    decreases v
  {
    match v
    case Text(utf8) => IsUtf8(utf8)
    case List(items) => forall i :: 0 <= i < |items| ==> Readable(items[i])
    case _ => true
  }

  // ---------------------------------------------------------------- Round trip

  lemma {:induction false} LineUntilCrlf(line: Bytes, rest: Bytes)
    requires LF !in line
    ensures ReadLine(line + CRLF + rest) == (Some(line), rest)
  {
    LineLengthOf(line, rest);
    var s := line + CRLF + rest;
    assert s[|line|..|line| + 2] == CRLF && s[..|line|] == line && s[|line| + 2..] == rest;
  }

  lemma {:induction false} LineLengthOf(line: Bytes, rest: Bytes)
    requires LF !in line
    ensures LineLength(line + CRLF + rest) == |line| + 2
    decreases |line|
  {
    var s := line + CRLF + rest;
    if line == [] {
      assert s[0] == CR && s[1..][0] == LF;
      assert LineLength(s[1..]) == 1;
    } else {
      assert s[0] == line[0] && s[1..] == line[1..] + CRLF + rest;
      LineLengthOf(line[1..], rest);
    }
  }

  /** A printed length line is read back as its number. */
  lemma HeaderReadsBack(prefix: byte, n: int, rest: Bytes)
    ensures var s := PrintLine(prefix, n) + rest;
      && s[0] == prefix
      && ReadLine(s[1..]) == (Some(Signed(n)), rest)
      && ParseInt(Signed(n)) == Some(n)
  {
    SignedParses(n);
    var s := PrintLine(prefix, n) + rest;
    assert s[1..] == Signed(n) + CRLF + rest;
    assert LF !in Signed(n);
    LineUntilCrlf(Signed(n), rest);
  }

  lemma SplitAt(a: Bytes, b: Bytes)
    ensures (a + b)[..|a|] == a && (a + b)[|a|..] == b
  {
  }

  lemma BulkReadsBack(utf8: Bytes, rest: Bytes)
    ensures ReadBulk(utf8 + CRLF + rest, |utf8|) ==
              (if IsUtf8(utf8) then Got(Text(utf8)) else Raised(NotUtf8), rest)
  {
    Associative(utf8, CRLF, rest);
    SplitAt(utf8, CRLF + rest);
    SplitAt(CRLF, rest);
  }

  lemma NumberReadsBack(n: int, rest: Bytes)
    ensures ReadResp(PrintLine(COLON, n) + rest) == (Got(Number(n)), rest)
  {
    HeaderReadsBack(COLON, n, rest);
  }

  lemma BulkHeader(n: int, rest: Bytes)
    ensures ReadResp(PrintLine(DOLLAR, n) + rest) == ReadBulk(rest, n)
  {
    HeaderReadsBack(DOLLAR, n, rest);
  }

  lemma ArrayHeader(n: nat, rest: Bytes)
    ensures ReadResp(PrintLine(STAR, n) + rest) ==
      var (items, left) := ReadItems(rest, n);
      (if items.GotAll? then Got(List(items.values)) else Raised(items.error), left)
  {
    HeaderReadsBack(STAR, n, rest);
  }

  /** A status line is read back as its text. */
  lemma StatusReadsBack(line: Bytes, rest: Bytes)
    requires LF !in line
    ensures ReadResp([PLUS] + line + CRLF + rest) == (if IsUtf8(line) then Got(Text(line)) else Raised(NotUtf8), rest)
  {
    LineUntilCrlf(line, rest);
    assert ([PLUS] + line + CRLF + rest)[1..] == line + CRLF + rest;
  }

  /** An error line is raised with its text. */
  lemma ErrorRaises(line: Bytes, rest: Bytes)
    requires LF !in line
    ensures ReadResp([MINUS] + line + CRLF + rest) == (Raised(if IsUtf8(line) then Remote(line) else NotUtf8), rest)
  {
    LineUntilCrlf(line, rest);
    assert ([MINUS] + line + CRLF + rest)[1..] == line + CRLF + rest;
  }

  /** An array of length minus one is no reply. */
  lemma NilArrayReadsBack(rest: Bytes)
    ensures ReadResp(PrintLine(STAR, -1) + rest) == (Got(Nil), rest)
  {
    HeaderReadsBack(STAR, -1, rest);
  }

  /** A reply whose line never ends is malformed; without a single byte of it the stream was
      closed. */
  lemma UnendedLineRaises(prefix: byte, line: Bytes)
    requires prefix in {PLUS, MINUS, COLON, DOLLAR, STAR} && LF !in line
    ensures ReadResp([prefix] + line).0 == Raised(if line == [] then Closed else MalformedLine)
  {
    assert ([prefix] + line)[1..] == line;
    LineWithoutEnd(line);
  }

  /** So is one that ends in a line feed alone, and the bytes behind it are left. */
  lemma BareLineFeedRaises(prefix: byte, line: Bytes, rest: Bytes)
    requires prefix in {PLUS, MINUS, COLON, DOLLAR, STAR} && LF !in line && (line == [] || line[|line| - 1] != CR)
    ensures ReadResp([prefix] + (line + [LF] + rest)) == (Raised(MalformedLine), rest)
  {
    var after := line + [LF] + rest;
    assert ([prefix] + after)[1..] == after;
    BareLineFeedIsNoLine(line, rest);
  }

  lemma BareLineFeedIsNoLine(line: Bytes, rest: Bytes)
    requires LF !in line && (line == [] || line[|line| - 1] != CR)
    ensures ReadLine(line + [LF] + rest) == (None, rest)
  {
    var s := line + [LF] + rest;
    LineLengthUpTo(line, rest);
    assert s[|line| + 1..] == rest;
    assert line != [] ==> s[|line| - 1..|line| + 1][0] == line[|line| - 1];
  }

  lemma {:induction false} LineWithoutEnd(line: Bytes)
    requires LF !in line
    ensures LineLength(line) == |line| && ReadLine(line).0.None?
  {
    if line != [] {
      LineWithoutEnd(line[1..]);
      assert |line| >= 2 ==> line[|line| - 2..][1] == line[|line| - 1] != LF;
    }
  }

  lemma {:induction false} LineLengthUpTo(line: Bytes, rest: Bytes)
    requires LF !in line
    ensures LineLength(line + [LF] + rest) == |line| + 1
    decreases |line|
  {
    var s := line + [LF] + rest;
    if line == [] {
      assert s[0] == LF;
    } else {
      assert s[0] == line[0] && s[1..] == line[1..] + [LF] + rest;
      LineLengthUpTo(line[1..], rest);
    }
  }

  /** A bulk body is read exactly when its bytes are there, CR LF follows and they are UTF-8. */
  lemma BulkReadIff(s: Bytes, length: nat)
    ensures var whole := length + 2 <= |s| && s[length] == CR && s[length + 1] == LF;
      && (ReadBulk(s, length).0 == Raised(MalformedBulk) <==> !whole)
      && (whole ==>
            ReadBulk(s, length)
              == (if IsUtf8(s[..length]) then Got(Text(s[..length])) else Raised(NotUtf8), s[length + 2..]))
  {
    if length + 2 <= |s| {
      assert s[length..][..2] == [s[length], s[length + 1]];
      assert s[length..][2..] == s[length + 2..];
    } else if length <= |s| {
      assert |s[length..]| < 2;
    }
  }

  /** A reply printed in front of any bytes is read back, leaving exactly those bytes. */
  lemma {:induction false} ReadsBack(v: Value, rest: Bytes)
    requires Readable(v)
    ensures ReadResp(Print(v) + rest) == (Got(v), rest)
    decreases v, 0
  {
    match v
    case Number(n) => NumberReadsBack(n, rest);
    case Nil => BulkHeader(-1, rest);
    case Text(utf8) =>
      assert Print(v) + rest == PrintLine(DOLLAR, |utf8|) + (utf8 + CRLF + rest);
      BulkHeader(|utf8|, utf8 + CRLF + rest);
      BulkReadsBack(utf8, rest);
    case List(items) =>
      assert Print(v) + rest == PrintLine(STAR, |items|) + (PrintAll(items) + rest);
      ArrayHeader(|items|, PrintAll(items) + rest);
      AllReadBack(items, rest);
  }

  /** So are any number of them in a row. */
  lemma {:induction false} AllReadBack(items: seq<Value>, rest: Bytes)
    requires forall i :: 0 <= i < |items| ==> Readable(items[i])
    ensures ReadItems(PrintAll(items) + rest, |items|) == (GotAll(items), rest)
    decreases items, 1
  {
    if items == [] {
      assert PrintAll(items) + rest == rest;
    } else {
      Associative(Print(items[0]), PrintAll(items[1..]), rest);
      ReadsBack(items[0], PrintAll(items[1..]) + rest);
      AllReadBack(items[1..], rest);
      assert [items[0]] + items[1..] == items;
    }
  }

  // ------------------------------------------------------- Commands and streams

  /** The parts of a command as one array of texts. */
  function Command(parts: seq<Bytes>): Value {
    List(seq(|parts|, i requires 0 <= i < |parts| => Text(parts[i])))
  }

  /** Written command parts are read back as sent, whatever bytes follow, exactly when
      every part is UTF-8; an embedded line break makes no difference. */
  lemma CommandReadsBackIff(parts: seq<Bytes>, rest: Bytes)
    ensures ReadResp(Print(Command(parts)) + rest) == (Got(Command(parts)), rest)
            <==> forall i :: 0 <= i < |parts| ==> IsUtf8(parts[i])
  {
    var items := Command(parts).items;
    if forall i :: 0 <= i < |parts| ==> IsUtf8(parts[i]) {
      assert forall i :: 0 <= i < |items| ==> Readable(items[i]);
      ReadsBack(List(items), rest);
    } else {
      var i :| 0 <= i < |parts| && !IsUtf8(parts[i]);
      assert !IsUtf8(items[i].utf8);
      BadCommandRaises(items, rest, i);
    }
  }

  lemma BadCommandRaises(items: seq<Value>, rest: Bytes, bad: nat)
    requires forall i :: 0 <= i < |items| ==> items[i].Text?
    requires bad < |items| && !IsUtf8(items[bad].utf8)
    ensures ReadResp(Print(List(items)) + rest).0 == Raised(NotUtf8)
  {
    Associative(PrintLine(STAR, |items|), PrintAll(items), rest);
    ArrayHeader(|items|, PrintAll(items) + rest);
    BadTextRaises(items, rest, bad);
  }

  lemma FirstTextRead(items: seq<Value>, rest: Bytes)
    requires items != [] && items[0].Text?
    ensures ReadResp(PrintAll(items) + rest) ==
              (if IsUtf8(items[0].utf8) then Got(Text(items[0].utf8)) else Raised(NotUtf8), PrintAll(items[1..]) + rest)
  {
    var after := PrintAll(items[1..]) + rest;
    var utf8 := items[0].utf8;
    var header := PrintLine(DOLLAR, |utf8|);
    Associative(header + utf8 + CRLF, PrintAll(items[1..]), rest);
    Associative(header + utf8, CRLF, after);
    Associative(header, utf8, CRLF + after);
    Associative(utf8, CRLF, after);
    BulkHeader(|utf8|, utf8 + CRLF + after);
    BulkReadsBack(utf8, after);
  }

  /** Reading `n` replies ends on bytes that are not UTF-8. */
  ghost predicate EndsNotUtf8(s: Bytes, n: int) {
    exists left :: ReadItems(s, n) == (RaisedAt(NotUtf8), left)
  }

  lemma BadTextEndsItems(items: seq<Value>, rest: Bytes)
    requires items != [] && items[0].Text? && !IsUtf8(items[0].utf8)
    ensures EndsNotUtf8(PrintAll(items) + rest, |items|)
  {
    FirstTextRead(items, rest);
    assert ReadItems(PrintAll(items) + rest, |items|) == (RaisedAt(NotUtf8), PrintAll(items[1..]) + rest);
  }

  lemma GoodTextGoesOn(items: seq<Value>, rest: Bytes)
    requires items != [] && items[0].Text? && IsUtf8(items[0].utf8)
    requires EndsNotUtf8(PrintAll(items[1..]) + rest, |items| - 1)
    ensures EndsNotUtf8(PrintAll(items) + rest, |items|)
  {
    FirstTextRead(items, rest);
    var left := ReadItems(PrintAll(items[1..]) + rest, |items| - 1).1;
    assert ReadItems(PrintAll(items) + rest, |items|) == (RaisedAt(NotUtf8), left);
  }

  lemma {:induction false} BadTextRaises(items: seq<Value>, rest: Bytes, bad: nat)
    requires forall i :: 0 <= i < |items| ==> items[i].Text?
    requires bad < |items| && !IsUtf8(items[bad].utf8)
    ensures EndsNotUtf8(PrintAll(items) + rest, |items|)
    decreases |items|
  {
    if !IsUtf8(items[0].utf8) {
      BadTextEndsItems(items, rest);
    } else {
      BadTextRaises(items[1..], rest, bad - 1);
      GoodTextGoesOn(items, rest);
    }
  }

  method EncodeCommand(parts: seq<Bytes>) returns (frame: Bytes)
    ensures frame == Print(Command(parts))
  {
    var items := Command(parts).items;
    frame := PrintLine(STAR, |parts|);
    var i := 0;
    while i < |parts|
      invariant 0 <= i <= |parts|
      invariant frame + PrintAll(items[i..]) == Print(Command(parts))
    {
      var bulk := PrintLine(DOLLAR, |parts[i]|) + parts[i] + CRLF;
      assert items[i..][0] == Text(parts[i]) && items[i..][1..] == items[i + 1..];
      Associative(frame, bulk, PrintAll(items[i + 1..]));
      frame := frame + bulk;
      i := i + 1;
    }
  }

  /** A blocking byte stream that ends after `rest`. */
  class Stream {
    var rest: Bytes

    constructor (bytes: Bytes)
      ensures rest == bytes
    {
      rest := bytes;
    }

    method Take(n: nat) returns (data: Bytes)
      modifies this
      ensures data == old(rest)[..Min(n, |old(rest)|)] && rest == old(rest)[Min(n, |old(rest)|)..]
    {
      var m := Min(n, |rest|);
      data, rest := rest[..m], rest[m..];
    }

    method TakeLine() returns (line: Option<Bytes>, error: Error)
      modifies this
      ensures (line, rest) == ReadLine(old(rest))
      ensures line.None? ==> error == LineError(old(rest))
    {
      error := LineError(rest);
      var n := LineLength(rest);
      var whole := rest[..n];
      assert n >= 2 ==> whole[n - 2..] == rest[n - 2..n] && whole[..n - 2] == rest[..n - 2];
      rest := rest[n..];
      if n >= 2 && whole[n - 2..] == CRLF {
        line := Some(whole[..n - 2]);
      } else {
        line := None;
      }
    }

    method TakeBulk(length: int) returns (reply: Reply)
      modifies this
      ensures (reply, rest) == ReadBulk(old(rest), length)
    {
      if length == -1 {
        return Got(Nil);
      }
      if length < 0 {
        return Raised(NegativeRead);
      }
      var data := Take(length);
      var terminator := Take(2);
      if |data| != length || terminator != CRLF {
        return Raised(MalformedBulk);
      }
      reply := if IsUtf8(data) then Got(Text(data)) else Raised(NotUtf8);
    }

    method TakeReply() returns (reply: Reply)
      modifies this
      ensures (reply, rest) == ReadResp(old(rest))
      decreases |rest|, 0
    {
      var prefix := Take(1);
      if prefix == [] {
        return Raised(Closed);
      }
      if prefix[0] !in {PLUS, MINUS, COLON, DOLLAR, STAR} {
        return Raised(UnknownPrefix);
      }
      var line, error := TakeLine();
      if line.None? {
        return Raised(error);
      }
      if prefix[0] == PLUS {
        return if IsUtf8(line.value) then Got(Text(line.value)) else Raised(NotUtf8);
      }
      if prefix[0] == MINUS {
        return Raised(if IsUtf8(line.value) then Remote(line.value) else NotUtf8);
      }
      var n := ParseInt(line.value);
      if n.None? {
        return Raised(NotANumber);
      }
      if prefix[0] == COLON {
        return Got(Number(n.value));
      }
      if prefix[0] == DOLLAR {
        reply := TakeBulk(n.value);
        return;
      }
      if n.value == -1 {
        return Got(Nil);
      }
      var items := TakeItems(n.value);
      reply := if items.GotAll? then Got(List(items.values)) else Raised(items.error);
    }

    method TakeItems(n: int) returns (items: Replies)
      modifies this
      ensures (items, rest) == ReadItems(old(rest), n)
      decreases |rest|, 1
    {
      var values: seq<Value> := [];
      var left := n;
      assert forall all: seq<Value> :: [] + all == all;
      while left > 0
        invariant |rest| <= |old(rest)|
        invariant var (others, end) := ReadItems(rest, left);
          ReadItems(old(rest), n) == (Prepend(values, others), end)
        decreases left
      {
        ghost var before, had := rest, values;
        var reply := TakeReply();
        if reply.Raised? {
          return RaisedAt(reply.error);
        }
        values := values + [reply.value];
        ItemsStep(before, rest, left, had, reply.value);
        left := left - 1;
      }
      assert values + [] == values;
      items := GotAll(values);
    }
  }

  function Prepend(done: seq<Value>, others: Replies): Replies {
    if others.GotAll? then GotAll(done + others.values) else others
  }

  lemma ItemsStep(before: Bytes, rest: Bytes, n: int, done: seq<Value>, v: Value)
    requires n > 0 && ReadResp(before) == (Got(v), rest)
    ensures var (others, end) := ReadItems(rest, n - 1);
      && ReadItems(before, n).1 == end
      && Prepend(done, ReadItems(before, n).0) == Prepend(done + [v], others)
  {
    var others := ReadItems(rest, n - 1).0;
    if others.GotAll? {
      assert done + ([v] + others.values) == (done + [v]) + others.values;
    }
  }
}
