/**
 * Collecting a chunked request body (section 7.1 of RFC 9112) so that it can be
 * forwarded with a Content-Length. The stream is the bytes that will ever arrive.
 */
module Chunked {
  import opened Common
  import opened FeedBytes

  const CR: byte := 13
  const LF: byte := 10
  const CRLF: seq<byte> := [13, 10]
  const SEMICOLON: byte := 59
  const UNDERSCORE: byte := 95
  const LINE_LIMIT := 16384

  datatype Reason = Truncated | LineTooLong | BadSize | TooLarge

  datatype Line = Line(text: seq<byte>, rest: seq<byte>) | NoLine(why: Reason)

  datatype Outcome = Body(body: seq<byte>, rest: seq<byte>) | Rejected(why: Reason)

  // ---- lines ----

  ghost predicate NoCrlf(s: seq<byte>) {
    forall i :: 0 <= i < |s| - 1 ==> !(s[i] == CR && s[i + 1] == LF)
  }

  /** Where the first CRLF starts, or the length when there is none. */
  function CrlfAt(s: seq<byte>): (i: nat)
    ensures i <= |s|
    ensures i < |s| ==> i + 1 < |s| && s[i] == CR && s[i + 1] == LF
    ensures NoCrlf(s[..i])
  {
    if |s| < 2 then |s|
    else if s[0] == CR && s[1] == LF then 0
    else
      var j := CrlfAt(s[1..]);
      assert forall k :: 0 < k < j ==> s[1..][k - 1] == s[k];
      j + 1
  }

  /** The reader's search for a separator: a line longer than the limit is refused. */
  function ReadLine(s: seq<byte>): (r: Line)
    ensures r.Line? ==> |r.rest| + 2 <= |s|
  {
    var i := CrlfAt(s);
    if i == |s| then NoLine(if |s| > LINE_LIMIT + 1 then LineTooLong else Truncated)
    else if i > LINE_LIMIT then NoLine(LineTooLong)
    else Line(s[..i], s[i + 2..])
  }

  lemma {:induction false} CrlfEndsLine(text: seq<byte>, rest: seq<byte>)
    requires NoCrlf(text)
    ensures CrlfAt(text + CRLF + rest) == |text|
  {
    var s := text + CRLF + rest;
    if text != [] {
      assert s[1..] == text[1..] + CRLF + rest;
      assert forall i :: 0 <= i < |text| - 1 ==> text[1..][i] == text[i + 1];
      CrlfEndsLine(text[1..], rest);
      assert !(s[0] == CR && s[1] == LF);
    }
  }

  lemma ReadsItsLine(text: seq<byte>, rest: seq<byte>)
    requires NoCrlf(text) && |text| <= LINE_LIMIT
    ensures ReadLine(text + CRLF + rest) == Line(text, rest)
  {
    CrlfEndsLine(text, rest);
  }

  lemma LineIsPrefix(s: seq<byte>)
    requires ReadLine(s).Line?
    ensures s == ReadLine(s).text + CRLF + ReadLine(s).rest
    ensures NoCrlf(ReadLine(s).text) && |ReadLine(s).text| <= LINE_LIMIT
  {
  }

  // ---- the size field ----

  predicate IsSpace(b: byte) { 9 <= b <= 13 || b == 32 }

  predicate IsHex(b: byte) { 48 <= b <= 57 || 65 <= b <= 70 || 97 <= b <= 102 }

  function HexDigit(b: byte): (d: nat)
    requires IsHex(b)
    ensures d < 16
  {
    if b <= 57 then b as int - 48 else if b <= 70 then b as int - 55 else b as int - 87
  }

  function StripLeft(s: seq<byte>): seq<byte> {
    if s != [] && IsSpace(s[0]) then StripLeft(s[1..]) else s
  }

  function StripRight(s: seq<byte>): seq<byte> {
    if s != [] && IsSpace(s[|s| - 1]) then StripRight(s[..|s| - 1]) else s
  }

  function Strip(s: seq<byte>): seq<byte> { StripRight(StripLeft(s)) }

  /** What precedes the first semicolon. */
  function BeforeSemicolon(s: seq<byte>): seq<byte> {
    if s == [] || s[0] == SEMICOLON then [] else [s[0]] + BeforeSemicolon(s[1..])
  }

  /** Hexadecimal digits with single underscores between them. */
  predicate IsNumeral(s: seq<byte>) {
    && s != [] && s[0] != UNDERSCORE && s[|s| - 1] != UNDERSCORE
    && (forall i :: 0 <= i < |s| ==> IsHex(s[i]) || s[i] == UNDERSCORE)
    && (forall i :: 0 <= i < |s| - 1 ==> s[i] != UNDERSCORE || s[i + 1] != UNDERSCORE)
  }

  function Value(s: seq<byte>): nat
    requires forall i :: 0 <= i < |s| ==> IsHex(s[i]) || s[i] == UNDERSCORE
  {
    if s == [] then 0
    else if s[|s| - 1] == UNDERSCORE then Value(s[..|s| - 1])
    else Value(s[..|s| - 1]) * 16 + HexDigit(s[|s| - 1])
  }

  /** The sixteen digits, in either case. */
  const LOWER: seq<byte> := [48, 49, 50, 51, 52, 53, 54, 55, 56, 57, 97, 98, 99, 100, 101, 102]
  const UPPER: seq<byte> := [48, 49, 50, 51, 52, 53, 54, 55, 56, 57, 65, 66, 67, 68, 69, 70]

  /** The number as a sender writes it. */
  function ToHex(n: nat): seq<byte> {
    if n < 16 then [LOWER[n]] else ToHex(n / 16) + [LOWER[n % 16]]
  }

  /** `digits` write the number `n`, after any zeros and with either case at every place. */
  ghost predicate Writes(digits: seq<byte>, n: nat) {
    && digits != []
    && (digits[|digits| - 1] == LOWER[n % 16] || digits[|digits| - 1] == UPPER[n % 16])
    && (if |digits| == 1 then n < 16 else Writes(digits[..|digits| - 1], n / 16))
  }

  lemma {:induction false} ToHexWrites(n: nat)
    ensures Writes(ToHex(n), n)
  {
    if n >= 16 {
      ToHexWrites(n / 16);
      assert ToHex(n)[..|ToHex(n)| - 1] == ToHex(n / 16);
    }
  }

  lemma DigitInTable(b: byte, d: nat)
    requires d < 16
    ensures b == LOWER[d] || b == UPPER[d] <==> IsHex(b) && HexDigit(b) == d
  {
  }

  lemma ValueStep(digits: seq<byte>)
    requires digits != [] && AllHex(digits)
    ensures var front, last := digits[..|digits| - 1], digits[|digits| - 1];
            AllHex(front) && IsHex(last) && Value(digits) == Value(front) * 16 + HexDigit(last)
  {
  }

  lemma SameQuotient(m: nat, d: nat, n: nat)
    requires d < 16
    ensures m * 16 + d == n <==> m == n / 16 && d == n % 16
  {
  }

  lemma HexSnoc(front: seq<byte>, last: byte)
    ensures AllHex(front + [last]) <==> AllHex(front) && IsHex(last)
  {
    if AllHex(front + [last]) {
      assert (front + [last])[|front|] == last;
      assert forall i | 0 <= i < |front| :: (front + [last])[i] == front[i];
    }
  }

  /** What is written is what is read: digits have the value `n` exactly when they write it. */
  lemma {:induction false} WritesItsValue(digits: seq<byte>, n: nat)
    ensures Writes(digits, n) <==> digits != [] && AllHex(digits) && Value(digits) == n
  {
    hide Value, HexDigit, LOWER, UPPER, AllHex;
    if digits != [] {
      var front, last := digits[..|digits| - 1], digits[|digits| - 1];
      DigitInTable(last, n % 16);
      if |digits| > 1 {
        WritesItsValue(front, n / 16);
      } else {
        NoDigits(front);
      }
      SplitLast(digits);
      HexSnoc(front, last);
      if AllHex(digits) {
        ValueStep(digits);
        SameQuotient(Value(front), HexDigit(last), n);
      }
    }
  }

  lemma NoDigits(s: seq<byte>)
    ensures s == [] ==> AllHex(s) && Value(s) == 0
  {
  }

  function WithoutPrefix(s: seq<byte>): seq<byte> {
    if |s| < 2 || s[0] != 48 || (s[1] != 120 && s[1] != 88) then s
    else if |s| > 2 && s[2] == UNDERSCORE then s[3..]
    else s[2..]
  }

  /** The language's base-16 integer conversion: spaces around, a sign, a 0x prefix and
      underscores are all allowed. */
  function ParseInt(field: seq<byte>): Option<int> {
    var s := Strip(field);
    var negative := s != [] && s[0] == 45;
    var signed := s != [] && (s[0] == 45 || s[0] == 43);
    var digits := WithoutPrefix(if signed then s[1..] else s);
    if !IsNumeral(digits) then None
    else
      var magnitude: int := Value(digits);
      Some(if negative then -magnitude else magnitude)
  }

  function ParseSize(line: seq<byte>): Option<int> { ParseInt(BeforeSemicolon(Strip(line))) }

  // ---- the decoder ----

  /** Trailer lines are discarded up to the first empty one. */
  function SkipTrailers(s: seq<byte>): (r: Line)
    ensures r.Line? ==> |r.rest| < |s|
    decreases |s|
  {
    var r := ReadLine(s);
    if r.NoLine? || r.text == [] then r else SkipTrailers(r.rest)
  }

  function Prepend(data: seq<byte>, o: Outcome): Outcome {
    if o.Body? then Body(data + o.body, o.rest) else o
  }

  lemma PrependTwice(a: seq<byte>, b: seq<byte>, o: Outcome)
    ensures Prepend(a, Prepend(b, o)) == Prepend(a + b, o)
  {
    if o.Body? {
      ConcatAssoc(a, b, o.body);
    }
  }

  /** The body of what is left of `s` when `total` bytes of body were already taken. */
  function Decode(s: seq<byte>, total: nat, cap: nat): Outcome
    decreases |s|
  {
    var r := ReadLine(s);
    if r.NoLine? then Rejected(r.why)
    else
      var size := ParseSize(r.text);
      if size.None? then Rejected(BadSize)
      else if size.value == 0 then
        var end := SkipTrailers(r.rest);
        if end.NoLine? then Rejected(end.why) else Body([], end.rest)
      else if total + size.value > cap then Rejected(TooLarge)
      else if size.value < 0 then Rejected(BadSize)
      else if |r.rest| < size.value + 2 then Rejected(Truncated)
      else Prepend(r.rest[..size.value], Decode(r.rest[size.value + 2..], total + size.value, cap))
  }

  // ---- one frame at a time ----

  lemma DecodeStep(s: seq<byte>, text: seq<byte>, rest: seq<byte>, size: nat, total: nat, cap: nat)
    requires ReadLine(s) == Line(text, rest) && ParseSize(text) == Some(size)
    requires 0 < size && size + 2 <= |rest|
    ensures Decode(s, total, cap) ==
            if total + size > cap then Rejected(TooLarge)
            else Prepend(rest[..size], Decode(rest[size + 2..], total + size, cap))
  {
    hide ParseSize, ReadLine;
  }

  function Frame(text: seq<byte>, data: seq<byte>, tail: seq<byte>): seq<byte> {
    text + CRLF + (data + tail)
  }

  lemma FrameSlices(data: seq<byte>, end: seq<byte>, tail: seq<byte>)
    requires |end| == 2
    ensures var rest := data + (end + tail);
      |rest| >= |data| + 2 && rest[..|data|] == data && rest[|data| + 2..] == tail
  {
  }

  /** One chunk is taken whole, whatever the two bytes after it are. */
  lemma DecodeFrame(text: seq<byte>, data: seq<byte>, end: seq<byte>, tail: seq<byte>, total: nat, cap: nat)
    requires NoCrlf(text) && |text| <= LINE_LIMIT && |end| == 2
    requires data != [] && ParseSize(text) == Some(|data|)
    ensures Decode(Frame(text, data, end + tail), total, cap) ==
            if total + |data| > cap then Rejected(TooLarge)
            else Prepend(data, Decode(tail, total + |data|, cap))
  {
    hide ParseSize, ReadLine, Decode;
    var rest := data + (end + tail);
    ReadsItsLine(text, rest);
    FrameSlices(data, end, tail);
    DecodeStep(text + CRLF + rest, text, rest, |data|, total, cap);
  }

  lemma DecodeLast(text: seq<byte>, rest: seq<byte>, total: nat, cap: nat)
    requires NoCrlf(text) && |text| <= LINE_LIMIT && ParseSize(text) == Some(0)
    ensures Decode(text + CRLF + rest, total, cap) ==
            var end := SkipTrailers(rest);
            if end.NoLine? then Rejected(end.why) else Body([], end.rest)
  {
    ReadsItsLine(text, rest);
  }

  lemma SkipOne(text: seq<byte>, rest: seq<byte>)
    requires NoCrlf(text) && |text| <= LINE_LIMIT
    ensures SkipTrailers(text + CRLF + rest) == if text == [] then Line([], rest) else SkipTrailers(rest)
  {
    ReadsItsLine(text, rest);
  }

  /** The bytes an accepted body used up, and nothing after them, decide the outcome. */
  lemma {:induction false} TrailersIgnoreTheNext(s: seq<byte>, next: seq<byte>) returns (used: seq<byte>)
    requires SkipTrailers(s).Line?
    ensures s == used + SkipTrailers(s).rest
    ensures SkipTrailers(used + next) == Line([], next)
    decreases |s|
  {
    LineIsPrefix(s);
    var r := ReadLine(s);
    used := r.text + CRLF;
    if r.text == [] {
      SkipOne([], next);
    } else {
      var more := TrailersIgnoreTheNext(r.rest, next);
      SkipOne(r.text, more + next);
      ConcatAssoc(used, more, SkipTrailers(s).rest);
      ConcatAssoc(used, more, next);
      used := used + more;
    }
  }

  lemma FramedInput(s: seq<byte>, size: nat)
    requires ReadLine(s).Line? && size + 2 <= |ReadLine(s).rest|
    ensures var r := ReadLine(s);
      s == Frame(r.text, r.rest[..size], r.rest[size..size + 2] + r.rest[size + 2..])
  {
    LineIsPrefix(s);
    var rest := ReadLine(s).rest;
    assert rest == rest[..size] + (rest[size..size + 2] + rest[size + 2..]);
  }

  lemma FrameAssoc(text: seq<byte>, data: seq<byte>, end: seq<byte>, a: seq<byte>, b: seq<byte>)
    ensures Frame(text, data, end + (a + b)) == Frame(text, data, end + a) + b
  {
    ConcatAssoc(end, a, b);
    ConcatAssoc(data, end + a, b);
    ConcatAssoc(text + CRLF, data + (end + a), b);
  }

  /** Whatever input the decoder accepts, in this form or any looser one: the body fits
      the cap, and had any other bytes followed the encoding, the same body would have
      been read and exactly those bytes left over. */
  lemma {:induction false} NextRequestUntouched(s: seq<byte>, total: nat, cap: nat, next: seq<byte>)
    returns (used: seq<byte>)
    requires total <= cap
    ensures var o := Decode(s, total, cap);
      o.Body? ==>
        && total + |o.body| <= cap
        && s == used + o.rest
        && Decode(used + next, total, cap) == Body(o.body, next)
    decreases |s|
  {
    hide ParseSize, ReadLine, SkipTrailers;
    used := [];
    if !Decode(s, total, cap).Body? { return; }
    LineIsPrefix(s);
    var r := ReadLine(s);
    var size := ParseSize(r.text).value;
    if size == 0 {
      var more := TrailersIgnoreTheNext(r.rest, next);
      used := r.text + CRLF + more;
      DecodeLast(r.text, more + next, total, cap);
      ConcatAssoc(r.text + CRLF, more, next);
      ConcatAssoc(r.text + CRLF, more, SkipTrailers(r.rest).rest);
    } else {
      var data, end, tail := r.rest[..size], r.rest[size..size + 2], r.rest[size + 2..];
      FramedInput(s, size);
      DecodeFrame(r.text, data, end, tail, total, cap);
      var more := NextRequestUntouched(tail, total + size, cap, next);
      used := Frame(r.text, data, end + more);
      FrameAssoc(r.text, data, end, more, next);
      FrameAssoc(r.text, data, end, more, Decode(s, total, cap).rest);
      DecodeFrame(r.text, data, end, more + next, total, cap);
    }
  }

  // ---- the encoder ----------------

  /** One chunk as a sender may write it: any hexadecimal spelling of its length, blanks
      before an extension, and the extension. */
  datatype Chunk = Chunk(digits: seq<byte>, blanks: seq<byte>, extension: seq<byte>, data: seq<byte>)

  ghost predicate AllHex(s: seq<byte>) { forall i :: 0 <= i < |s| ==> IsHex(s[i]) }

  ghost predicate AllBlank(s: seq<byte>) { forall i :: 0 <= i < |s| ==> s[i] == 32 || s[i] == 9 }

  function SizeLine(c: Chunk): seq<byte> { c.digits + c.blanks + c.extension }

  /** Digits, blanks, and anything after a semicolon: looser than the grammar of chunk
      extensions. */
  ghost predicate Spelled(c: Chunk) {
    && c.digits != [] && AllHex(c.digits) && AllBlank(c.blanks)
    && (c.extension == [] || c.extension[0] == SEMICOLON)
  }

  ghost predicate WellSized(c: Chunk) {
    && Spelled(c)
    && NoCrlf(SizeLine(c)) && |SizeLine(c)| <= LINE_LIMIT
    && Writes(c.digits, |c.data|)
  }

  ghost predicate WellFormed(chunks: seq<Chunk>) {
    forall i :: 0 <= i < |chunks| ==> WellSized(chunks[i]) && chunks[i].data != []
  }

  ghost predicate TrailersOk(trailers: seq<seq<byte>>) {
    forall i :: 0 <= i < |trailers| ==> trailers[i] != [] && NoCrlf(trailers[i]) && |trailers[i]| <= LINE_LIMIT
  }

  function EncodeTrailers(trailers: seq<seq<byte>>, next: seq<byte>): seq<byte> {
    if trailers == [] then [] + CRLF + next
    else trailers[0] + CRLF + EncodeTrailers(trailers[1..], next)
  }

  /** The encoding of a body cut into `chunks`, with whatever follows it on the stream. */
  function Encode(chunks: seq<Chunk>, last: Chunk, trailers: seq<seq<byte>>, next: seq<byte>): seq<byte> {
    if chunks == [] then SizeLine(last) + CRLF + EncodeTrailers(trailers, next)
    else Frame(SizeLine(chunks[0]), chunks[0].data, CRLF + Encode(chunks[1..], last, trailers, next))
  }

  function BodyOf(chunks: seq<Chunk>): seq<byte> {
    if chunks == [] then [] else chunks[0].data + BodyOf(chunks[1..])
  }

  lemma {:induction false} StripRightKeeps(s: seq<byte>, n: nat)
    requires 0 < n <= |s| && !IsSpace(s[n - 1])
    requires forall i :: n <= i < |s| ==> IsSpace(s[i])
    ensures StripRight(s) == s[..n]
    decreases |s|
  {
    if n < |s| {
      StripRightKeeps(s[..|s| - 1], n);
      assert s[..|s| - 1][..n] == s[..n];
    } else {
      assert s[..n] == s;
    }
  }

  /** Stripping the right end never eats into a part that ends in a non-space. */
  lemma {:induction false} StripRightPrefix(s: seq<byte>, n: nat)
    requires 0 < n <= |s| && !IsSpace(s[n - 1])
    ensures n <= |StripRight(s)| <= |s| && StripRight(s) == s[..|StripRight(s)|]
    decreases |s|
  {
    if IsSpace(s[|s| - 1]) {
      StripRightPrefix(s[..|s| - 1], n);
      var k := |StripRight(s)|;
      assert s[..|s| - 1][..k] == s[..k];
    } else {
      assert s[..|s|] == s;
    }
  }

  lemma {:induction false} BeforeSemicolonIs(head: seq<byte>, tail: seq<byte>)
    requires forall i :: 0 <= i < |head| ==> head[i] != SEMICOLON
    requires tail == [] || tail[0] == SEMICOLON
    ensures BeforeSemicolon(head + tail) == head
  {
    var s := head + tail;
    if head == [] {
      assert s == tail;
    } else {
      assert s[1..] == head[1..] + tail;
      BeforeSemicolonIs(head[1..], tail);
      assert head == [head[0]] + head[1..];
    }
  }

  lemma StripsBlanks(digits: seq<byte>, blanks: seq<byte>)
    requires digits != [] && AllHex(digits) && AllBlank(blanks)
    ensures Strip(digits + blanks) == digits
  {
    var s := digits + blanks;
    assert s[0] == digits[0] && IsHex(digits[0]);
    assert StripLeft(s) == s;
    assert s[|digits| - 1] == digits[|digits| - 1] && IsHex(digits[|digits| - 1]);
    StripRightKeeps(s, |digits|);
    assert s[..|digits|] == digits;
  }

  /** Digits followed by blanks parse to the number they write. */
  lemma ParsesDigits(digits: seq<byte>, n: nat, blanks: seq<byte>)
    requires Writes(digits, n) && AllBlank(blanks)
    ensures ParseInt(digits + blanks) == Some(n)
  {
    hide Writes, Value, IsNumeral, WithoutPrefix, Strip;
    WritesItsValue(digits, n);
    StripsBlanks(digits, blanks);
    DigitsAreNumeral(digits);
    assert IsHex(digits[0]);
  }

  lemma NothingToStrip(s: seq<byte>)
    requires s != [] && !IsSpace(s[0]) && !IsSpace(s[|s| - 1])
    ensures Strip(s) == s
  {
  }

  lemma DigitsAreNumeral(digits: seq<byte>)
    requires digits != [] && AllHex(digits)
    ensures IsNumeral(digits) && WithoutPrefix(digits) == digits
  {
    assert IsHex(digits[0]) && IsHex(digits[|digits| - 1]);
    assert |digits| >= 2 ==> IsHex(digits[1]);
  }

  /** Sizes the grammar of section 7.1 rules out are read too: a sign, which may even be a
      minus, and a 0x prefix. */
  lemma LooseSpellings(digits: seq<byte>, n: nat)
    requires Writes(digits, n)
    ensures ParseInt([43] + digits) == Some(n)
    ensures ParseInt([45] + digits) == Some(-(n as int))
    ensures ParseInt([48, 120] + digits) == Some(n)
  {
    WritesItsValue(digits, n);
    hide Strip, IsNumeral, Value;
    DigitsAreNumeral(digits);
    assert IsHex(digits[|digits| - 1]);
    var plus, minus, prefixed := [43] + digits, [45] + digits, [48, 120] + digits;
    NothingToStrip(plus);
    NothingToStrip(minus);
    NothingToStrip(prefixed);
    assert plus[1..] == digits && minus[1..] == digits && prefixed[2..] == digits;
    assert IsHex(digits[0]);
  }

  /** A size that cannot be read, or is below zero, refuses the body. */
  lemma BadSizeRefused(text: seq<byte>, rest: seq<byte>, total: nat, cap: nat)
    requires NoCrlf(text) && |text| <= LINE_LIMIT && total <= cap
    requires ParseSize(text).None? || ParseSize(text).value < 0
    ensures Decode(text + CRLF + rest, total, cap) == Rejected(BadSize)
  {
    hide ParseSize, ReadLine, SkipTrailers;
    ReadsItsLine(text, rest);
  }

  lemma StripOfSizeLine(c: Chunk) returns (tail: seq<byte>, blanks: seq<byte>)
    requires Spelled(c)
    ensures AllBlank(blanks) && (tail == [] || tail[0] == SEMICOLON)
    ensures Strip(SizeLine(c)) == c.digits + blanks + tail
  {
    var line, n := SizeLine(c), |c.digits|;
    assert line[0] == c.digits[0] && IsHex(c.digits[0]);
    assert StripLeft(line) == line;
    if c.extension == [] {
      assert line == c.digits + c.blanks;
      assert line[n - 1] == c.digits[n - 1];
      StripRightKeeps(line, n);
      tail, blanks := [], [];
      assert line[..n] == c.digits + blanks + tail;
    } else {
      var m := n + |c.blanks|;
      assert line[m] == SEMICOLON;
      StripRightPrefix(line, m + 1);
      var k := |StripRight(line)|;
      tail, blanks := c.extension[..k - m], c.blanks;
      assert line[..k] == c.digits + blanks + tail;
    }
  }

  /** The size field of a chunk reads as the number its digits write. */
  lemma SizeLineParses(c: Chunk, n: nat)
    requires Spelled(c) && Writes(c.digits, n)
    ensures ParseSize(SizeLine(c)) == Some(n)
  {
    hide Strip, ParseInt, BeforeSemicolon;
    var tail, blanks := StripOfSizeLine(c);
    var head := c.digits + blanks;
    BeforeSemicolonIs(head, tail);
    ParsesDigits(c.digits, n, blanks);
  }

  lemma {:induction false} SkipsEncodedTrailers(trailers: seq<seq<byte>>, next: seq<byte>)
    requires TrailersOk(trailers)
    ensures SkipTrailers(EncodeTrailers(trailers, next)) == Line([], next)
  {
    if trailers == [] {
      SkipOne([], next);
    } else {
      SkipsEncodedTrailers(trailers[1..], next);
      SkipOne(trailers[0], EncodeTrailers(trailers[1..], next));
    }
  }

  /** Decoding undoes encoding for every way of cutting a body into chunks, and leaves
      the stream at the first byte after it; a body over the cap is refused. */
  lemma {:induction false} RoundTrip(chunks: seq<Chunk>, last: Chunk, trailers: seq<seq<byte>>,
                                     next: seq<byte>, total: nat, cap: nat)
    requires WellFormed(chunks) && WellSized(last) && last.data == [] && TrailersOk(trailers)
    requires total <= cap
    ensures Decode(Encode(chunks, last, trailers, next), total, cap) ==
            if total + |BodyOf(chunks)| <= cap then Body(BodyOf(chunks), next) else Rejected(TooLarge)
  {
    hide ParseSize, ReadLine, SkipTrailers, Decode;
    if chunks == [] {
      SizeLineParses(last, 0);
      SkipsEncodedTrailers(trailers, next);
      DecodeLast(SizeLine(last), EncodeTrailers(trailers, next), total, cap);
    } else {
      var c := chunks[0];
      SizeLineParses(c, |c.data|);
      var tail := Encode(chunks[1..], last, trailers, next);
      DecodeFrame(SizeLine(c), c.data, CRLF, tail, total, cap);
      if total + |c.data| <= cap {
        RoundTrip(chunks[1..], last, trailers, next, total + |c.data|, cap);
      }
    }
  }

  /** A piece of a body as a sender chunks it: what it writes after the size, and the data. */
  datatype Piece = Piece(zeros: nat, blanks: seq<byte>, extension: seq<byte>, data: seq<byte>)

  function Zeros(n: nat): (s: seq<byte>)
    ensures |s| == n
  {
    seq(n, _ => 48)
  }

  /** The chunk of a piece, its size written in hexadecimal from the length of the data. */
  function AsChunk(p: Piece): Chunk {
    Chunk(Zeros(p.zeros) + ToHex(|p.data|), p.blanks, p.extension, p.data)
  }

  ghost predicate Sendable(p: Piece) {
    && AllBlank(p.blanks) && (p.extension == [] || p.extension[0] == SEMICOLON) && NoCrlf(p.extension)
    && |SizeLine(AsChunk(p))| <= LINE_LIMIT
  }

  lemma {:induction false} ZerosWriteNothing(zeros: nat, digits: seq<byte>, n: nat)
    requires Writes(digits, n)
    ensures Writes(Zeros(zeros) + digits, n)
    decreases |digits|
  {
    var all := Zeros(zeros) + digits;
    var front := digits[..|digits| - 1];
    if |digits| > 1 {
      ZerosWriteNothing(zeros, front, n / 16);
      assert all[..|all| - 1] == Zeros(zeros) + front;
    } else if zeros > 0 {
      ZerosWriteZero(zeros);
      assert all[..|all| - 1] == Zeros(zeros);
    }
  }

  lemma {:induction false} ZerosWriteZero(zeros: nat)
    requires zeros > 0
    ensures Writes(Zeros(zeros), 0)
  {
    if zeros > 1 {
      ZerosWriteZero(zeros - 1);
      assert Zeros(zeros)[..zeros - 1] == Zeros(zeros - 1);
    }
  }

  lemma PieceIsWellSized(p: Piece)
    requires Sendable(p)
    ensures WellSized(AsChunk(p))
  {
    var c := AsChunk(p);
    ToHexWrites(|p.data|);
    ZerosWriteNothing(p.zeros, ToHex(|p.data|), |p.data|);
    WritesItsValue(c.digits, |p.data|);
    forall i | 0 <= i < |SizeLine(c)| - 1 ensures !(SizeLine(c)[i] == CR && SizeLine(c)[i + 1] == LF) {
      var n := |c.digits| + |c.blanks|;
      if i < |c.digits| { assert IsHex(c.digits[i]); }
      else if i < n { assert SizeLine(c)[i] == c.blanks[i - |c.digits|]; }
      else { assert SizeLine(c)[i] == c.extension[i - n] && SizeLine(c)[i + 1] == c.extension[i + 1 - n]; }
    }
  }

  function AsChunks(pieces: seq<Piece>): (chunks: seq<Chunk>)
    ensures |chunks| == |pieces|
  {
    seq(|pieces|, i requires 0 <= i < |pieces| => AsChunk(pieces[i]))
  }

  /** Whatever a sender that writes its sizes in hexadecimal sends is read back. */
  lemma SentIsRead(pieces: seq<Piece>, last: Piece, trailers: seq<seq<byte>>, next: seq<byte>, cap: nat)
    requires forall i | 0 <= i < |pieces| :: Sendable(pieces[i]) && pieces[i].data != []
    requires Sendable(last) && last.data == [] && TrailersOk(trailers)
    ensures var body := BodyOf(AsChunks(pieces));
            Decode(Encode(AsChunks(pieces), AsChunk(last), trailers, next), 0, cap) ==
            if |body| <= cap then Body(body, next) else Rejected(TooLarge)
  {
    hide WellSized, Sendable, Encode, Decode, BodyOf;
    forall i | 0 <= i < |pieces| ensures WellSized(AsChunks(pieces)[i]) && AsChunks(pieces)[i].data != [] {
      PieceIsWellSized(pieces[i]);
    }
    PieceIsWellSized(last);
    RoundTrip(AsChunks(pieces), AsChunk(last), trailers, next, 0, cap);
  }

  /** The two bytes after a chunk are never looked at, so input that is not chunked
      coding at all can be accepted. */
  lemma DelimiterUnchecked(c: Chunk, end: seq<byte>, tail: seq<byte>, total: nat, cap: nat)
    requires WellSized(c) && c.data != [] && |end| == 2
    ensures Decode(Frame(SizeLine(c), c.data, end + tail), total, cap) ==
            Decode(Frame(SizeLine(c), c.data, CRLF + tail), total, cap)
  {
    hide Decode, ParseSize;
    SizeLineParses(c, |c.data|);
    DecodeFrame(SizeLine(c), c.data, end, tail, total, cap);
    DecodeFrame(SizeLine(c), c.data, CRLF, tail, total, cap);
  }

  // ---- the collecting loop ----

  /** A connection's reader: the bytes not yet consumed. */
  class StreamReader {
    var pending: seq<byte>

    constructor (bytes: seq<byte>)
      ensures pending == bytes
    {
      pending := bytes;
    }

    /** A line over the limit is left where it is; a stream that ends first is used up. */
    method ReadUntilCrlf() returns (r: Line)
      modifies this
      ensures r == ReadLine(old(pending))
      ensures pending == match r
                         case Line(_, rest) => rest
                         case NoLine(why) => if why.LineTooLong? then old(pending) else []
    {
      r := ReadLine(pending);
      if r.Line? {
        pending := r.rest;
      } else if !r.why.LineTooLong? {
        pending := [];
      }
    }

    method ReadExactly(n: nat) returns (data: Option<seq<byte>>)
      modifies this
      ensures data.Some? <==> n <= |old(pending)|
      ensures data.Some? ==> old(pending) == data.value + pending && |data.value| == n
      ensures data.None? ==> pending == []
    {
      if n > |pending| {
        pending := [];
        return None;
      }
      data := Some(pending[..n]);
      pending := pending[n..];
    }

    method DrainTrailers() returns (end: Line)
      modifies this
      ensures end == SkipTrailers(old(pending))
      ensures end.Line? ==> pending == end.rest
    {
      end := ReadUntilCrlf();
      while end.Line? && end.text != []
        invariant end.Line? ==> pending == end.rest
        invariant SkipTrailers(old(pending)) ==
                  if end.Line? && end.text != [] then SkipTrailers(pending) else end
        decreases if end.Line? then |pending| + 1 else 0
      {
        end := ReadUntilCrlf();
      }
    }

    /** Reads chunk after chunk until the last one, and joins what was collected. */
    method ReadChunked(cap: nat) returns (o: Outcome)
      modifies this
      ensures o == Decode(old(pending), 0, cap)
      ensures o.Body? ==> pending == o.rest
    {
      hide ReadLine, ParseSize, SkipTrailers;
      var body: seq<byte>, total: nat := [], 0;
      while true
        invariant total <= cap
        invariant Decode(old(pending), 0, cap) == Prepend(body, Decode(pending, total, cap))
        decreases |pending|
      {
        ghost var before := pending;
        var line := ReadUntilCrlf();
        if line.NoLine? { return Rejected(line.why); }
        var size := ParseSize(line.text);
        if size.None? { return Rejected(BadSize); }
        if size.value == 0 {
          var end := DrainTrailers();
          return if end.NoLine? then Rejected(end.why) else Body(body, end.rest);
        }
        if total + size.value > cap { return Rejected(TooLarge); }
        if size.value < 0 { return Rejected(BadSize); }
        var data := ReadExactly(size.value);
        if data.None? { return Rejected(Truncated); }
        var delimiter := ReadExactly(2);
        if delimiter.None? { return Rejected(Truncated); }
        assert line.rest[..size.value] == data.value;
        assert line.rest[size.value + 2..] == pending;
        DecodeStep(before, line.text, line.rest, size.value, total, cap);
        PrependTwice(body, data.value, Decode(pending, total + size.value, cap));
        body, total := body + data.value, total + size.value;
      }
    }
  }
}
