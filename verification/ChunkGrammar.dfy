/**
 * Which of the input that the collecting loop accepts (lb/loadbalancer.py:1168-1185) is
 * chunked coding: first with extensions and trailers of any content, then by the grammar
 * of section 7.1 of RFC 9112 in full.
 */
module ChunkGrammar {
  import opened Common
  import opened FeedBytes
  import opened Chunked

  // ---- exactly which accepted input is an encoding ---------------------------

  /** The field before the first semicolon is hexadecimal digits with blanks after them. */
  ghost predicate PlainSize(line: seq<byte>) {
    exists n :: 0 < n <= |BeforeSemicolon(line)| && PlainUpTo(BeforeSemicolon(line), n)
  }

  ghost predicate PlainUpTo(field: seq<byte>, n: nat)
    requires n <= |field|
  {
    AllHex(field[..n]) && AllBlank(field[n..])
  }

  /** Every size field read on the way is plain and every delimiter is CRLF. */
  ghost predicate Strict(s: seq<byte>)
    decreases |s|
  {
    var r := ReadLine(s);
    && r.Line? && PlainSize(r.text) && ParseSize(r.text).Some?
    && var size := ParseSize(r.text).value;
       size == 0
       || (size > 0 && size + 2 <= |r.rest| && r.rest[size..size + 2] == CRLF && Strict(r.rest[size + 2..]))
  }

  ghost predicate IsEncoding(s: seq<byte>, chunks: seq<Chunk>, last: Chunk, trailers: seq<seq<byte>>, next: seq<byte>) {
    && WellFormed(chunks) && WellSized(last) && last.data == [] && TrailersOk(trailers)
    && s == Encode(chunks, last, trailers, next)
  }

  lemma {:induction false} SemicolonSplits(line: seq<byte>)
    ensures var field := BeforeSemicolon(line);
      && |field| <= |line| && line[..|field|] == field
      && (|field| == |line| || line[|field|] == SEMICOLON) && SEMICOLON !in field
  {
    if line != [] && line[0] != SEMICOLON {
      SemicolonSplits(line[1..]);
      assert line == [line[0]] + line[1..];
    }
  }

  /** A plain line within the limit is the size line of a chunk, whatever data it names. */
  lemma PlainIsSpelled(line: seq<byte>, data: seq<byte>) returns (c: Chunk)
    requires PlainSize(line)
    ensures Spelled(c) && SizeLine(c) == line && c.data == data
    ensures ParseSize(line).Some? && ParseSize(line).value >= 0 && Writes(c.digits, ParseSize(line).value)
  {
    var field := BeforeSemicolon(line);
    SemicolonSplits(line);
    var n :| 0 < n <= |field| && PlainUpTo(field, n);
    c := Chunk(field[..n], field[n..], line[|field|..], data);
    assert SizeLine(c) == line;
    WritesItsValue(c.digits, Value(c.digits));
    SizeLineParses(c, Value(c.digits));
  }

  lemma SizeLineIsPlain(c: Chunk)
    requires Spelled(c)
    ensures PlainSize(SizeLine(c))
  {
    var field := c.digits + c.blanks;
    forall i | 0 <= i < |field| ensures field[i] != SEMICOLON {
      if i < |c.digits| { assert IsHex(c.digits[i]); } else { assert field[i] == c.blanks[i - |c.digits|]; }
    }
    BeforeSemicolonIs(field, c.extension);
    assert field[..|c.digits|] == c.digits && field[|c.digits|..] == c.blanks;
    assert PlainUpTo(BeforeSemicolon(SizeLine(c)), |c.digits|);
  }

  lemma {:induction false} TrailersRead(s: seq<byte>) returns (trailers: seq<seq<byte>>)
    requires SkipTrailers(s).Line?
    ensures TrailersOk(trailers) && s == EncodeTrailers(trailers, SkipTrailers(s).rest)
    decreases |s|
  {
    LineIsPrefix(s);
    var r := ReadLine(s);
    if r.text == [] {
      trailers := [];
    } else {
      var more := TrailersRead(r.rest);
      trailers := [r.text] + more;
      assert trailers[1..] == more;
    }
  }

  lemma EncodePush(c: Chunk, more: seq<Chunk>, last: Chunk, trailers: seq<seq<byte>>, next: seq<byte>)
    ensures Encode([c] + more, last, trailers, next) == Frame(SizeLine(c), c.data, CRLF + Encode(more, last, trailers, next))
  {
    assert ([c] + more)[1..] == more;
  }

  lemma WellFormedPush(c: Chunk, more: seq<Chunk>)
    requires WellSized(c) && c.data != [] && WellFormed(more)
    ensures WellFormed([c] + more)
  {
  }

  /** Strict input that is accepted is an encoding of what was read. */
  lemma {:induction false} StrictIsEncoding(s: seq<byte>, total: nat, cap: nat)
    returns (chunks: seq<Chunk>, last: Chunk, trailers: seq<seq<byte>>)
    requires Strict(s) && Decode(s, total, cap).Body?
    ensures IsEncoding(s, chunks, last, trailers, Decode(s, total, cap).rest)
    ensures BodyOf(chunks) == Decode(s, total, cap).body
    decreases |s|
  {
    hide ParseSize, ReadLine, SkipTrailers, Value, PlainSize, Encode, WellFormed, Spelled, NoCrlf;
    LineIsPrefix(s);
    var r := ReadLine(s);
    var size := ParseSize(r.text).value;
    if size == 0 {
      last := PlainIsSpelled(r.text, []);
      trailers := TrailersRead(r.rest);
      chunks := [];
      EncodeNothing(last, trailers, Decode(s, total, cap).rest);
    } else {
      var data, tail := r.rest[..size], r.rest[size + 2..];
      var c := PlainIsSpelled(r.text, data);
      FramedInput(s, size);
      DecodeStep(s, r.text, r.rest, size, total, cap);
      var more;
      more, last, trailers := StrictIsEncoding(tail, total + size, cap);
      chunks := [c] + more;
      EncodePush(c, more, last, trailers, Decode(s, total, cap).rest);
      WellFormedPush(c, more);
      assert chunks[1..] == more;
    }
  }

  lemma EncodeNothing(last: Chunk, trailers: seq<seq<byte>>, next: seq<byte>)
    ensures Encode([], last, trailers, next) == SizeLine(last) + CRLF + EncodeTrailers(trailers, next)
    ensures WellFormed([])
  {
  }

  lemma {:induction false} EncodingIsStrict(s: seq<byte>, chunks: seq<Chunk>, last: Chunk,
                                            trailers: seq<seq<byte>>, next: seq<byte>)
    requires IsEncoding(s, chunks, last, trailers, next)
    ensures Strict(s)
    decreases |chunks|
  {
    hide ParseSize, ReadLine, Value, PlainSize, NoCrlf, Spelled, EncodeTrailers;
    if chunks == [] {
      ReadsItsLine(SizeLine(last), EncodeTrailers(trailers, next));
      SizeLineParses(last, 0);
      SizeLineIsPlain(last);
    } else {
      var c := chunks[0];
      var tail := Encode(chunks[1..], last, trailers, next);
      EncodingIsStrict(tail, chunks[1..], last, trailers, next);
      ReadsItsLine(SizeLine(c), c.data + (CRLF + tail));
      SizeLineParses(c, |c.data|);
      SizeLineIsPlain(c);
      FrameSlices(c.data, CRLF, tail);
      assert (c.data + (CRLF + tail))[|c.data|..|c.data| + 2] == CRLF;
    }
  }

  /** What is accepted is chunks with extensions and trailers of any content if and only if
      every size field read was plain digits with blanks after them and every delimiter was
      CRLF. */
  lemma EncodingExactly(s: seq<byte>, total: nat, cap: nat)
    ensures Decode(s, total, cap).Body? ==>
              ((exists chunks, last, trailers :: IsEncoding(s, chunks, last, trailers, Decode(s, total, cap).rest))
               <==> Strict(s))
  {
    hide Decode, Strict, IsEncoding;
    if !Decode(s, total, cap).Body? { return; }
    var next := Decode(s, total, cap).rest;
    if Strict(s) {
      var chunks, last, trailers := StrictIsEncoding(s, total, cap);
    }
    if chunks, last, trailers :| IsEncoding(s, chunks, last, trailers, next) {
      EncodingIsStrict(s, chunks, last, trailers, next);
    }
  }

  /** "0x0" for the last chunk is accepted, and is no encoding. */
  lemma PrefixedZeroAccepted()
    ensures var s: seq<byte> := [48, 120, 48] + CRLF + CRLF;
            && Decode(s, 0, 0) == Body([], [])
            && !exists chunks, last, trailers :: IsEncoding(s, chunks, last, trailers, [])
  {
    hide Decode, ParseInt, ReadLine;
    var line: seq<byte> := [48, 120, 48];
    OneZero();
    LooseSpellings([48], 0);
    assert [48, 120] + [48] == line;
    NothingToStrip(line);
    BeforeSemicolonIs(line, []);
    assert line + [] == line;
    SkipOne([], []);
    assert [] + CRLF + [] == CRLF;
    DecodeLast(line, CRLF, 0, 0);
    ReadsItsLine(line, CRLF);
    forall n | 0 < n <= |line| ensures !PlainUpTo(line, n) {
      if n >= 2 { assert !IsHex(line[..n][1]); } else { assert line[n..][0] == 120; }
    }
    EncodingExactly(line + CRLF + CRLF, 0, 0);
  }

  lemma OneZero()
    ensures Writes([48], 0) && Writes([49], 1)
  {
  }

  /** A one-byte chunk ended by "!!" is accepted with the byte, and is no encoding. */
  lemma WrongDelimiterAccepted()
    ensures var s: seq<byte> := Frame([49], [65], [33, 33] + ([48] + CRLF + CRLF));
            && Decode(s, 0, 1) == Body([65], [])
            && !exists chunks, last, trailers :: IsEncoding(s, chunks, last, trailers, [])
  {
    hide Decode, ParseSize, ReadLine;
    var c, last := Chunk([49], [], [], [65]), Chunk([48], [], [], []);
    OneZero();
    assert SizeLine(c) == [49] && SizeLine(last) == [48];
    var tail: seq<byte> := [48] + CRLF + CRLF;
    EncodeNothing(last, [], []);
    assert EncodeTrailers([], []) == CRLF;
    assert Encode([], last, [], []) == tail;
    assert [c][1..] == [];
    assert Encode([c], last, [], []) == Frame([49], [65], CRLF + tail);
    assert BodyOf([c]) == [65];
    RoundTrip([c], last, [], [], 0, 1);
    DelimiterUnchecked(c, [33, 33], tail, 0, 1);
    var rest: seq<byte> := [65] + ([33, 33] + tail);
    ReadsItsLine([49], rest);
    SizeLineParses(c, |c.data|);
    assert rest[1..3] == [33, 33];
    EncodingExactly(Frame([49], [65], [33, 33] + tail), 0, 1);
  }

  // ---- the grammar of section 7.1 --------------------------------------------

  predicate IsTokenChar(b: byte) {
    || 48 <= b <= 57 || 65 <= b <= 90 || 97 <= b <= 122
    || b == 33 || 35 <= b <= 39 || b == 42 || b == 43 || b == 45 || b == 46
    || b == 94 || b == 95 || b == 96 || b == 124 || b == 126
  }

  ghost predicate IsToken(s: seq<byte>) {
    s != [] && forall i :: 0 <= i < |s| ==> IsTokenChar(s[i])
  }

  /** A visible character, a blank or an octet above ASCII. */
  predicate IsFieldByte(b: byte) { b == 9 || 32 <= b <= 126 || 128 <= b }

  /** What may stand between the quotes of a quoted string. */
  predicate IsQuotedText(s: seq<byte>) {
    || s == []
    || (s[0] != 34 && s[0] != 92 && IsFieldByte(s[0]) && IsQuotedText(s[1..]))
    || (|s| >= 2 && s[0] == 92 && IsFieldByte(s[1]) && IsQuotedText(s[2..]))
  }

  /** chunk-ext-val: a token, or a quoted string with what is between its quotes. */
  datatype ExtensionValue = Token(text: seq<byte>) | Quoted(inner: seq<byte>) {
    ghost predicate Ok() {
      match this
      case Token(text) => IsToken(text)
      case Quoted(inner) => IsQuotedText(inner)
    }

    function Text(): seq<byte> {
      match this
      case Token(text) => text
      case Quoted(inner) => [34] + inner + [34]
    }
  }

  /** BWS ";" BWS chunk-ext-name, and BWS "=" BWS chunk-ext-val when `value` is given;
      `pads` are the four stretches of blanks. */
  datatype Extension = Extension(
    pads: (seq<byte>, seq<byte>, seq<byte>, seq<byte>), name: seq<byte>, value: Option<ExtensionValue>)
  {
    ghost predicate Ok() {
      && AllBlank(pads.0) && AllBlank(pads.1) && AllBlank(pads.2) && AllBlank(pads.3)
      && IsToken(name) && (value.Some? ==> value.value.Ok())
    }

    /** What follows the semicolon. */
    function AfterSemicolon(): seq<byte> {
      pads.1 + name + if value.None? then [] else pads.2 + [61] + pads.3 + value.value.Text()
    }
  }

  function ExtensionsText(extensions: seq<Extension>): seq<byte> {
    if extensions == [] then []
    else extensions[0].pads.0 + ([SEMICOLON] + (extensions[0].AfterSemicolon() + ExtensionsText(extensions[1..])))
  }

  ghost predicate DerivesExtensions(s: seq<byte>, extensions: seq<Extension>) {
    s == ExtensionsText(extensions) && forall i :: 0 <= i < |extensions| ==> extensions[i].Ok()
  }

  /** chunk-ext */
  ghost predicate ExtensionGrammar(s: seq<byte>) {
    exists extensions :: DerivesExtensions(s, extensions)
  }

  /** chunk-size [ chunk-ext ] */
  ghost predicate SizeLineGrammar(line: seq<byte>) {
    exists n :: 0 < n <= |line| && AllHex(line[..n]) && ExtensionGrammar(line[n..])
  }

  /** field-name ":" OWS field-value OWS */
  ghost predicate FieldLineGrammar(line: seq<byte>) {
    exists n :: 0 < n < |line| && IsToken(line[..n]) && line[n] == 58 && FieldBytes(line[n + 1..])
  }

  ghost predicate FieldBytes(s: seq<byte>) { forall i :: 0 <= i < |s| ==> IsFieldByte(s[i]) }

  /** The chunks, the last chunk and the trailers are as the grammar says. */
  ghost predicate InGrammar(chunks: seq<Chunk>, last: Chunk, trailers: seq<seq<byte>>) {
    && (forall i :: 0 <= i < |chunks| ==> SizeLineGrammar(SizeLine(chunks[i])))
    && SizeLineGrammar(SizeLine(last))
    && (forall i :: 0 <= i < |trailers| ==> FieldLineGrammar(trailers[i]))
  }

  /** The grammar derives `s` up to `next`. */
  ghost predicate Derived(s: seq<byte>, next: seq<byte>) {
    exists chunks, last, trailers :: IsEncoding(s, chunks, last, trailers, next) && InGrammar(chunks, last, trailers)
  }

  ghost predicate TrailersInGrammar(s: seq<byte>)
    decreases |s|
  {
    var r := ReadLine(s);
    r.Line? && (r.text == [] || (FieldLineGrammar(r.text) && TrailersInGrammar(r.rest)))
  }

  /** Every line read on the way is as the grammar says, and every delimiter is CRLF. */
  ghost predicate GrammarStrict(s: seq<byte>)
    decreases |s|
  {
    var r := ReadLine(s);
    && r.Line? && SizeLineGrammar(r.text) && ParseSize(r.text).Some?
    && var size := ParseSize(r.text).value;
       if size == 0 then TrailersInGrammar(r.rest)
       else size > 0 && size + 2 <= |r.rest| && r.rest[size..size + 2] == CRLF && GrammarStrict(r.rest[size + 2..])
  }

  /** A line of the grammar has a plain size field. */
  lemma GrammarIsPlain(line: seq<byte>)
    requires SizeLineGrammar(line)
    ensures PlainSize(line)
  {
    var n :| 0 < n <= |line| && AllHex(line[..n]) && ExtensionGrammar(line[n..]);
    var extensions: seq<Extension> :| DerivesExtensions(line[n..], extensions);
    var blanks, extension: seq<byte> := [], [];
    if extensions != [] {
      assert extensions[0].Ok();
      blanks := extensions[0].pads.0;
      extension := [SEMICOLON] + (extensions[0].AfterSemicolon() + ExtensionsText(extensions[1..]));
    }
    var c := Chunk(line[..n], blanks, extension, []);
    assert line == line[..n] + line[n..];
    ConcatAssoc(line[..n], blanks, extension);
    assert line[n..] == blanks + extension;
    assert SizeLine(c) == line;
    SizeLineIsPlain(c);
  }

  lemma {:induction false} GrammarIsStrict(s: seq<byte>)
    ensures GrammarStrict(s) ==> Strict(s)
    decreases |s|
  {
    hide ParseSize, ReadLine, SizeLineGrammar, PlainSize, TrailersInGrammar;
    if !GrammarStrict(s) { return; }
    GrammarIsPlain(ReadLine(s).text);
    if ParseSize(ReadLine(s).text).value != 0 {
      GrammarIsStrict(ReadLine(s).rest[ParseSize(ReadLine(s).text).value + 2..]);
    }
  }

  lemma {:induction false} TrailersMatchGrammar(trailers: seq<seq<byte>>, next: seq<byte>)
    requires TrailersOk(trailers)
    ensures TrailersInGrammar(EncodeTrailers(trailers, next))
            <==> forall i :: 0 <= i < |trailers| ==> FieldLineGrammar(trailers[i])
  {
    hide ReadLine, FieldLineGrammar;
    if trailers == [] {
      ReadsItsLine([], next);
    } else {
      ReadsItsLine(trailers[0], EncodeTrailers(trailers[1..], next));
      TrailersMatchGrammar(trailers[1..], next);
      assert forall i :: 0 < i < |trailers| ==> trailers[1..][i - 1] == trailers[i];
    }
  }

  /** An encoding meets the strict reading exactly when its parts are in the grammar. */
  lemma {:induction false} EncodingMatchesGrammar(s: seq<byte>, chunks: seq<Chunk>, last: Chunk,
                                                  trailers: seq<seq<byte>>, next: seq<byte>)
    requires IsEncoding(s, chunks, last, trailers, next)
    ensures GrammarStrict(s) <==> InGrammar(chunks, last, trailers)
    decreases |chunks|
  {
    hide ParseSize, ReadLine, Value, SizeLineGrammar, FieldLineGrammar, NoCrlf, Spelled, EncodeTrailers, TrailersInGrammar;
    if chunks == [] {
      ReadsItsLine(SizeLine(last), EncodeTrailers(trailers, next));
      SizeLineParses(last, 0);
      TrailersMatchGrammar(trailers, next);
    } else {
      var c, more := chunks[0], chunks[1..];
      var tail := Encode(more, last, trailers, next);
      EncodingMatchesGrammar(tail, more, last, trailers, next);
      ReadsItsLine(SizeLine(c), c.data + (CRLF + tail));
      SizeLineParses(c, |c.data|);
      FrameSlices(c.data, CRLF, tail);
      assert (c.data + (CRLF + tail))[|c.data|..|c.data| + 2] == CRLF;
      assert forall i :: 0 < i < |chunks| ==> more[i - 1] == chunks[i];
    }
  }

  /** What is accepted is derived by the grammar of section 7.1 if and only if every size
      line read was a chunk size with chunk extensions, every trailer line a field line and
      every delimiter CRLF. */
  lemma DerivedExactly(s: seq<byte>, total: nat, cap: nat)
    ensures Decode(s, total, cap).Body? ==> (Derived(s, Decode(s, total, cap).rest) <==> GrammarStrict(s))
  {
    hide Decode, Strict, IsEncoding, InGrammar, GrammarStrict;
    if !Decode(s, total, cap).Body? { return; }
    var next := Decode(s, total, cap).rest;
    if GrammarStrict(s) {
      GrammarIsStrict(s);
      var chunks, last, trailers := StrictIsEncoding(s, total, cap);
      EncodingMatchesGrammar(s, chunks, last, trailers, next);
    }
    if chunks, last, trailers :| IsEncoding(s, chunks, last, trailers, next) && InGrammar(chunks, last, trailers) {
      EncodingMatchesGrammar(s, chunks, last, trailers, next);
    }
  }

  /** A lone semicolon is no chunk extension: it would name nothing. */
  lemma BareSemicolon()
    ensures !SizeLineGrammar([48, 59])
  {
    forall n | 0 < n <= 2 ensures !(AllHex([48, 59][..n]) && ExtensionGrammar([48, 59][n..])) {
      if n == 2 {
        assert !IsHex([48, 59][..2][1]);
      } else {
        forall extensions: seq<Extension> ensures !DerivesExtensions([48, 59][1..], extensions) {
          if extensions != [] {
            assert |ExtensionsText(extensions)| >= 1 + |extensions[0].name|;
          }
        }
      }
    }
  }

  /** "0;" for the last chunk is accepted with plain sizes and right delimiters, and the
      grammar does not derive it. */
  lemma ExtensionsUnchecked()
    ensures var s: seq<byte> := [48, 59] + CRLF + CRLF;
            Decode(s, 0, 0) == Body([], []) && Strict(s) && !Derived(s, [])
  {
    hide Decode, ParseSize, ReadLine, SizeLineGrammar;
    var last := Chunk([48], [], [59], []);
    var s: seq<byte> := [48, 59] + CRLF + CRLF;
    assert SizeLine(last) == [48, 59];
    OneZero();
    EncodeNothing(last, [], []);
    assert EncodeTrailers([], []) == CRLF;
    assert BodyOf([]) == [];
    RoundTrip([], last, [], [], 0, 0);
    EncodingIsStrict(s, [], last, [], []);
    ReadsItsLine([48, 59], CRLF);
    BareSemicolon();
    DerivedExactly(s, 0, 0);
  }
}
