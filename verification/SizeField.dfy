/**
 * Exactly which chunk sizes are read, and as what (lb/loadbalancer.py:1172-1173): the
 * notation of the language's base-16 conversion, which is wider than the grammar of
 * section 7.1 of RFC 9112.
 */
module SizeField {
  import opened Common
  import opened FeedBytes
  import opened Chunked

  function Concat(groups: seq<seq<byte>>): seq<byte> {
    if groups == [] then [] else groups[0] + Concat(groups[1..])
  }

  /** The groups with an underscore between each two. */
  function Glued(groups: seq<seq<byte>>): seq<byte> {
    if groups == [] then []
    else if |groups| == 1 then groups[0]
    else groups[0] + ([UNDERSCORE] + Glued(groups[1..]))
  }

  /** Spaces, a sign, a 0x prefix that may have an underscore after it, groups of digits and
      spaces. */
  datatype Spelling = Spelling(
    lead: seq<byte>, sign: seq<byte>, prefix: seq<byte>, groups: seq<seq<byte>>, trail: seq<byte>)
  {
    ghost predicate Ok() {
      && AllSpace(lead) && AllSpace(trail)
      && (sign == [] || sign == [43] || sign == [45])
      && IsPrefix(prefix)
      && groups != [] && AreGroups(groups)
    }

    function Core(): seq<byte> { sign + (prefix + Glued(groups)) }

    function Text(): seq<byte> { lead + (Core() + trail) }

    ghost predicate Means(v: int) {
      var n := if sign == [45] then -v else v;
      n >= 0 && Writes(Concat(groups), n)
    }
  }

  /** Tab, line feed, vertical tab, form feed, carriage return and blank. */
  const SPACES: set<byte> := {9, 10, 11, 12, 13, 32}

  ghost predicate AllSpace(s: seq<byte>) { forall i :: 0 <= i < |s| ==> s[i] in SPACES }

  ghost predicate AreGroups(groups: seq<seq<byte>>) {
    forall i :: 0 <= i < |groups| ==> groups[i] != [] && AllHex(groups[i])
  }

  ghost predicate Reads(field: seq<byte>, v: int, sp: Spelling) {
    sp.Ok() && sp.Text() == field && sp.Means(v)
  }

  // ---- digits in groups ------------------------------------------------------

  /** What is left without the underscores. */
  function Bare(s: seq<byte>): seq<byte> {
    if s == [] then []
    else if s[|s| - 1] == UNDERSCORE then Bare(s[..|s| - 1])
    else Bare(s[..|s| - 1]) + [s[|s| - 1]]
  }

  ghost predicate DigitsOnly(s: seq<byte>) {
    forall i :: 0 <= i < |s| ==> IsHex(s[i]) || s[i] == UNDERSCORE
  }

  lemma {:induction false} BareKeepsValue(s: seq<byte>)
    requires DigitsOnly(s)
    ensures AllHex(Bare(s)) && Value(s) == Value(Bare(s))
  {
    if s != [] {
      var front, last := s[..|s| - 1], s[|s| - 1];
      BareKeepsValue(front);
      if last != UNDERSCORE {
        assert Bare(s)[..|Bare(s)| - 1] == Bare(front);
      }
    }
  }

  lemma {:induction false} BareConcat(a: seq<byte>, b: seq<byte>)
    ensures Bare(a + b) == Bare(a) + Bare(b)
  {
    if b == [] {
      assert a + b == a;
    } else {
      BareConcat(a, b[..|b| - 1]);
      assert (a + b)[..|a + b| - 1] == a + b[..|b| - 1];
    }
  }

  lemma {:induction false} BareHex(s: seq<byte>)
    requires AllHex(s)
    ensures Bare(s) == s
  {
    if s != [] {
      BareHex(s[..|s| - 1]);
      SplitLast(s);
    }
  }

  /** Groups of digits with underscores between them are a numeral, and mean the digits. */
  lemma {:induction false} GluedIsNumeral(groups: seq<seq<byte>>)
    requires groups != [] && AreGroups(groups)
    ensures IsNumeral(Glued(groups)) && Bare(Glued(groups)) == Concat(groups)
    ensures Glued(groups)[0] == groups[0][0] && IsHex(Glued(groups)[0])
    decreases |groups|
  {
    hide IsNumeral, Bare;
    var first := groups[0];
    BareHex(first);
    assert IsHex(first[0]);
    if |groups| == 1 {
      assert Concat(groups[1..]) == [];
      DigitsAreNumeral(first);
    } else {
      var more := groups[1..];
      GluedIsNumeral(more);
      BareOfPair(first, Glued(more));
      JoinNumerals(first, Glued(more));
    }
  }

  lemma BareOfPair(a: seq<byte>, b: seq<byte>)
    ensures Bare(a + ([UNDERSCORE] + b)) == Bare(a) + Bare(b)
  {
    BareConcat(a, [UNDERSCORE] + b);
    BareConcat([UNDERSCORE], b);
    assert [UNDERSCORE][..0] == [];
  }

  lemma JoinNumerals(a: seq<byte>, b: seq<byte>)
    requires a != [] && AllHex(a) && IsNumeral(b)
    ensures IsNumeral(a + ([UNDERSCORE] + b))
  {
    var s := a + ([UNDERSCORE] + b);
    assert s[|a|] == UNDERSCORE && forall i | 0 <= i < |b| :: s[|a| + 1 + i] == b[i];
    forall i | 0 <= i < |s| - 1 ensures s[i] != UNDERSCORE || s[i + 1] != UNDERSCORE {
      if i < |a| { assert IsHex(a[i]); } else if i == |a| { assert s[i + 1] == b[0]; }
    }
  }

  /** And every numeral is such groups. */
  lemma {:induction false} NumeralIsGlued(s: seq<byte>) returns (groups: seq<seq<byte>>)
    requires IsNumeral(s)
    ensures groups != [] && AreGroups(groups) && Glued(groups) == s
    decreases |s|
  {
    var n := HexRun(s);
    var first := s[..n];
    if n == |s| {
      groups := [s];
    } else {
      var rest := s[n + 1..];
      assert forall i | 0 <= i < |rest| :: rest[i] == s[n + 1 + i];
      var more := NumeralIsGlued(rest);
      groups := [first] + more;
      assert groups[1..] == more;
      assert s == first + ([UNDERSCORE] + rest);
    }
  }

  /** How many digits come before the first underscore. */
  lemma HexRun(s: seq<byte>) returns (n: nat)
    requires IsNumeral(s)
    ensures 0 < n <= |s| && AllHex(s[..n])
    ensures n < |s| ==> s[n] == UNDERSCORE && n + 1 < |s|
  {
    n := 1;
    while n < |s| && s[n] != UNDERSCORE
      invariant 0 < n <= |s| && AllHex(s[..n])
    {
      n := n + 1;
    }
  }

  // ---- around the digits -----------------------------------------------------

  lemma {:induction false} StripLeftSplits(s: seq<byte>) returns (lead: seq<byte>)
    ensures AllSpace(lead) && s == lead + StripLeft(s)
    ensures StripLeft(s) != [] ==> !IsSpace(StripLeft(s)[0])
  {
    lead := [];
    if s != [] && IsSpace(s[0]) {
      var more := StripLeftSplits(s[1..]);
      lead := [s[0]] + more;
    }
  }

  lemma {:induction false} StripRightSplits(s: seq<byte>) returns (trail: seq<byte>)
    ensures AllSpace(trail) && s == StripRight(s) + trail
  {
    trail := [];
    if s != [] && IsSpace(s[|s| - 1]) {
      var more := StripRightSplits(s[..|s| - 1]);
      trail := more + [s[|s| - 1]];
    }
  }

  lemma {:induction false} StripLeftSkips(lead: seq<byte>, core: seq<byte>)
    requires AllSpace(lead) && core != [] && !IsSpace(core[0])
    ensures StripLeft(lead + core) == core
  {
    if lead == [] {
      assert lead + core == core;
    } else {
      StripLeftSkips(lead[1..], core);
      assert (lead + core)[1..] == lead[1..] + core;
    }
  }

  lemma StripSkips(lead: seq<byte>, core: seq<byte>, trail: seq<byte>)
    requires AllSpace(lead) && AllSpace(trail)
    requires core != [] && !IsSpace(core[0]) && !IsSpace(core[|core| - 1])
    ensures Strip(lead + (core + trail)) == core
  {
    var s := core + trail;
    assert s[0] == core[0] && s[|core| - 1] == core[|core| - 1];
    StripLeftSkips(lead, s);
    assert forall i | |core| <= i < |s| :: s[i] == trail[i - |core|];
    StripRightKeeps(s, |core|);
    assert s[..|core|] == core;
  }

  ghost predicate IsPrefix(prefix: seq<byte>) {
    || prefix == [] || prefix == [48, 120] || prefix == [48, 88]
    || prefix == [48, 120, UNDERSCORE] || prefix == [48, 88, UNDERSCORE]
  }

  lemma PrefixIsSkipped(prefix: seq<byte>, digits: seq<byte>)
    requires digits != [] && IsHex(digits[0]) && (|digits| >= 2 ==> IsHex(digits[1]) || digits[1] == UNDERSCORE)
    requires IsPrefix(prefix)
    ensures WithoutPrefix(prefix + digits) == digits
  {
    var s, n := prefix + digits, |prefix|;
    assert s[n] == digits[0] && s[n..] == digits && (|digits| >= 2 ==> s[n + 1] == digits[1]);
  }

  lemma PrefixSplits(s: seq<byte>) returns (prefix: seq<byte>)
    ensures s == prefix + WithoutPrefix(s)
    ensures IsPrefix(prefix)
  {
    prefix := s[..|s| - |WithoutPrefix(s)|];
  }

  // ---- which sizes are read --------------------------------------------------

  lemma {:induction false} ConcatIsHex(groups: seq<seq<byte>>)
    requires AreGroups(groups)
    ensures AllHex(Concat(groups)) && (groups != [] ==> Concat(groups) != [])
  {
    if groups != [] {
      ConcatIsHex(groups[1..]);
    }
  }

  /** The number of some digits, with its sign. */
  lemma MeansItsValue(sp: Spelling, v: int)
    requires sp.Ok() && IsNumeral(Glued(sp.groups))
    ensures sp.Means(v) <==> v == if sp.sign == [45] then -(Value(Glued(sp.groups)) as int) else Value(Glued(sp.groups))
  {
    GluedIsNumeral(sp.groups);
    BareKeepsValue(Glued(sp.groups));
    ConcatIsHex(sp.groups);
    var n := if sp.sign == [45] then -v else v;
    if n >= 0 { WritesItsValue(Concat(sp.groups), n); }
  }

  /** A spelling reads as what it means. */
  lemma SpellingIsRead(sp: Spelling, v: int)
    requires sp.Ok() && sp.Means(v)
    ensures ParseInt(sp.Text()) == Some(v)
  {
    hide Strip, WithoutPrefix, Value, Writes, Concat;
    var digits, core := Glued(sp.groups), sp.Core();
    GluedIsNumeral(sp.groups);
    MeansItsValue(sp, v);
    assert IsHex(digits[|digits| - 1]) && core[|core| - 1] == digits[|digits| - 1];
    assert core[|sp.sign|] == (sp.prefix + digits)[0];
    StripSkips(sp.lead, core, sp.trail);
    PrefixIsSkipped(sp.prefix, digits);
    assert core[|sp.sign|..] == sp.prefix + digits;
  }

  lemma ReadIsSpelling(field: seq<byte>, v: int) returns (sp: Spelling)
    requires ParseInt(field) == Some(v)
    ensures Reads(field, v, sp)
  {
    hide WithoutPrefix, Value, Writes, Concat, IsNumeral, IsPrefix, StripLeft, StripRight, AllSpace, AreGroups, Glued;
    hide Spelling.Means;
    var lead := StripLeftSplits(field);
    var trail := StripRightSplits(StripLeft(field));
    var s := Strip(field);
    var signed := s != [] && (s[0] == 45 || s[0] == 43);
    var rest := if signed then s[1..] else s;
    var prefix := PrefixSplits(rest);
    var groups := NumeralIsGlued(WithoutPrefix(rest));
    sp := Spelling(lead, if signed then [s[0]] else [], prefix, groups, trail);
    assert sp.Core() == s;
    MeansItsValue(sp, v);
  }

  /** Exactly the sizes spelled so are read, each as the number it means. */
  lemma FieldReadExactly(field: seq<byte>, v: int)
    ensures ParseInt(field) == Some(v) <==> exists sp :: Reads(field, v, sp)
  {
    hide ParseInt, Reads;
    if ParseInt(field) == Some(v) {
      var sp := ReadIsSpelling(field, v);
    }
    if sp :| Reads(field, v, sp) {
      ReadsIsRead(field, v, sp);
    }
  }

  lemma ReadsIsRead(field: seq<byte>, v: int, sp: Spelling)
    requires Reads(field, v, sp)
    ensures ParseInt(field) == Some(v)
  {
    SpellingIsRead(sp, v);
  }

  // ---- the rest of the size line ---------------------------------------------

  lemma {:induction false} StripLeftBefore(s: seq<byte>)
    ensures BeforeSemicolon(StripLeft(s)) == StripLeft(BeforeSemicolon(s))
  {
    if s != [] && IsSpace(s[0]) {
      StripLeftBefore(s[1..]);
      assert BeforeSemicolon(s)[1..] == BeforeSemicolon(s[1..]);
    }
  }

  lemma {:induction false} BeforeSnoc(front: seq<byte>, b: byte)
    requires b != SEMICOLON
    ensures BeforeSemicolon(front + [b]) == if SEMICOLON in front then BeforeSemicolon(front) else front + [b]
  {
    if front == [] {
      assert front + [b] == [b] && [b][1..] == [];
    } else {
      BeforeSnoc(front[1..], b);
      assert (front + [b])[1..] == front[1..] + [b];
      assert front == [front[0]] + front[1..];
    }
  }

  lemma {:induction false} NothingBefore(s: seq<byte>)
    requires SEMICOLON !in s
    ensures BeforeSemicolon(s) == s
  {
    BeforeSemicolonIs(s, []);
    assert s + [] == s;
  }

  lemma {:induction false} StripRightBefore(s: seq<byte>)
    ensures StripRight(BeforeSemicolon(StripRight(s))) == StripRight(BeforeSemicolon(s))
  {
    if s != [] && IsSpace(s[|s| - 1]) {
      var front := s[..|s| - 1];
      StripRightBefore(front);
      BeforeSnoc(front, s[|s| - 1]);
      SplitLast(s);
      if SEMICOLON !in front {
        NothingBefore(front);
      }
    }
  }

  /** The size is what precedes the first semicolon, whatever follows it. */
  lemma SizeOfLine(line: seq<byte>)
    ensures ParseSize(line) == ParseInt(BeforeSemicolon(line))
  {
    hide BeforeSemicolon, WithoutPrefix, IsNumeral, Value;
    var t := StripLeft(line);
    var lead := StripLeftSplits(line);
    var trail := StripRightSplits(t);
    StripLeftBefore(line);
    StripRightBefore(t);
    StartsAlike(StripRight(t));
    StartsAlike(t);
  }

  lemma StartsAlike(s: seq<byte>)
    ensures BeforeSemicolon(s) != [] ==> s != [] && BeforeSemicolon(s)[0] == s[0]
  {
  }

  /** Exactly these size lines are read, each as the number its spelling means. */
  lemma SizeReadExactly(line: seq<byte>, v: int)
    ensures ParseSize(line) == Some(v) <==> exists sp :: Reads(BeforeSemicolon(line), v, sp)
  {
    hide ParseSize, ParseInt, Reads, BeforeSemicolon;
    SizeOfLine(line);
    FieldReadExactly(BeforeSemicolon(line), v);
  }
}
