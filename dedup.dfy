/**
 * The sequential logic of the CSV deduplication script: the field
 * normaliser `preProcess`, the record index built by `readData`, the field
 * definitions of `defineFields`, the branch structure of `setup` and the
 * cluster-membership map of `writeResults`.  The record-linkage library the
 * script drives (blocking, active labelling, training, clustering) is
 * represented only by the actions `setup` asks it to perform.
 */
module Dedup {
  import opened Wrappers
  import opened Seqs
  import opened PyText

  // ---------------------------------------------------------------------
  // preProcess (dedup.py:34-41)
  // ---------------------------------------------------------------------

  /** No two adjacent characters are both spaces. */
  predicate NoDoubleSpace(s: string) {
    forall i :: 0 <= i < |s| - 1 ==> !(s[i] == ' ' && s[i + 1] == ' ')
  }

  /**
   * `re.sub("  +", " ", s)`: every run of two or more U+0020 spaces is
   * replaced by one space; tabs and newlines are not spaces here.
   */
  function CollapseSpaces(s: string): (r: string)
    ensures NoDoubleSpace(r)
    ensures s != [] ==> r != [] && r[0] == s[0]
    ensures IsSubsequence(r, s)
    ensures Filter(r, NotSpace) == Filter(s, NotSpace)
    decreases |s|
  {
    if |s| < 2 then
      SubsequenceReflexive(s);
      s
    else if s[0] == ' ' && s[1] == ' ' then
      var r := CollapseSpaces(s[1..]);
      assert s == [s[0]] + s[1..];
      SubsequenceConsRight(s[0], r, s[1..]);
      FilterCons(s[0], s[1..], NotSpace);
      r
    else
      var t := CollapseSpaces(s[1..]);
      assert s == [s[0]] + s[1..];
      SubsequenceConsBoth(s[0], t, s[1..]);
      FilterCons(s[0], s[1..], NotSpace);
      FilterCons(s[0], t, NotSpace);
      [s[0]] + t
  }

  /** Any character but U+0020. */
  predicate NotSpace(c: char) { c != ' ' }

  /** Text with no run of spaces is left alone. */
  lemma {:induction false} CollapseSpacesNoop(s: string)
    requires NoDoubleSpace(s)
    ensures CollapseSpaces(s) == s
    decreases |s|
  {
    if |s| >= 2 {
      assert NoDoubleSpace(s[1..]) by {
        forall i | 0 <= i < |s[1..]| - 1 ensures !(s[1..][i] == ' ' && s[1..][i + 1] == ' ') {
          assert s[1..][i] == s[i + 1] && s[1..][i + 1] == s[i + 2];
        }
      }
      CollapseSpacesNoop(s[1..]);
      assert s == [s[0]] + s[1..];
    }
  }

  /**
   * A run of spaces shrinks one space at a time: two spaces anywhere
   * collapse exactly as one space would.  With `NoDoubleSpace` and
   * `CollapseSpacesNoop`, this fixes the result on every input.
   */
  lemma {:induction false} CollapseSpacesShrink(a: string, b: string)
    ensures CollapseSpaces(a + "  " + b) == CollapseSpaces(a + " " + b)
    decreases |a|
  {
    var s, t := a + "  " + b, a + " " + b;
    if a == [] {
      assert s[1..] == t;
    } else {
      assert s[0] == t[0] && s[1] == t[1];
      assert s[1..] == a[1..] + "  " + b;
      assert t[1..] == a[1..] + " " + b;
      CollapseSpacesShrink(a[1..], b);
    }
  }

  /** Collapsing spaces removes characters and adds none. */
  lemma {:induction false} CollapseSpacesKeeps(s: string, p: char -> bool)
    requires AllChars(s, p)
    ensures AllChars(CollapseSpaces(s), p)
    decreases |s|
  {
    if |s| >= 2 {
      assert AllChars(s[1..], p);
      CollapseSpacesKeeps(s[1..], p);
    }
  }

  /** `re.sub("\n", " ", s)`: every line feed becomes a space. */
  function ReplaceNewlines(s: string): (r: string)
    ensures |r| == |s|
    ensures forall i :: 0 <= i < |r| ==> r[i] != '\n'
    ensures forall i :: 0 <= i < |s| && s[i] == '\n' ==> r[i] == ' '
    ensures forall i :: 0 <= i < |s| && s[i] != '\n' ==> r[i] == s[i]
  {
    seq(|s|, i requires 0 <= i < |s| => if s[i] == '\n' then ' ' else s[i])
  }

  predicate IsDoubleQuote(c: char) { c == '"' }

  predicate IsSingleQuote(c: char) { c == '\'' }

  /**
   * Lines 36-38 of `preProcess` up to the lower-casing, on the
   * transliterated text: collapse runs of spaces, then turn newlines into
   * spaces, then `.strip().strip('"').strip("'")`.
   */
  function Unquote(s: string): (r: string)
    ensures r == [] || (!IsSingleQuote(r[0]) && !IsSingleQuote(r[|r| - 1]))
  {
    var joined := ReplaceNewlines(CollapseSpaces(s));
    StripChars(StripChars(Strip(joined), IsDoubleQuote), IsSingleQuote)
  }

  /**
   * Lines 36-38 of `preProcess`: `Unquote`, then `.lower().strip()`.  The
   * result has no whitespace at either end, no line feed and no capital.
   */
  function Normalise(s: string): (r: string)
    ensures Trimmed(r) && AllChars(r, NotNewline) && AllChars(r, NotCapital)
  {
    var lowered := Lower(Unquote(s));
    UnquoteNoNewline(s);
    LowerShape(Unquote(s));
    StripCharsKeeps(lowered, IsSpace, NotNewline);
    StripCharsKeeps(lowered, IsSpace, NotCapital);
    Strip(lowered)
  }

  /**
   * `preProcess(column)`: transliterate with `translit` (the foreign
   * `unidecode`), normalise, and map the empty string to `None`.
   */
  function PreProcess(translit: string -> string, column: string): (r: Option<string>)
    ensures r.Some? ==> r.value != [] && Trimmed(r.value)
    ensures r.Some? ==> AllChars(r.value, NotNewline) && AllChars(r.value, NotCapital)
  {
    var v := Normalise(translit(column));
    NormaliseShape(translit(column));
    if v == [] then None else Some(v)
  }

  predicate NotNewline(c: char) { c != '\n' }

  predicate NotCapital(c: char) { !IsAsciiUpper(c) && !IsLatin1Upper(c) }

  /** `Unquote` keeps a property every character of its input has. */
  lemma UnquoteKeeps(s: string, p: char -> bool)
    requires AllChars(ReplaceNewlines(CollapseSpaces(s)), p)
    ensures AllChars(Unquote(s), p)
  {
    var joined := ReplaceNewlines(CollapseSpaces(s));
    var stripped := Strip(joined);
    StripCharsKeeps(joined, IsSpace, p);
    StripCharsKeeps(stripped, IsDoubleQuote, p);
    StripCharsKeeps(StripChars(stripped, IsDoubleQuote), IsSingleQuote, p);
  }

  /** The text that `Normalise` lower-cases holds no line feed. */
  lemma UnquoteNoNewline(s: string)
    ensures AllChars(Unquote(s), NotNewline)
  {
    assert AllChars(ReplaceNewlines(CollapseSpaces(s)), NotNewline);
    UnquoteKeeps(s, NotNewline);
  }

  /** ASCII in, ASCII out. */
  lemma UnquoteAscii(s: string)
    requires AllAscii(s)
    ensures AllAscii(Unquote(s))
  {
    var collapsed := CollapseSpaces(s);
    CollapseSpacesKeeps(s, IsAscii);
    assert AllChars(ReplaceNewlines(collapsed), IsAscii);
    UnquoteKeeps(s, IsAscii);
  }

  /** Whitespace alone is stripped away entirely. */
  lemma UnquoteBlank(s: string)
    requires AllChars(s, IsSpace)
    ensures Unquote(s) == []
  {
    var collapsed := CollapseSpaces(s);
    var joined := ReplaceNewlines(collapsed);
    CollapseSpacesKeeps(s, IsSpace);
    assert AllChars(joined, IsSpace);
    StripCharsAllDropped(joined, IsSpace);
  }

  /** What the last steps of `Normalise` establish, and what all the steps keep. */
  lemma NormaliseShape(s: string)
    ensures var v := Normalise(s);
            && Trimmed(v)
            && AllChars(v, NotNewline)
            && AllChars(v, NotCapital)
            && (AllAscii(s) ==> AllAscii(v))
            && (AllChars(s, IsSpace) ==> v == [])
  {
    var unquoted := Unquote(s);
    var lowered := Lower(unquoted);
    StripEnds(lowered);
    UnquoteNoNewline(s);
    LowerShape(unquoted);
    StripCharsKeeps(lowered, IsSpace, NotNewline);
    StripCharsKeeps(lowered, IsSpace, NotCapital);
    if AllAscii(s) {
      UnquoteAscii(s);
      StripCharsKeeps(lowered, IsSpace, IsAscii);
    }
    if AllChars(s, IsSpace) {
      UnquoteBlank(s);
    }
  }

  /** Lower-casing leaves no capital, turns no character into a line feed, and keeps ASCII. */
  lemma LowerShape(s: string)
    ensures AllChars(Lower(s), NotCapital)
    ensures AllChars(s, NotNewline) ==> AllChars(Lower(s), NotNewline)
    ensures AllAscii(s) ==> AllAscii(Lower(s))
  {
  }

  /** The foreign transliterator leaves ASCII text unchanged. */
  ghost predicate AsciiPreserving(translit: string -> string) {
    forall s :: AllAscii(s) ==> translit(s) == s
  }

  /** What `unidecode` promises: ASCII output, and ASCII input returned as it is. */
  ghost predicate Transliterator(translit: string -> string) {
    AsciiPreserving(translit) && forall s :: AllAscii(translit(s))
  }

  /** Text that is only whitespace after transliteration becomes `None`. */
  lemma WhitespaceOnlyIsNone(translit: string -> string, column: string)
    requires AllChars(translit(column), IsSpace)
    ensures PreProcess(translit, column) == None
  {
    NormaliseShape(translit(column));
  }

  /** In particular ASCII whitespace, and the empty string, become `None`. */
  lemma AsciiWhitespaceIsNone(translit: string -> string, column: string)
    requires AsciiPreserving(translit)
    requires forall i :: 0 <= i < |column| ==> IsSpace(column[i]) && IsAscii(column[i])
    ensures PreProcess(translit, column) == None
  {
    assert AllAscii(column);
    WhitespaceOnlyIsNone(translit, column);
  }

  /** `Normalise` computed step by step. */
  lemma NormaliseSteps(s: string, collapsed: string, joined: string, stripped: string,
                       single: string, unquoted: string, v: string)
    requires CollapseSpaces(s) == collapsed
    requires ReplaceNewlines(collapsed) == joined
    requires Strip(joined) == stripped
    requires StripChars(stripped, IsDoubleQuote) == single
    requires StripChars(single, IsSingleQuote) == unquoted
    requires Strip(Lower(unquoted)) == v
    ensures Normalise(s) == v
  {
  }

  /** A value no step of `Normalise` changes. */
  lemma NormaliseFixpoint(v: string)
    requires NoDoubleSpace(v) && AllChars(v, NotNewline) && AllChars(v, NotCapital)
    requires Trimmed(v)
    requires v == [] || (!IsDoubleQuote(v[0]) && !IsDoubleQuote(v[|v| - 1]))
    requires v == [] || (!IsSingleQuote(v[0]) && !IsSingleQuote(v[|v| - 1]))
    ensures Normalise(v) == v
  {
    CollapseSpacesNoop(v);
    assert ReplaceNewlines(v) == v;
    StripTrivial(v);
    LowerStripTrivial(v);
    NormaliseSteps(v, v, v, v, v, v, v);
  }

  /**
   * A normalised value is returned unchanged by a second `preProcess`
   * when the two steps that are not idempotent have nothing left to do:
   * it holds no double space (which the newline step can create) and does
   * not begin or end with a quote (which the fixed stripping order can
   * leave behind).
   */
  lemma PreProcessStable(translit: string -> string, column: string, v: string)
    requires Transliterator(translit)
    requires PreProcess(translit, column) == Some(v)
    requires NoDoubleSpace(v)
    requires !IsDoubleQuote(v[0]) && !IsDoubleQuote(v[|v| - 1])
    requires !IsSingleQuote(v[0]) && !IsSingleQuote(v[|v| - 1])
    ensures PreProcess(translit, v) == Some(v)
  {
    NormaliseShape(translit(column));
    assert translit(v) == v;
    NormaliseFixpoint(v);
  }

  /**
   * On ASCII text the choice of transliterator makes no difference: any two
   * that keep ASCII unchanged give the same `preProcess` result.
   */
  lemma PreProcessAsciiAgrees(t1: string -> string, t2: string -> string, s: string)
    requires AsciiPreserving(t1) && AsciiPreserving(t2) && AllAscii(s)
    ensures PreProcess(t1, s) == PreProcess(t2, s)
  {
    assert t1(s) == s == t2(s);
  }

  // ---------------------------------------------------------------------
  // Worked examples of preProcess
  //
  // The two headline lemmas are NewlineLeavesDoubleSpace and
  // QuoteOrderLeavesQuotes, each built on two PreProcess...Example lemmas.
  // The one-fact lemmas below them evaluate one step of Normalise on one
  // literal each, so that the verifier unfolds each function only a few
  // steps deep; NormaliseSteps then chains the steps together.
  // ---------------------------------------------------------------------

  lemma NormaliseNewlineExample()
    ensures Normalise("a \n b") == "a   b"
  {
    CollapseNewlineExample();
    ReplaceNewlineExample();
    SpacedWordsUnstripped();
    SpacedWordsLowered();
    NormaliseSteps("a \n b", "a \n b", "a   b", "a   b", "a   b", "a   b", "a   b");
  }

  lemma CollapseNewlineExample()
    ensures CollapseSpaces("a \n b") == "a \n b"
  {
    assert NoDoubleSpace("a \n b");
    CollapseSpacesNoop("a \n b");
  }

  lemma ReplaceNewlineExample()
    ensures ReplaceNewlines("a \n b") == "a   b"
  {
  }

  lemma SpacedWordsUnstripped()
    ensures Strip("a   b") == "a   b" && StripChars("a   b", IsDoubleQuote) == "a   b"
    ensures StripChars("a   b", IsSingleQuote) == "a   b"
  {
    StripTrivial("a   b");
  }

  lemma SpacedWordsLowered()
    ensures Strip(Lower("a   b")) == "a   b"
  {
    LowerStripTrivial("a   b");
  }

  lemma CollapseExample()
    ensures CollapseSpaces("a   b") == "a b"
  {
    assert NoDoubleSpace(" b");
    CollapseSpacesNoop(" b");
    assert CollapseSpaces("  b") == " b";
    assert CollapseSpaces("   b") == " b";
    assert "a   b"[1..] == "   b";
  }

  lemma SingleSpaceNoNewline()
    ensures ReplaceNewlines("a b") == "a b"
  {
  }

  lemma SingleSpacedUnstripped()
    ensures Strip("a b") == "a b" && StripChars("a b", IsDoubleQuote) == "a b"
    ensures StripChars("a b", IsSingleQuote) == "a b"
  {
    StripTrivial("a b");
  }

  lemma SingleSpacedLowered()
    ensures Strip(Lower("a b")) == "a b"
  {
    LowerStripTrivial("a b");
  }

  lemma NormaliseCollapseExample()
    ensures Normalise("a   b") == "a b"
  {
    CollapseExample();
    SingleSpaceNoNewline();
    SingleSpacedUnstripped();
    SingleSpacedLowered();
    NormaliseSteps("a   b", "a b", "a b", "a b", "a b", "a b", "a b");
  }

  /** The strips of `Normalise` leave `t` alone. */
  lemma StripTrivial(t: string)
    requires Trimmed(t)
    requires t == [] || (!IsDoubleQuote(t[0]) && !IsDoubleQuote(t[|t| - 1]))
    requires t == [] || (!IsSingleQuote(t[0]) && !IsSingleQuote(t[|t| - 1]))
    ensures Strip(t) == t && StripChars(t, IsDoubleQuote) == t && StripChars(t, IsSingleQuote) == t
  {
    StripCharsNoop(t, IsSpace);
    StripCharsNoop(t, IsDoubleQuote);
    StripCharsNoop(t, IsSingleQuote);
  }

  /** The last steps of `Normalise` leave `t` alone. */
  lemma LowerStripTrivial(t: string)
    requires Trimmed(t) && AllChars(t, NotCapital)
    ensures Strip(Lower(t)) == t
  {
    LowerNoop(t);
    StripCharsNoop(t, IsSpace);
  }

  lemma PreProcessNewlineExample(translit: string -> string)
    requires AsciiPreserving(translit)
    ensures PreProcess(translit, "a \n b") == Some("a   b")
  {
    assert translit("a \n b") == "a \n b" by { assert AllAscii("a \n b"); }
    NormaliseNewlineExample();
  }

  lemma PreProcessCollapseExample(translit: string -> string)
    requires AsciiPreserving(translit)
    ensures PreProcess(translit, "a   b") == Some("a b")
  {
    assert translit("a   b") == "a   b" by { assert AllAscii("a   b"); }
    NormaliseCollapseExample();
  }

  /**
   * Spaces are collapsed before newlines are replaced, so the spaces around
   * a newline survive as a run of three, which only a second pass
   * collapses: `preProcess` is not idempotent.
   */
  lemma NewlineLeavesDoubleSpace(translit: string -> string)
    requires AsciiPreserving(translit)
    ensures PreProcess(translit, "a \n b") == Some("a   b")
    ensures PreProcess(translit, "a   b") == Some("a b")
  {
    PreProcessNewlineExample(translit);
    PreProcessCollapseExample(translit);
  }

  lemma QuotedNoSpaceRun()
    ensures CollapseSpaces("'\"x\"'") == "'\"x\"'"
  {
    assert NoDoubleSpace("'\"x\"'");
    CollapseSpacesNoop("'\"x\"'");
  }

  lemma QuotedNoNewline()
    ensures ReplaceNewlines("'\"x\"'") == "'\"x\"'"
  {
  }

  lemma QuotedNotTrimmed()
    ensures Strip("'\"x\"'") == "'\"x\"'"
  {
    StripCharsNoop("'\"x\"'", IsSpace);
  }

  lemma QuotedKeepsDoubleQuotes()
    ensures StripChars("'\"x\"'", IsDoubleQuote) == "'\"x\"'"
  {
    StripCharsNoop("'\"x\"'", IsDoubleQuote);
  }

  lemma SingleQuotesStripped()
    ensures StripChars("'\"x\"'", IsSingleQuote) == "\"x\""
  {
    assert "'\"x\"'" == ['\''] + "\"x\"" + ['\''];
    StripCharsEnclosed("\"x\"", '\'', IsSingleQuote);
  }

  lemma DoubleQuotedLowered()
    ensures Strip(Lower("\"x\"")) == "\"x\""
  {
    LowerNoop("\"x\"");
    StripCharsNoop("\"x\"", IsSpace);
  }

  lemma NormaliseQuoteExample()
    ensures Normalise("'\"x\"'") == "\"x\""
  {
    QuotedNoSpaceRun();
    QuotedNoNewline();
    QuotedNotTrimmed();
    QuotedKeepsDoubleQuotes();
    SingleQuotesStripped();
    DoubleQuotedLowered();
    NormaliseSteps("'\"x\"'", "'\"x\"'", "'\"x\"'", "'\"x\"'", "'\"x\"'", "\"x\"", "\"x\"");
  }

  lemma DoubleQuotedNoSpaceRun()
    ensures CollapseSpaces("\"x\"") == "\"x\""
  {
    assert NoDoubleSpace("\"x\"");
    CollapseSpacesNoop("\"x\"");
  }

  lemma DoubleQuotedNoNewline()
    ensures ReplaceNewlines("\"x\"") == "\"x\""
  {
  }

  lemma DoubleQuotedNotTrimmed()
    ensures Strip("\"x\"") == "\"x\""
  {
    StripCharsNoop("\"x\"", IsSpace);
  }

  lemma DoubleQuotesStripped()
    ensures StripChars("\"x\"", IsDoubleQuote) == "x"
  {
    assert "\"x\"" == ['"'] + "x" + ['"'];
    StripCharsEnclosed("x", '"', IsDoubleQuote);
  }

  lemma BareUntouched()
    ensures StripChars("x", IsSingleQuote) == "x" && Strip(Lower("x")) == "x"
  {
    StripTrivial("x");
    LowerStripTrivial("x");
  }

  lemma NormaliseUnquoteExample()
    ensures Normalise("\"x\"") == "x"
  {
    DoubleQuotedNoSpaceRun();
    DoubleQuotedNoNewline();
    DoubleQuotedNotTrimmed();
    DoubleQuotesStripped();
    BareUntouched();
    NormaliseSteps("\"x\"", "\"x\"", "\"x\"", "\"x\"", "x", "x", "x");
  }

  lemma PreProcessQuoteExample(translit: string -> string)
    requires AsciiPreserving(translit)
    ensures PreProcess(translit, "'\"x\"'") == Some("\"x\"")
  {
    assert translit("'\"x\"'") == "'\"x\"'" by { assert AllAscii("'\"x\"'"); }
    NormaliseQuoteExample();
  }

  lemma PreProcessUnquoteExample(translit: string -> string)
    requires AsciiPreserving(translit)
    ensures PreProcess(translit, "\"x\"") == Some("x")
  {
    assert translit("\"x\"") == "\"x\"" by { assert AllAscii("\"x\""); }
    NormaliseUnquoteExample();
    assert Normalise(translit("\"x\"")) == "x";
  }

  /**
   * Double quotes are stripped before single quotes, so a double-quoted
   * value inside single quotes keeps its double quotes; a second pass
   * removes them.
   */
  lemma QuoteOrderLeavesQuotes(translit: string -> string)
    requires AsciiPreserving(translit)
    ensures PreProcess(translit, "'\"x\"'") == Some("\"x\"")
    ensures PreProcess(translit, "\"x\"") == Some("x")
  {
    PreProcessQuoteExample(translit);
    PreProcessUnquoteExample(translit);
  }

  // ---------------------------------------------------------------------
  // readData (dedup.py:44-56)
  // ---------------------------------------------------------------------

  /** The column whose raw value keys the record index. */
  const ListingId: string := "listing_id"

  /** A row as `csv.DictReader` yields it: column name to raw text. */
  type Row = map<string, string>

  /** A stored record: column name to normalised value or `None`. */
  type Record = map<string, Option<string>>

  /** `row["listing_id"]` raises `KeyError` for the row at this position. */
  datatype ReadError = MissingListingId(row: nat)

  /** `preProcess` with the transliterator fixed, as a value. */
  function Preprocessor(translit: string -> string): string -> Option<string> {
    v => PreProcess(translit, v)
  }

  /** `dict((k, clean(v)) for (k, v) in row.items())`. */
  function CleanRow(clean: string -> Option<string>, row: Row): (r: Record)
    ensures r.Keys == row.Keys
    ensures forall k :: k in row ==> r[k] == clean(row[k])
  {
    map k | k in row :: clean(row[k])
  }

  /** Every row of `rows` has a `listing_id` column. */
  predicate AllKeyed(rows: seq<Row>) {
    forall j :: 0 <= j < |rows| ==> ListingId in rows[j]
  }

  /** The raw `listing_id` values of `rows`, all of which have one. */
  function Ids(rows: seq<Row>): set<string>
    requires AllKeyed(rows)
  {
    set j | 0 <= j < |rows| :: rows[j][ListingId]
  }

  /**
   * The index the loop of `readData` builds from `rows`, read in order, each
   * row cleaned with `clean`: each row stored under its raw `listing_id`, a
   * later row replacing an earlier one with the same id; the first row
   * without a `listing_id` raises.
   */
  function IndexRecords(clean: string -> Option<string>, rows: seq<Row>): (r: Result<map<string, Record>, ReadError>)
    ensures r.Success? <==> AllKeyed(rows)
    ensures r.Success? ==> r.value.Keys == Ids(rows)
    ensures r.Failure? ==> r.error.row < |rows| && ListingId !in rows[r.error.row] && AllKeyed(rows[..r.error.row])
    decreases |rows|
  {
    if rows == [] then Success(map[])
    else
      var n := |rows| - 1;
      var init := rows[..n];
      assert forall j :: 0 <= j < n ==> init[j] == rows[j];
      match IndexRecords(clean, init)
      case Failure(e) => Failure(e)
      case Success(data) =>
        if ListingId !in rows[n] then Failure(MissingListingId(n))
        else
          assert Ids(rows) == Ids(init) + {rows[n][ListingId]} by {
            forall k | k in Ids(rows) ensures k in Ids(init) + {rows[n][ListingId]} {
              var j :| 0 <= j < |rows| && rows[j][ListingId] == k;
              if j < n { assert init[j][ListingId] == k; }
            }
          }
          Success(data[rows[n][ListingId] := CleanRow(clean, rows[n])])
  }

  /** What `readData` returns for the rows of its input file. */
  function ReadRecords(translit: string -> string, rows: seq<Row>): Result<map<string, Record>, ReadError> {
    IndexRecords(Preprocessor(translit), rows)
  }

  /**
   * The loop of `readData` (lines 52-55): clean each row and store it
   * under its raw `listing_id`, overwriting an earlier entry.
   */
  method IndexRows(clean: string -> Option<string>, rows: seq<Row>) returns (result: Result<map<string, Record>, ReadError>)
    ensures result == IndexRecords(clean, rows)
  {
    var data: map<string, Record> := map[];
    var i := 0;
    while i < |rows|
      invariant 0 <= i <= |rows|
      invariant IndexRecords(clean, rows[..i]) == Success(data)
    {
      var cleanRow := CleanRow(clean, rows[i]);
      if ListingId !in rows[i] {
        ReadFailsAt(clean, rows, i);
        return Failure(MissingListingId(i));
      }
      assert rows[..i + 1][..i] == rows[..i];
      data := data[rows[i][ListingId] := cleanRow];
      i := i + 1;
    }
    assert rows[..i] == rows;
    return Success(data);
  }

  /** `readData` on the rows of the input file, cleaning with `preProcess`. */
  method ReadData(translit: string -> string, rows: seq<Row>) returns (result: Result<map<string, Record>, ReadError>)
    ensures result == ReadRecords(translit, rows)
  {
    result := IndexRows(Preprocessor(translit), rows);
  }

  /** Reading stops at the first row without a `listing_id`. */
  lemma {:induction false} ReadFailsAt(clean: string -> Option<string>, rows: seq<Row>, i: nat)
    requires i < |rows| && ListingId !in rows[i] && AllKeyed(rows[..i])
    ensures IndexRecords(clean, rows) == Failure(MissingListingId(i))
    decreases |rows|
  {
    var n := |rows| - 1;
    if i < n {
      assert rows[..n][..i] == rows[..i];
      ReadFailsAt(clean, rows[..n], i);
    } else {
      assert rows[..n] == rows[..i];
    }
  }

  /** The record stored under an id is the last row with that id, cleaned. */
  lemma {:induction false} IndexRecordsLastWins(clean: string -> Option<string>, rows: seq<Row>, j: nat)
    requires IndexRecords(clean, rows).Success?
    requires j < |rows|
    requires forall j' :: j < j' < |rows| ==> rows[j'][ListingId] != rows[j][ListingId]
    ensures IndexRecords(clean, rows).value[rows[j][ListingId]] == CleanRow(clean, rows[j])
    decreases |rows|
  {
    var n := |rows| - 1;
    if j < n {
      IndexRecordsLastWins(clean, rows[..n], j);
    }
  }

  /**
   * `readData`'s record for an id has the columns of the last row with that
   * id, each value that row's raw value preprocessed.
   */
  lemma ReadRecordsLastWins(translit: string -> string, rows: seq<Row>, j: nat)
    requires ReadRecords(translit, rows).Success?
    requires j < |rows|
    requires forall j' :: j < j' < |rows| ==> rows[j'][ListingId] != rows[j][ListingId]
    ensures var record := ReadRecords(translit, rows).value[rows[j][ListingId]];
            && record.Keys == rows[j].Keys
            && forall k :: k in rows[j] ==> record[k] == PreProcess(translit, rows[j][k])
  {
    IndexRecordsLastWins(Preprocessor(translit), rows, j);
  }

  // ---------------------------------------------------------------------
  // defineFields (dedup.py:59-63)
  // ---------------------------------------------------------------------

  /** `dedupe.variables.String(field, has_missing=...)`. */
  datatype FieldDefinition = StringField(field: string, hasMissing: bool)

  /** The field names of a list of definitions. */
  function FieldNames(definitions: seq<FieldDefinition>): (names: seq<string>)
    ensures |names| == |definitions|
    ensures forall i :: 0 <= i < |names| ==> names[i] == definitions[i].field
  {
    seq(|definitions|, i requires 0 <= i < |definitions| => definitions[i].field)
  }

  /** One string definition per field, in order, each allowing missing values. */
  method DefineFields(fields: seq<string>) returns (definitions: seq<FieldDefinition>)
    ensures FieldNames(definitions) == fields
    ensures forall i :: 0 <= i < |definitions| ==> definitions[i] == StringField(definitions[i].field, true)
  {
    definitions := [];
    for i := 0 to |fields|
      invariant FieldNames(definitions) == fields[..i]
      invariant forall k :: 0 <= k < |definitions| ==> definitions[k] == StringField(definitions[k].field, true)
    {
      definitions := definitions + [StringField(fields[i], true)];
    }
  }

  // ---------------------------------------------------------------------
  // setup (dedup.py:66-101)
  // ---------------------------------------------------------------------

  /** Which of the files `setup` is given exist when it starts. */
  datatype Files = Files(inputExists: bool, settingsExists: bool, trainingExists: bool)

  /** A step `setup` asks of the record-linkage library, in the order asked. */
  datatype Action =
    | LoadStaticModel                              // dedupe.StaticDedupe(settings)
    | CreateModel                                  // dedupe.Dedupe(fields)
    | PrepareTraining(withLabelledExamples: bool)  // deduper.prepare_training(data_d[, training])
    | ConsoleLabel                                 // dedupe.console_label(deduper)
    | Train                                        // deduper.train()
    | WriteTraining                                // deduper.write_training(training)
    | WriteSettings                                // deduper.write_settings(settings)
    | Match(threshold: real)                       // deduper.match(data_d, threshold)

  /** The steps that learn a model or write what was learnt. */
  predicate Learns(a: Action) {
    a.CreateModel? || a.PrepareTraining? || a.ConsoleLabel? || a.Train? || a.WriteTraining? || a.WriteSettings?
  }

  /** The assertion on the input file fails, or `readData` raises. */
  datatype SetupError = InputFileNotFound | ReadFailed(cause: ReadError)

  /** The threshold `setup` always passes to `match`. */
  const MatchThreshold: real := 0.5

  /** The records `setup` read and the library steps it took, in order. */
  datatype Run = Run(records: map<string, Record>, actions: seq<Action>)

  /** The learning steps of a run without settings, in the order they happen. */
  function TrainingSteps(files: Files): seq<Action> {
    [PrepareTraining(files.trainingExists), ConsoleLabel, Train, WriteTraining, WriteSettings]
  }

  /**
   * The library steps of `setup` once the records are read: either load
   * the static model from the settings file, or create a model, prepare
   * training (with the labelled examples when the training file exists),
   * label, train and write both files; finally match at 0.5.
   */
  function SetupActions(files: Files): (a: seq<Action>)
    ensures a != [] && a[|a| - 1] == Match(MatchThreshold)
    ensures forall i :: 0 <= i < |a| - 1 ==> !a[i].Match?
    ensures LoadStaticModel in a <==> files.settingsExists
    ensures files.settingsExists ==> forall i :: 0 <= i < |a| ==> !Learns(a[i])
    ensures !files.settingsExists ==> IsSubsequence(TrainingSteps(files) + [Match(MatchThreshold)], a)
    ensures !files.settingsExists ==> a[0] == CreateModel && |a| == |TrainingSteps(files)| + 2
    ensures files.settingsExists ==> a[0] == LoadStaticModel && |a| == 2
  {
    if files.settingsExists then [LoadStaticModel, Match(MatchThreshold)]
    else
      var steps := [CreateModel] + TrainingSteps(files) + [Match(MatchThreshold)];
      assert steps[1..] == TrainingSteps(files) + [Match(MatchThreshold)];
      SubsequenceOfTail(TrainingSteps(files) + [Match(MatchThreshold)], steps);
      steps
  }

  /**
   * `setup` on an input file holding `rows`: the assertion that the input
   * exists, `readData`, then the library steps.
   */
  function Setup(translit: string -> string, files: Files, rows: seq<Row>): (r: Result<Run, SetupError>)
    ensures !files.inputExists ==> r == Failure(InputFileNotFound)
    ensures files.inputExists ==> (r.Success? <==> ReadRecords(translit, rows).Success?)
    ensures files.inputExists && r.Failure? ==> r.error == ReadFailed(ReadRecords(translit, rows).error)
    ensures r.Success? ==> r.value.records == ReadRecords(translit, rows).value
    ensures r.Success? ==> r.value.actions == SetupActions(files)
  {
    if !files.inputExists then Failure(InputFileNotFound)
    else
      match ReadRecords(translit, rows)
      case Failure(e) => Failure(ReadFailed(e))
      case Success(data) => Success(Run(data, SetupActions(files)))
  }

  /** Dropping the first element of `b` leaves a sequence `b` contains. */
  lemma {:induction false} SubsequenceOfTail<T>(a: seq<T>, b: seq<T>)
    requires b != [] && a == b[1..]
    ensures IsSubsequence(a, b)
    decreases |b|
  {
    if |b| > 1 {
      var n := |b| - 1;
      assert b[..n][1..] == a[..|a| - 1];
      SubsequenceOfTail(a[..|a| - 1], b[..n]);
    }
  }

  /** The files after a run: a run that trains writes both the settings and the training file. */
  function FilesAfter(files: Files, run: Run): Files {
    files.(settingsExists := files.settingsExists || WriteSettings in run.actions,
           trainingExists := files.trainingExists || WriteTraining in run.actions)
  }

  /**
   * A run that trains leaves a settings file behind, so running `setup`
   * again on the same input loads the static model and learns nothing.
   */
  lemma SecondRunIsStatic(translit: string -> string, files: Files, rows: seq<Row>)
    requires Setup(translit, files, rows).Success?
    ensures var again := Setup(translit, FilesAfter(files, Setup(translit, files, rows).value), rows);
            && again.Success?
            && again.value.actions == [LoadStaticModel, Match(MatchThreshold)]
  {
    var run := Setup(translit, files, rows).value;
    if !files.settingsExists {
      assert run.actions[5] == WriteSettings;
    }
  }

  // ---------------------------------------------------------------------
  // writeResults (dedup.py:104-111)
  // ---------------------------------------------------------------------

  /** The entry `writeResults` stores for a record. */
  datatype Membership<S> = Membership(clusterId: nat, confidenceScore: S)

  /** One item of `clustered_dupes`: record ids and their scores. */
  datatype Cluster<S> = Cluster(records: seq<string>, scores: seq<S>)

  /** How many pairs `zip(records, scores)` yields. */
  function ZipLength<S>(c: Cluster<S>): (n: nat)
    ensures n <= |c.records| && n <= |c.scores|
    ensures n == |c.records| || n == |c.scores|
  {
    if |c.records| <= |c.scores| then |c.records| else |c.scores|
  }

  /** Pair `j` of cluster `i` exists: `zip` yields it. */
  predicate Occurs<S>(clusters: seq<Cluster<S>>, i: nat, j: nat) {
    i < |clusters| && j < ZipLength(clusters[i])
  }

  /** Every record id `zip` yields, over all clusters. */
  function ZippedIds<S>(clusters: seq<Cluster<S>>): set<string> {
    set i, j | 0 <= i < |clusters| && 0 <= j < ZipLength(clusters[i]) :: clusters[i].records[j]
  }

  /** The first `n` writes of the inner loop, into `m`, for cluster `clusterId`. */
  function AssignPairs<S>(m: map<string, Membership<S>>, clusterId: nat, c: Cluster<S>, n: nat): (r: map<string, Membership<S>>)
    requires n <= ZipLength(c)
    ensures r.Keys == m.Keys + set j | 0 <= j < n :: c.records[j]
  {
    if n == 0 then m
    else AssignPairs(m, clusterId, c, n - 1)[c.records[n - 1] := Membership(clusterId, c.scores[n - 1])]
  }

  /** `cluster_membership` after the loops of `writeResults` over `clusters`. */
  function Memberships<S>(clusters: seq<Cluster<S>>): (r: map<string, Membership<S>>)
    ensures r.Keys == ZippedIds(clusters)
    decreases |clusters|
  {
    if clusters == [] then map[]
    else
      var n := |clusters| - 1;
      var init := clusters[..n];
      var r := AssignPairs(Memberships(init), n, clusters[n], ZipLength(clusters[n]));
      assert ZippedIds(clusters) == ZippedIds(init) + set j | 0 <= j < ZipLength(clusters[n]) :: clusters[n].records[j] by {
        forall k | k in ZippedIds(clusters)
          ensures k in ZippedIds(init) + set j | 0 <= j < ZipLength(clusters[n]) :: clusters[n].records[j]
        {
          var i, j :| 0 <= i < |clusters| && 0 <= j < ZipLength(clusters[i]) && clusters[i].records[j] == k;
          if i < n { assert init[i] == clusters[i]; }
        }
        forall k | k in ZippedIds(init) ensures k in ZippedIds(clusters) {
          var i, j :| 0 <= i < |init| && 0 <= j < ZipLength(init[i]) && init[i].records[j] == k;
          assert clusters[i] == init[i];
        }
      }
      r
  }

  /**
   * The membership map of `writeResults`: for each cluster, in order, each
   * record paired with a score is stored with the cluster's position and
   * that score, a later write replacing an earlier one.
   */
  method WriteResults<S>(clusters: seq<Cluster<S>>) returns (membership: map<string, Membership<S>>)
    ensures membership == Memberships(clusters)
  {
    membership := map[];
    for i := 0 to |clusters|
      invariant membership == Memberships(clusters[..i])
    {
      var before := membership;
      var c := clusters[i];
      for j := 0 to ZipLength(c)
        invariant membership == AssignPairs(before, i, c, j)
      {
        membership := membership[c.records[j] := Membership(i, c.scores[j])];
      }
      assert clusters[..i + 1][..i] == clusters[..i];
    }
    assert clusters[..|clusters|] == clusters;
  }

  /** The pair `(i, j)` is the last one `zip` yields for its record id. */
  predicate LastOccurrence<S>(clusters: seq<Cluster<S>>, i: nat, j: nat)
    requires Occurs(clusters, i, j)
  {
    && (forall j' :: j < j' < ZipLength(clusters[i]) ==> clusters[i].records[j'] != clusters[i].records[j])
    && (forall i', j' :: i < i' < |clusters| && 0 <= j' < ZipLength(clusters[i']) ==> clusters[i'].records[j'] != clusters[i].records[j])
  }

  /** The last write within one cluster is the one that stays. */
  lemma {:induction false} AssignPairsLastWins<S>(m: map<string, Membership<S>>, clusterId: nat, c: Cluster<S>, n: nat, j: nat)
    requires j < n <= ZipLength(c)
    requires forall j' :: j < j' < n ==> c.records[j'] != c.records[j]
    ensures AssignPairs(m, clusterId, c, n)[c.records[j]] == Membership(clusterId, c.scores[j])
    decreases n
  {
    if j < n - 1 {
      AssignPairsLastWins(m, clusterId, c, n - 1, j);
    }
  }

  /** Writes within one cluster leave the other record ids alone. */
  lemma {:induction false} AssignPairsElsewhere<S>(m: map<string, Membership<S>>, clusterId: nat, c: Cluster<S>, n: nat, k: string)
    requires n <= ZipLength(c) && k in m
    requires forall j :: 0 <= j < n ==> c.records[j] != k
    ensures AssignPairs(m, clusterId, c, n)[k] == m[k]
    decreases n
  {
    if n > 0 {
      AssignPairsElsewhere(m, clusterId, c, n - 1, k);
    }
  }

  /**
   * A record maps to the position of the last cluster that pairs it with a
   * score, and to the score it is paired with there.
   */
  lemma {:induction false} MembershipsLastWins<S>(clusters: seq<Cluster<S>>, i: nat, j: nat)
    requires Occurs(clusters, i, j) && LastOccurrence(clusters, i, j)
    ensures Memberships(clusters)[clusters[i].records[j]] == Membership(i, clusters[i].scores[j])
    decreases |clusters|
  {
    var n := |clusters| - 1;
    var init := clusters[..n];
    var k := clusters[i].records[j];
    var last := clusters[n];
    assert Memberships(clusters) == AssignPairs(Memberships(init), n, last, ZipLength(last));
    if i == n {
      AssignPairsLastWins(Memberships(init), n, last, ZipLength(last), j);
    } else {
      assert init[i] == clusters[i];
      assert LastOccurrence(init, i, j) by {
        forall i', j' | i < i' < |init| && 0 <= j' < ZipLength(init[i']) ensures init[i'].records[j'] != k {
          assert init[i'] == clusters[i'];
        }
      }
      MembershipsLastWins(init, i, j);
      assert forall j' :: 0 <= j' < ZipLength(last) ==> last.records[j'] != k;
      AssignPairsElsewhere(Memberships(init), n, last, ZipLength(last), k);
    }
  }

  /** `zip` stops at the shorter list: a record without a score is not written. */
  lemma ZipDropsUnscored<S>(score: S)
    ensures Memberships([Cluster(["a", "b"], [score])]) == map["a" := Membership(0, score)]
  {
    var clusters := [Cluster(["a", "b"], [score])];
    assert clusters[..0] == [];
    assert ZipLength(clusters[0]) == 1;
  }

  /** A record in two clusters keeps the entry of the later one. */
  lemma LaterClusterOverwrites<S>(first: S, second: S)
    ensures Memberships([Cluster(["a"], [first]), Cluster(["a"], [second])]) == map["a" := Membership(1, second)]
  {
    var clusters := [Cluster(["a"], [first]), Cluster(["a"], [second])];
    assert clusters[..1] == [clusters[0]];
    assert clusters[..1][..0] == [];
  }
}
