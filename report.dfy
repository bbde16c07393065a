/**
 * The evidence table of the evidentiary memo (report.py): the transcript
 * indexed by turn, quote shortening and pipe escaping for Markdown cells, the
 * merge of rule and judge evidence rows, their sort by (turn, source) and the
 * table lines built from them.
 */
module Report {
  import opened Wrappers
  import opened Text
  import opened Turns
  import opened Features
  import opened Judges

  // ---------------------------------------------------------------------------
  // `_row_by_turn`
  // ---------------------------------------------------------------------------

  type TurnIndex = map<int, Row>

  /** The index `_row_by_turn` builds: rows with an integer turn, a later row winning. */
  function Index(rows: seq<Row>): TurnIndex {
    if rows == [] then map[]
    else
      var m := Index(rows[..|rows| - 1]);
      var r := rows[|rows| - 1];
      if r.turnIndex.Some? then m[r.turnIndex.value := r] else m
  }

  /** report.py `_row_by_turn` */
  method RowByTurn(rows: seq<Row>) returns (out: TurnIndex)
    ensures out == Index(rows)
  {
    out := map[];
    var i := 0;
    while i < |rows|
      invariant 0 <= i <= |rows|
      invariant out == Index(rows[..i])
    {
      assert rows[..i + 1][..i] == rows[..i];
      var ti := rows[i].turnIndex;
      if ti.Some? {
        out := out[ti.value := rows[i]];
      }
      i := i + 1;
    }
    assert rows[..|rows|] == rows;
  }

  /** Row `j` is the last row of `rows` that carries turn `t`. */
  predicate LastWith(rows: seq<Row>, t: int, j: int) {
    0 <= j < |rows| && rows[j].turnIndex == Some(t) &&
    forall k :: j < k < |rows| ==> rows[k].turnIndex != Some(t)
  }

  /** A turn is indexed exactly when some row carries it, and it maps to the last such row. */
  lemma {:induction false} IndexSpec(rows: seq<Row>, t: int)
    ensures t in Index(rows) <==> exists j :: 0 <= j < |rows| && rows[j].turnIndex == Some(t)
    ensures t in Index(rows) ==> exists j :: LastWith(rows, t, j) && Index(rows)[t] == rows[j]
  {
    if rows != [] {
      var n := |rows| - 1;
      var p := rows[..n];
      IndexSpec(p, t);
      forall j | 0 <= j < n ensures rows[j] == p[j] { }
      if rows[n].turnIndex == Some(t) {
        assert LastWith(rows, t, n);
      } else if t in Index(p) {
        var j :| LastWith(p, t, j) && Index(p)[t] == p[j];
        assert LastWith(rows, t, j);
      } else {
        forall j | 0 <= j < |rows| ensures rows[j].turnIndex != Some(t) {
          if j < n {
            assert p[j].turnIndex != Some(t);
          }
        }
      }
    }
  }

  /** `str(turns.get(ti, {}).get("content") or "")` */
  function ContentAt(turns: TurnIndex, t: int): string {
    if t in turns then turns[t].content else ""
  }

  // ---------------------------------------------------------------------------
  // `_short_quote` and `_md_escape_pipe`
  // ---------------------------------------------------------------------------

  /** The default `limit` of `_short_quote`, the one the table uses. */
  const Limit := 160

  /** The suffix line 19 appends: the UTF-8 bytes of U+2026 read back as cp1252. */
  const MojibakeEllipsis: string := ['\U{e2}', '\U{20ac}', '\U{a6}']

  /** The one-character ellipsis U+2026 that the suffix stands for. */
  const Ellipsis: string := ['\U{2026}']

  /** `(text or "").strip().replace("\n", " ")` */
  function Flatten(text: string): string {
    ReplaceChar(Strip(text), '\n', [' '])
  }

  /** `_short_quote` with the suffix as a parameter. */
  function Shorten(text: string, limit: int, suffix: string): string {
    Cut(Flatten(text), limit, suffix)
  }

  /** `t` when it fits in `limit`, else `t[:limit - 1].rstrip() + suffix`. */
  function Cut(t: string, limit: int, suffix: string): string {
    if |t| <= limit then t else RStrip(SliceTo(t, limit - 1)) + suffix
  }

  /** report.py `_short_quote` as written, with the three-character suffix. */
  function ShortQuoteAsWritten(text: string, limit: int): string {
    Shorten(text, limit, MojibakeEllipsis)
  }

  /** `_short_quote` with the one-character ellipsis it evidently means (see `CellOverruns`). */
  function ShortQuote(text: string, limit: int): string {
    Shorten(text, limit, Ellipsis)
  }

  /** The flattened text has no newline, keeps the stripped length and has no whitespace at its ends. */
  lemma FlattenSpec(text: string)
    ensures '\n' !in Flatten(text)
    ensures |Flatten(text)| == |Strip(text)|
    ensures Flatten(text) == [] || (!IsSpace(Flatten(text)[0]) && !IsSpace(Flatten(text)[|Flatten(text)| - 1]))
  {
    ReplaceCharAt(Strip(text), '\n', ' ');
    StripEnds(text);
  }

  /** The kept part of a cut: a right-stripped prefix of `t`, shorter than `limit`. */
  lemma CutPrefix(t: string, limit: int)
    requires |t| > limit
    ensures RStrip(SliceTo(t, limit - 1)) <= t
    ensures RStrip(SliceTo(t, limit - 1)) == [] || !IsSpace(RStrip(SliceTo(t, limit - 1))[|RStrip(SliceTo(t, limit - 1))| - 1])
    ensures limit >= 1 ==> |RStrip(SliceTo(t, limit - 1))| < limit
  {
  }

  /** Cutting adds no newline. */
  lemma CutNoNewline(t: string, limit: int, suffix: string)
    requires '\n' !in t && '\n' !in suffix
    ensures '\n' !in Cut(t, limit, suffix)
  {
    if |t| > limit {
      var p := RStrip(SliceTo(t, limit - 1));
      CutPrefix(t, limit);
      forall i | 0 <= i < |p| ensures p[i] != '\n' {
        assert p[i] == t[i];
      }
    }
  }

  /**
   * What `_short_quote` does to the flattened text `t` for any suffix: `t`
   * itself when it fits, otherwise a right-stripped prefix of `t` shorter than
   * `limit`, then the suffix.
   */
  lemma CutSpec(t: string, limit: int, suffix: string)
    ensures '\n' !in t && '\n' !in suffix ==> '\n' !in Cut(t, limit, suffix)
    ensures |t| <= limit ==> Cut(t, limit, suffix) == t
    ensures |t| > limit ==>
      var r := Cut(t, limit, suffix);
      var p := r[..|r| - |suffix|];
      |r| >= |suffix| && r[|r| - |suffix|..] == suffix && p <= t &&
      (p == [] || !IsSpace(p[|p| - 1])) && (limit >= 1 ==> |p| < limit)
  {
    if '\n' !in t && '\n' !in suffix {
      CutNoNewline(t, limit, suffix);
    }
    if |t| > limit {
      var p := RStrip(SliceTo(t, limit - 1));
      var r := p + suffix;
      CutPrefix(t, limit);
      assert r[..|r| - |suffix|] == p;
      assert r[|r| - |suffix|..] == suffix;
    }
  }

  /**
   * The corrected `_short_quote`: no newline, at most `limit` characters, the
   * flattened text itself when it fits, otherwise a prefix of it and U+2026.
   */
  lemma ShortQuoteSpec(text: string, limit: int)
    requires limit >= 1
    ensures '\n' !in ShortQuote(text, limit)
    ensures |ShortQuote(text, limit)| <= limit
    ensures |Flatten(text)| <= limit ==> ShortQuote(text, limit) == Flatten(text)
    ensures |Flatten(text)| > limit ==>
      var r := ShortQuote(text, limit);
      |r| > 0 && r[..|r| - 1] <= Flatten(text) && r[|r| - 1] == '\U{2026}'
  {
    CutSpec(Flatten(text), limit, Ellipsis);
    FlattenSpec(text);
    var r := ShortQuote(text, limit);
    if |Flatten(text)| > limit {
      assert r[|r| - 1..] == Ellipsis;
      assert r[|r| - 1] == r[|r| - 1..][0];
    }
  }

  /**
   * A quote with no newline, no whitespace at its ends and at most `limit`
   * characters comes back unchanged, whatever the suffix.
   */
  lemma ShortQuoteFixed(text: string, limit: int)
    requires '\n' !in text && |text| <= limit
    requires text == [] || (!IsSpace(text[0]) && !IsSpace(text[|text| - 1]))
    ensures ShortQuote(text, limit) == text
    ensures ShortQuoteAsWritten(text, limit) == text
  {
    ShortenFixed(text, limit, Ellipsis);
    ShortenFixed(text, limit, MojibakeEllipsis);
  }

  lemma ShortenFixed(text: string, limit: int, suffix: string)
    requires '\n' !in text && |text| <= limit
    requires text == [] || (!IsSpace(text[0]) && !IsSpace(text[|text| - 1]))
    ensures Shorten(text, limit, suffix) == text
  {
    FlattenFixed(text);
  }

  /** Shortening a shortened quote changes nothing. */
  lemma ShortQuoteIdempotent(text: string, limit: int)
    requires limit >= 1
    ensures ShortQuote(ShortQuote(text, limit), limit) == ShortQuote(text, limit)
  {
    var t := Flatten(text);
    var r := ShortQuote(text, limit);
    ShortQuoteSpec(text, limit);
    CutSpec(t, limit, Ellipsis);
    FlattenSpec(text);
    if |t| > limit {
      var p := r[..|r| - 1];
      assert r == p + Ellipsis;
      assert p != [] ==> p[0] == t[0];
      assert !IsSpace('\U{2026}');
    }
    ShortQuoteFixed(r, limit);
  }

  /**
   * As written, shortening again changes nothing for a text that was not cut;
   * a cut text can be longer than `limit` and is then cut again.
   */
  lemma ShortQuoteAsWrittenStable(text: string, limit: int)
    requires |Flatten(text)| <= limit
    ensures ShortQuoteAsWritten(ShortQuoteAsWritten(text, limit), limit) == ShortQuoteAsWritten(text, limit)
  {
    FlattenSpec(text);
    CutSpec(Flatten(text), limit, MojibakeEllipsis);
    ShortQuoteFixed(Flatten(text), limit);
  }

  /** `_short_quote` as written: no newline, and up to two characters over `limit`. */
  lemma ShortQuoteAsWrittenBound(text: string, limit: int)
    requires limit >= 1
    ensures '\n' !in ShortQuoteAsWritten(text, limit)
    ensures |ShortQuoteAsWritten(text, limit)| <= limit + 2
  {
    CutSpec(Flatten(text), limit, MojibakeEllipsis);
    FlattenSpec(text);
  }

  /** Text with no newline and no whitespace at its ends is its own flattening. */
  lemma FlattenFixed(text: string)
    requires '\n' !in text
    requires text == [] || (!IsSpace(text[0]) && !IsSpace(text[|text| - 1]))
    ensures Flatten(text) == text
  {
    StripFixed(text);
    ReplaceCharAt(text, '\n', ' ');
  }

  /** A run of `limit + 1` letters loses one letter and gains the three-character suffix. */
  lemma LettersOverrun(text: string, limit: int)
    requires limit >= 1 && |text| == limit + 1
    requires forall i :: 0 <= i < |text| ==> text[i] == 'a'
    ensures |ShortQuoteAsWritten(text, limit)| == limit + 2
  {
    assert !IsSpace('a');
    FlattenFixed(text);
    var p := text[..limit - 1];
    assert SliceTo(text, limit - 1) == p;
    assert p == [] || p[|p| - 1] == 'a';
    assert RStrip(p) == p;
    assert Cut(text, limit, MojibakeEllipsis) == p + MojibakeEllipsis;
  }

  /** As written, `limit + 1` letters come back as `limit + 2` characters: the bound is exceeded. */
  lemma ShortQuoteAsWrittenOverruns(limit: int)
    requires limit >= 1
    ensures |ShortQuoteAsWritten(seq(limit + 1, _ => 'a'), limit)| == limit + 2
  {
    LettersOverrun(seq(limit + 1, _ => 'a'), limit);
  }

  /** report.py `_md_escape_pipe`: every `|` becomes `\|`. */
  function EscapePipe(text: string): string {
    ReplaceChar(text, '|', ['\\', '|'])
  }

  /** The inverse of `EscapePipe`: `\|` reads back as `|`. */
  function UnescapePipe(s: string): string {
    if |s| >= 2 && s[0] == '\\' && s[1] == '|' then ['|'] + UnescapePipe(s[2..])
    else if s == [] then []
    else [s[0]] + UnescapePipe(s[1..])
  }

  /** Every `|` in `s` follows a backslash, so it cannot end a Markdown table cell. */
  predicate Guarded(s: string) {
    forall i :: 0 <= i < |s| && s[i] == '|' ==> 0 < i && s[i - 1] == '\\'
  }

  /** An escaped text never starts with a bare `|`. */
  lemma EscapeHead(text: string)
    ensures EscapePipe(text) == [] || EscapePipe(text)[0] != '|'
  {
  }

  /** Escaping then unescaping gives the text back. */
  lemma {:induction false} EscapeRoundTrip(text: string)
    ensures UnescapePipe(EscapePipe(text)) == text
  {
    if text != [] {
      var rest := EscapePipe(text[1..]);
      EscapeRoundTrip(text[1..]);
      EscapeHead(text[1..]);
      if text[0] == '|' {
        assert EscapePipe(text) == ['\\', '|'] + rest;
        assert (['\\', '|'] + rest)[2..] == rest;
      } else {
        assert EscapePipe(text) == [text[0]] + rest;
        assert ([text[0]] + rest)[1..] == rest;
      }
    }
  }

  /** The escaped text is guarded and one character longer per `|`. */
  lemma {:induction false} EscapeSpec(text: string)
    ensures Guarded(EscapePipe(text))
    ensures |EscapePipe(text)| == |text| + Count(text, '|')
  {
    if text != [] {
      var rest := EscapePipe(text[1..]);
      EscapeSpec(text[1..]);
      EscapeHead(text[1..]);
      CountFront(text, '|');
      var head: string := if text[0] == '|' then ['\\', '|'] else [text[0]];
      var r := head + rest;
      assert EscapePipe(text) == r;
      forall i | 0 <= i < |r| && r[i] == '|' ensures 0 < i && r[i - 1] == '\\' {
        if i >= |head| {
          assert r[i] == rest[i - |head|];
          if i > |head| {
            assert r[i - 1] == rest[i - 1 - |head|];
          }
        }
      }
    }
  }

  /** `Count` read from the front. */
  lemma {:induction false} CountFront(s: string, c: char)
    requires s != []
    ensures Count(s, c) == (if s[0] == c then 1 else 0) + Count(s[1..], c)
  {
    if |s| > 1 {
      var n := |s| - 1;
      CountFront(s[..n], c);
      assert s[..n][1..] == s[1..][..n - 1];
      assert s[..n][0] == s[0];
      assert s[1..][n - 1] == s[n];
    } else {
      assert s[..0] == [] && s[1..] == [];
    }
  }

  // ---------------------------------------------------------------------------
  // Evidence rows (`build_memo_markdown`, lines 47-85)
  // ---------------------------------------------------------------------------

  /** Where an evidence row comes from. */
  datatype Source = JudgeSource | RuleSource

  /** The `source` field of a row. */
  function SourceName(s: Source): string {
    match s
    case JudgeSource => "judge"
    case RuleSource => "rule"
  }

  /** The place of a source in Python's string order, where "judge" < "rule". */
  function SourceRank(s: Source): nat {
    match s
    case JudgeSource => 0
    case RuleSource => 1
  }

  datatype EvidenceRow = EvidenceRow(turn: int, quote: string, why: string, source: Source)

  const JudgeWhy := "Judge cited this turn as supporting its assessment."

  /** `f"Rule based feature present: {feat}."` */
  function RuleWhy(f: FeatureName): string {
    "Rule based feature present: " + Key(f) + "."
  }

  /** The row a rule snippet at turn `t` gives: an empty quote falls back to the turn's content. */
  function RuleRow(s: Snippet, t: int, turns: TurnIndex): EvidenceRow {
    EvidenceRow(t, if s.quote != [] then s.quote else ContentAt(turns, t), RuleWhy(s.feature), RuleSource)
  }

  /** The rule rows of lines 52-65: snippets without an integer turn are skipped. */
  function RuleRows(snips: seq<Snippet>, turns: TurnIndex): seq<EvidenceRow> {
    if snips == [] then []
    else
      var s := snips[|snips| - 1];
      RuleRows(snips[..|snips| - 1], turns) + (if s.turnIndex.Some? then [RuleRow(s, s.turnIndex.value, turns)] else [])
  }

  /** The set `existing_turns` of line 68. */
  function RowTurns(rows: seq<EvidenceRow>): set<int> {
    set r | r in rows :: r.turn
  }

  /** The row a judge citation of turn `t` gives. */
  function JudgeRow(t: int, turns: TurnIndex): EvidenceRow {
    EvidenceRow(t, ContentAt(turns, t), JudgeWhy, JudgeSource)
  }

  /** The judge rows of lines 69-82: one per citation of a turn outside `existing`. */
  function JudgeRows(cited: seq<int>, existing: set<int>, turns: TurnIndex): seq<EvidenceRow> {
    if cited == [] then []
    else
      var t := cited[|cited| - 1];
      JudgeRows(cited[..|cited| - 1], existing, turns) + (if t in existing then [] else [JudgeRow(t, turns)])
  }

  /** `evidence_rows` before the sort: the rule rows, then the judge rows. */
  function Merged(snips: seq<Snippet>, cited: seq<int>, turns: TurnIndex): seq<EvidenceRow> {
    var rule := RuleRows(snips, turns);
    rule + JudgeRows(cited, RowTurns(rule), turns)
  }

  /** Rule rows: lines 52-65. */
  method CollectRuleRows(snips: seq<Snippet>, turns: TurnIndex) returns (rows: seq<EvidenceRow>)
    ensures rows == RuleRows(snips, turns)
  {
    rows := [];
    var i := 0;
    while i < |snips|
      invariant 0 <= i <= |snips|
      invariant rows == RuleRows(snips[..i], turns)
    {
      assert snips[..i + 1][..i] == snips[..i];
      var s := snips[i];
      if s.turnIndex.Some? {
        var ti := s.turnIndex.value;
        var quote := if s.quote != [] then s.quote else ContentAt(turns, ti);
        rows := rows + [EvidenceRow(ti, quote, RuleWhy(s.feature), RuleSource)];
      }
      i := i + 1;
    }
    assert snips[..|snips|] == snips;
  }

  /** Judge rows: lines 68-82, appended to `rows`. */
  method AddJudgeRows(rows: seq<EvidenceRow>, cited: seq<int>, turns: TurnIndex) returns (out: seq<EvidenceRow>)
    ensures out == rows + JudgeRows(cited, RowTurns(rows), turns)
  {
    var existing := set r | r in rows :: r.turn;
    out := rows;
    var i := 0;
    while i < |cited|
      invariant 0 <= i <= |cited|
      invariant out == rows + JudgeRows(cited[..i], existing, turns)
    {
      assert cited[..i + 1][..i] == cited[..i];
      var ti := cited[i];
      if ti !in existing {
        out := out + [EvidenceRow(ti, ContentAt(turns, ti), JudgeWhy, JudgeSource)];
      }
      i := i + 1;
    }
    assert cited[..|cited|] == cited;
  }

  /** Every rule row comes from a snippet with an integer turn, and every such snippet gives one. */
  lemma {:induction false} RuleRowsSpec(snips: seq<Snippet>, turns: TurnIndex)
    ensures forall r :: r in RuleRows(snips, turns) <==>
      exists k :: 0 <= k < |snips| && snips[k].turnIndex.Some? && r == RuleRow(snips[k], snips[k].turnIndex.value, turns)
  {
    if snips != [] {
      var n := |snips| - 1;
      RuleRowsSpec(snips[..n], turns);
      forall k | 0 <= k < n ensures snips[..n][k] == snips[k] { }
    }
  }

  /**
   * The quote of a rule row: the snippet's own quote when it is not empty,
   * otherwise the content of the last transcript row with that turn, or "" when
   * no transcript row has it.
   */
  lemma RuleQuote(transcript: seq<Row>, s: Snippet, t: int)
    ensures s.quote != [] ==> RuleRow(s, t, Index(transcript)).quote == s.quote
    ensures s.quote == [] && (forall j :: 0 <= j < |transcript| ==> transcript[j].turnIndex != Some(t)) ==>
      RuleRow(s, t, Index(transcript)).quote == ""
    ensures s.quote == [] ==> forall j :: LastWith(transcript, t, j) ==>
      RuleRow(s, t, Index(transcript)).quote == transcript[j].content
  {
    IndexSpec(transcript, t);
    if t in Index(transcript) {
      var j :| LastWith(transcript, t, j) && Index(transcript)[t] == transcript[j];
      forall j' | LastWith(transcript, t, j') ensures j' == j {
        LastWithUnique(transcript, t, j, j');
      }
    }
  }

  /** Only one row is the last one with a given turn. */
  lemma LastWithUnique(rows: seq<Row>, t: int, i: int, j: int)
    requires LastWith(rows, t, i) && LastWith(rows, t, j)
    ensures i == j
  {
    assert rows[i].turnIndex == Some(t) && rows[j].turnIndex == Some(t);
  }

  /** The number of rows at turn `t`. */
  function RowsAt(rows: seq<EvidenceRow>, t: int): nat {
    if rows == [] then 0
    else RowsAt(rows[..|rows| - 1], t) + (if rows[|rows| - 1].turn == t then 1 else 0)
  }

  /** The number of times `t` occurs in `cited`. */
  function Occurrences(cited: seq<int>, t: int): nat {
    if cited == [] then 0
    else Occurrences(cited[..|cited| - 1], t) + (if cited[|cited| - 1] == t then 1 else 0)
  }

  /**
   * Judge rows: a turn in `existing` gets none; any other turn gets one row per
   * citation, repeats included.
   */
  lemma {:induction false} JudgeRowsCount(cited: seq<int>, existing: set<int>, turns: TurnIndex, t: int)
    ensures RowsAt(JudgeRows(cited, existing, turns), t) == if t in existing then 0 else Occurrences(cited, t)
  {
    if cited != [] {
      var n := |cited| - 1;
      var u := cited[n];
      var prev := JudgeRows(cited[..n], existing, turns);
      JudgeRowsCount(cited[..n], existing, turns, t);
      if u !in existing {
        var tail := [JudgeRow(u, turns)];
        assert JudgeRows(cited, existing, turns) == prev + tail;
        assert (prev + tail)[..|prev + tail| - 1] == prev;
      } else {
        assert JudgeRows(cited, existing, turns) == prev + [];
        assert prev + [] == prev;
      }
    }
  }

  /** Each judge row is the row for a turn outside `existing`, quoting that turn's content. */
  lemma {:induction false} JudgeRowsShape(cited: seq<int>, existing: set<int>, turns: TurnIndex)
    ensures forall r :: r in JudgeRows(cited, existing, turns) ==> r.turn !in existing && r == JudgeRow(r.turn, turns)
  {
    if cited != [] {
      JudgeRowsShape(cited[..|cited| - 1], existing, turns);
    }
  }

  /** Every turn the judge cited appears among the evidence rows. */
  lemma CitedCovered(snips: seq<Snippet>, cited: seq<int>, turns: TurnIndex, t: int)
    requires t in cited
    ensures t in RowTurns(Merged(snips, cited, turns))
  {
    var rule := RuleRows(snips, turns);
    var judge := JudgeRows(cited, RowTurns(rule), turns);
    if t !in RowTurns(rule) {
      JudgeRowsCount(cited, RowTurns(rule), turns, t);
      OccursCounted(cited, t);
      RowsAtMember(judge, t);
      var r :| r in judge && r.turn == t;
      assert r in Merged(snips, cited, turns);
    } else {
      var r :| r in rule && r.turn == t;
      assert r in Merged(snips, cited, turns);
    }
  }

  /** A value in the list is counted at least once. */
  lemma {:induction false} OccursCounted(cited: seq<int>, t: int)
    requires t in cited
    ensures Occurrences(cited, t) > 0
  {
    var n := |cited| - 1;
    if cited[n] != t {
      assert t in cited[..n];
      OccursCounted(cited[..n], t);
    }
  }

  /** A turn counted at least once has a row. */
  lemma {:induction false} RowsAtMember(rows: seq<EvidenceRow>, t: int)
    requires RowsAt(rows, t) > 0
    ensures exists r :: r in rows && r.turn == t
  {
    var n := |rows| - 1;
    if rows[n].turn != t {
      RowsAtMember(rows[..n], t);
      var r :| r in rows[..n] && r.turn == t;
      assert r in rows;
    }
  }

  // ---------------------------------------------------------------------------
  // The sort of line 85
  // ---------------------------------------------------------------------------

  /** The sort key `(turn_index, source)` in order: `a` may come before `b`. */
  predicate RowLe(a: EvidenceRow, b: EvidenceRow) {
    a.turn < b.turn || (a.turn == b.turn && SourceRank(a.source) <= SourceRank(b.source))
  }

  predicate SortedRows(s: seq<EvidenceRow>) {
    forall i, j :: 0 <= i < j < |s| ==> RowLe(s[i], s[j])
  }

  /** Insert `x` after every row whose key is not greater: equal keys keep their order. */
  function Insert(s: seq<EvidenceRow>, x: EvidenceRow): (r: seq<EvidenceRow>)
    ensures |r| == |s| + 1
  {
    if s == [] || RowLe(s[|s| - 1], x) then s + [x]
    else Insert(s[..|s| - 1], x) + [s[|s| - 1]]
  }

  /** The stable sort `list.sort(key=...)` performs, as insertion sort. */
  function SortRows(s: seq<EvidenceRow>): (r: seq<EvidenceRow>)
    ensures |r| == |s|
  {
    if s == [] then [] else Insert(SortRows(s[..|s| - 1]), s[|s| - 1])
  }

  /** The rows of `s` whose key is `(t, src)`, in order. */
  function WithKey(s: seq<EvidenceRow>, t: int, src: Source): seq<EvidenceRow> {
    if s == [] then []
    else
      var x := s[|s| - 1];
      WithKey(s[..|s| - 1], t, src) + (if x.turn == t && x.source == src then [x] else [])
  }

  lemma {:induction false} InsertPermutes(s: seq<EvidenceRow>, x: EvidenceRow)
    ensures multiset(Insert(s, x)) == multiset(s) + multiset{x}
  {
    if s != [] && !RowLe(s[|s| - 1], x) {
      var n := |s| - 1;
      InsertPermutes(s[..n], x);
      assert s == s[..n] + [s[n]];
    }
  }

  lemma {:induction false} InsertSorted(s: seq<EvidenceRow>, x: EvidenceRow)
    requires SortedRows(s)
    ensures SortedRows(Insert(s, x))
  {
    if s == [] || RowLe(s[|s| - 1], x) {
      var r := s + [x];
      forall i, j | 0 <= i < j < |r| ensures RowLe(r[i], r[j]) {
        if j == |s| {
          assert RowLe(s[i], s[|s| - 1]) || i == |s| - 1;
        }
      }
    } else {
      var n := |s| - 1;
      var p := s[..n];
      assert SortedRows(p);
      InsertSorted(p, x);
      InsertPermutes(p, x);
      var q := Insert(p, x);
      var r := q + [s[n]];
      forall i | 0 <= i < |q| ensures RowLe(q[i], s[n]) {
        assert q[i] in multiset(q);
        if q[i] != x {
          assert q[i] in multiset(p);
          var k :| 0 <= k < n && p[k] == q[i];
          assert RowLe(s[k], s[n]);
        }
      }
      forall i, j | 0 <= i < j < |r| ensures RowLe(r[i], r[j]) {
        if j == |q| {
          assert r[i] == q[i];
        } else {
          assert r[i] == q[i] && r[j] == q[j];
        }
      }
    }
  }

  /** Inserting `x` adds it to the end of its own key's rows and leaves every other key's rows alone. */
  lemma {:induction false} InsertWithKey(s: seq<EvidenceRow>, x: EvidenceRow, t: int, src: Source)
    ensures WithKey(Insert(s, x), t, src) == WithKey(s, t, src) + (if x.turn == t && x.source == src then [x] else [])
  {
    if s == [] || RowLe(s[|s| - 1], x) {
      assert (s + [x])[..|s|] == s;
    } else {
      var n := |s| - 1;
      var y := s[n];
      InsertWithKey(s[..n], x, t, src);
      var q := Insert(s[..n], x);
      assert Insert(s, x) == q + [y];
      assert WithKey(q + [y], t, src) == WithKey(q, t, src) + (if y.turn == t && y.source == src then [y] else []) by {
        assert (q + [y])[..|q|] == q;
      }
      assert WithKey(s, t, src) == WithKey(s[..n], t, src) + (if y.turn == t && y.source == src then [y] else []);
      assert !(x.turn == t && x.source == src && y.turn == t && y.source == src);
    }
  }

  /** The sorted rows are in key order, a permutation of the input, and stable. */
  lemma {:induction false} SortRowsSpec(s: seq<EvidenceRow>)
    ensures SortedRows(SortRows(s))
    ensures multiset(SortRows(s)) == multiset(s)
    ensures forall t, src :: WithKey(SortRows(s), t, src) == WithKey(s, t, src)
  {
    if s != [] {
      var n := |s| - 1;
      SortRowsSpec(s[..n]);
      InsertSorted(SortRows(s[..n]), s[n]);
      InsertPermutes(SortRows(s[..n]), s[n]);
      assert s == s[..n] + [s[n]];
      forall t, src ensures WithKey(SortRows(s), t, src) == WithKey(s, t, src) {
        InsertWithKey(SortRows(s[..n]), s[n], t, src);
      }
    }
  }

  // ---------------------------------------------------------------------------
  // The excerpt table (lines 88-97)
  // ---------------------------------------------------------------------------

  const Header := "| Turn | Excerpt | Why it matters | Source |"
  const Divider := "| ---: | :------ | :------------- | :----- |"

  /**
   * `_md_escape_pipe(_short_quote(text))`, with the suffix `_short_quote`
   * appends as a parameter: report.py appends `MojibakeEllipsis`.
   */
  function Cell(text: string, suffix: string): string {
    EscapePipe(Shorten(text, Limit, suffix))
  }

  /** The table line of one row: `f"| {ti} | {quote} | {why} | {src} |"`. */
  function TableLine(r: EvidenceRow, suffix: string): string {
    Cells(IntToString(r.turn), Cell(r.quote, suffix), Cell(r.why, suffix), SourceName(r.source))
  }

  /** `TableLine` as a function of the row alone. */
  function LineWith(suffix: string): EvidenceRow -> string {
    r => TableLine(r, suffix)
  }

  /** `f"| {a} | {b} | {c} | {d} |"` */
  function Cells(a: string, b: string, c: string, d: string): string {
    "| " + a + " | " + b + " | " + c + " | " + d + " |"
  }

  /** A row of cells is one line when its cells are. */
  lemma CellsOneLine(a: string, b: string, c: string, d: string)
    requires '\n' !in a && '\n' !in b && '\n' !in c && '\n' !in d
    ensures '\n' !in Cells(a, b, c, d)
  {
    assert '\n' !in "| " && '\n' !in " | " && '\n' !in " |";
  }

  /** One line per row, each rendered by `line`. */
  function Lines(rows: seq<EvidenceRow>, line: EvidenceRow -> string): seq<string> {
    if rows == [] then [] else Lines(rows[..|rows| - 1], line) + [line(rows[|rows| - 1])]
  }

  function TableLines(rows: seq<EvidenceRow>, suffix: string): seq<string> {
    Lines(rows, LineWith(suffix))
  }

  /**
   * The whole excerpt table for a transcript, the rule's snippets and the
   * judge's cited turns, its quotes cut with `suffix`.
   */
  function EvidenceTable(transcript: seq<Row>, snips: seq<Snippet>, cited: seq<int>, suffix: string): seq<string> {
    [Header, Divider] + TableLines(SortRows(Merged(snips, cited, Index(transcript))), suffix)
  }

  /** Lines 88-97: the header, the divider and one line per row. */
  method RenderTable(rows: seq<EvidenceRow>, suffix: string) returns (table: seq<string>)
    ensures table == [Header, Divider] + TableLines(rows, suffix)
  {
    var lines := RenderRows(rows, LineWith(suffix));
    table := [Header, Divider] + lines;
  }

  /** Lines 92-97: the line of each row, in order, as `line` renders it. */
  method RenderRows(rows: seq<EvidenceRow>, line: EvidenceRow -> string) returns (lines: seq<string>)
    ensures lines == Lines(rows, line)
  {
    lines := [];
    var i := 0;
    while i < |rows|
      invariant 0 <= i <= |rows|
      invariant lines == Lines(rows[..i], line)
    {
      assert rows[..i + 1][..i] == rows[..i];
      lines := lines + [line(rows[i])];
      i := i + 1;
    }
    assert rows[..|rows|] == rows;
  }

  /**
   * The evidence-table part of report.py `build_memo_markdown` (lines 47-97),
   * as written: its quotes end in the three-character `MojibakeEllipsis`.
   */
  method BuildEvidenceTable(transcript: seq<Row>, snips: seq<Snippet>, cited: seq<int>) returns (table: seq<string>)
    ensures table == EvidenceTable(transcript, snips, cited, MojibakeEllipsis)
  {
    var turns := RowByTurn(transcript);
    var rows := CollectRuleRows(snips, turns);
    rows := AddJudgeRows(rows, cited, turns);
    rows := SortRows(rows);
    table := RenderTable(rows, MojibakeEllipsis);
  }

  /** One line per row, in order. */
  lemma {:induction false} LinesSpec(rows: seq<EvidenceRow>, line: EvidenceRow -> string)
    ensures |Lines(rows, line)| == |rows|
    ensures forall i :: 0 <= i < |rows| ==> Lines(rows, line)[i] == line(rows[i])
  {
    if rows != [] {
      LinesSpec(rows[..|rows| - 1], line);
    }
  }

  /**
   * A cell holds no newline and no bare `|`, and reads back as the shortened
   * text.  That text is the flattened text when it fits in `Limit`; otherwise
   * it is shorter than `Limit` plus the suffix: at most `Limit + 2` characters
   * with the suffix report.py appends, at most `Limit` with U+2026.
   */
  lemma CellSpec(text: string, suffix: string)
    requires '\n' !in suffix
    ensures '\n' !in Cell(text, suffix) && Guarded(Cell(text, suffix))
    ensures UnescapePipe(Cell(text, suffix)) == Shorten(text, Limit, suffix)
    ensures |Flatten(text)| <= Limit ==> Shorten(text, Limit, suffix) == Flatten(text)
    ensures |Flatten(text)| > Limit ==> |Shorten(text, Limit, suffix)| < Limit + |suffix|
    ensures suffix == MojibakeEllipsis ==> |Shorten(text, Limit, suffix)| <= Limit + 2
    ensures suffix == Ellipsis ==> |Shorten(text, Limit, suffix)| <= Limit
  {
    var t := Flatten(text);
    FlattenSpec(text);
    CutSpec(t, Limit, suffix);
    var r := Shorten(text, Limit, suffix);
    if |t| > Limit {
      assert |r[..|r| - |suffix|]| < Limit;
    }
    EscapeSpec(r);
    EscapeRoundTrip(r);
  }

  /** As written, the cell of a 161-letter quote reads back as 162 characters. */
  lemma CellOverruns()
    ensures |UnescapePipe(Cell(seq(Limit + 1, _ => 'a'), MojibakeEllipsis))| == Limit + 2
  {
    CellSpec(seq(Limit + 1, _ => 'a'), MojibakeEllipsis);
    ShortQuoteAsWrittenOverruns(Limit);
  }

  /**
   * The excerpt table: the two header lines, then one line per evidence row,
   * the rows sorted by (turn, source) and a permutation of the merged rule and
   * judge rows.
   */
  lemma EvidenceTableSpec(transcript: seq<Row>, snips: seq<Snippet>, cited: seq<int>, suffix: string)
    ensures SortedRows(SortRows(Merged(snips, cited, Index(transcript))))
    ensures multiset(SortRows(Merged(snips, cited, Index(transcript)))) == multiset(Merged(snips, cited, Index(transcript)))
    ensures |EvidenceTable(transcript, snips, cited, suffix)| == 2 + |Merged(snips, cited, Index(transcript))|
    ensures EvidenceTable(transcript, snips, cited, suffix)[..2] == [Header, Divider]
    ensures forall i :: 0 <= i < |Merged(snips, cited, Index(transcript))| ==>
      EvidenceTable(transcript, snips, cited, suffix)[i + 2] == TableLine(SortRows(Merged(snips, cited, Index(transcript)))[i], suffix)
  {
    var merged := Merged(snips, cited, Index(transcript));
    var rows := SortRows(merged);
    SortRowsSpec(merged);
    TableShape(rows, suffix);
  }

  /** The header lines, then the line of each row. */
  lemma TableShape(rows: seq<EvidenceRow>, suffix: string)
    ensures |[Header, Divider] + TableLines(rows, suffix)| == 2 + |rows|
    ensures ([Header, Divider] + TableLines(rows, suffix))[..2] == [Header, Divider]
    ensures forall i :: 0 <= i < |rows| ==> ([Header, Divider] + TableLines(rows, suffix))[i + 2] == TableLine(rows[i], suffix)
  {
    LinesSpec(rows, LineWith(suffix));
  }

  /** A table line is one line: no cell, turn or source name holds a newline. */
  lemma TableLineSpec(r: EvidenceRow, suffix: string)
    requires '\n' !in suffix
    ensures '\n' !in TableLine(r, suffix)
  {
    var quote, why := Cell(r.quote, suffix), Cell(r.why, suffix);
    CellSpec(r.quote, suffix);
    CellSpec(r.why, suffix);
    SourceOneLine(r.source);
    CellsOneLine(IntToString(r.turn), quote, why, SourceName(r.source));
  }

  lemma SourceOneLine(src: Source)
    ensures '\n' !in SourceName(src)
  {
    match src
    case JudgeSource => assert '\n' !in "judge";
    case RuleSource => assert '\n' !in "rule";
  }
}
