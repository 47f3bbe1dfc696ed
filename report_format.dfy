/**
  The ProteumIM report reader (pyproteum/ProteumReport.py).

  A report is read line by line. The header has a fixed layout: the value of each
  labelled field is the last whitespace-separated token of its line, and the lines
  in between are skipped by position whatever they hold. After the header comes the
  operator table: each row holds one, two or three `name count` pairs behind a first
  token that is ignored, so a row splits into 3, 5 or 7 tokens. The first line that
  does not (a blank line, end of file, any other width) ends the table.

  Lines are counted from 0, and a line past the end of the input reads as the empty
  string, as `readline()` does at end of file.
 */
module ReportFormat {
  import opened Wrappers
  import opened Text

  // Header layout: the line each field is read from.
  const PROGRAM_LINE: nat := 3
  const SOURCE_FILE_LINE: nat := 5
  const TOTAL_LINE: nat := 7
  const ANOMALOUS_LINE: nat := 9
  const ACTIVE_LINE: nat := 11
  const ALIVE_LINE: nat := 13
  const EQUIVALENT_LINE: nat := 15
  const SCORE_LINE: nat := 17
  /** The first line of the operator table. */
  const TABLE_START: nat := 20

  /** The labelled header lines; every other header line is skipped. */
  predicate IsFieldLine(i: nat) {
    || i == PROGRAM_LINE || i == SOURCE_FILE_LINE || i == TOTAL_LINE || i == ANOMALOUS_LINE
    || i == ACTIVE_LINE || i == ALIVE_LINE || i == EQUIVALENT_LINE || i == SCORE_LINE
  }

  /** Why loading failed; `line` is the line whose reading raised. */
  datatype LoadError =
    | MissingValue(line: nat)   // the line has no token, so `split()[-1]` raises IndexError
    | NotANumber(line: nat)     // `int()` or `float()` raises ValueError on the token

  /** One (operator name, generated-mutant count) pair of the operator table. */
  datatype OpCount = OpCount(name: string, count: int)

  /** What a successful load assigns to the report's fields. */
  datatype Summary = Summary(header: Header, operators: map<string, int>, orderedOpKeys: seq<string>)

  /** `readline()` number `i`, without its line terminator; "" once the input is exhausted. */
  function ReadLine(lines: seq<string>, i: nat): string {
    if i < |lines| then lines[i] else ""
  }

  /** The lines from `i` on. */
  function Drop(lines: seq<string>, i: nat): (r: seq<string>)
    ensures |r| == if i <= |lines| then |lines| - i else 0
    ensures forall k | 0 <= k < |r| :: r[k] == lines[i + k]
  {
    if i <= |lines| then lines[i..] else []
  }

  /** `line.strip().split()[-1]` on line number `i`. */
  function LastToken(line: string, i: nat): (r: Result<string, LoadError>)
    ensures var toks := Split(line);
      && (r.Failure? <==> toks == [])
      && (r.Failure? ==> r.error == MissingValue(i))
      && (r.Success? ==> r.value == toks[|toks| - 1] && IsWord(r.value))
  {
    SplitStrip(line);
    SplitWords(line);
    var toks := Split(Strip(line));
    if toks == [] then Failure(MissingValue(i)) else Success(toks[|toks| - 1])
  }

  /** `int(tok)` on a token of line number `line`. */
  function Count(tok: string, line: nat): (r: Result<int, LoadError>)
    ensures r.Success? <==>
      IsDigits(tok) || (|tok| > 1 && (tok[0] == '+' || tok[0] == '-') && IsDigits(tok[1..]))
    ensures r.Success? <==> ParseInt(tok).Some?
    ensures r.Success? ==> r.value == ParseInt(tok).value
    ensures r.Failure? ==> r.error == NotANumber(line)
  {
    ParseIntDigits(tok);
    match ParseInt(tok)
    case None => Failure(NotANumber(line))
    case Some(n) => Success(n)
  }

  /** `int(line.strip().split()[-1])` on line number `i`. */
  function LastCount(line: string, i: nat): (r: Result<int, LoadError>)
    ensures var toks := Split(line);
      && (r.Success? <==> toks != [] && ParseInt(toks[|toks| - 1]).Some?)
      && (r.Success? ==> r.value == ParseInt(toks[|toks| - 1]).value)
      && (r.Failure? ==> r.error == if toks == [] then MissingValue(i) else NotANumber(i))
  {
    var tok :- LastToken(line, i);
    Count(tok, i)
  }

  predicate IsRowWidth(n: nat) {
    n == 3 || n == 5 || n == 7
  }

  /** The condition of the table loop: the line splits into 3, 5 or 7 tokens. */
  predicate IsRow(line: string) {
    IsRowWidth(|Split(line)|)
  }

  /** Token `2k+1` of a row: the name of its `k`-th pair. */
  function NameToken(toks: seq<string>, k: nat): string
    requires 2 * k + 1 < |toks|
  {
    toks[2 * k + 1]
  }

  /** Token `2k+2` of a row: the count of its `k`-th pair. */
  function CountToken(toks: seq<string>, k: nat): string
    requires 2 * k + 2 < |toks|
  {
    toks[2 * k + 2]
  }

  /**
    The pairs of one table row, as the loop body reads them: `(tok[1], tok[2])`,
    then `(tok[3], tok[4])` when there are at least 5 tokens, then `(tok[5], tok[6])`
    when there are 7. Token 0 is never looked at.
   */
  function RowCounts(toks: seq<string>, line: nat): (r: Result<seq<OpCount>, LoadError>)
    requires IsRowWidth(|toks|)
    ensures r.Failure? ==> r.error == NotANumber(line)
  {
    var c1 :- Count(toks[2], line);
    if |toks| == 3 then
      Success([OpCount(toks[1], c1)])
    else
      var c2 :- Count(toks[4], line);
      if |toks| == 5 then
        Success([OpCount(toks[1], c1), OpCount(toks[3], c2)])
      else
        var c3 :- Count(toks[6], line);
        Success([OpCount(toks[1], c1), OpCount(toks[3], c2), OpCount(toks[5], c3)])
  }

  /**
    A row of `n` tokens gives `(n - 1) / 2` pairs, pair `k` being token `2k+1` with
    the value of token `2k+2`; it fails exactly when one of those counts is not an
    integer. Token 0 plays no part.
   */
  lemma RowCountsSpec(toks: seq<string>, line: nat)
    requires IsRowWidth(|toks|)
    ensures var r := RowCounts(toks, line);
      && (r.Success? <==> forall k: nat | k < (|toks| - 1) / 2 :: ParseInt(CountToken(toks, k)).Some?)
      && (r.Success? ==>
           && |r.value| == (|toks| - 1) / 2
           && forall k: nat | k < |r.value| ::
                r.value[k] == OpCount(NameToken(toks, k), ParseInt(CountToken(toks, k)).value))
  {
    assert CountToken(toks, 0) == toks[2];
    if |toks| >= 5 {
      assert CountToken(toks, 1) == toks[4];
    }
    if |toks| == 7 {
      assert CountToken(toks, 2) == toks[6];
    }
  }

  /** `RowCounts` case by case, as the loop body meets the pairs one after another. */
  lemma RowCountsSteps(toks: seq<string>, line: nat)
    requires IsRowWidth(|toks|)
    ensures var rc, c1 := RowCounts(toks, line), Count(toks[2], line);
      && (c1.Failure? ==> rc == Failure(c1.error))
      && (c1.Success? && |toks| == 3 ==> rc == Success([OpCount(toks[1], c1.value)]))
    ensures var rc, c1, c2 := RowCounts(toks, line), Count(toks[2], line), if |toks| >= 5 then Count(toks[4], line) else Count("", line);
      && (c1.Success? && |toks| >= 5 && c2.Failure? ==> rc == Failure(c2.error))
      && (c1.Success? && c2.Success? && |toks| == 5 ==> rc == Success([OpCount(toks[1], c1.value), OpCount(toks[3], c2.value)]))
    ensures |toks| == 7 ==>
      var rc, c1, c2, c3 := RowCounts(toks, line), Count(toks[2], line), Count(toks[4], line), Count(toks[6], line);
      && (c1.Success? && c2.Success? && c3.Failure? ==> rc == Failure(c3.error))
      && (c1.Success? && c2.Success? && c3.Success? ==>
            rc == Success([OpCount(toks[1], c1.value), OpCount(toks[3], c2.value), OpCount(toks[5], c3.value)]))
  {
  }

  /** Number of consecutive table rows at the front of `rows`. */
  function TableLength(rows: seq<string>): (n: nat)
    ensures n <= |rows|
    ensures forall i | 0 <= i < n :: IsRow(rows[i])
    ensures n < |rows| ==> !IsRow(rows[n])
  {
    if rows == [] || !IsRow(rows[0]) then 0 else 1 + TableLength(rows[1..])
  }

  /**
    The table loop over the lines from the table's first line on (`line` is the
    number of `rows[0]`): the pairs of every row up to the first non-row, in order,
    or the error of the first row whose count does not parse.
   */
  function ScanTable(rows: seq<string>, line: nat): Result<seq<OpCount>, LoadError>
    decreases |rows|
  {
    if rows == [] || !IsRow(rows[0]) then Success([])
    else
      var row :- RowCounts(Split(rows[0]), line);
      var rest :- ScanTable(rows[1..], line + 1);
      Success(row + rest)
  }

  /** The names of the pairs, in order: what `ordered_op_keys` collects. */
  function Names(ps: seq<OpCount>): (r: seq<string>)
    ensures |r| == |ps|
  {
    if ps == [] then [] else Names(ps[..|ps| - 1]) + [ps[|ps| - 1].name]
  }

  /** The dictionary `operators` after assigning every pair in order. */
  function Tabulate(ps: seq<OpCount>): map<string, int> {
    if ps == [] then map[]
    else Tabulate(ps[..|ps| - 1])[ps[|ps| - 1].name := ps[|ps| - 1].count]
  }

  /** The scalar fields of the header. */
  datatype Header = Header(
    program: string,
    sourceFile: string,
    totalMutants: int,
    anomalousMutants: int,
    activeMutants: int,
    aliveMutants: int,
    equivalentMutants: int,
    mutationScore: string)

  /** A labelled header line: its number and whether its value is read as an integer. */
  datatype Field = Field(line: nat, kind: Kind)

  /** How a labelled line's last token is taken: as it is, through `int()`, or through `float()`. */
  datatype Kind = Word | Integer | Real

  /** The labelled lines, in the order `load_general` reads them. */
  const HEADER_FIELDS: seq<Field> := [
    Field(PROGRAM_LINE, Word), Field(SOURCE_FILE_LINE, Word),
    Field(TOTAL_LINE, Integer), Field(ANOMALOUS_LINE, Integer), Field(ACTIVE_LINE, Integer),
    Field(ALIVE_LINE, Integer), Field(EQUIVALENT_LINE, Integer),
    Field(SCORE_LINE, Real)]

  /** The value of one header field. */
  datatype FieldValue = Textual(text: string) | Number(number: int)

  /** A labelled line is usable: it has a token, and on a count line that token is an integer. */
  predicate LineOk(line: string, f: Field) {
    var toks := Split(line);
    && toks != []
    && (f.kind == Integer ==> ParseInt(toks[|toks| - 1]).Some?)
    && (f.kind == Real ==> IsFloatToken(toks[|toks| - 1]))
  }

  /** What a usable labelled line holds: its last token, as an integer on a count line. */
  function LineValue(line: string, f: Field): (v: FieldValue)
    requires LineOk(line, f)
    ensures v.Number? == (f.kind == Integer)
    ensures v.Textual? ==> IsWord(v.text)
  {
    SplitWords(line);
    var toks := Split(line);
    if f.kind == Integer then Number(ParseInt(toks[|toks| - 1]).value) else Textual(toks[|toks| - 1])
  }

  /** The error an unusable labelled line raises: IndexError without tokens, ValueError otherwise. */
  function LineError(line: string, f: Field): (e: LoadError)
    ensures e.line == f.line
  {
    if Split(line) == [] then MissingValue(f.line) else NotANumber(f.line)
  }

  /** One labelled line read: its last token, converted by `int()` on a count line. */
  function ReadField(line: string, f: Field): (r: Result<FieldValue, LoadError>)
    ensures r.Success? <==> LineOk(line, f)
    ensures r.Success? ==> r.value == LineValue(line, f)
    ensures r.Failure? ==> r.error == LineError(line, f)
  {
    match f.kind
    case Word =>
      var t :- LastToken(line, f.line);
      Success(Textual(t))
    case Integer =>
      var n :- LastCount(line, f.line);
      Success(Number(n))
    case Real =>
      var t :- LastToken(line, f.line);
      if IsFloatToken(t) then Success(Textual(t)) else Failure(NotANumber(f.line))
  }

  /** The labelled line of `f` read from the report. */
  function ReadFieldAt(lines: seq<string>, f: Field): (r: Result<FieldValue, LoadError>)
    ensures r.Success? <==> FieldOk(lines, f)
    ensures r.Success? ==> r.value == FieldOf(lines, f)
    ensures r.Failure? ==> r.error == FieldError(lines, f)
  {
    ReadField(ReadLine(lines, f.line), f)
  }

  /** The labelled lines read in turn; the first one that raises ends the load. */
  function ReadFields(lines: seq<string>, fields: seq<Field>): (r: Result<seq<FieldValue>, LoadError>)
    ensures r.Success? ==> |r.value| == |fields|
    ensures r.Success? ==> forall k | 0 <= k < |fields| :: r.value[k].Number? == (fields[k].kind == Integer)
  {
    if fields == [] then Success([])
    else
      var v :- ReadFieldAt(lines, fields[0]);
      var vs :- ReadFields(lines, fields[1..]);
      Success([v] + vs)
  }

  /** The header part of `load_general`. */
  function ParseHeader(lines: seq<string>): (r: Result<Header, LoadError>)
    ensures r.Success? ==> IsWord(r.value.program) && IsWord(r.value.sourceFile) && IsWord(r.value.mutationScore)
    ensures r.Failure? ==> IsFieldLine(r.error.line)
  {
    HeaderValues(lines);
    HeaderErrorLine(lines);
    var vs :- ReadFields(lines, HEADER_FIELDS);
    Success(Header(vs[0].text, vs[1].text, vs[2].number, vs[3].number, vs[4].number,
                   vs[5].number, vs[6].number, vs[7].text))
  }

  /** The summary made of a header and the table's pairs. */
  function MakeSummary(h: Header, ps: seq<OpCount>): (s: Summary)
    ensures s.operators.Keys == (set k | k in s.orderedOpKeys)
  {
    TabulateKeys(ps);
    Summary(h, Tabulate(ps), Names(ps))
  }

  /** `load_general` as a whole: the header fields, then the operator table. */
  function Parse(lines: seq<string>): (r: Result<Summary, LoadError>)
    ensures r.Success? ==>
      && r.value.operators.Keys == (set k | k in r.value.orderedOpKeys)
      && IsWord(r.value.header.program) && IsWord(r.value.header.sourceFile)
      && IsWord(r.value.header.mutationScore)
    ensures r.Failure? ==> IsFieldLine(r.error.line) || r.error.line >= TABLE_START
  {
    var h :- ParseHeader(lines);
    var ps :- ScanTableAt(lines);
    Success(MakeSummary(h, ps))
  }

  /** A header that fails fails the whole load with its error. */
  lemma ParseHeaderFails(lines: seq<string>)
    requires ParseHeader(lines).Failure?
    ensures Parse(lines) == Failure(ParseHeader(lines).error)
  {
  }

  /** After a good header, a table that fails fails the whole load with its error. */
  lemma ParseTableFails(lines: seq<string>)
    requires ParseHeader(lines).Success? && ScanTableAt(lines).Failure?
    ensures Parse(lines) == Failure(ScanTableAt(lines).error)
  {
  }

  /** A good header and a good table make the load. */
  lemma ParseSucceeds(lines: seq<string>)
    requires ParseHeader(lines).Success? && ScanTableAt(lines).Success?
    ensures Parse(lines) == Success(MakeSummary(ParseHeader(lines).value, ScanTableAt(lines).value))
  {
  }

  /** The table scan of a whole input. */
  function ScanTableAt(lines: seq<string>): (r: Result<seq<OpCount>, LoadError>)
    ensures r.Failure? ==>
      TABLE_START <= r.error.line < TABLE_START + TableLength(Drop(lines, TABLE_START))
  {
    ScanTableErrorLine(Drop(lines, TABLE_START), TABLE_START);
    ScanTable(Drop(lines, TABLE_START), TABLE_START)
  }

  // ------------------------------------------------------------------ lemmas

  lemma {:induction false} ScanTableErrorLine(rows: seq<string>, line: nat)
    ensures ScanTable(rows, line).Failure? ==>
      line <= ScanTable(rows, line).error.line < line + TableLength(rows)
    decreases |rows|
  {
    if rows != [] && IsRow(rows[0]) {
      ScanTableErrorLine(rows[1..], line + 1);
    }
  }

  /** One more pair: its name is assigned its count, and appended to the key list. */
  lemma TabulateSnoc(ps: seq<OpCount>, p: OpCount)
    ensures Tabulate(ps + [p]) == Tabulate(ps)[p.name := p.count]
    ensures Names(ps + [p]) == Names(ps) + [p.name]
  {
    assert (ps + [p])[..|ps|] == ps;
  }

  /** Tabulating a row of two pairs assigns them in order. */
  lemma TabulatePair(ps: seq<OpCount>, a: OpCount, b: OpCount)
    ensures Tabulate(ps + [a, b]) == Tabulate(ps)[a.name := a.count][b.name := b.count]
    ensures Names(ps + [a, b]) == Names(ps) + [a.name, b.name]
  {
    assert ps + [a, b] == (ps + [a]) + [b];
    TabulateSnoc(ps, a);
    TabulateSnoc(ps + [a], b);
  }

  /** Tabulating a row of three pairs assigns them in order. */
  lemma TabulateTriple(ps: seq<OpCount>, a: OpCount, b: OpCount, c: OpCount)
    ensures Tabulate(ps + [a, b, c]) == Tabulate(ps)[a.name := a.count][b.name := b.count][c.name := c.count]
    ensures Names(ps + [a, b, c]) == Names(ps) + [a.name, b.name, c.name]
  {
    assert ps + [a, b, c] == (ps + [a, b]) + [c];
    TabulatePair(ps, a, b);
    TabulateSnoc(ps + [a, b], c);
  }

  /** The keys of `operators` are exactly the names in `ordered_op_keys`. */
  lemma {:induction false} TabulateKeys(ps: seq<OpCount>)
    ensures Tabulate(ps).Keys == (set k | k in Names(ps))
  {
    if ps != [] {
      var init := ps[..|ps| - 1];
      TabulateKeys(init);
      assert Names(ps) == Names(init) + [ps[|ps| - 1].name];
    }
  }

  /**
    Last write wins: the count stored for a name is that of the last pair that
    carries the name.
   */
  lemma {:induction false} TabulateLastWins(ps: seq<OpCount>, k: nat)
    requires k < |ps|
    requires forall j | k < j < |ps| :: ps[j].name != ps[k].name
    ensures ps[k].name in Tabulate(ps) && Tabulate(ps)[ps[k].name] == ps[k].count
  {
    if k < |ps| - 1 {
      var init := ps[..|ps| - 1];
      TabulateLastWins(init, k);
    }
  }

  /** The header is read from the labelled lines alone. */
  lemma {:induction false} FieldsReadOnlyTheirLines(lines: seq<string>, lines': seq<string>, fields: seq<Field>)
    requires forall k | 0 <= k < |fields| :: ReadLine(lines', fields[k].line) == ReadLine(lines, fields[k].line)
    ensures ReadFields(lines', fields) == ReadFields(lines, fields)
  {
    if fields != [] {
      assert ReadLine(lines', fields[0].line) == ReadLine(lines, fields[0].line);
      FieldsReadOnlyTheirLines(lines, lines', fields[1..]);
    }
  }

  lemma HeaderReadsFieldLines(lines: seq<string>, lines': seq<string>)
    requires forall i: nat | IsFieldLine(i) :: ReadLine(lines', i) == ReadLine(lines, i)
    ensures ParseHeader(lines') == ParseHeader(lines)
  {
    forall k | 0 <= k < |HEADER_FIELDS|
      ensures ReadLine(lines', HEADER_FIELDS[k].line) == ReadLine(lines, HEADER_FIELDS[k].line)
    {
      assert IsFieldLine(HEADER_FIELDS[k].line);
    }
    FieldsReadOnlyTheirLines(lines, lines', HEADER_FIELDS);
  }

  /** Only the table's rows and the line that ends it matter to the scan. */
  lemma {:induction false} ScanReadsOnlyTable(rows: seq<string>, rows': seq<string>, line: nat)
    requires TableLength(rows) < |rows|
    requires TableLength(rows) < |rows'|
    requires rows'[..TableLength(rows) + 1] == rows[..TableLength(rows) + 1]
    ensures ScanTable(rows', line) == ScanTable(rows, line)
    decreases |rows|
  {
    assert rows'[0] == rows[0];
    if IsRow(rows[0]) {
      assert rows'[1..][..TableLength(rows[1..]) + 1] == rows[1..][..TableLength(rows[1..]) + 1];
      ScanReadsOnlyTable(rows[1..], rows'[1..], line + 1);
    }
  }

  /**
    The first line after the header that is not a 3-, 5- or 7-token row ends the
    load: whatever follows it never influences the result.
   */
  lemma ParseStopsAtFirstNonRow(lines: seq<string>, lines': seq<string>, e: nat)
    requires e == TABLE_START + TableLength(Drop(lines, TABLE_START))
    requires e < |lines| && e < |lines'|
    requires lines'[..e + 1] == lines[..e + 1]
    ensures Parse(lines') == Parse(lines)
  {
    var rows, rows' := Drop(lines, TABLE_START), Drop(lines', TABLE_START);
    forall i: nat | i < TABLE_START ensures ReadLine(lines', i) == ReadLine(lines, i) {
      assert lines'[..e + 1][i] == lines[..e + 1][i];
    }
    var m := TableLength(rows);
    assert rows'[..m + 1] == rows[..m + 1] by {
      forall i | 0 <= i < m + 1 ensures rows'[i] == rows[i] {
        assert lines'[..e + 1][TABLE_START + i] == lines[..e + 1][TABLE_START + i];
      }
    }
    ScanReadsOnlyTable(rows, rows', TABLE_START);
    assert ScanTableAt(lines') == ScanTableAt(lines);
    HeaderReadsFieldLines(lines, lines');
  }

  /**
    Lines 0-2, the even lines 4 to 16 between the labelled fields, and lines 18 and
    19 after the score are skipped by position: changing them changes nothing.
   */
  lemma ParseIgnoresSkippedLines(lines: seq<string>, lines': seq<string>)
    requires forall i: nat | IsFieldLine(i) :: ReadLine(lines', i) == ReadLine(lines, i)
    requires Drop(lines', TABLE_START) == Drop(lines, TABLE_START)
    ensures Parse(lines') == Parse(lines)
  {
    HeaderReadsFieldLines(lines, lines');
  }

  predicate FieldOk(lines: seq<string>, f: Field) {
    LineOk(ReadLine(lines, f.line), f)
  }

  function FieldOf(lines: seq<string>, f: Field): (v: FieldValue)
    requires FieldOk(lines, f)
    ensures v.Number? == (f.kind == Integer)
    ensures v.Textual? ==> IsWord(v.text)
  {
    LineValue(ReadLine(lines, f.line), f)
  }

  function FieldError(lines: seq<string>, f: Field): (e: LoadError)
    ensures e.line == f.line
  {
    LineError(ReadLine(lines, f.line), f)
  }

  /**
    The labelled lines are read whole or not at all: reading succeeds exactly when
    every line is usable, and then yields each line's value in order; otherwise
    it fails with the error of the first unusable line.
   */
  lemma {:induction false} ReadFieldsSuccess(lines: seq<string>, fields: seq<Field>)
    ensures ReadFields(lines, fields).Success? <==> forall k | 0 <= k < |fields| :: FieldOk(lines, fields[k])
    ensures ReadFields(lines, fields).Success? ==>
      forall k | 0 <= k < |fields| :: ReadFields(lines, fields).value[k] == FieldOf(lines, fields[k])
  {
    if fields != [] {
      ReadFieldsSuccess(lines, fields[1..]);
      assert forall k | 1 <= k < |fields| :: fields[k] == fields[1..][k - 1];
    }
  }

  lemma {:induction false} ReadFieldsFailure(lines: seq<string>, fields: seq<Field>)
    ensures ReadFields(lines, fields).Failure? ==>
      exists k | 0 <= k < |fields| ::
        && !FieldOk(lines, fields[k])
        && ReadFields(lines, fields).error == FieldError(lines, fields[k])
        && forall j | 0 <= j < k :: FieldOk(lines, fields[j])
  {
    if fields != [] {
      var r := ReadFields(lines, fields);
      if r.Failure? && FieldOk(lines, fields[0]) {
        ReadFieldsFailure(lines, fields[1..]);
        var k :| 0 <= k < |fields[1..]| && !FieldOk(lines, fields[1..][k])
          && r.error == FieldError(lines, fields[1..][k])
          && forall j | 0 <= j < k :: FieldOk(lines, fields[1..][j]);
        assert fields[k + 1] == fields[1..][k];
        assert forall j | 1 <= j < k + 1 :: fields[j] == fields[1..][j - 1];
      } else if r.Failure? {
        assert !FieldOk(lines, fields[0]);
      }
    }
  }

  /** One more usable labelled line extends the usable prefix. */
  lemma FieldsOkExtend(lines: seq<string>, fields: seq<Field>, k: nat)
    requires k < |fields|
    requires forall j | 0 <= j < k :: FieldOk(lines, fields[j])
    requires FieldOk(lines, fields[k])
    ensures forall j | 0 <= j < k + 1 :: FieldOk(lines, fields[j])
  {
  }

  /** Reading stops at the first unusable labelled line, with that line's error. */
  lemma {:induction false} ReadFieldsFailsAt(lines: seq<string>, fields: seq<Field>, k: nat)
    requires k < |fields|
    requires forall j | 0 <= j < k :: FieldOk(lines, fields[j])
    requires !FieldOk(lines, fields[k])
    ensures ReadFields(lines, fields) == Failure(FieldError(lines, fields[k]))
  {
    if k == 0 {
      assert ReadFieldAt(lines, fields[0]).Failure?;
    } else {
      var v := ReadFieldAt(lines, fields[0]);
      assert v.Success?;
      assert forall j | 0 <= j < k - 1 :: fields[1..][j] == fields[j + 1];
      ReadFieldsFailsAt(lines, fields[1..], k - 1);
    }
  }

  /** A header whose labelled lines are all usable is made of their values. */
  lemma HeaderOfFields(lines: seq<string>)
    requires forall k | 0 <= k < |HEADER_FIELDS| :: FieldOk(lines, HEADER_FIELDS[k])
    ensures ParseHeader(lines) == Success(Header(
      FieldOf(lines, HEADER_FIELDS[0]).text, FieldOf(lines, HEADER_FIELDS[1]).text,
      FieldOf(lines, HEADER_FIELDS[2]).number, FieldOf(lines, HEADER_FIELDS[3]).number,
      FieldOf(lines, HEADER_FIELDS[4]).number, FieldOf(lines, HEADER_FIELDS[5]).number,
      FieldOf(lines, HEADER_FIELDS[6]).number, FieldOf(lines, HEADER_FIELDS[7]).text))
  {
    ReadFieldsSuccess(lines, HEADER_FIELDS);
  }

  /** The values of the eight header reads, when they all succeed. */
  lemma HeaderValues(lines: seq<string>)
    ensures var r := ReadFields(lines, HEADER_FIELDS);
      r.Success? ==> forall k | 0 <= k < 8 :: FieldOk(lines, HEADER_FIELDS[k]) && r.value[k] == FieldOf(lines, HEADER_FIELDS[k])
  {
    ReadFieldsSuccess(lines, HEADER_FIELDS);
  }

  /** A failing read of fields that all sit on labelled lines names a labelled line. */
  lemma {:induction false} ReadFieldsErrorLine(lines: seq<string>, fields: seq<Field>)
    requires forall k | 0 <= k < |fields| :: IsFieldLine(fields[k].line)
    ensures var r := ReadFields(lines, fields);
      r.Failure? ==> IsFieldLine(r.error.line)
  {
    if fields != [] {
      ReadFieldsErrorLine(lines, fields[1..]);
    }
  }

  /** A failing header read names one of the labelled lines. */
  lemma HeaderErrorLine(lines: seq<string>)
    ensures var r := ReadFields(lines, HEADER_FIELDS);
      r.Failure? ==> IsFieldLine(r.error.line)
  {
    assert forall k | 0 <= k < |HEADER_FIELDS| :: IsFieldLine(HEADER_FIELDS[k].line);
    ReadFieldsErrorLine(lines, HEADER_FIELDS);
  }

  /**
    The header of a report: it is read only when each labelled line (3, 5, 7, 9,
    11, 13, 15, 17) is usable, each field then being the last token of its line;
    otherwise the whole load fails with the error of the first unusable one.
   */
  lemma ParseHeaderSpec(lines: seq<string>)
    ensures ParseHeader(lines).Success? <==> forall k | 0 <= k < |HEADER_FIELDS| :: FieldOk(lines, HEADER_FIELDS[k])
    ensures ParseHeader(lines).Success? ==>
      var h := ParseHeader(lines).value;
      && Textual(h.program) == FieldOf(lines, Field(PROGRAM_LINE, Word))
      && Textual(h.sourceFile) == FieldOf(lines, Field(SOURCE_FILE_LINE, Word))
      && Number(h.totalMutants) == FieldOf(lines, Field(TOTAL_LINE, Integer))
      && Number(h.anomalousMutants) == FieldOf(lines, Field(ANOMALOUS_LINE, Integer))
      && Number(h.activeMutants) == FieldOf(lines, Field(ACTIVE_LINE, Integer))
      && Number(h.aliveMutants) == FieldOf(lines, Field(ALIVE_LINE, Integer))
      && Number(h.equivalentMutants) == FieldOf(lines, Field(EQUIVALENT_LINE, Integer))
      && Textual(h.mutationScore) == FieldOf(lines, Field(SCORE_LINE, Real))
    ensures ParseHeader(lines).Failure? ==>
      exists k | 0 <= k < |HEADER_FIELDS| ::
        && !FieldOk(lines, HEADER_FIELDS[k])
        && ParseHeader(lines).error == FieldError(lines, HEADER_FIELDS[k])
        && forall j | 0 <= j < k :: FieldOk(lines, HEADER_FIELDS[j])
  {
    ReadFieldsSuccess(lines, HEADER_FIELDS);
    ReadFieldsFailure(lines, HEADER_FIELDS);
    var r := ReadFields(lines, HEADER_FIELDS);
    if r.Success? {
      assert forall k | 0 <= k < 8 :: r.value[k] == FieldOf(lines, HEADER_FIELDS[k]);
    }
  }

  /** A table that is empty from its first line (blank, not a row, or end of file) yields no operators. */
  lemma ParseEmptyTable(lines: seq<string>)
    requires ParseHeader(lines).Success?
    requires TABLE_START >= |lines| || !IsRow(lines[TABLE_START])
    ensures Parse(lines).Success?
    ensures Parse(lines).value.operators == map[] && Parse(lines).value.orderedOpKeys == []
  {
  }

  /** The scan succeeds exactly when every row of the table has integer counts. */
  lemma {:induction false} ScanTableSucceeds(rows: seq<string>, line: nat)
    ensures ScanTable(rows, line).Success? <==>
      forall i | 0 <= i < TableLength(rows) :: RowCounts(Split(rows[i]), line + i).Success?
    decreases |rows|
  {
    if rows != [] && IsRow(rows[0]) {
      ScanTableSucceeds(rows[1..], line + 1);
      var n := TableLength(rows);
      assert n == 1 + TableLength(rows[1..]);
      assert forall i | 1 <= i < n :: rows[i] == rows[1..][i - 1];
      var rc, rest := RowCounts(Split(rows[0]), line), ScanTable(rows[1..], line + 1);
      assert ScanTable(rows, line).Success? <==> rc.Success? && rest.Success?;
    }
  }

  /** The table scan's result with `done` put in front of its pairs. */
  function Prepend(done: seq<OpCount>, r: Result<seq<OpCount>, LoadError>): Result<seq<OpCount>, LoadError> {
    if r.Failure? then r else Success(done + r.value)
  }

  /** Before the table loop nothing has been read: the whole scan is still ahead. */
  lemma ScanStart(lines: seq<string>)
    ensures ScanTableAt(lines) == Prepend([], ScanTable(Drop(lines, TABLE_START), TABLE_START))
  {
    var r := ScanTable(Drop(lines, TABLE_START), TABLE_START);
    if r.Success? {
      assert [] + r.value == r.value;
    }
  }

  /** The table loop stops at a line that is not a row, or at the end of input: nothing more is read. */
  lemma ScanStop(lines: seq<string>, pos: nat, done: seq<OpCount>)
    requires !(pos < |lines| && IsRow(lines[pos]))
    ensures Prepend(done, ScanTable(Drop(lines, pos), pos)) == Success(done)
  {
    assert done + [] == done;
  }

  /** One turn of the table loop that reads a row: the row's pairs join those read so far. */
  lemma ScanStepRow(lines: seq<string>, pos: nat, done: seq<OpCount>, row: seq<OpCount>)
    requires pos < |lines| && IsRow(lines[pos])
    requires RowCounts(Split(lines[pos]), pos) == Success(row)
    ensures Prepend(done, ScanTable(Drop(lines, pos), pos))
      == Prepend(done + row, ScanTable(Drop(lines, pos + 1), pos + 1))
  {
    var rows := Drop(lines, pos);
    assert rows[0] == lines[pos] && rows[1..] == Drop(lines, pos + 1);
    var rest := ScanTable(Drop(lines, pos + 1), pos + 1);
    if rest.Success? {
      assert done + (row + rest.value) == (done + row) + rest.value;
    }
  }

  /** One turn of the table loop on a row whose count is not an integer: the scan fails with its error. */
  lemma ScanStepFail(lines: seq<string>, pos: nat, done: seq<OpCount>, e: LoadError)
    requires pos < |lines| && IsRow(lines[pos])
    requires RowCounts(Split(lines[pos]), pos) == Failure(e)
    ensures Prepend(done, ScanTable(Drop(lines, pos), pos)) == Failure(e)
  {
    var rows := Drop(lines, pos);
    assert rows[0] == lines[pos];
  }
}
