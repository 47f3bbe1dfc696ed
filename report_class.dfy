/**
  The report handler of pyproteum/ProteumReport.py as an object: `load_general`
  fills its fields from the lines of a report, `str_ops` renders its operator table.
 */
module ProteumReport {
  import opened Wrappers
  import opened Text
  import opened ReportFormat
  import opened OpsLayout

  /**
    The header part of `load_general`: the eight labelled lines read in turn, the
    first one that raises ending the load.
   */
  method ReadHeader(lines: seq<string>) returns (err: Option<LoadError>, h: Header)
    ensures err.None? <==> ParseHeader(lines).Success?
    ensures err.None? ==> h == ParseHeader(lines).value
    ensures err.Some? ==> err.value == ParseHeader(lines).error
  {
    h := Header("", "", 0, 0, 0, 0, 0, "");
    var r := ReadFieldAt(lines, HEADER_FIELDS[0]);
    if r.Failure? { ReadFieldsFailsAt(lines, HEADER_FIELDS, 0); return Some(r.error), h; }
    FieldsOkExtend(lines, HEADER_FIELDS, 0);
    var program := r.value.text;
    r := ReadFieldAt(lines, HEADER_FIELDS[1]);
    if r.Failure? { ReadFieldsFailsAt(lines, HEADER_FIELDS, 1); return Some(r.error), h; }
    FieldsOkExtend(lines, HEADER_FIELDS, 1);
    var sourceFile := r.value.text;
    r := ReadFieldAt(lines, HEADER_FIELDS[2]);
    if r.Failure? { ReadFieldsFailsAt(lines, HEADER_FIELDS, 2); return Some(r.error), h; }
    FieldsOkExtend(lines, HEADER_FIELDS, 2);
    var totalMutants := r.value.number;
    r := ReadFieldAt(lines, HEADER_FIELDS[3]);
    if r.Failure? { ReadFieldsFailsAt(lines, HEADER_FIELDS, 3); return Some(r.error), h; }
    FieldsOkExtend(lines, HEADER_FIELDS, 3);
    var anomalousMutants := r.value.number;
    r := ReadFieldAt(lines, HEADER_FIELDS[4]);
    if r.Failure? { ReadFieldsFailsAt(lines, HEADER_FIELDS, 4); return Some(r.error), h; }
    FieldsOkExtend(lines, HEADER_FIELDS, 4);
    var activeMutants := r.value.number;
    r := ReadFieldAt(lines, HEADER_FIELDS[5]);
    if r.Failure? { ReadFieldsFailsAt(lines, HEADER_FIELDS, 5); return Some(r.error), h; }
    FieldsOkExtend(lines, HEADER_FIELDS, 5);
    var aliveMutants := r.value.number;
    r := ReadFieldAt(lines, HEADER_FIELDS[6]);
    if r.Failure? { ReadFieldsFailsAt(lines, HEADER_FIELDS, 6); return Some(r.error), h; }
    FieldsOkExtend(lines, HEADER_FIELDS, 6);
    var equivalentMutants := r.value.number;
    r := ReadFieldAt(lines, HEADER_FIELDS[7]);
    if r.Failure? { ReadFieldsFailsAt(lines, HEADER_FIELDS, 7); return Some(r.error), h; }
    FieldsOkExtend(lines, HEADER_FIELDS, 7);
    var mutationScore := r.value.text;
    HeaderOfFields(lines);
    h := Header(program, sourceFile, totalMutants, anomalousMutants, activeMutants,
                aliveMutants, equivalentMutants, mutationScore);
    err := None;
  }


  /**
    The report handler. `load_general` fills its fields from a report; until then
    the model holds empty values where the source has no attribute at all.
   */
  class ProteumReport {
    const lst: string
    var program: string
    var sourceFile: string
    var totalMutants: int
    var anomalousMutants: int
    var activeMutants: int
    var aliveMutants: int
    var equivalentMutants: int
    var mutationScore: string
    var operators: map<string, int>
    var orderedOpKeys: seq<string>

    /** The dictionary has an entry for exactly the names in the key list. */
    ghost predicate Valid()
      reads this
    {
      operators.Keys == set k | k in orderedOpKeys
    }


    constructor(lst: string)
      ensures this.lst == lst
      ensures operators == map[] && orderedOpKeys == []
      ensures Valid()
    {
      this.lst := lst;
      program, sourceFile, mutationScore := "", "", "";
      totalMutants, anomalousMutants, activeMutants, aliveMutants, equivalentMutants := 0, 0, 0, 0, 0;
      operators, orderedOpKeys := map[], [];
    }

    /** The scalar fields as a header value. */
    function HeaderOf(): Header
      reads this
    {
      Header(program, sourceFile, totalMutants, anomalousMutants, activeMutants,
             aliveMutants, equivalentMutants, mutationScore)
    }

    /** The fields as a summary value. */
    function Current(): Summary
      reads this
    {
      Summary(HeaderOf(), operators, orderedOpKeys)
    }

    /**
      `load_general` over the lines of a report. On success the fields hold exactly
      what `Parse` reads; otherwise the error of the line that raised is returned.
     */
    method LoadGeneral(lines: seq<string>) returns (err: Option<LoadError>)
      modifies this
      ensures err.None? <==> Parse(lines).Success?
      ensures err.None? ==> Current() == Parse(lines).value && Valid()
      ensures err.Some? ==> err.value == Parse(lines).error
    {
      var h;
      err, h := ReadHeader(lines);
      if err.Some? {
        ParseHeaderFails(lines);
        return;
      }
      SetHeader(h);
      err := LoadTable(lines);
      if err.Some? {
        ParseTableFails(lines);
      } else {
        ghost var ps := ScanTableAt(lines).value;
        ParseSucceeds(lines);
        TabulateKeys(ps);
      }
    }

    /** The header's fields assigned, the operator table left as it is. */
    method SetHeader(h: Header)
      modifies this
      ensures HeaderOf() == h
      ensures operators == old(operators) && orderedOpKeys == old(orderedOpKeys)
    {
      program, sourceFile, mutationScore := h.program, h.sourceFile, h.mutationScore;
      totalMutants, anomalousMutants, activeMutants := h.totalMutants, h.anomalousMutants, h.activeMutants;
      aliveMutants, equivalentMutants := h.aliveMutants, h.equivalentMutants;
    }

    /**
      The table loop of `load_general`: rows of 3, 5 or 7 tokens are read until the
      first line that is not one, each pair assigned into `operators` and appended to
      `orderedOpKeys`. The header fields are left as they are.
     */
    method LoadTable(lines: seq<string>) returns (err: Option<LoadError>)
      modifies this`operators, this`orderedOpKeys
      ensures err.None? <==> ScanTableAt(lines).Success?
      ensures err.None? ==> operators == Tabulate(ScanTableAt(lines).value)
      ensures err.None? ==> orderedOpKeys == Names(ScanTableAt(lines).value)
      ensures err.Some? ==> err.value == ScanTableAt(lines).error
    {
      operators := map[];
      orderedOpKeys := [];
      var pos := TABLE_START;
      var line := ReadLine(lines, pos);
      var split := Split(line);
      ghost var done: seq<OpCount> := [];
      ScanStart(lines);
      while line != "" && IsRowWidth(|split|)
        invariant line == ReadLine(lines, pos) && split == Split(line)
        invariant operators == Tabulate(done) && orderedOpKeys == Names(done)
        invariant ScanTableAt(lines) == Prepend(done, ScanTable(Drop(lines, pos), pos))
        decreases |lines| - pos
      {
        assert pos < |lines| && IsRow(lines[pos]);
        ghost var row;
        err, row := ReadRow(split, pos, done);
        if err.Some? {
          ScanStepFail(lines, pos, done, err.value);
          return;
        }
        ScanStepRow(lines, pos, done, row);
        done := done + row;
        pos := pos + 1;
        line := ReadLine(lines, pos);
        split := Split(line);
      }
      ScanStop(lines, pos, done);
      return None;
    }

    /**
      The body of the table loop for one row: each pair in turn is assigned into
      `operators` and its name appended to `orderedOpKeys`; a count that is not an
      integer raises ValueError.
     */
    method ReadRow(split: seq<string>, pos: nat, ghost done: seq<OpCount>) returns (err: Option<LoadError>, ghost row: seq<OpCount>)
      requires IsRowWidth(|split|)
      requires operators == Tabulate(done) && orderedOpKeys == Names(done)
      modifies this`operators, this`orderedOpKeys
      ensures err.Some? ==> RowCounts(split, pos) == Failure(err.value)
      ensures err.None? ==>
        && RowCounts(split, pos) == Success(row)
        && operators == Tabulate(done + row)
        && orderedOpKeys == Names(done + row)
    {
      RowCountsSteps(split, pos);
      var c1 := AssignPair(split[1], split[2], pos);
      if c1.Failure? { return Some(c1.error), []; }
      ghost var p1 := OpCount(split[1], c1.value);
      if |split| >= 5 {
        var c2 := AssignPair(split[3], split[4], pos);
        if c2.Failure? { return Some(c2.error), []; }
        ghost var p2 := OpCount(split[3], c2.value);
        if |split| == 7 {
          var c3 := AssignPair(split[5], split[6], pos);
          if c3.Failure? { return Some(c3.error), []; }
          ghost var p3 := OpCount(split[5], c3.value);
          TabulateTriple(done, p1, p2, p3);
          return None, [p1, p2, p3];
        }
        TabulatePair(done, p1, p2);
        return None, [p1, p2];
      }
      TabulateSnoc(done, p1);
      return None, [p1];
    }

    /** One pair of a row: `operators[name] = int(tok)`, then `name` appended to the key list. */
    method AssignPair(name: string, tok: string, pos: nat) returns (c: Result<int, LoadError>)
      modifies this`operators, this`orderedOpKeys
      ensures c == Count(tok, pos)
      ensures c.Failure? ==> operators == old(operators) && orderedOpKeys == old(orderedOpKeys)
      ensures c.Success? ==>
        && operators == old(operators)[name := c.value]
        && orderedOpKeys == old(orderedOpKeys) + [name]
    {
      c := Count(tok, pos);
      if c.Failure? {
        return;
      }
      operators := operators[name := c.value];
      orderedOpKeys := orderedOpKeys + [name];
    }

    /** `str_ops`: the keys in order with their counts, `endl` after every third entry. */
    method StrOps(endl: string) returns (s: string)
      requires Valid()
      ensures Covers(Layout(orderedOpKeys), operators)
      ensures s == RenderPieces(Layout(orderedOpKeys), operators, endl)
    {
      var keys, ops := orderedOpKeys, operators;
      assert forall k | k in keys :: k in ops;
      s := "";
      var j := 0;
      for i := 0 to |keys|
        invariant j == i % 3
        invariant Covers(Layout(keys[..i]), ops)
        invariant s == RenderPieces(Layout(keys[..i]), ops, endl)
      {
        var key := keys[i];
        StrOpsStep(keys, ops, endl, i);
        s := s + EntryText(key, ops[key]);
        NextColumn(i, j);
        j := (j + 1) % 3;
        if j == 0 {
          s := s + endl;
        }
      }
      assert keys[..|keys|] == keys;
    }
  }
}
