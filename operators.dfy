/**
  `Proteum.operators`: the fixed list of mutation operator names the adapter
  knows, and the prefix filter over it (pyproteum/Proteum.py).
 */
module Operators {
  import opened Wrappers
  import opened Text

  /** The fixed list of mutation operators, in the adapter's order (one entry carries a leading `-`). */
  const ALL_OPERATORS: seq<string> := [
    "u-OAAA", "u-OAAN", "u-OABA", "u-OABN", "u-OAEA",
    "u-OALN", "u-OARN", "u-OASA", "u-OASN", "u-OBAA",
    "u-OBAN", "u-OBBA", "u-OBBN", "u-OBEA", "u-OBLN",
    "u-OBNG", "u-OBRN", "u-OBSA", "u-OBSN", "u-OCNG",
    "u-OCOR", "u-OEAA", "u-OEBA", "u-OESA", "u-Oido",
    "u-OIPM", "u-OLAN", "u-OLBN", "u-OLLN", "u-OLNG",
    "u-OLRN", "u-OLSN", "u-ORAN", "u-ORBN", "u-ORLN",
    "u-ORRN", "u-ORSN", "u-OSAA", "u-OSAN", "u-OSBA",
    "u-OSBN", "u-OSEA", "u-OSLN", "u-OSRN", "u-OSSA",
    "u-OSSN", "u-SBRC", "u-SBRn", "u-SCRB", "u-SCRn",
    "u-SDWD", "u-SGLR", "u-SMTC", "u-SMTT", "u-SMVB",
    "u-SRSR", "u-SSDL", "u-SSWM", "u-STRI", "u-STRP",
    "u-SWDD", "u-VDTR", "u-VGAR", "u-VGPR", "u-VGSR",
    "u-VGTR", "u-VLAR", "u-VLPR", "u-VLSR", "u-VLTR",
    "u-VSCR", "u-VTWD", "u-Cccr", "u-Ccsr", "u-CRCR",
    "I-CovAllEdg", "-I-CovAllNod", "I-DirVarAriNeg",
    "I-DirVarBitNeg", "I-DirVarIncDec", "I-DirVarLogNeg",
    "I-DirVarRepCon", "I-DirVarRepExt", "I-DirVarRepGlo",
    "I-DirVarRepLoc", "I-DirVarRepPar", "I-DirVarRepReq",
    "I-IndVarAriNeg", "I-IndVarBitNeg", "I-IndVarIncDec",
    "I-IndVarLogNeg", "I-IndVarRepCon", "I-IndVarRepExt",
    "I-IndVarRepGlo", "I-IndVarRepLoc", "I-IndVarRepPar",
    "I-IndVarRepReq", "I-RetStaDel", "I-RetStaRep",
    "II-ArgAriNeg", "II-ArgBitNeg", "II-ArgDel",
    "II-ArgIncDec", "II-ArgLogNeg", "II-ArgRepReq",
    "II-ArgStcAli", "II-ArgStcDif", "II-FunCalDel"]

  /** The elements of `xs` that start with `p`, in their order. */
  function Filter(xs: seq<string>, p: string): (r: seq<string>)
    ensures |r| <= |xs|
  {
    if xs == [] then []
    else (if StartsWith(xs[0], p) then [xs[0]] else []) + Filter(xs[1..], p)
  }

  /** `Proteum.operators(preffix)`: the whole list unless a non-empty prefix is given. */
  function Operators(prefix: Option<string>): (r: seq<string>)
    ensures prefix.None? || prefix.value == "" ==> r == ALL_OPERATORS
  {
    if prefix.Some? && prefix.value != "" then Filter(ALL_OPERATORS, prefix.value) else ALL_OPERATORS
  }

  /** An entry is kept exactly when it is in the list and starts with the prefix. */
  lemma {:induction false} FilterMembers(xs: seq<string>, p: string, x: string)
    ensures x in Filter(xs, p) <==> x in xs && StartsWith(x, p)
    decreases |xs|
  {
    if xs != [] {
      FilterMembers(xs[1..], p, x);
      assert xs == [xs[0]] + xs[1..];
    }
  }

  /** Filtering a concatenation filters each part in turn: kept entries stay in list order. */
  lemma {:induction false} FilterAppend(xs: seq<string>, ys: seq<string>, p: string)
    ensures Filter(xs + ys, p) == Filter(xs, p) + Filter(ys, p)
    decreases |xs|
  {
    if xs == [] {
      assert xs + ys == ys;
    } else {
      var h := if StartsWith(xs[0], p) then [xs[0]] else [];
      assert (xs + ys)[0] == xs[0];
      assert (xs + ys)[1..] == xs[1..] + ys;
      FilterAppend(xs[1..], ys, p);
      calc {
        Filter(xs + ys, p);
        h + Filter(xs[1..] + ys, p);
        h + (Filter(xs[1..], p) + Filter(ys, p));
        (h + Filter(xs[1..], p)) + Filter(ys, p);
      }
    }
  }

  /** `operators(p)` with a non-empty prefix: exactly the listed operators that start with `p`. */
  lemma OperatorsWithPrefix(p: string, x: string)
    requires p != ""
    ensures x in Operators(Some(p)) <==> x in ALL_OPERATORS && StartsWith(x, p)
  {
    FilterMembers(ALL_OPERATORS, p, x);
  }
}
