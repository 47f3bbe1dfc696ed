/**
  The command lines the Proteum adapter (pyproteum/Proteum.py) hands to the shell,
  as values: each builder's subcommand, the options it appends in their fixed order,
  and what `exec_command` makes of the command and the session.
 */
module Commands {
  import opened Wrappers
  import opened Text
  import opened CommandLine

  /** Why a call raised instead of running or skipping anything. */
  datatype Fault =
    | SessionUnset        // `self.session` read before any assignment: AttributeError
    | SeedNotText         // `' -seed ' + seed` with a non-zero integer seed: TypeError
    | UnexpectedKeyword   // `exemuta(..., x=x)`: `exemuta` has no parameter `x`: TypeError

  /**
    What one call does: a command run through the shell (with the line echoed
    before it), a diagnostic echoed instead, or an exception.
   */
  datatype Invocation =
    | Executed(echo: string, shell: string)
    | Skipped(echo: string)
    | Crashed(fault: Fault)

  const EXECUTING: string := "[proteumIM executing]:"
  const NO_SESSION: string := "Error: First create a test session with test-new!"

  // The flags the builders append, each a single shell word.
  const DASH_research: Flag := "-research"
  const DASH_S: Flag := "-S"
  const DASH_E: Flag := "-E"
  const DASH_D: Flag := "-D"
  const DASH_C: Flag := "-C"
  const DASH_unit: Flag := "-unit"
  const DASH_seed: Flag := "-seed"
  const DASH_c: Flag := "-c"
  const DASH_r: Flag := "-r"
  const DASH_DD: Flag := "-DD"
  const DASH_f: Flag := "-f"
  const DASH_t: Flag := "-t"
  const DASH_x: Flag := "-x"
  const DASH_trace: Flag := "-trace"
  const DASH_label: Flag := "-label"
  const DASH_P: Flag := "-P"
  const DASH_p: Flag := "-p"
  const DASH_EE: Flag := "-EE"
  const DASH_dual: Flag := "-dual"
  const DASH_Q: Flag := "-Q"
  const DASH_T: Flag := "-T"
  const DASH_v: Flag := "-v"
  const DASH_L: Flag := "-L"

  /**
    `if session is None: session = self.session`. The ambient session is `None`
    when the attribute was never assigned, so reading it raises.
   */
  function Resolve(explicit: Option<string>, ambient: Option<string>): Result<string, Fault> {
    if explicit.Some? then Success(explicit.value)
    else if ambient.Some? then Success(ambient.value)
    else Failure(SessionUnset)
  }

  /** The output redirection appended when the adapter has an output file. */
  function Redirect(of: Option<string>): string {
    if of.Some? && of.value != "" then " >> " + of.value else ""
  }

  /**
    `exec_command(command, session)` on an adapter whose ambient session is
    `ambient` and whose output file is `of`: an empty session skips the command.
   */
  function Exec(command: string, explicit: Option<string>, ambient: Option<string>, of: Option<string>): (r: Invocation)
    ensures r.Crashed? <==> explicit.None? && ambient.None?
    ensures r.Crashed? ==> r.fault == SessionUnset
    ensures r.Skipped? ==> r.echo == NO_SESSION
    ensures r.Skipped? <==> Resolve(explicit, ambient) == Success("")
    ensures explicit.Some? ==> (r.Executed? <==> explicit.value != "")
    ensures r.Executed? ==> r.shell == command + " " + Resolve(explicit, ambient).value + Redirect(of)
    ensures r.Executed? ==>
      && EndsWith(r.shell, Redirect(of))
      && r.echo == EXECUTING + r.shell[..|r.shell| - |Redirect(of)|]
  {
    match Resolve(explicit, ambient)
    case Failure(f) => Crashed(f)
    case Success(s) =>
      if s != "" then Executed(EXECUTING + command + " " + s, command + " " + s + Redirect(of))
      else Skipped(NO_SESSION)
  }

  // ------------------------------------------------------------------ test-new

  /** `test_new`'s optional arguments in the order it appends them; `-D` and `-C` values are double-quoted. */
  function TestNewArgs(research: bool, S: string, E: string, D: string, C: string): Args {
    Cons(Switch(research, DASH_research),
    Cons(Valued(|S| > 0, DASH_S, S),
    Cons(Valued(|E| > 0, DASH_E, E),
    Cons(Valued(|D| > 0, DASH_D, "\"" + D + "\""),
    Cons(Valued(|C| > 0, DASH_C, "\"" + C + "\""), Nil)))))
  }

  /** `"%stest-new%s %s" % (self.bin_dir, arguments, session)`. */
  function TestNewCommand(binDir: string, research: bool, S: string, E: string, D: string, C: string, session: string): string {
    binDir + "test-new" + Render(TestNewArgs(research, S, E, D, C)) + " " + session
  }

  // ------------------------------------------------------------------ muta-gen

  /** One entry of `muta_gen`'s operator list: a name filter, a percentage and a maximum. */
  datatype MutaOp = MutaOp(filter: string, percent: int, max: int)

  /** `muta_gen`'s `seed`: an integer (the default 0) or a string. */
  datatype Seed = SeedNumber(n: int) | SeedText(text: string)

  /** `"%s %s %s" % (op['filter'], op['percent'], op['max'])`. */
  function OpText(op: MutaOp): string {
    op.filter + " " + IntToString(op.percent) + " " + IntToString(op.max)
  }

  function OpTexts(ops: seq<MutaOp>): (r: seq<string>)
    ensures |r| == |ops|
  {
    if ops == [] then [] else [OpText(ops[0])] + OpTexts(ops[1..])
  }

  /** The words the operator list is meant to contribute: filter, percentage, maximum, per entry. */
  function OpWords(ops: seq<MutaOp>): (r: seq<string>)
    ensures |r| == 3 * |ops|
  {
    if ops == [] then []
    else [ops[0].filter, IntToString(ops[0].percent), IntToString(ops[0].max)] + OpWords(ops[1..])
  }

  /** `ops_str` as written: `-O file` is followed by the first filter with no space between. */
  function OpsStrAsWritten(O: string, ops: seq<MutaOp>): string {
    (if |O| > 0 then "-O " + O else "") + Join(" ", OpTexts(ops))
  }

  /** `ops_str` with a space between `-O file` and the operator list when both are present. */
  function OpsStr(O: string, ops: seq<MutaOp>): string {
    (if |O| > 0 then "-O " + O + (if ops == [] then "" else " ") else "") + Join(" ", OpTexts(ops))
  }

  /** The arguments `muta_gen` appends after `ops_str`; an integer seed never gets here unless it is 0. */
  function MutaGenArgs(unit: string, seed: Seed, callerUnit: string, calleeUnit: string, r: bool, D: string, DD: string): Args {
    Cons(Valued(|unit| > 0, DASH_unit, unit),
    Cons(Valued(seed.SeedText?, DASH_seed, if seed.SeedText? then seed.text else ""),
    Cons(Valued(|callerUnit| > 0 && |calleeUnit| > 0, DASH_c, callerUnit + " " + calleeUnit),
    Cons(Switch(r, DASH_r),
    Cons(Valued(|D| > 0, DASH_D, D),
    Cons(Valued(|DD| > 0, DASH_DD, DD), Nil))))))
  }

  /** `"muta-gen %s%s" % (ops_str, arguments)`, with `ops_str` as written. */
  function MutaGenCommand(ops: seq<MutaOp>, unit: string, D: string, seed: Seed, r: bool,
                          callerUnit: string, calleeUnit: string, O: string, DD: string): string
  {
    "muta-gen " + OpsStrAsWritten(O, ops) + Render(MutaGenArgs(unit, seed, callerUnit, calleeUnit, r, D, DD))
  }

  /** The `muta-gen` line with the corrected `ops_str`. */
  function MutaGenCommandIntended(ops: seq<MutaOp>, unit: string, D: string, seed: Seed, r: bool,
                                  callerUnit: string, calleeUnit: string, O: string, DD: string): string
  {
    "muta-gen " + OpsStr(O, ops) + Render(MutaGenArgs(unit, seed, callerUnit, calleeUnit, r, D, DD))
  }

  // ------------------------------------------------------------------ tcase

  function TcaseArgs(f: int, t: int, x: string, D: string): Args {
    Cons(Valued(f > 0, DASH_f, IntToString(f)),
    Cons(Valued(t > 0, DASH_t, IntToString(t)),
    Cons(Valued(|x| > 0, DASH_x, x),
    Cons(Valued(|D| > 0, DASH_D, D), Nil))))
  }

  /** `"tcase " + arg` and the range options. */
  function TcaseCommand(arg: string, f: int, t: int, x: string, D: string): string {
    "tcase " + arg + Render(TcaseArgs(f, t, x, D))
  }

  /** The arguments of `tcase_add` before `-E`; a parameter string `"-P"` becomes the switch `-P`. */
  function TcaseAddArgs(p: string, trace: bool, caseLabel: string, D: string, DD: string, EE: string): Args {
    Cons(Valued(trace, DASH_trace, ""),
    Cons(Valued(|caseLabel| > 0, DASH_label, caseLabel),
    Cons(Switch(p == "-P", DASH_P),
    Cons(Valued(|p| > 0 && p != "-P", DASH_p, p),
    Cons(Valued(|D| > 0, DASH_D, D),
    Cons(Valued(|DD| > 0, DASH_DD, DD),
    Cons(Valued(|EE| > 0, DASH_EE, EE), Nil)))))))
  }

  /** `tcase_add`: `"tcase -add"` ending in `-E` when an executable is named, `"tcase-add"` otherwise. */
  function TcaseAddCommand(p: string, trace: bool, caseLabel: string, D: string, E: string, DD: string, EE: string): string {
    var args := TcaseAddArgs(p, trace, caseLabel, D, DD, EE);
    if |E| > 0 then "tcase -add" + Render(args) + ArgText(Valued(true, DASH_E, E)) else "tcase-add" + Render(args)
  }

  // ------------------------------------------------------------------ exemuta

  function ExemutaArgs(trace: bool, dual: bool, D: string, Q: int, f: int, t: int, T: int, v: string): Args {
    Cons(Switch(trace, DASH_trace),
    Cons(Switch(dual, DASH_dual),
    Cons(Valued(|D| > 0, DASH_D, D),
    Cons(Valued(Q > 0, DASH_Q, IntToString(Q)),
    Cons(Valued(f > 0, DASH_f, IntToString(f)),
    Cons(Valued(t > 0, DASH_t, IntToString(t)),
    Cons(Valued(T > 0, DASH_T, IntToString(T)),
    Cons(Valued(|v| > 0, DASH_v, v), Nil))))))))
  }

  /** `"exemuta %s%s" % (command, arguments)`. */
  function ExemutaCommand(command: string, trace: bool, dual: bool, D: string, Q: int, f: int, t: int, T: int, v: string): string {
    "exemuta " + command + Render(ExemutaArgs(trace, dual, D, Q, f, t, T, v))
  }

  // ------------------------------------------------------------------ report

  function ReportArgs(D: string, S: string, L: string): Args {
    Cons(Valued(|D| > 0, DASH_D, D),
    Cons(Valued(|S| > 0, DASH_S, S),
    Cons(Valued(|L| > 0, DASH_L, L), Nil)))
  }

  /** `"report %s" % arguments`, the arguments starting with `-trace` or `-tcase`. */
  function ReportCommand(trace: bool, D: string, S: string, L: string): string {
    "report " + (if trace then "-trace" else "-tcase") + Render(ReportArgs(D, S, L))
  }

  /** `os.path.join(a, b)` on POSIX: an absolute `b` replaces `a`; otherwise one `/` separates them. */
  function PathJoin(a: string, b: string): (r: string)
    ensures EndsWith(r, b)
    ensures StartsWith(b, "/") ==> r == b
    ensures !StartsWith(b, "/") ==> StartsWith(r, a)
    ensures !StartsWith(b, "/") && a != "" && !EndsWith(a, "/") ==> r == a + "/" + b
    ensures !StartsWith(b, "/") && (a == "" || EndsWith(a, "/")) ==> r == a + b
  {
    if StartsWith(b, "/") then b
    else if a == "" || EndsWith(a, "/") then a + b
    else a + "/" + b
  }

  // ------------------------------------------------------------------ properties

  /**
    The shell line splits into the command's words, the session's words, then
    `>>` and the output file's words when the adapter has an output file.
   */
  lemma ShellTokens(command: string, s: string, of: Option<string>)
    ensures Split(command + " " + s + Redirect(of))
      == Split(command) + Split(s) + (if of.Some? && of.value != "" then [">>"] + Split(of.value) else [])
  {
    var R := Redirect(of);
    if of.Some? && of.value != "" {
      assert R == ArgText(Valued(true, ">>", of.value));
      SplitArg(Valued(true, ">>", of.value));
    }
    assert command + " " + s + R == command + (" " + (s + R));
    SplitAppend(command, " " + (s + R));
    SplitLeadingSpace(s + R);
    SplitAppend(s, R);
  }

  /** What `exec_command` runs splits into the command's words, the session's words, then the redirection. */
  lemma ExecTokens(command: string, explicit: Option<string>, ambient: Option<string>, of: Option<string>)
    requires Exec(command, explicit, ambient, of).Executed?
    ensures Split(Exec(command, explicit, ambient, of).shell)
      == Split(command) + Split(Resolve(explicit, ambient).value)
         + (if of.Some? && of.value != "" then [">>"] + Split(of.value) else [])
  {
    ShellTokens(command, Resolve(explicit, ambient).value, of);
  }

  /** `test_new` appends `-research`, `-S`, `-E`, `-D` and `-C` in that order, each only when set. */
  lemma TestNewFlags(research: bool, S: string, E: string, D: string, C: string)
    ensures Flags(TestNewArgs(research, S, E, D, C)) ==
      (if research then [DASH_research] else []) +
      ((if |S| > 0 then [DASH_S] else []) +
      ((if |E| > 0 then [DASH_E] else []) +
      ((if |D| > 0 then [DASH_D] else []) +
      ((if |C| > 0 then [DASH_C] else [])))))
  {
    var l5 := Cons(Valued(|C| > 0, DASH_C, "\"" + C + "\""), Nil);
    var l4 := Cons(Valued(|D| > 0, DASH_D, "\"" + D + "\""), l5);
    var l3 := Cons(Valued(|E| > 0, DASH_E, E), l4);
    var l2 := Cons(Valued(|S| > 0, DASH_S, S), l3);
    var l1 := Cons(Switch(research, DASH_research), l2);
    assert TestNewArgs(research, S, E, D, C) == l1;
    assert Flags(l5) == (if |C| > 0 then [DASH_C] else []);
    assert Flags(l4) == (if |D| > 0 then [DASH_D] else []) + Flags(l5);
    assert Flags(l3) == (if |E| > 0 then [DASH_E] else []) + Flags(l4);
    assert Flags(l2) == (if |S| > 0 then [DASH_S] else []) + Flags(l3);
    assert Flags(l1) == (if research then [DASH_research] else []) + Flags(l2);
  }

  /** `muta_gen` appends `-unit`, `-seed` (a string seed only), `-c` (both units given), `-r`, `-D` and `-DD`, in that order. */
  lemma MutaGenFlags(unit: string, seed: Seed, callerUnit: string, calleeUnit: string, r: bool, D: string, DD: string)
    ensures Flags(MutaGenArgs(unit, seed, callerUnit, calleeUnit, r, D, DD)) ==
      (if |unit| > 0 then [DASH_unit] else []) +
      ((if seed.SeedText? then [DASH_seed] else []) +
      ((if |callerUnit| > 0 && |calleeUnit| > 0 then [DASH_c] else []) +
      ((if r then [DASH_r] else []) +
      ((if |D| > 0 then [DASH_D] else []) +
      ((if |DD| > 0 then [DASH_DD] else []))))))
  {
    var l6 := Cons(Valued(|DD| > 0, DASH_DD, DD), Nil);
    var l5 := Cons(Valued(|D| > 0, DASH_D, D), l6);
    var l4 := Cons(Switch(r, DASH_r), l5);
    var l3 := Cons(Valued(|callerUnit| > 0 && |calleeUnit| > 0, DASH_c, callerUnit + " " + calleeUnit), l4);
    var l2 := Cons(Valued(seed.SeedText?, DASH_seed, if seed.SeedText? then seed.text else ""), l3);
    var l1 := Cons(Valued(|unit| > 0, DASH_unit, unit), l2);
    assert MutaGenArgs(unit, seed, callerUnit, calleeUnit, r, D, DD) == l1;
    assert Flags(l6) == (if |DD| > 0 then [DASH_DD] else []);
    assert Flags(l5) == (if |D| > 0 then [DASH_D] else []) + Flags(l6);
    assert Flags(l4) == (if r then [DASH_r] else []) + Flags(l5);
    assert Flags(l3) == (if |callerUnit| > 0 && |calleeUnit| > 0 then [DASH_c] else []) + Flags(l4);
    assert Flags(l2) == (if seed.SeedText? then [DASH_seed] else []) + Flags(l3);
    assert Flags(l1) == (if |unit| > 0 then [DASH_unit] else []) + Flags(l2);
  }

  /** `tcase` appends `-f` only for a positive start, `-t` only for a positive end, then `-x` and `-D` when non-empty. */
  lemma TcaseFlags(f: int, t: int, x: string, D: string)
    ensures Flags(TcaseArgs(f, t, x, D)) ==
      (if f > 0 then [DASH_f] else []) +
      ((if t > 0 then [DASH_t] else []) +
      ((if |x| > 0 then [DASH_x] else []) +
      ((if |D| > 0 then [DASH_D] else []))))
  {
    var l4 := Cons(Valued(|D| > 0, DASH_D, D), Nil);
    var l3 := Cons(Valued(|x| > 0, DASH_x, x), l4);
    var l2 := Cons(Valued(t > 0, DASH_t, IntToString(t)), l3);
    var l1 := Cons(Valued(f > 0, DASH_f, IntToString(f)), l2);
    assert TcaseArgs(f, t, x, D) == l1;
    assert Flags(l4) == (if |D| > 0 then [DASH_D] else []);
    assert Flags(l3) == (if |x| > 0 then [DASH_x] else []) + Flags(l4);
    assert Flags(l2) == (if t > 0 then [DASH_t] else []) + Flags(l3);
    assert Flags(l1) == (if f > 0 then [DASH_f] else []) + Flags(l2);
  }

  /** `tcase_add` appends `-trace`, `-label`, then `-P` when the parameter string is exactly `"-P"` or `-p` for any other non-empty one, then `-D`, `-DD` and `-EE`. */
  lemma TcaseAddFlags(p: string, trace: bool, caseLabel: string, D: string, DD: string, EE: string)
    ensures Flags(TcaseAddArgs(p, trace, caseLabel, D, DD, EE)) ==
      (if trace then [DASH_trace] else []) +
      ((if |caseLabel| > 0 then [DASH_label] else []) +
      ((if p == "-P" then [DASH_P] else []) +
      ((if |p| > 0 && p != "-P" then [DASH_p] else []) +
      ((if |D| > 0 then [DASH_D] else []) +
      ((if |DD| > 0 then [DASH_DD] else []) +
      ((if |EE| > 0 then [DASH_EE] else [])))))))
  {
    var l7 := Cons(Valued(|EE| > 0, DASH_EE, EE), Nil);
    var l6 := Cons(Valued(|DD| > 0, DASH_DD, DD), l7);
    var l5 := Cons(Valued(|D| > 0, DASH_D, D), l6);
    var l4 := Cons(Valued(|p| > 0 && p != "-P", DASH_p, p), l5);
    var l3 := Cons(Switch(p == "-P", DASH_P), l4);
    var l2 := Cons(Valued(|caseLabel| > 0, DASH_label, caseLabel), l3);
    var l1 := Cons(Valued(trace, DASH_trace, ""), l2);
    assert TcaseAddArgs(p, trace, caseLabel, D, DD, EE) == l1;
    assert Flags(l7) == (if |EE| > 0 then [DASH_EE] else []);
    assert Flags(l6) == (if |DD| > 0 then [DASH_DD] else []) + Flags(l7);
    assert Flags(l5) == (if |D| > 0 then [DASH_D] else []) + Flags(l6);
    assert Flags(l4) == (if |p| > 0 && p != "-P" then [DASH_p] else []) + Flags(l5);
    assert Flags(l3) == (if p == "-P" then [DASH_P] else []) + Flags(l4);
    assert Flags(l2) == (if |caseLabel| > 0 then [DASH_label] else []) + Flags(l3);
    assert Flags(l1) == (if trace then [DASH_trace] else []) + Flags(l2);
  }

  /** `exemuta` appends `-trace`, `-dual`, `-D`, `-Q`, `-f`, `-t`, `-T` and `-v` in that fixed order; no seed is among them. */
  lemma ExemutaFlags(trace: bool, dual: bool, D: string, Q: int, f: int, t: int, T: int, v: string)
    ensures Flags(ExemutaArgs(trace, dual, D, Q, f, t, T, v)) ==
      (if trace then [DASH_trace] else []) +
      ((if dual then [DASH_dual] else []) +
      ((if |D| > 0 then [DASH_D] else []) +
      ((if Q > 0 then [DASH_Q] else []) +
      ((if f > 0 then [DASH_f] else []) +
      ((if t > 0 then [DASH_t] else []) +
      ((if T > 0 then [DASH_T] else []) +
      ((if |v| > 0 then [DASH_v] else []))))))))
  {
    var l8 := Cons(Valued(|v| > 0, DASH_v, v), Nil);
    var l7 := Cons(Valued(T > 0, DASH_T, IntToString(T)), l8);
    var l6 := Cons(Valued(t > 0, DASH_t, IntToString(t)), l7);
    var l5 := Cons(Valued(f > 0, DASH_f, IntToString(f)), l6);
    var l4 := Cons(Valued(Q > 0, DASH_Q, IntToString(Q)), l5);
    var l3 := Cons(Valued(|D| > 0, DASH_D, D), l4);
    var l2 := Cons(Switch(dual, DASH_dual), l3);
    var l1 := Cons(Switch(trace, DASH_trace), l2);
    assert ExemutaArgs(trace, dual, D, Q, f, t, T, v) == l1;
    assert Flags(l8) == (if |v| > 0 then [DASH_v] else []);
    assert Flags(l7) == (if T > 0 then [DASH_T] else []) + Flags(l8);
    assert Flags(l6) == (if t > 0 then [DASH_t] else []) + Flags(l7);
    assert Flags(l5) == (if f > 0 then [DASH_f] else []) + Flags(l6);
    assert Flags(l4) == (if Q > 0 then [DASH_Q] else []) + Flags(l5);
    assert Flags(l3) == (if |D| > 0 then [DASH_D] else []) + Flags(l4);
    assert Flags(l2) == (if dual then [DASH_dual] else []) + Flags(l3);
    assert Flags(l1) == (if trace then [DASH_trace] else []) + Flags(l2);
  }

  /** `report` appends `-D`, `-S` and `-L` in that order, each only when non-empty. */
  lemma ReportFlags(D: string, S: string, L: string)
    ensures Flags(ReportArgs(D, S, L)) ==
      (if |D| > 0 then [DASH_D] else []) +
      ((if |S| > 0 then [DASH_S] else []) +
      ((if |L| > 0 then [DASH_L] else [])))
  {
    var l3 := Cons(Valued(|L| > 0, DASH_L, L), Nil);
    var l2 := Cons(Valued(|S| > 0, DASH_S, S), l3);
    var l1 := Cons(Valued(|D| > 0, DASH_D, D), l2);
    assert ReportArgs(D, S, L) == l1;
    assert Flags(l3) == (if |L| > 0 then [DASH_L] else []);
    assert Flags(l2) == (if |S| > 0 then [DASH_S] else []) + Flags(l3);
    assert Flags(l1) == (if |D| > 0 then [DASH_D] else []) + Flags(l2);
  }

  /** A command `head + " " + arg` followed by separated options splits into `head`, the argument's words, then the options' words. */
  lemma SplitCommand(head: string, arg: string, args: Args)
    requires IsWord(head)
    ensures Split(head + " " + arg + Render(args)) == [head] + Split(arg) + Words(args)
  {
    var R := Render(args);
    assert head + " " + arg + R == head + (" " + (arg + R));
    SplitWordThen(head, " " + (arg + R));
    SplitLeadingSpace(arg + R);
    RenderSpaced(args);
    SplitAppend(arg, R);
    SplitRender(args);
    assert [head] + (Split(arg) + Words(args)) == [head] + Split(arg) + Words(args);
  }

  /** `test_new`'s command starts with the tool path and ends with the session name. */
  lemma TestNewShape(binDir: string, research: bool, S: string, E: string, D: string, C: string, session: string)
    ensures var cmd := TestNewCommand(binDir, research, S, E, D, C, session);
      StartsWith(cmd, binDir + "test-new") && EndsWith(cmd, " " + session)
  {
    var cmd := TestNewCommand(binDir, research, S, E, D, C, session);
    var R := Render(TestNewArgs(research, S, E, D, C));
    assert cmd == (binDir + "test-new") + (R + " " + session);
    assert cmd == (binDir + "test-new" + R) + (" " + session);
  }

  /** The words of one operator entry: its filter, its percentage, its maximum. */
  lemma SplitOpText(op: MutaOp)
    requires IsWord(op.filter)
    ensures Split(OpText(op)) == [op.filter, IntToString(op.percent), IntToString(op.max)]
  {
    var p, m := IntToString(op.percent), IntToString(op.max);
    IntToStringIsWord(op.percent);
    IntToStringIsWord(op.max);
    assert OpText(op) == op.filter + (" " + p + " " + m);
    SplitWordThen(op.filter, " " + p + " " + m);
    SplitArg(Valued(true, p, m));
    SplitWord(m);
  }

  /** The joined operator list splits into filter, percentage and maximum of each entry, in input order. */
  lemma {:induction false} SplitOpTexts(ops: seq<MutaOp>)
    requires forall i | 0 <= i < |ops| :: IsWord(ops[i].filter)
    ensures Split(Join(" ", OpTexts(ops))) == OpWords(ops)
    decreases |ops|
  {
    if ops != [] {
      var op := ops[0];
      var texts := OpTexts(ops);
      var first := [op.filter, IntToString(op.percent), IntToString(op.max)];
      assert texts == [OpText(op)] + OpTexts(ops[1..]);
      assert OpWords(ops) == first + OpWords(ops[1..]);
      if |ops| == 1 {
        assert Join(" ", texts) == OpText(op);
        SplitOpText(op);
      } else {
        var rest := Join(" ", OpTexts(ops[1..]));
        assert texts[1..] == OpTexts(ops[1..]);
        assert Join(" ", texts) == OpText(op) + (" " + rest);
        SplitOpText(op);
        SplitAppend(OpText(op), " " + rest);
        SplitLeadingSpace(rest);
        SplitOpTexts(ops[1..]);
      }
    }
  }

  /** `"-O " + X` splits into `-O`, then the words of `X`. */
  lemma SplitDashO(X: string)
    ensures Split("-O " + X) == ["-O"] + Split(X)
  {
    assert "-O " + X == "-O" + (" " + X);
    SplitWordThen("-O", " " + X);
    SplitLeadingSpace(X);
  }

  /** The corrected `ops_str`: `-O` and the file's words, then every entry's three words. */
  lemma OpsStrTokens(O: string, ops: seq<MutaOp>)
    requires forall i | 0 <= i < |ops| :: IsWord(ops[i].filter)
    ensures Split(OpsStr(O, ops)) == (if |O| > 0 then ["-O"] + Split(O) else []) + OpWords(ops)
  {
    var J := Join(" ", OpTexts(ops));
    SplitOpTexts(ops);
    if |O| > 0 && ops != [] {
      assert OpsStr(O, ops) == "-O " + (O + (" " + J));
      SplitDashO(O + (" " + J));
      SplitAppend(O, " " + J);
      SplitLeadingSpace(J);
      assert ["-O"] + (Split(O) + Split(J)) == ["-O"] + Split(O) + Split(J);
    } else if |O| > 0 {
      assert OpsStr(O, ops) == "-O " + O;
      assert J == [] && OpWords(ops) == [];
      SplitDashO(O);
    } else {
      assert OpsStr(O, ops) == J;
    }
  }

  /** Text glued onto a one-word file name forms one word with it: `-O`, then the glued word, then the rest's words. */
  lemma SplitGlued(O: string, w: string, T: string)
    requires IsWord(O) && IsWord(w) && (T == [] || IsSpace(T[0]))
    ensures Split("-O " + O + (w + T)) == ["-O"] + ([O + w] + Split(T))
  {
    assert "-O " + O + (w + T) == "-O " + ((O + w) + T);
    SplitDashO((O + w) + T);
    WordConcat(O, w);
    SplitWordThen(O + w, T);
  }

  /**
    `ops_str` as written: with a one-word `-O` file and a non-empty operator list,
    the second word is the file name run together with the first filter.
   */
  lemma OpsStrAsWrittenGlues(O: string, ops: seq<MutaOp>)
    requires IsWord(O) && ops != [] && IsWord(ops[0].filter)
    ensures |Split(OpsStrAsWritten(O, ops))| >= 2
    ensures Split(OpsStrAsWritten(O, ops))[0] == "-O"
    ensures Split(OpsStrAsWritten(O, ops))[1] == O + ops[0].filter
  {
    var op := ops[0];
    var texts := OpTexts(ops);
    var more := if |ops| == 1 then "" else " " + Join(" ", texts[1..]);
    var T := " " + IntToString(op.percent) + " " + IntToString(op.max) + more;
    JoinFirst(texts);
    OpTextThen(op, more);
    SplitGlued(O, op.filter, T);
  }

  /** A non-empty join is its first element, then the separator and the join of the rest, if any. */
  lemma JoinFirst(ws: seq<string>)
    requires ws != []
    ensures Join(" ", ws) == ws[0] + (if |ws| == 1 then "" else " " + Join(" ", ws[1..]))
  {
    if |ws| == 1 {
      assert ws[0] + "" == ws[0];
    }
  }

  /** An entry followed by more text is its filter followed by the rest. */
  lemma OpTextThen(op: MutaOp, more: string)
    ensures OpText(op) + more == op.filter + (" " + IntToString(op.percent) + " " + IntToString(op.max) + more)
  {
  }

  /** So the words the shell sees differ from those of the corrected `ops_str`. */
  lemma OpsStrAsWrittenDiffers(O: string, ops: seq<MutaOp>)
    requires IsWord(O) && ops != [] && forall i | 0 <= i < |ops| :: IsWord(ops[i].filter)
    ensures Split(OpsStrAsWritten(O, ops)) != Split(OpsStr(O, ops))
  {
    var glued, corrected := Split(OpsStrAsWritten(O, ops)), Split(OpsStr(O, ops));
    OpsStrAsWrittenGlues(O, ops);
    assert |corrected| >= 2 && corrected[1] == O by {
      OpsStrTokens(O, ops);
      SplitWord(O);
    }
    assert |glued[1]| != |corrected[1]|;
  }

  /** The line `muta_gen` runs: `muta-gen`, then the words of `ops_str` as written, then the arguments' words. */
  lemma MutaGenTokens(ops: seq<MutaOp>, unit: string, D: string, seed: Seed, r: bool,
                      callerUnit: string, calleeUnit: string, O: string, DD: string)
    ensures Split(MutaGenCommand(ops, unit, D, seed, r, callerUnit, calleeUnit, O, DD))
      == ["muta-gen"] + Split(OpsStrAsWritten(O, ops)) + Words(MutaGenArgs(unit, seed, callerUnit, calleeUnit, r, D, DD))
  {
    var args := MutaGenArgs(unit, seed, callerUnit, calleeUnit, r, D, DD);
    assert "muta-gen " == "muta-gen" + " ";
    SplitCommand("muta-gen", OpsStrAsWritten(O, ops), args);
  }

  /**
    So with a one-word `-O` file and at least one operator, the tool is handed
    `-O` followed by the file name run together with the first filter.
   */
  lemma MutaGenGlued(ops: seq<MutaOp>, unit: string, D: string, seed: Seed, r: bool,
                     callerUnit: string, calleeUnit: string, O: string, DD: string)
    requires IsWord(O) && ops != [] && IsWord(ops[0].filter)
    ensures var words := Split(MutaGenCommand(ops, unit, D, seed, r, callerUnit, calleeUnit, O, DD));
      |words| >= 3 && words[0] == "muta-gen" && words[1] == "-O" && words[2] == O + ops[0].filter
  {
    MutaGenTokens(ops, unit, D, seed, r, callerUnit, calleeUnit, O, DD);
    OpsStrAsWrittenGlues(O, ops);
    FrontWords(Split(MutaGenCommand(ops, unit, D, seed, r, callerUnit, calleeUnit, O, DD)),
               "muta-gen", Split(OpsStrAsWritten(O, ops)), Words(MutaGenArgs(unit, seed, callerUnit, calleeUnit, r, D, DD)));
  }

  /** The first words of a head word followed by two word lists. */
  lemma FrontWords(words: seq<string>, head: string, front: seq<string>, rest: seq<string>)
    requires words == [head] + front + rest && |front| >= 2
    ensures |words| >= 3 && words[0] == head && words[1] == front[0] && words[2] == front[1]
  {
  }

  /** The corrected line: `muta-gen`, `-O` and the file's words, every entry's three words, then the arguments' words. */
  lemma MutaGenIntendedTokens(ops: seq<MutaOp>, unit: string, D: string, seed: Seed, r: bool,
                              callerUnit: string, calleeUnit: string, O: string, DD: string)
    requires forall i | 0 <= i < |ops| :: IsWord(ops[i].filter)
    ensures Split(MutaGenCommandIntended(ops, unit, D, seed, r, callerUnit, calleeUnit, O, DD))
      == ["muta-gen"] + ((if |O| > 0 then ["-O"] + Split(O) else []) + OpWords(ops))
         + Words(MutaGenArgs(unit, seed, callerUnit, calleeUnit, r, D, DD))
  {
    var args := MutaGenArgs(unit, seed, callerUnit, calleeUnit, r, D, DD);
    assert "muta-gen " == "muta-gen" + " ";
    SplitCommand("muta-gen", OpsStr(O, ops), args);
    OpsStrTokens(O, ops);
  }

  /** A command `head mode` followed by separated options splits into `head`, `mode`, then the options' words. */
  lemma SplitModeCommand(head: string, mode: string, args: Args)
    requires IsWord(head) && IsWord(mode)
    ensures Split(head + " " + mode + Render(args)) == [head, mode] + Words(args)
  {
    SplitWord(mode);
    SplitCommand(head, mode, args);
    assert [head] + [mode] == [head, mode];
  }

  /** A `tcase -add` command line, for any arguments. */
  lemma SplitTcaseAdd(args: Args)
    ensures Split("tcase -add" + Render(args)) == ["tcase", "-add"] + Words(args)
  {
    assert "tcase -add" == "tcase" + " " + "-add";
    SplitModeCommand("tcase", "-add", args);
  }

  /** Appending `-E` and an executable to any text appends `-E` and the executable's words. */
  lemma SplitWithE(text: string, E: string)
    ensures Split(text + ArgText(Valued(true, DASH_E, E))) == Split(text) + ([DASH_E] + Split(E))
  {
    var last := Valued(true, DASH_E, E);
    SplitAppend(text, ArgText(last));
    SplitArg(last);
  }

  /** A `tcase-add` command line, for any arguments. */
  lemma SplitTcaseAddPlain(args: Args)
    ensures Split("tcase-add" + Render(args)) == ["tcase-add"] + Words(args)
  {
    RenderSpaced(args);
    SplitWordThen("tcase-add", Render(args));
    SplitRender(args);
  }

  /**
    The two shapes of `tcase_add`: with an executable, `tcase -add`, the arguments'
    words, and `-E` with the executable's words last; without, `tcase-add` and the
    arguments' words.
   */
  lemma TcaseAddTokens(p: string, trace: bool, caseLabel: string, D: string, E: string, DD: string, EE: string)
    ensures var words := Words(TcaseAddArgs(p, trace, caseLabel, D, DD, EE));
      && (|E| > 0 ==> Split(TcaseAddCommand(p, trace, caseLabel, D, E, DD, EE)) == ["tcase", "-add"] + words + ([DASH_E] + Split(E)))
      && (|E| == 0 ==> Split(TcaseAddCommand(p, trace, caseLabel, D, E, DD, EE)) == ["tcase-add"] + words)
  {
    var args := TcaseAddArgs(p, trace, caseLabel, D, DD, EE);
    SplitTcaseAdd(args);
    SplitWithE("tcase -add" + Render(args), E);
    SplitTcaseAddPlain(args);
  }

  /** `exemuta`, the subcommand's words, then the arguments' words. */
  lemma ExemutaTokens(command: string, trace: bool, dual: bool, D: string, Q: int, f: int, t: int, T: int, v: string)
    ensures Split(ExemutaCommand(command, trace, dual, D, Q, f, t, T, v))
      == ["exemuta"] + Split(command) + Words(ExemutaArgs(trace, dual, D, Q, f, t, T, v))
  {
    var args := ExemutaArgs(trace, dual, D, Q, f, t, T, v);
    assert "exemuta " == "exemuta" + " ";
    SplitCommand("exemuta", command, args);
  }

  /** `tcase`, the action's words, then the range options' words. */
  lemma TcaseTokens(arg: string, f: int, t: int, x: string, D: string)
    ensures Split(TcaseCommand(arg, f, t, x, D)) == ["tcase"] + Split(arg) + Words(TcaseArgs(f, t, x, D))
  {
    assert "tcase " == "tcase" + " ";
    SplitCommand("tcase", arg, TcaseArgs(f, t, x, D));
  }

  /** `report`, `-trace` or `-tcase`, then the arguments' words. */
  lemma ReportTokens(trace: bool, D: string, S: string, L: string)
    ensures Split(ReportCommand(trace, D, S, L))
      == ["report", if trace then "-trace" else "-tcase"] + Words(ReportArgs(D, S, L))
  {
    var args := ReportArgs(D, S, L);
    var mode := if trace then "-trace" else "-tcase";
    assert IsWord(mode);
    assert "report " == "report" + " ";
    SplitModeCommand("report", mode, args);
  }
}
