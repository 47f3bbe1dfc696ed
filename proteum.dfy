/**
  The Proteum adapter of pyproteum/Proteum.py as an object: it holds the output
  file, the tool directories and the ambient test session, and each of its
  commands builds a command line and hands it, with a session, to `exec_command`.
  What a call does is an `Invocation`; the shell and the console are not modelled.
 */
module Proteum {
  import opened Wrappers
  import opened Text
  import opened Commands
  import Report = ProteumReport

  class Proteum {
    /** The output file every command's output is appended to, when it names an existing file. */
    const of: Option<string>
    /** The directory `test-new` is run from (`""`: found on the search path). */
    var binDir: string
    /** The interface directory; `set_interface_dir` only ever stores `""` in it. */
    var ifDir: string
    /** The ambient test session; `None` until `set_session` or `test_new` first assigns it. */
    var session: Option<string>

    /**
      `Proteum(of)`: the output file is kept only when it is given, non-empty and an
      existing file (`isFile` stands for that file-system test). No session is set yet.
     */
    constructor(of: Option<string>, isFile: bool)
      ensures this.of == (if of.Some? && of.value != "" && isFile then of else None)
      ensures this.of.Some? ==> this.of.value != ""
      ensures binDir == "" && ifDir == "" && session.None?
    {
      this.of := if of.Some? && of.value != "" && isFile then of else None;
      binDir := "";
      ifDir := "";
      session := None;
    }

    /** `set_bin_dir`: only the tool directory changes. */
    method SetBinDir(newBinDir: string)
      modifies this
      ensures binDir == newBinDir
      ensures ifDir == old(ifDir) && session == old(session)
    {
      binDir := newBinDir;
    }

    /** `set_interface_dir` ignores its argument and stores the empty string. */
    method SetInterfaceDir(newIfDir: string)
      modifies this
      ensures ifDir == ""
      ensures binDir == old(binDir) && session == old(session)
    {
      ifDir := "";
    }

    /** `set_session`: the given session becomes the ambient one. */
    method SetSession(s: string)
      modifies this
      ensures session == Some(s)
      ensures binDir == old(binDir) && ifDir == old(ifDir)
    {
      session := Some(s);
    }

    /**
      `exec_command(command, session, of)`: the session is the explicit one or else
      the ambient one; the `of` argument is resolved but the redirection always
      uses the adapter's own output file.
     */
    method ExecCommand(command: string, explicit: Option<string>, ofArg: Option<string>) returns (inv: Invocation)
      ensures inv == Exec(command, explicit, session, of)
    {
      var s := explicit;
      if s.None? {
        if session.None? {
          return Crashed(SessionUnset);
        }
        s := session;
      }
      var resolvedOf := if ofArg.None? then of else ofArg;
      if s.value != "" {
        var cmd := command + " " + s.value;
        inv := Executed(EXECUTING + cmd, cmd + Redirect(of));
      } else {
        inv := Skipped(NO_SESSION);
      }
    }

    /**
      `test_new`: the new session becomes the ambient one, and `test-new` runs
      directly, without `exec_command`: echoed as is, never redirected, never skipped.
     */
    method TestNew(s: string, research: bool, S: string, E: string, D: string, C: string) returns (inv: Invocation)
      modifies this
      ensures session == Some(s)
      ensures binDir == old(binDir) && ifDir == old(ifDir)
      ensures var cmd := TestNewCommand(binDir, research, S, E, D, C, s);
        inv == Executed(cmd, cmd)
    {
      SetSession(s);
      var cmd := TestNewCommand(binDir, research, S, E, D, C, s);
      inv := Executed(cmd, cmd);
    }

    /**
      `muta_gen`: the session is resolved first; a non-zero integer seed then
      raises; otherwise `muta-gen` runs with the operator string as the
      source builds it (the `-O` file run together with the first entry) and the options.
     */
    method MutaGen(ops: seq<MutaOp>, unit: string, D: string, seed: Seed, r: bool,
                   callerUnit: string, calleeUnit: string, O: string, DD: string,
                   explicit: Option<string>) returns (inv: Invocation)
      ensures Resolve(explicit, session).Failure? ==> inv == Crashed(SessionUnset)
      ensures Resolve(explicit, session).Success? && seed.SeedNumber? && seed.n != 0 ==> inv == Crashed(SeedNotText)
      ensures !(seed.SeedNumber? && seed.n != 0) ==>
        inv == Exec(MutaGenCommand(ops, unit, D, seed, r, callerUnit, calleeUnit, O, DD), explicit, session, of)
    {
      var resolved := Resolve(explicit, session);
      if resolved.Failure? {
        return Crashed(resolved.error);
      }
      if seed.SeedNumber? && seed.n != 0 {
        return Crashed(SeedNotText);
      }
      var command := MutaGenCommand(ops, unit, D, seed, r, callerUnit, calleeUnit, O, DD);
      inv := ExecCommand(command, Some(resolved.value), None);
    }

    /** `tcase(arg, f, t, x, D, session)`: `tcase` with the action and the range options. */
    method Tcase(arg: string, f: int, t: int, x: string, D: string, explicit: Option<string>) returns (inv: Invocation)
      ensures inv == Exec(TcaseCommand(arg, f, t, x, D), explicit, session, of)
    {
      var resolved := Resolve(explicit, session);
      if resolved.Failure? {
        return Crashed(resolved.error);
      }
      inv := ExecCommand(TcaseCommand(arg, f, t, x, D), Some(resolved.value), None);
    }

    /** `tcase_create`: `tcase -create` over the whole (empty) range, in directory `D`. */
    method TcaseCreate(D: string, explicit: Option<string>) returns (inv: Invocation)
      ensures inv == Exec(TcaseCommand("-create", 0, 0, "", D), explicit, session, of)
    {
      var resolved := Resolve(explicit, session);
      if resolved.Failure? {
        return Crashed(resolved.error);
      }
      inv := Tcase("-create", 0, 0, "", D, Some(resolved.value));
    }

    /** `tcase_list`: `tcase -l`. */
    method TcaseList(f: int, t: int, x: string, D: string, explicit: Option<string>) returns (inv: Invocation)
      ensures inv == Exec(TcaseCommand("-l", f, t, x, D), explicit, session, of)
    {
      var resolved := Resolve(explicit, session);
      if resolved.Failure? {
        return Crashed(resolved.error);
      }
      inv := Tcase("-l", f, t, x, D, Some(resolved.value));
    }

    /** `tcase_show`: `tcase` with an empty action. */
    method TcaseShow(f: int, t: int, x: string, D: string, explicit: Option<string>) returns (inv: Invocation)
      ensures inv == Exec(TcaseCommand("", f, t, x, D), explicit, session, of)
    {
      var resolved := Resolve(explicit, session);
      if resolved.Failure? {
        return Crashed(resolved.error);
      }
      inv := Tcase("", f, t, x, D, Some(resolved.value));
    }

    /** `tcase_enable`: `tcase -e`. */
    method TcaseEnable(f: int, t: int, x: string, D: string, explicit: Option<string>) returns (inv: Invocation)
      ensures inv == Exec(TcaseCommand("-e", f, t, x, D), explicit, session, of)
    {
      var resolved := Resolve(explicit, session);
      if resolved.Failure? {
        return Crashed(resolved.error);
      }
      inv := Tcase("-e", f, t, x, D, Some(resolved.value));
    }

    /** `tcase_disable`: `tcase -i`. */
    method TcaseDisable(f: int, t: int, x: string, D: string, explicit: Option<string>) returns (inv: Invocation)
      ensures inv == Exec(TcaseCommand("-i", f, t, x, D), explicit, session, of)
    {
      var resolved := Resolve(explicit, session);
      if resolved.Failure? {
        return Crashed(resolved.error);
      }
      inv := Tcase("-i", f, t, x, D, Some(resolved.value));
    }

    /** `tcase_delete`: also `tcase -i`, the same command as `tcase_disable`. */
    method TcaseDelete(f: int, t: int, x: string, D: string, explicit: Option<string>) returns (inv: Invocation)
      ensures inv == Exec(TcaseCommand("-i", f, t, x, D), explicit, session, of)
    {
      var resolved := Resolve(explicit, session);
      if resolved.Failure? {
        return Crashed(resolved.error);
      }
      inv := Tcase("-i", f, t, x, D, Some(resolved.value));
    }

    /** `tcase_add`: `tcase -add ... -E E` when an executable is named, `tcase-add ...` otherwise. */
    method TcaseAdd(p: string, trace: bool, caseLabel: string, D: string, E: string, DD: string, EE: string,
                    explicit: Option<string>) returns (inv: Invocation)
      ensures inv == Exec(TcaseAddCommand(p, trace, caseLabel, D, E, DD, EE), explicit, session, of)
    {
      var resolved := Resolve(explicit, session);
      if resolved.Failure? {
        return Crashed(resolved.error);
      }
      inv := ExecCommand(TcaseAddCommand(p, trace, caseLabel, D, E, DD, EE), Some(resolved.value), None);
    }

    /** `exemuta(command, ...)`: the seed is accepted and never used. */
    method Exemuta(command: string, trace: bool, dual: bool, D: string, Q: int, f: int, t: int, T: int, v: string,
                   seed: int, explicit: Option<string>) returns (inv: Invocation)
      ensures inv == Exec(ExemutaCommand(command, trace, dual, D, Q, f, t, T, v), explicit, session, of)
    {
      var resolved := Resolve(explicit, session);
      if resolved.Failure? {
        return Crashed(resolved.error);
      }
      inv := ExecCommand(ExemutaCommand(command, trace, dual, D, Q, f, t, T, v), Some(resolved.value), None);
    }

    /** `exemuta_exec`: `exemuta -exec` with all the options passed through. */
    method ExemutaExec(trace: bool, dual: bool, D: string, Q: int, f: int, t: int, T: int, v: string,
                       seed: int, explicit: Option<string>) returns (inv: Invocation)
      ensures inv == Exec(ExemutaCommand("-exec", trace, dual, D, Q, f, t, T, v), explicit, session, of)
    {
      var resolved := Resolve(explicit, session);
      if resolved.Failure? {
        return Crashed(resolved.error);
      }
      inv := Exemuta("-exec", trace, dual, D, Q, f, t, T, v, seed, Some(resolved.value));
    }

    /** `exemuta_compile`: `exemuta -compile` with no trace, dual, timeout or verbose options. */
    method ExemutaCompile(D: string, Q: int, f: int, t: int, explicit: Option<string>) returns (inv: Invocation)
      ensures inv == Exec(ExemutaCommand("-compile", false, false, D, Q, f, t, 0, ""), explicit, session, of)
    {
      var resolved := Resolve(explicit, session);
      if resolved.Failure? {
        return Crashed(resolved.error);
      }
      inv := Exemuta("-compile", false, false, D, Q, f, t, 0, "", 0, Some(resolved.value));
    }

    /** `exemuta_update`: `exemuta -update` with no trace, timeout or verbose options. */
    method ExemutaUpdate(dual: bool, D: string, Q: int, f: int, t: int, explicit: Option<string>) returns (inv: Invocation)
      ensures inv == Exec(ExemutaCommand("-update", false, dual, D, Q, f, t, 0, ""), explicit, session, of)
    {
      var resolved := Resolve(explicit, session);
      if resolved.Failure? {
        return Crashed(resolved.error);
      }
      inv := Exemuta("-update", false, dual, D, Q, f, t, 0, "", 0, Some(resolved.value));
    }

    /**
      `exemuta_select`: after the session is resolved, the call to `exemuta` passes
      a keyword `x` that `exemuta` does not accept, so it always raises.
     */
    method ExemutaSelect(ops: seq<MutaOp>, isGlobal: bool, k: bool, D: string, O: string, DD: string,
                         f: int, t: int, x: string, seed: int, explicit: Option<string>) returns (inv: Invocation)
      ensures inv == Crashed(if Resolve(explicit, session).Failure? then SessionUnset else UnexpectedKeyword)
    {
      var resolved := Resolve(explicit, session);
      if resolved.Failure? {
        return Crashed(resolved.error);
      }
      inv := Crashed(UnexpectedKeyword);
    }

    /**
      `exemuta_invert` as written: the resolved session is passed positionally as
      `exemuta`'s `trace`, so `-trace` appears exactly when it is non-empty, and
      `exemuta` then runs with the ambient session rather than the given one.
     */
    method ExemutaInvert(explicit: Option<string>) returns (inv: Invocation)
      ensures Resolve(explicit, session).Failure? ==> inv == Crashed(SessionUnset)
      ensures Resolve(explicit, session).Success? ==>
        inv == Exec(ExemutaCommand("-invert", Resolve(explicit, session).value != "", false, "", 0, 0, 0, 0, ""), None, session, of)
    {
      var resolved := Resolve(explicit, session);
      if resolved.Failure? {
        return Crashed(resolved.error);
      }
      inv := Exemuta("-invert", resolved.value != "", false, "", 0, 0, 0, 0, "", 0, None);
    }

    /**
      `report`: runs `report` and returns a report handler for the session's `.lst`
      file in directory `D`, whether or not the command ran; there is none only
      when reading the session raised.
     */
    method Report(trace: bool, D: string, S: string, L: string, explicit: Option<string>)
      returns (inv: Invocation, rep: Report.ProteumReport?)
      ensures inv == Exec(ReportCommand(trace, D, S, L), explicit, session, of)
      ensures rep == null <==> inv.Crashed?
      ensures rep != null ==>
        fresh(rep) && rep.lst == PathJoin(D, Resolve(explicit, session).value + ".lst")
    {
      var resolved := Resolve(explicit, session);
      if resolved.Failure? {
        return Crashed(resolved.error), null;
      }
      inv := ExecCommand(ReportCommand(trace, D, S, L), Some(resolved.value), None);
      rep := new Report.ProteumReport(PathJoin(D, resolved.value + ".lst"));
    }
  }
}
