/**
  The `init` subcommand (`cmd_init` in src/main.rs) and the exit status
  `main` chooses for it. It works on the MSL directory of the current
  directory and asks for EULA consent on standard input.
*/
module Init {
  import opened Wrappers
  import opened Strings
  import opened FileSystem
  import Paths

  const PERM_TEST: string := ".perm_test"
  const PERM_TEXT: string := "permission check\n"
  const MSL: string := "MSL"
  const MSL_SERVERS: string := "MSL/servers"
  const MSL_LOGS: string := "MSL/logs"
  const FLAG: string := "MSL/.initialized"
  const EULA_TXT: string := "MSL/eula.txt"
  const EULA_TMP: string := "MSL/eula.txt.tmp"
  const FLAG_TEXT: string := "ok"

  const EULA_REFUSED: string := "eula=false"
  const EULA_AGREED: string := "eula=true"

  const CODE_PERMISSION: int := 2
  const CODE_IO: int := 3
  const CODE_DISAGREE: int := 4

  /** The sub-directories created under MSL, in order. */
  const MSL_SUBDIRS: seq<string> := [MSL_SERVERS, MSL_LOGS]

  /** The generated eula.txt; the time stamp and the user name come from the clock and the OS. */
  function EulaTemplate(now: string, user: string): string
  {
    "# MSL-Cli EULA\n# Generated on: " + now + "\n# User: " + user + "\n" + EULA_REFUSED + "\n"
  }

  /** A generated eula.txt records consent as refused. */
  lemma TemplateRefuses(now: string, user: string)
    ensures Contains(EulaTemplate(now, user), EULA_REFUSED)
  {
    var t := EulaTemplate(now, user);
    var k := |t| - |EULA_REFUSED| - 1;
    assert t[k..k + |EULA_REFUSED|] == EULA_REFUSED;
    ContainsAt(t, EULA_REFUSED, k);
  }

  /** The consent answer: trimmed and lower-cased, only "y" or "yes" agrees. */
  predicate Agrees(answer: string)
  {
    var choice := AsciiLower(Trim(answer));
    choice == "y" || choice == "yes"
  }

  /**
    The consent gate `handle_login` applies: eula.txt can be read and its
    text contains "eula=true". A read error counts as no consent. It is
    declared here, beside the eula.txt that `cmd_init` writes, and the
    model of `handle_login` in module Login calls it.
  */
  predicate EulaAgreed(fs: FsState)
  {
    Read(fs, EULA_TXT).Done? && Contains(TextOf(Read(fs, EULA_TXT).value), EULA_AGREED)
  }

  /**
    Consent is read from eula.txt: it is given exactly when the file can be
    read and contains "eula=true"; a missing, faulty or directory path
    counts as no consent.
  */
  lemma EulaAgreedReads(fs: FsState)
    ensures EulaAgreed(fs) <==>
      EULA_TXT in fs.files && EULA_TXT !in fs.faults && Contains(TextOf(fs.files[EULA_TXT]), EULA_AGREED)
    ensures Read(fs, EULA_TXT).Fail? ==> !EulaAgreed(fs)
  {
  }

  /** How `cmd_init` ends: it returns `Ok`, returns an I/O error, or ends the process itself. */
  datatype InitOutcome = InitOk | InitErr(kind: ErrorKind) | InitExit(code: int)

  /** Writing the permission probe. */
  function ProbeWrite(fs: FsState): Io<FsState>
  {
    Write(fs, PERM_TEST, Text(PERM_TEXT))
  }

  /** The probe is written and removed again. */
  predicate ProbePasses(fs: FsState)
  {
    ProbeWrite(fs).Done? && PERM_TEST !in fs.undeletable
  }

  /** The state after a probe that passed: a probe file that was there before is gone too. */
  function AfterProbe(fs: FsState): FsState
  {
    fs.(files := fs.files - {PERM_TEST})
  }

  /** Files written under `MSL/` are unaffected by the probe of the current directory. */
  lemma AfterProbeKeeps(fs: FsState, p: string)
    requires p != PERM_TEST
    ensures Exists(AfterProbe(fs), p) <==> Exists(fs, p)
    ensures p in fs.files ==> AfterProbe(fs).files[p] == fs.files[p]
  {
  }

  /** The parent directories of the paths `cmd_init` creates and writes. */
  lemma InitPaths()
    ensures Paths.Ancestors(PERM_TEST) == {} && Paths.Ancestors(MSL) == {}
    ensures Paths.DirChain(MSL) == {MSL}
    ensures Paths.DirChain(MSL_SERVERS) == {MSL_SERVERS, MSL}
    ensures Paths.DirChain(MSL_LOGS) == {MSL_LOGS, MSL}
    ensures Paths.Ancestors(EULA_TXT) == {MSL} && Paths.Ancestors(EULA_TMP) == {MSL}
    ensures Paths.Ancestors(FLAG) == {MSL}
  {
    assert forall i | 0 < i < |PERM_TEST| :: PERM_TEST[i] != '/';
    assert forall i | 0 < i < |MSL| :: MSL[i] != '/';
    assert MSL_SERVERS[3] == '/' && MSL_SERVERS[..3] == MSL;
    assert forall i | 3 < i < |MSL_SERVERS| :: MSL_SERVERS[i] != '/';
    assert MSL_LOGS[3] == '/' && MSL_LOGS[..3] == MSL;
    assert forall i | 3 < i < |MSL_LOGS| :: MSL_LOGS[i] != '/';
    assert EULA_TXT[3] == '/' && EULA_TXT[..3] == MSL;
    assert forall i | 3 < i < |EULA_TXT| :: EULA_TXT[i] != '/';
    assert EULA_TMP[3] == '/' && EULA_TMP[..3] == MSL;
    assert forall i | 3 < i < |EULA_TMP| :: EULA_TMP[i] != '/';
    assert FLAG[3] == '/' && FLAG[..3] == MSL;
    assert forall i | 3 < i < |FLAG| :: FLAG[i] != '/';
  }

  /** A passing probe leaves the state `AfterProbe` describes. */
  lemma ProbeRemoved(fs: FsState)
    requires ProbeWrite(fs).Done?
    ensures RemoveFile(ProbeWrite(fs).value, PERM_TEST).Done? <==> PERM_TEST !in fs.undeletable
    ensures RemoveFile(ProbeWrite(fs).value, PERM_TEST).Done? ==>
      RemoveFile(ProbeWrite(fs).value, PERM_TEST).value == AfterProbe(fs)
  {
    assert fs.files[PERM_TEST := Text(PERM_TEXT)] - {PERM_TEST} == fs.files - {PERM_TEST};
  }

  // ---------------------------------------------------------------------
  // The steps of `cmd_init`, as functions of the state

  /** One `if !dir.exists() { fs::create_dir_all(&dir)? }`. */
  function CreateIfMissing(fs: FsState, p: string): (r: (Option<ErrorKind>, FsState))
    ensures OnlyDirsChanged(fs, r.1) && fs.dirs <= r.1.dirs <= fs.dirs + Paths.DirChain(p)
    ensures r.0.None? ==> Exists(r.1, p)
    ensures r.0.Some? ==> r.1 == fs
    ensures Exists(fs, p) ==> r == (None, fs)
    ensures !Exists(fs, p) ==> (r.0.None? <==> CreateDirAll(fs, p).Done?)
  {
    if Exists(fs, p) then (None, fs)
    else
      match CreateDirAll(fs, p)
      case Fail(k) => (Some(k), fs)
      case Done(fs1) => (None, fs1)
  }

  /** The loop over `servers` and `logs` from entry `k` on; the first failure ends it. */
  function MslSubDirs(fs: FsState, k: nat): (Option<ErrorKind>, FsState)
    requires k <= |MSL_SUBDIRS|
    decreases |MSL_SUBDIRS| - k
  {
    if k == |MSL_SUBDIRS| then (None, fs)
    else
      var c := CreateIfMissing(fs, MSL_SUBDIRS[k]);
      if c.0.Some? then c else MslSubDirs(c.1, k + 1)
  }

  /**
    Creating `MSL`, then `MSL/servers` and `MSL/logs`, each only when it
    does not exist; the first failed creation is returned with the state
    reached so far. Only directories change, and only these three; with
    no fault and no file in the way every creation succeeds.
  */
  function MslDirs(fs: FsState): (r: (Option<ErrorKind>, FsState))
    ensures OnlyDirsChanged(fs, r.1)
    ensures fs.dirs <= r.1.dirs <= fs.dirs + {MSL, MSL_SERVERS, MSL_LOGS}
    ensures r.0.None? ==> Exists(r.1, MSL) && Exists(r.1, MSL_SERVERS) && Exists(r.1, MSL_LOGS)
    ensures (fs.faults == map[] && MSL !in fs.files && MSL_SERVERS !in fs.files && MSL_LOGS !in fs.files) ==>
      r.0.None?
  {
    InitPaths();
    var m := CreateIfMissing(fs, MSL);
    if m.0.Some? then m
    else
      var s := CreateIfMissing(m.1, MSL_SERVERS);
      var l := CreateIfMissing(s.1, MSL_LOGS);
      assert MslSubDirs(m.1, 0) == (if s.0.Some? then s else MslSubDirs(s.1, 1)) by {
        assert MSL_SUBDIRS[0] == MSL_SERVERS;
      }
      assert s.0.None? ==> MslSubDirs(s.1, 1) == (if l.0.Some? then l else MslSubDirs(l.1, 2)) by {
        assert MSL_SUBDIRS[1] == MSL_LOGS;
      }
      MslSubDirs(m.1, 0)
  }

  /**
    The atomic write of eula.txt: the text goes to eula.txt.tmp, which is
    then renamed onto eula.txt. A failure leaves the temporary file written
    or nothing changed; with the MSL directory there and neither path
    faulty or a directory, it succeeds.
  */
  function ViaTemp(fs: FsState, text: string): (r: (Option<ErrorKind>, FsState))
    ensures r.0.None? ==> r.1 == fs.(files := (fs.files - {EULA_TMP})[EULA_TXT := Text(text)])
    ensures r.0.None? ==> EULA_TXT !in fs.faults
    ensures r.0.Some? ==> r.1 == fs || r.1 == fs.(files := fs.files[EULA_TMP := Text(text)])
    ensures (EULA_TMP !in fs.faults && EULA_TMP !in fs.dirs && MSL in fs.dirs
      && EULA_TXT !in fs.faults && EULA_TXT !in fs.dirs) ==> r.0.None?
  {
    InitPaths();
    match Write(fs, EULA_TMP, Text(text))
    case Fail(k) => (Some(k), fs)
    case Done(t) =>
      assert (t.files - {EULA_TMP})[EULA_TXT := Text(text)] == (fs.files - {EULA_TMP})[EULA_TXT := Text(text)];
      match Rename(t, EULA_TMP, EULA_TXT)
      case Fail(k) => (Some(k), t)
      case Done(m) => (None, m)
  }

  /**
    The consent part: eula.txt is read (an error is returned), refusal ends
    the process with status 4, consent rewrites "eula=false" to "eula=true"
    through the temporary file and then writes the flag, a failure to write
    the flag ending the process with status 1.
  */
  function Consent(fs: FsState, answer: string): (r: (InitOutcome, FsState))
    ensures Read(fs, EULA_TXT).Fail? ==> r == (InitErr(Read(fs, EULA_TXT).kind), fs)
    ensures Read(fs, EULA_TXT).Done? && !Agrees(answer) ==> r == (InitExit(CODE_DISAGREE), fs)
    ensures r.0.InitExit? ==> r.0.code == 1 || r.0.code == CODE_DISAGREE
    ensures r.0 == InitExit(1) || r.0 == InitOk ==> Agrees(answer)
    ensures r.0 == InitExit(CODE_DISAGREE) ==> !Agrees(answer) && r.1 == fs && EULA_TXT in fs.files
    ensures r.0 == InitOk ==>
      EULA_TXT in fs.files && EULA_TXT !in fs.faults && r.1 == fs.(files := (fs.files - {EULA_TMP})
        [EULA_TXT := Text(Replace(TextOf(fs.files[EULA_TXT]), EULA_REFUSED, EULA_AGREED))]
        [FLAG := Text(FLAG_TEXT)])
    ensures r.0 != InitOk ==> r.1.files - {EULA_TMP, EULA_TXT} == fs.files - {EULA_TMP, EULA_TXT}
    ensures r.1.dirs == fs.dirs && r.1.faults == fs.faults && r.1.undeletable == fs.undeletable
    ensures (fs.faults == map[] && EULA_TXT in fs.files && MSL in fs.dirs
      && EULA_TMP !in fs.dirs && EULA_TXT !in fs.dirs && FLAG !in fs.dirs) ==>
      r.0 == (if Agrees(answer) then InitOk else InitExit(CODE_DISAGREE))
  {
    InitPaths();
    match Read(fs, EULA_TXT)
    case Fail(k) => (InitErr(k), fs)
    case Done(c) =>
      if !Agrees(answer) then (InitExit(CODE_DISAGREE), fs)
      else
        var v := ViaTemp(fs, Replace(TextOf(c), EULA_REFUSED, EULA_AGREED));
        if v.0.Some? then (InitErr(v.0.value), v.1)
        else
          match Write(v.1, FLAG, Text(FLAG_TEXT))
          case Fail(_) => (InitExit(1), v.1)
          case Done(f) => (InitOk, f)
  }

  /**
    What `cmd_init(dry_run)` does. `now` and `user` fill the EULA header;
    `answer` is the line read for consent (empty at end of input).

    In order: the probe file is written and removed (an error is returned);
    an existing flag ends the process with status 0 and nothing more is done;
    MSL, MSL/servers and MSL/logs are created where missing; eula.txt is
    generated unless it exists (through a temporary file and a rename); a dry
    run returns here. Otherwise the consent part runs.
  */
  function InitSpec(fs: FsState, dryRun: bool, now: string, user: string, answer: string): (InitOutcome, FsState)
  {
    match ProbeWrite(fs)
    case Fail(k) => (InitErr(k), fs)
    case Done(w) =>
      match RemoveFile(w, PERM_TEST)
      case Fail(k) => (InitErr(k), w)
      case Done(probed) =>
        if Exists(probed, FLAG) then (InitExit(0), probed)
        else
          var dirs := MslDirs(probed);
          if dirs.0.Some? then (InitErr(dirs.0.value), dirs.1)
          else
            var eula :=
              if !dryRun && !Exists(dirs.1, EULA_TXT) then ViaTemp(dirs.1, EulaTemplate(now, user))
              else (None, dirs.1);
            if eula.0.Some? then (InitErr(eula.0.value), eula.1)
            else if dryRun then (InitOk, eula.1)
            else Consent(eula.1, answer)
  }

  /** `cmd_init(dry_run)`, step by step. */
  method CmdInit(fs: FsState, dryRun: bool, now: string, user: string, answer: string)
    returns (out: InitOutcome, fs': FsState)
    ensures (out, fs') == InitSpec(fs, dryRun, now, user, answer)
  {
    fs' := fs;
    // permission check
    var w := Write(fs', PERM_TEST, Text(PERM_TEXT));
    if w.Fail? {
      return InitErr(w.kind), fs';
    }
    fs' := w.value;
    var rm := RemoveFile(fs', PERM_TEST);
    if rm.Fail? {
      return InitErr(rm.kind), fs';
    }
    fs' := rm.value;

    if Exists(fs', FLAG) {
      return InitExit(0), fs';
    }

    // MSL and its sub-directories
    ghost var probed := fs';
    if !Exists(fs', MSL) {
      var c := CreateDirAll(fs', MSL);
      if c.Fail? {
        return InitErr(c.kind), fs';
      }
      fs' := c.value;
    }
    assert MslDirs(probed) == MslSubDirs(fs', 0);
    for k := 0 to |MSL_SUBDIRS|
      invariant MslSubDirs(fs', k) == MslDirs(probed)
    {
      var sub := MSL_SUBDIRS[k];
      if !Exists(fs', sub) {
        var c := CreateDirAll(fs', sub);
        if c.Fail? {
          return InitErr(c.kind), fs';
        }
        fs' := c.value;
      }
    }

    // eula.txt
    var content := EulaTemplate(now, user);
    if !dryRun && !Exists(fs', EULA_TXT) {
      var t := Write(fs', EULA_TMP, Text(content));
      if t.Fail? {
        return InitErr(t.kind), fs';
      }
      fs' := t.value;
      var mv := Rename(fs', EULA_TMP, EULA_TXT);
      if mv.Fail? {
        return InitErr(mv.kind), fs';
      }
      fs' := mv.value;
    }
    if dryRun {
      return InitOk, fs';
    }

    // consent
    ghost var generated := fs';
    var r := Read(fs', EULA_TXT);
    if r.Fail? {
      return InitErr(r.kind), fs';
    }
    if !Agrees(answer) {
      return InitExit(CODE_DISAGREE), fs';
    }
    var updated := Replace(TextOf(r.value), EULA_REFUSED, EULA_AGREED);
    var t := Write(fs', EULA_TMP, Text(updated));
    if t.Fail? {
      return InitErr(t.kind), fs';
    }
    fs' := t.value;
    var mv := Rename(fs', EULA_TMP, EULA_TXT);
    if mv.Fail? {
      return InitErr(mv.kind), fs';
    }
    fs' := mv.value;

    // the flag
    var f := Write(fs', FLAG, Text(FLAG_TEXT));
    if f.Fail? {
      return InitExit(1), fs';
    }
    fs' := f.value;
    out := InitOk;
  }

  // ---------------------------------------------------------------------
  // What `cmd_init` promises

  /**
    The probe comes first: a failed write is returned with its kind and
    changes nothing, a probe that cannot be removed is a permission error,
    and an existing flag then ends the process with status 0 before anything
    else is done. The only statuses `cmd_init` exits with are 0, 1 and 4.
  */
  lemma InitProbe(fs: FsState, dryRun: bool, now: string, user: string, answer: string)
    ensures ProbeWrite(fs).Fail? ==> InitSpec(fs, dryRun, now, user, answer) == (InitErr(ProbeWrite(fs).kind), fs)
    ensures ProbeWrite(fs).Done? && PERM_TEST in fs.undeletable ==>
      InitSpec(fs, dryRun, now, user, answer) == (InitErr(PermissionDenied), ProbeWrite(fs).value)
    ensures ProbePasses(fs) && Exists(fs, FLAG) ==> InitSpec(fs, dryRun, now, user, answer) == (InitExit(0), AfterProbe(fs))
    ensures var out := InitSpec(fs, dryRun, now, user, answer).0;
      out.InitExit? ==> out.code == 0 || out.code == 1 || out.code == CODE_DISAGREE
  {
    if ProbeWrite(fs).Done? {
      ProbeRemoved(fs);
      AfterProbeKeeps(fs, FLAG);
    }
  }

  /** A dry run creates the MSL tree and nothing else: it writes no file and never asks. */
  lemma InitDryRun(fs: FsState, now: string, user: string, answer: string)
    ensures InitSpec(fs, true, now, user, answer) == InitSpec(fs, true, now, user, "")
    ensures var out := InitSpec(fs, true, now, user, answer).0;
      out == InitOk || out.InitErr? || out == InitExit(0)
    ensures var r := InitSpec(fs, true, now, user, answer); r.0 == InitOk ==>
      Exists(r.1, MSL) && Exists(r.1, MSL_SERVERS) && Exists(r.1, MSL_LOGS) && r.1.files == AfterProbe(fs).files
  {
    if ProbeWrite(fs).Done? {
      ProbeRemoved(fs);
    }
  }

  /**
    Consent decides: without it `cmd_init` does not succeed, refusal exits
    with status 4 once eula.txt exists, and status 1 only follows consent.
    Success leaves the flag "ok" and eula.txt with "eula=false" replaced by
    "eula=true" — for a generated eula.txt, one that grants consent.
  */
  lemma InitConsent(fs: FsState, now: string, user: string, answer: string)
    ensures !Agrees(answer) ==> InitSpec(fs, false, now, user, answer).0 != InitOk
    ensures var r := InitSpec(fs, false, now, user, answer); r.0 == InitExit(CODE_DISAGREE) ==>
      !Agrees(answer) && EULA_TXT in r.1.files
    ensures InitSpec(fs, false, now, user, answer).0 == InitExit(1) ==> Agrees(answer)
    ensures var r := InitSpec(fs, false, now, user, answer); r.0 == InitOk ==>
      Agrees(answer) && FLAG in r.1.files && r.1.files[FLAG] == Text(FLAG_TEXT) && EULA_TXT in r.1.files
    ensures var r := InitSpec(fs, false, now, user, answer); r.0 == InitOk && EULA_TXT in fs.files ==>
      r.1.files[EULA_TXT] == Text(Replace(TextOf(fs.files[EULA_TXT]), EULA_REFUSED, EULA_AGREED))
    ensures var r := InitSpec(fs, false, now, user, answer); r.0 == InitOk && !Exists(fs, EULA_TXT) ==>
      r.1.files[EULA_TXT] == Text(Replace(EulaTemplate(now, user), EULA_REFUSED, EULA_AGREED)) && EulaAgreed(r.1)
  {
    if ProbePasses(fs) {
      ProbeRemoved(fs);
      AfterProbeKeeps(fs, FLAG);
      AfterProbeKeeps(fs, EULA_TXT);
      var r := InitSpec(fs, false, now, user, answer);
      if r.0 == InitOk && !Exists(fs, EULA_TXT) {
        var content := EulaTemplate(now, user);
        TemplateRefuses(now, user);
        ReplaceIntroduces(content, EULA_REFUSED, EULA_AGREED);
        assert r.1.files[EULA_TXT] == Text(Replace(content, EULA_REFUSED, EULA_AGREED));
      }
    }
  }

  /** `cmd_init` only adds directories, and only the MSL tree; faults and undeletable files stay. */
  lemma InitDirs(fs: FsState, dryRun: bool, now: string, user: string, answer: string)
    ensures var r := InitSpec(fs, dryRun, now, user, answer); fs.dirs <= r.1.dirs <= fs.dirs + {MSL, MSL_SERVERS, MSL_LOGS}
    ensures var r := InitSpec(fs, dryRun, now, user, answer); r.1.faults == fs.faults && r.1.undeletable == fs.undeletable
  {
    if ProbeWrite(fs).Done? {
      ProbeRemoved(fs);
    }
  }

  /** The flag appears only on success. */
  lemma InitFlag(fs: FsState, dryRun: bool, now: string, user: string, answer: string)
    ensures var r := InitSpec(fs, dryRun, now, user, answer); !Exists(fs, FLAG) && r.0 != InitOk ==> FLAG !in r.1.files
  {
    if ProbePasses(fs) {
      ProbeRemoved(fs);
      var probed := AfterProbe(fs);
      AfterProbeKeeps(fs, FLAG);
      assert FLAG != EULA_TMP && FLAG != EULA_TXT && FLAG != PERM_TEST;
      if !Exists(probed, FLAG) && MslDirs(probed).0.None? {
        var dirs := MslDirs(probed).1;
        var eula :=
          if !dryRun && !Exists(dirs, EULA_TXT) then ViaTemp(dirs, EulaTemplate(now, user)) else (None, dirs);
        assert FLAG !in eula.1.files;
        if eula.0.None? && !dryRun {
          assert FLAG !in eula.1.files - {EULA_TMP, EULA_TXT};
        }
      }
    }
  }

  /**
    A success adds no file but eula.txt and the flag, and changes no file
    `p` other than those two, the probe and the temporary file.
  */
  lemma InitKeeps(fs: FsState, dryRun: bool, now: string, user: string, answer: string, p: string)
    ensures var r := InitSpec(fs, dryRun, now, user, answer); r.0 == InitOk && p in r.1.files && p !in fs.files ==>
      p == EULA_TXT || p == FLAG
    ensures var r := InitSpec(fs, dryRun, now, user, answer);
      r.0 == InitOk && p != EULA_TXT && p != FLAG && p != PERM_TEST && p != EULA_TMP ==> FileUnchanged(fs, r.1, p)
  {
    if ProbePasses(fs) {
      ProbeRemoved(fs);
      var probed := AfterProbe(fs);
      if p != PERM_TEST {
        AfterProbeKeeps(fs, p);
      }
    }
  }

  /**
    Conversely, where no call fails — no fault anywhere, a removable probe,
    no flag yet and nothing in the way of the MSL tree and eula.txt — a dry
    run succeeds, and a real run succeeds on consent and exits with status
    4 on refusal.
  */
  lemma InitRunsThrough(fs: FsState, dryRun: bool, now: string, user: string, answer: string)
    requires fs.faults == map[] && PERM_TEST !in fs.undeletable && PERM_TEST !in fs.dirs && !Exists(fs, FLAG)
    requires MSL !in fs.files && MSL_SERVERS !in fs.files && MSL_LOGS !in fs.files
    requires EULA_TXT !in fs.dirs && EULA_TMP !in fs.dirs
    ensures InitSpec(fs, dryRun, now, user, answer).0 ==
      if dryRun then InitOk else if Agrees(answer) then InitOk else InitExit(CODE_DISAGREE)
  {
    InitPaths();
    ProbeRemoved(fs);
    var probed := AfterProbe(fs);
    AfterProbeKeeps(fs, FLAG);
    var dirs := MslDirs(probed);
    assert dirs.0.None?;
    assert FLAG !in dirs.1.dirs;
  }

  /**
    The status `main` exits with after `cmd_init`: 0 on success, 2 for a
    permission error, 3 for any other I/O error; a status chosen by
    `cmd_init` itself is kept.
  */
  function ExitCode(out: InitOutcome): (code: int)
    ensures out == InitOk ==> code == 0
    ensures out.InitErr? ==> (code == CODE_PERMISSION <==> out.kind == PermissionDenied)
    ensures out.InitErr? ==> code == CODE_PERMISSION || code == CODE_IO
    ensures out.InitExit? ==> code == out.code
  {
    match out
    case InitOk => 0
    case InitErr(kind) => if kind == PermissionDenied then CODE_PERMISSION else CODE_IO
    case InitExit(code) => code
  }
}
