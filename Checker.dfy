/**
  The preflight sequence run before the dashboard starts
  (src/init/checker.rs): write permission, working directories, EULA
  consent, configuration file — in that order, the first step that does
  not pass ending the sequence.
*/
module Checker {
  import opened Wrappers
  import opened Paths
  import opened FileSystem
  import Config

  /** Why a step stopped the sequence with an error. */
  datatype CheckError =
    | NoWritePermission          // the probe file could not be written
    | Io(kind: ErrorKind)        // an I/O error propagated by `?`
    | EulaUnreadable             // the EULA file does not deserialize
    | ConfigInvalid              // the configuration does not deserialize

  /** What a step leaves the sequence with: go on, end the process, or fail. */
  datatype Verdict = Proceed | Exit(code: int) | Abort(error: CheckError)

  /** The probe file `check_write_permission(".")` writes and removes. */
  const PERM_PROBE: string := ".msl_perm_test"

  /** The directories the second step ensures, in order. */
  const PREFLIGHT_DIRS: seq<string> := [DIR_CONFIGS, DIR_MSL_CONF, DIR_LOGS, DIR_SERVERS]

  /** `serde_json::to_string_pretty(&Eula { eula: false })`. */
  const DEFAULT_EULA: Content := Json(EulaDoc(false), "{\n  \"eula\": false\n}")

  /** How serde_json writes a boolean. */
  function JsonBool(b: bool): string
  {
    if b then "true" else "false"
  }

  /** How serde_json writes a string that needs no escapes. */
  function JsonString(s: string): string
  {
    "\"" + s + "\""
  }

  /** The name serde gives each image mode. */
  function ImageModeName(m: Config.ImageMode): string
  {
    match m
    case Protocol => "Protocol"
    case Ascii => "Ascii"
    case Unknown => "Unknown"
  }

  /** `serde_json::to_string_pretty` of a configuration: two-space indentation, fields in declaration order. */
  function PrettyConfig(c: Config.MslConfig): string
  {
    "{\n  \"docker\": {\n    \"enabled\": " + JsonBool(c.docker.enabled)
    + ",\n    \"use_podman\": " + JsonBool(c.docker.usePodman)
    + ",\n    \"image\": " + JsonString(c.docker.image)
    + "\n  },\n  \"frp\": {\n    \"enabled\": " + JsonBool(c.frp.enabled)
    + ",\n    \"client_path\": " + JsonString(c.frp.clientPath)
    + ",\n    \"config_path\": " + JsonString(c.frp.configPath)
    + "\n  },\n  \"msl\": {\n    \"log_level\": " + JsonString(c.msl.logLevel)
    + ",\n    \"auto_restart\": " + JsonBool(c.msl.autoRestart)
    + "\n  },\n  \"appearance\": {\n    \"image_render_mode\": " + JsonString(ImageModeName(c.appearance.imageRenderMode))
    + "\n  }\n}"
  }

  /** `serde_json::to_string_pretty(&MslConfig::default())`. */
  function DefaultConfigFile(): Content
  {
    Json(ConfigDoc(Config.Default()), PrettyConfig(Config.Default()))
  }

  /** Deserializing a file as the EULA record. */
  function ParseEula(c: Content): Option<bool>
  {
    match c
    case Json(EulaDoc(b), _) => Some(b)
    case _ => None
  }

  /** Deserializing a file as the configuration. */
  function ParseConfig(c: Content): Option<Config.MslConfig>
  {
    match c
    case Json(ConfigDoc(cfg), _) => Some(cfg)
    case _ => None
  }

  // ---------------------------------------------------------------------
  // Step 1: write permission

  /**
    The working directory after `check_write_permission(".")` passed: the
    probe was written empty and then removed, or left behind when it
    cannot be removed.
  */
  function Probed(fs: FsState): FsState
  {
    var written := fs.(files := fs.files[PERM_PROBE := Text("")]);
    if PERM_PROBE in fs.undeletable then written else written.(files := written.files - {PERM_PROBE})
  }

  /**
    `check_write_permission(".")`: a failed write of the probe is an error
    and changes nothing; otherwise the probe is removed, and a failed
    removal is ignored.
  */
  method CheckWritePermission(fs: FsState) returns (v: Verdict, fs': FsState)
    ensures Write(fs, PERM_PROBE, Text("")).Fail? ==> v == Abort(NoWritePermission) && fs' == fs
    ensures Write(fs, PERM_PROBE, Text("")).Done? ==> v == Proceed && fs' == Probed(fs)
  {
    var w := Write(fs, PERM_PROBE, Text(""));
    if w.Fail? {
      return Abort(NoWritePermission), fs;
    }
    fs' := w.value;
    var rm := RemoveFile(fs', PERM_PROBE);
    if rm.Done? {
      fs' := rm.value;
    }
    v := Proceed;
  }

  /**
    The probe touches its own file and nothing else: every other file, the
    directories, the faults and the undeletable files are as they were; the
    probe itself is gone, or stays empty when it cannot be removed.
  */
  lemma ProbedFrame(fs: FsState)
    ensures Probed(fs).dirs == fs.dirs && Probed(fs).faults == fs.faults && Probed(fs).undeletable == fs.undeletable
    ensures forall p :: p != PERM_PROBE ==> FileUnchanged(fs, Probed(fs), p)
    ensures PERM_PROBE in fs.undeletable ==> PERM_PROBE in Probed(fs).files && Probed(fs).files[PERM_PROBE] == Text("")
    ensures PERM_PROBE !in fs.undeletable ==> PERM_PROBE !in Probed(fs).files
  {
  }

  /** The probe has no parent directory: its write fails only on a fault or a directory at its path. */
  lemma ProbeWriteFails(fs: FsState)
    ensures Write(fs, PERM_PROBE, Text("")).Fail? <==> PERM_PROBE in fs.faults || PERM_PROBE in fs.dirs
  {
    assert forall i | 0 < i < |PERM_PROBE| :: PERM_PROBE[i] != '/';
    assert Ancestors(PERM_PROBE) == {};
  }

  // ---------------------------------------------------------------------
  // Step 2: working directories

  /** Everything `create_dir_all` could create for the entries of `dirs`. */
  function Chains(dirs: seq<string>): set<string>
  {
    if dirs == [] then {} else DirChain(dirs[0]) + Chains(dirs[1..])
  }

  /**
    What `ensure_dirs(dirs)` does: each entry that does not exist is created
    together with its parents; the first failed creation ends the loop.
    It only ever adds directories, never at a file's path and never outside
    the chains of its entries, and on success every entry exists.
  */
  function EnsureDirsSpec(fs: FsState, dirs: seq<string>): (r: (Verdict, FsState))
    ensures r.0 == Proceed || (r.0.Abort? && r.0.error.Io?)
    ensures OnlyDirsChanged(fs, r.1)
    ensures fs.dirs <= r.1.dirs <= fs.dirs + Chains(dirs)
    ensures forall p :: p in r.1.dirs && p !in fs.dirs ==> p !in fs.files
    ensures r.0 == Proceed ==> forall i :: 0 <= i < |dirs| ==> Exists(r.1, dirs[i])
    decreases |dirs|
  {
    if dirs == [] then (Proceed, fs)
    else if Exists(fs, dirs[0]) then EnsureDirsSpec(fs, dirs[1..])
    else
      match CreateDirAll(fs, dirs[0])
      case Fail(k) => (Abort(Io(k)), fs)
      case Done(fs1) => EnsureDirsSpec(fs1, dirs[1..])
  }

  /** `ensure_dirs`: the `for` loop over the entries. */
  method EnsureDirs(fs: FsState, dirs: seq<string>) returns (v: Verdict, fs': FsState)
    ensures (v, fs') == EnsureDirsSpec(fs, dirs)
  {
    fs' := fs;
    for i := 0 to |dirs|
      invariant EnsureDirsSpec(fs', dirs[i..]) == EnsureDirsSpec(fs, dirs)
    {
      assert dirs[i..][1..] == dirs[i + 1..];
      if !Exists(fs', dirs[i]) {
        var r := CreateDirAll(fs', dirs[i]);
        if r.Fail? {
          return Abort(Io(r.kind)), fs';
        }
        fs' := r.value;
      }
    }
    assert dirs[|dirs|..] == [];
    v := Proceed;
  }

  /** When every entry already exists, `ensure_dirs` does nothing. */
  lemma {:induction false} EnsureDirsSkipsExisting(fs: FsState, dirs: seq<string>)
    requires forall i :: 0 <= i < |dirs| ==> Exists(fs, dirs[i])
    ensures EnsureDirsSpec(fs, dirs) == (Proceed, fs)
    decreases |dirs|
  {
    if dirs != [] {
      EnsureDirsSkipsExisting(fs, dirs[1..]);
    }
  }

  /**
    Calling `ensure_dirs` twice is the same as calling it once, whether the
    first call succeeded or stopped at a failed creation (which fails again).
  */
  lemma {:induction false} EnsureDirsIdempotent(fs: FsState, dirs: seq<string>)
    ensures EnsureDirsSpec(EnsureDirsSpec(fs, dirs).1, dirs) == EnsureDirsSpec(fs, dirs)
    decreases |dirs|
  {
    if dirs != [] {
      var r := EnsureDirsSpec(fs, dirs);
      if Exists(fs, dirs[0]) {
        assert Exists(r.1, dirs[0]);
        EnsureDirsIdempotent(fs, dirs[1..]);
      } else if CreateDirAll(fs, dirs[0]).Done? {
        var fs1 := CreateDirAll(fs, dirs[0]).value;
        assert dirs[0] in fs1.dirs;
        assert Exists(r.1, dirs[0]);
        EnsureDirsIdempotent(fs1, dirs[1..]);
      }
    }
  }

  /** With no fault and no file anywhere on the entries' chains, `ensure_dirs` succeeds. */
  lemma {:induction false} EnsureDirsProceeds(fs: FsState, dirs: seq<string>)
    requires forall q :: q in Chains(dirs) ==> q !in fs.files && q !in fs.faults
    ensures EnsureDirsSpec(fs, dirs).0 == Proceed
    decreases |dirs|
  {
    if dirs != [] {
      assert Chains(dirs[1..]) <= Chains(dirs);
      if Exists(fs, dirs[0]) {
        EnsureDirsProceeds(fs, dirs[1..]);
      } else {
        assert dirs[0] in Chains(dirs);
        assert CreateDirAll(fs, dirs[0]).Done?;
        EnsureDirsProceeds(CreateDirAll(fs, dirs[0]).value, dirs[1..]);
      }
    }
  }

  /** The preflight list is closed under parents, and the cache directory is not in it. */
  lemma PreflightChains()
    ensures Chains(PREFLIGHT_DIRS) == {DIR_CONFIGS, DIR_MSL_CONF, DIR_LOGS, DIR_SERVERS}
    ensures DIR_CACHE !in Chains(PREFLIGHT_DIRS)
  {
    assert "configs/MSL"[7] == '/' && "configs/MSL"[..7] == "configs";
    assert "configs/logs"[7] == '/' && "configs/logs"[..7] == "configs";
    assert Ancestors(DIR_CONFIGS) == {} && Ancestors(DIR_SERVERS) == {};
    assert Ancestors(DIR_MSL_CONF) == {DIR_CONFIGS};
    assert Ancestors(DIR_LOGS) == {DIR_CONFIGS};
    var l := PREFLIGHT_DIRS;
    assert l[1..] == [DIR_MSL_CONF, DIR_LOGS, DIR_SERVERS];
    assert l[1..][1..] == [DIR_LOGS, DIR_SERVERS];
    assert l[1..][1..][1..] == [DIR_SERVERS];
    assert Chains([DIR_SERVERS]) == {DIR_SERVERS} by {
      assert [DIR_SERVERS][1..] == [];
    }
    assert Chains(l[1..][1..]) == {DIR_LOGS, DIR_CONFIGS, DIR_SERVERS};
    assert Chains(l[1..]) == {DIR_MSL_CONF, DIR_CONFIGS, DIR_LOGS, DIR_SERVERS};
  }

  /**
    On the preflight list, `ensure_dirs` creates exactly the entries that did
    not exist and touches nothing else; in particular the cache directory is
    never created.
  */
  lemma PreflightDirsExact(fs: FsState)
    requires EnsureDirsSpec(fs, PREFLIGHT_DIRS).0 == Proceed
    ensures EnsureDirsSpec(fs, PREFLIGHT_DIRS).1.dirs
      == fs.dirs + (set i | 0 <= i < |PREFLIGHT_DIRS| && !Exists(fs, PREFLIGHT_DIRS[i]) :: PREFLIGHT_DIRS[i])
    ensures DIR_CACHE in EnsureDirsSpec(fs, PREFLIGHT_DIRS).1.dirs <==> DIR_CACHE in fs.dirs
  {
    PreflightChains();
    var fs' := EnsureDirsSpec(fs, PREFLIGHT_DIRS).1;
    var missing := set i | 0 <= i < |PREFLIGHT_DIRS| && !Exists(fs, PREFLIGHT_DIRS[i]) :: PREFLIGHT_DIRS[i];
    forall p | p in fs'.dirs && p !in fs.dirs ensures p in missing {
      var i :| 0 <= i < |PREFLIGHT_DIRS| && p == PREFLIGHT_DIRS[i];
    }
  }

  // ---------------------------------------------------------------------
  // Step 3: EULA consent

  /**
    What `check_eula` does: a missing file is written with consent refused
    and the process ends with status 0; a present file must be read and
    deserialize, and only consent given lets the sequence go on — refusal
    also ends with status 0. Only the EULA file can change.
  */
  function EulaStep(fs: FsState): (r: (Verdict, FsState))
    ensures r.0 == Proceed <==>
      FILE_EULA in fs.files && FILE_EULA !in fs.faults && ParseEula(fs.files[FILE_EULA]) == Some(true)
    ensures r.0.Exit? ==> r.0.code == 0
    ensures !Exists(fs, FILE_EULA) && Write(fs, FILE_EULA, DEFAULT_EULA).Done? ==>
      r == (Exit(0), Write(fs, FILE_EULA, DEFAULT_EULA).value)
    ensures !Exists(fs, FILE_EULA) && Write(fs, FILE_EULA, DEFAULT_EULA).Fail? ==>
      r == (Abort(Io(Write(fs, FILE_EULA, DEFAULT_EULA).kind)), fs)
    ensures Exists(fs, FILE_EULA) ==> r.1 == fs
    ensures Exists(fs, FILE_EULA) && FILE_EULA in fs.faults ==> r.0 == Abort(Io(fs.faults[FILE_EULA]))
    ensures FILE_EULA in fs.files && FILE_EULA !in fs.faults && ParseEula(fs.files[FILE_EULA]) == Some(false) ==>
      r.0 == Exit(0)
    ensures FILE_EULA in fs.files && FILE_EULA !in fs.faults && ParseEula(fs.files[FILE_EULA]) == None ==>
      r.0 == Abort(EulaUnreadable)
    ensures FILE_EULA !in fs.files && FILE_EULA in fs.dirs && FILE_EULA !in fs.faults ==> r.0 == Abort(Io(Other))
  {
    if !Exists(fs, FILE_EULA) then
      match Write(fs, FILE_EULA, DEFAULT_EULA)
      case Fail(k) => (Abort(Io(k)), fs)
      case Done(fs1) => (Exit(0), fs1)
    else
      match Read(fs, FILE_EULA)
      case Fail(k) => (Abort(Io(k)), fs)
      case Done(c) =>
        match ParseEula(c)
        case None => (Abort(EulaUnreadable), fs)
        case Some(agreed) => (if agreed then Proceed else Exit(0), fs)
  }

  /** `check_eula`, step by step. */
  method CheckEula(fs: FsState) returns (v: Verdict, fs': FsState)
    ensures (v, fs') == EulaStep(fs)
  {
    fs' := fs;
    if !Exists(fs', FILE_EULA) {
      var w := Write(fs', FILE_EULA, DEFAULT_EULA);
      if w.Fail? {
        return Abort(Io(w.kind)), fs';
      }
      fs' := w.value;
      return Exit(0), fs';
    }
    var r := Read(fs', FILE_EULA);
    if r.Fail? {
      return Abort(Io(r.kind)), fs';
    }
    var eula := ParseEula(r.value);
    if eula.None? {
      return Abort(EulaUnreadable), fs';
    }
    if !eula.value {
      return Exit(0), fs';
    }
    v := Proceed;
  }

  // ---------------------------------------------------------------------
  // Step 4: configuration file

  /**
    What `validate_configs` does: a missing file is written with the default
    configuration and the process ends with status 0; a present file must
    be read, and one that does not deserialize is an error; one that does
    lets the sequence pass. Only the configuration file can change.
  */
  function ConfigStep(fs: FsState): (r: (Verdict, FsState))
    ensures r.0 == Proceed <==>
      FILE_CONFIG in fs.files && FILE_CONFIG !in fs.faults && ParseConfig(fs.files[FILE_CONFIG]).Some?
    ensures r.0.Exit? ==> r.0.code == 0
    ensures !Exists(fs, FILE_CONFIG) && Write(fs, FILE_CONFIG, DefaultConfigFile()).Done? ==>
      r == (Exit(0), Write(fs, FILE_CONFIG, DefaultConfigFile()).value)
    ensures !Exists(fs, FILE_CONFIG) && Write(fs, FILE_CONFIG, DefaultConfigFile()).Fail? ==>
      r == (Abort(Io(Write(fs, FILE_CONFIG, DefaultConfigFile()).kind)), fs)
    ensures Exists(fs, FILE_CONFIG) ==> r.1 == fs
    ensures Exists(fs, FILE_CONFIG) && FILE_CONFIG in fs.faults ==> r.0 == Abort(Io(fs.faults[FILE_CONFIG]))
    ensures FILE_CONFIG in fs.files && FILE_CONFIG !in fs.faults && ParseConfig(fs.files[FILE_CONFIG]).None? ==>
      r.0 == Abort(ConfigInvalid)
    ensures FILE_CONFIG !in fs.files && FILE_CONFIG in fs.dirs && FILE_CONFIG !in fs.faults ==> r.0 == Abort(Io(Other))
  {
    if !Exists(fs, FILE_CONFIG) then
      match Write(fs, FILE_CONFIG, DefaultConfigFile())
      case Fail(k) => (Abort(Io(k)), fs)
      case Done(fs1) => (Exit(0), fs1)
    else
      match Read(fs, FILE_CONFIG)
      case Fail(k) => (Abort(Io(k)), fs)
      case Done(c) => (if ParseConfig(c).None? then Abort(ConfigInvalid) else Proceed, fs)
  }

  /** `validate_configs`, step by step. */
  method ValidateConfigs(fs: FsState) returns (v: Verdict, fs': FsState)
    ensures (v, fs') == ConfigStep(fs)
  {
    fs' := fs;
    if !Exists(fs', FILE_CONFIG) {
      var w := Write(fs', FILE_CONFIG, DefaultConfigFile());
      if w.Fail? {
        return Abort(Io(w.kind)), fs';
      }
      fs' := w.value;
      return Exit(0), fs';
    }
    var r := Read(fs', FILE_CONFIG);
    if r.Fail? {
      return Abort(Io(r.kind)), fs';
    }
    if ParseConfig(r.value).None? {
      return Abort(ConfigInvalid), fs';
    }
    v := Proceed;
  }

  /** The configuration written for a missing file is the default and passes the next validation. */
  lemma DefaultConfigValidates(fs: FsState)
    ensures ParseConfig(DefaultConfigFile()) == Some(Config.Default())
    ensures Write(fs, FILE_CONFIG, DefaultConfigFile()).Done? ==>
      ConfigStep(Write(fs, FILE_CONFIG, DefaultConfigFile()).value).0 == Proceed
  {
  }

  /** The EULA record written for a missing file refuses consent, so the next run stops again. */
  lemma DefaultEulaRefuses(fs: FsState)
    ensures ParseEula(DEFAULT_EULA) == Some(false)
    ensures FILE_EULA in fs.files && FILE_EULA !in fs.faults && fs.files[FILE_EULA] == DEFAULT_EULA ==>
      EulaStep(fs) == (Exit(0), fs)
    ensures Write(fs, FILE_EULA, DEFAULT_EULA).Done? ==> EulaStep(Write(fs, FILE_EULA, DEFAULT_EULA).value).0 != Proceed
  {
  }

  // ---------------------------------------------------------------------
  // The sequence

  /**
    What `run_preflight_checks` does: the verdict, the final state, and the
    number of the last step started (the last ">> [k/4]" banner printed).
    A step that does not proceed ends the sequence.
  */
  function Preflight(fs: FsState): (Verdict, FsState, nat)
  {
    if Write(fs, PERM_PROBE, Text("")).Fail? then (Abort(NoWritePermission), fs, 1)
    else
      var dirs := EnsureDirsSpec(Probed(fs), PREFLIGHT_DIRS);
      if dirs.0 != Proceed then (dirs.0, dirs.1, 2)
      else
        var eula := EulaStep(dirs.1);
        if eula.0 != Proceed then (eula.0, eula.1, 3)
        else
          var config := ConfigStep(eula.1);
          (config.0, config.1, 4)
  }

  /** `run_preflight_checks`, step by step; `reached` is the last step started. */
  method RunPreflightChecks(fs: FsState) returns (v: Verdict, fs': FsState, reached: nat)
    ensures (v, fs', reached) == Preflight(fs)
  {
    reached := 1;
    var fs1;
    v, fs1 := CheckWritePermission(fs);
    if v != Proceed {
      return v, fs1, reached;
    }
    reached := 2;
    var fs2;
    v, fs2 := EnsureDirs(fs1, PREFLIGHT_DIRS);
    if v != Proceed {
      return v, fs2, reached;
    }
    reached := 3;
    var fs3;
    v, fs3 := CheckEula(fs2);
    if v != Proceed {
      return v, fs3, reached;
    }
    reached := 4;
    v, fs' := ValidateConfigs(fs3);
  }

  /**
    The steps run in order, each only after the previous one proceeded: only
    the last step started can stop the sequence, a failed probe changes
    nothing, the directory step can only fail with an I/O error, and only the
    EULA and configuration steps end the process (with status 0).
  */
  lemma PreflightOrder(fs: FsState)
    ensures 1 <= Preflight(fs).2 <= 4
    ensures Preflight(fs).2 < 4 ==> Preflight(fs).0 != Proceed
    ensures Preflight(fs).2 == 1 <==> Write(fs, PERM_PROBE, Text("")).Fail?
    ensures Preflight(fs).2 == 1 ==> Preflight(fs).0 == Abort(NoWritePermission) && Preflight(fs).1 == fs
    ensures Preflight(fs).2 == 2 ==> Preflight(fs).0.Abort? && Preflight(fs).0.error.Io?
    ensures Preflight(fs).2 >= 2 ==> Probed(fs).dirs <= Preflight(fs).1.dirs
    ensures Preflight(fs).0.Exit? ==> Preflight(fs).0.code == 0 && Preflight(fs).2 >= 3
  {
  }

  /**
    A step that never ran leaves its file untouched, and a step that ran
    either left its file as it was or wrote the default for a missing one.
    Every other file except the probe is as it was.
  */
  lemma PreflightFiles(fs: FsState)
    ensures Preflight(fs).2 < 3 ==> FileUnchanged(fs, Preflight(fs).1, FILE_EULA)
    ensures Preflight(fs).2 < 4 ==> FileUnchanged(fs, Preflight(fs).1, FILE_CONFIG)
    ensures FileUnchanged(fs, Preflight(fs).1, FILE_EULA)
      || (FILE_EULA !in fs.files && Preflight(fs).1.files[FILE_EULA] == DEFAULT_EULA && Preflight(fs).0 == Exit(0))
    ensures FileUnchanged(fs, Preflight(fs).1, FILE_CONFIG)
      || (FILE_CONFIG !in fs.files && Preflight(fs).1.files[FILE_CONFIG] == DefaultConfigFile() && Preflight(fs).0 == Exit(0))
    ensures forall p :: p != PERM_PROBE && p != FILE_EULA && p != FILE_CONFIG ==> FileUnchanged(fs, Preflight(fs).1, p)
  {
    if Write(fs, PERM_PROBE, Text("")).Done? {
      ProbedFrame(fs);
      assert FILE_EULA != PERM_PROBE && FILE_CONFIG != PERM_PROBE && FILE_EULA != FILE_CONFIG;
      var dirs := EnsureDirsSpec(Probed(fs), PREFLIGHT_DIRS);
      assert dirs.1.files == Probed(fs).files;
      if dirs.0 == Proceed {
        var eula := EulaStep(dirs.1);
        assert eula.1.files == dirs.1.files || FILE_EULA !in dirs.1.files;
        if eula.0 == Proceed {
          assert eula.1 == dirs.1;
        }
      }
    }
  }

  /**
    The sequence only ever adds directories, and only the four preflight
    directories; it never changes the faults or the undeletable files, and
    never creates the cache directory.
  */
  lemma PreflightDirs(fs: FsState)
    ensures fs.dirs <= Preflight(fs).1.dirs <= fs.dirs + {DIR_CONFIGS, DIR_MSL_CONF, DIR_LOGS, DIR_SERVERS}
    ensures Preflight(fs).1.faults == fs.faults && Preflight(fs).1.undeletable == fs.undeletable
    ensures DIR_CACHE in Preflight(fs).1.dirs <==> DIR_CACHE in fs.dirs
  {
    PreflightChains();
    ProbedFrame(fs);
  }

  /**
    When the sequence passes, the directories exist, the EULA is agreed, the
    configuration parses, and no file but the probe changed.
  */
  lemma PreflightSuccess(fs: FsState)
    requires Preflight(fs).0 == Proceed
    ensures Preflight(fs).2 == 4
    ensures forall i :: 0 <= i < |PREFLIGHT_DIRS| ==> Exists(Preflight(fs).1, PREFLIGHT_DIRS[i])
    ensures FILE_EULA in Preflight(fs).1.files && ParseEula(Preflight(fs).1.files[FILE_EULA]) == Some(true)
    ensures FILE_CONFIG in Preflight(fs).1.files && ParseConfig(Preflight(fs).1.files[FILE_CONFIG]).Some?
    ensures forall p :: p != PERM_PROBE ==> FileUnchanged(fs, Preflight(fs).1, p)
  {
    ProbedFrame(fs);
  }

  /**
    Conversely, the sequence passes whenever nothing stands in its way: the
    probe and the preflight directories are free of faults and of files in
    the way, and both files are present, readable and agreed or valid.
  */
  lemma PreflightPasses(fs: FsState)
    requires PERM_PROBE !in fs.faults && PERM_PROBE !in fs.dirs
    requires forall q :: q in {DIR_CONFIGS, DIR_MSL_CONF, DIR_LOGS, DIR_SERVERS} ==> q !in fs.files && q !in fs.faults
    requires FILE_EULA in fs.files && FILE_EULA !in fs.faults && ParseEula(fs.files[FILE_EULA]) == Some(true)
    requires FILE_CONFIG in fs.files && FILE_CONFIG !in fs.faults && ParseConfig(fs.files[FILE_CONFIG]).Some?
    ensures Preflight(fs).0 == Proceed
  {
    ProbeWriteFails(fs);
    ProbedFrame(fs);
    PreflightChains();
    var probed := Probed(fs);
    forall q | q in Chains(PREFLIGHT_DIRS) ensures q !in probed.files && q !in probed.faults {
      assert q != PERM_PROBE;
      assert FileUnchanged(fs, probed, q);
    }
    EnsureDirsProceeds(probed, PREFLIGHT_DIRS);
    assert FileUnchanged(fs, probed, FILE_EULA) && FileUnchanged(fs, probed, FILE_CONFIG);
  }
}
