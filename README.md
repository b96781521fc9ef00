# MSL-Cli core, modelled in Dafny

MSL-Cli is a command-line launcher front end for Minecraft servers. This
project models its core:

- `init`: the write-permission probe, the `MSL/` directory tree, the
  `eula.txt` agreement and the `.initialized` flag.
- `login`: the consent gate, the credential prompts, the login request and
  how its reply is read, and the save-token decision.
- The preflight sequence the launcher runs. It probes write permission,
  creates `configs/`, `configs/MSL/`, `configs/logs/` and `servers/`, checks
  `eula.json`, and checks `config.json`.
- The built-in default configuration.
- The initial application state, and the home screen's layout rule for the
  sidebar, the announcement banner and its tip line.

The working directory is a value, `FileSystem.FsState`. It holds a set of
directories, a map from file paths to contents, a map of paths whose
operations fail with a given I/O error kind, and a set of files that cannot
be removed. Each file-system call is a function on that value. It either
fails, leaving the state as it was, or yields the new state.

`run_preflight_checks`, its four steps, `ensure_dirs`, `cmd_init` and
`handle_login` work step by step, so they are methods. Each threads the
state through its steps and is proved equal to a function that specifies it:

- `RunPreflightChecks` is proved equal to `Checker.Preflight`, which
  composes `Probed`, `EnsureDirsSpec`, `EulaStep` and `ConfigStep`; the
  step methods are proved equal to those step functions.
- `EnsureDirs` is proved equal to the recursive `EnsureDirsSpec`.
- `CmdInit` is proved equal to `Init.InitSpec`, which composes the probe,
  `MslDirs`, `ViaTemp` and `Consent`; its loop over `servers` and `logs`
  is proved against `MslSubDirs`.
- `HandleLogin` is proved equal to `Login.Run`.
- The prompt loops (`ReadUntil`) are proved equal to `Login.First`.

The properties the program promises are then proved about those
functions, as lemmas: what each outcome implies about the state, and
conversely, which working directories let the whole sequence pass.

Standard input is a sequence of lines. Past the end of that sequence,
`read_line` yields the empty line, which no prompt accepts, so a prompt
that runs out of input would re-ask forever. The model reports this as
`InputExhausted`.

The comment above the save-token question in `handle_login`
(src/main.rs:444) says that argument mode without `--save-login` asks
too. The code asks only when `--email` is absent, and the model follows
the code.

The HTTP exchange is a function parameter from the form sent to the reply
received. So are the clock and the user name in the EULA template. JSON
documents are abstracted: a file written by serde carries the value it
encodes alongside its text (`Content.Json`).

Modules:

- `Wrappers`: Option and Result.
- `Strings`: the Rust `str` operations used: `trim`, `to_lowercase`,
  `contains`, `replace`, byte `len` and `join`.
- `Paths`: the path constants and the ancestor relation of paths.
- `Config`: `MslConfig` and its default.
- `FileSystem`: the working directory and the file-system calls.
- `Checker`: the preflight sequence.
- `Init`: the `init` subcommand.
- `Login`: the `login` subcommand.
- `UiState`, `Home` and `Ui`: the application state and the home screen.

## Model

| member | source | states |
|---|---|---|
| Strings.TrimSlice | src/main.rs:386 | `trim` returns a contiguous slice whose dropped prefix and suffix are all whitespace and whose ends are not whitespace |
| Strings.TrimStartShape | src/main.rs:386 | `trim_start` keeps a suffix, drops only whitespace, and the kept part starts with a non-whitespace character |
| Strings.TrimEndShape | src/main.rs:386 | `trim_end` keeps a prefix, drops only whitespace, and the kept part ends with a non-whitespace character |
| Strings.BlankIffAllWhitespace | src/main.rs:71-76 | a string trims to empty exactly when every character is Unicode whitespace |
| Strings.TrimIgnoresPadding | src/main.rs:386 | whitespace added on either side never changes the trimmed value |
| Strings.TrimIdempotent | src/main.rs:395 | a trimmed value trims to itself |
| Strings.LowerOfUpper | src/main.rs:422 | lower-casing forgets the case a string was typed in |
| Strings.Utf8LenBounds | src/main.rs:409 | the byte length lies between the character count and four times it, and equals the character count for ASCII |
| Strings.ContainsAt | src/main.rs:357 | a needle placed at any offset is found by `contains` |
| Strings.ContainsFound | src/main.rs:357 | conversely, whatever `contains` finds is a slice of the text at some offset |
| Strings.ReplaceAbsent | src/main.rs:313 | `replace` changes nothing when the pattern does not occur |
| Strings.ReplaceIntroduces | src/main.rs:313 | when the pattern occurs somewhere in the text, the replacement occurs somewhere in the result |
| Config.Default | src/config/mod.rs:43-65 | every field of the default configuration |
| Config.DefaultProxyInMslConf | src/config/mod.rs:43-65 | the default frp config path lies under `configs/MSL` |
| FileSystem.CreateDirAll | src/init/checker.rs:42 | success adds the path and all its ancestors as directories; it fails exactly when a member of the chain is a file or is missing and faulty, with that member's error |
| FileSystem.CreateDirAllFaultyParent | src/init/checker.rs:42 | creating `a/b` when the missing parent `a` cannot be created fails with the parent's permission error |
| FileSystem.Write | src/init/checker.rs:51 | success replaces the file's contents; it fails exactly on a faulty path, a directory, or a missing parent |
| FileSystem.Read | src/init/checker.rs:55 | reading succeeds exactly on an existing file at a path without a fault and returns its contents; a faulty path fails with its kind |
| FileSystem.RemoveFile | src/init/checker.rs:35 | removal succeeds exactly on a removable existing file and deletes only it |
| FileSystem.Rename | src/main.rs:288 | rename succeeds exactly when the source exists and the target is writable, and it moves the contents |
| Checker.CheckWritePermission | src/init/checker.rs:30-37 | a failed probe write aborts with the permission error and changes nothing; otherwise the step proceeds with the state `Probed` names, a failed removal being ignored |
| Checker.ProbedFrame | src/init/checker.rs:30-37 | the probe touches only its own file: every other file, the directories, faults and undeletable files are as they were; the probe is gone, or stays empty when it cannot be removed |
| Checker.ProbeWriteFails | src/init/checker.rs:31-32 | the probe has no parent directory, so its write fails exactly on a fault or a directory at its path |
| Checker.EnsureDirsSpec | src/init/checker.rs:39-46 | only directories change, and only by the given paths' chains; success means every path exists; errors are I/O errors |
| Checker.EnsureDirs | src/init/checker.rs:39-46 | the loop computes `EnsureDirsSpec` |
| Checker.EnsureDirsSkipsExisting | src/init/checker.rs:41 | when every path already exists, nothing is created and the step succeeds |
| Checker.EnsureDirsIdempotent | src/init/checker.rs:39-46 | running the step a second time gives the same verdict and state, whether the first run succeeded or stopped at a failed creation |
| Checker.EnsureDirsProceeds | src/init/checker.rs:39-46 | with no fault and no file anywhere on the paths' chains the step succeeds |
| Checker.PreflightChains | src/init/checker.rs:19 | the four preflight directories together with their ancestors are exactly those four, and the cache directory is not among them |
| Checker.PreflightDirsExact | src/init/checker.rs:19 | the step creates exactly the missing preflight directories and never `configs/logs/cache` |
| Checker.EulaStep | src/init/checker.rs:47-62 | the step proceeds exactly when `eula.json` is readable and holds `eula: true`; a missing file is written as `{"eula": false}` and the run exits 0; `eula: false` exits 0; unparsable contents abort; a read error aborts with its kind; only a missing file changes the state |
| Checker.CheckEula | src/init/checker.rs:47-62 | the step-by-step code computes `EulaStep` |
| Checker.ConfigStep | src/init/checker.rs:74-88 | the step proceeds exactly when `config.json` is readable and parses; a missing file is written with the default and the run exits 0; invalid contents abort; a read error aborts with its kind; only a missing file changes the state |
| Checker.ValidateConfigs | src/init/checker.rs:74-88 | the step-by-step code computes `ConfigStep` |
| Checker.DefaultConfigValidates | src/init/checker.rs:77-78 | the default configuration as written parses back to the default, so once written it passes the next validation |
| Checker.DefaultEulaRefuses | src/init/checker.rs:50-51 | the EULA record written for a missing file says false, so the next run stops at the EULA step again |
| Checker.RunPreflightChecks | src/init/checker.rs:14-28 | the step-by-step sequence computes `Preflight`: verdict, final state and the last banner printed |
| Checker.PreflightOrder | src/init/checker.rs:14-28 | the steps run in order, each only after the previous one proceeded; a failed probe is the permission error and changes nothing; the directory step fails only with I/O errors; exits (status 0) come only from the EULA and config steps |
| Checker.PreflightFiles | src/init/checker.rs:14-28 | a step that never ran leaves its file untouched; a step that ran left its file as it was or wrote the default for a missing one and exited; no other file but the probe changes |
| Checker.PreflightDirs | src/init/checker.rs:14-28 | directories are only added, and only the four preflight ones; faults and undeletable files stay; the cache directory is never created |
| Checker.PreflightSuccess | src/init/checker.rs:14-28 | success means the directories exist, the EULA is agreed, the config parses and no file but the probe changed |
| Checker.PreflightPasses | src/init/checker.rs:14-28 | conversely, with no fault or directory at the probe, nothing in the way of the preflight directories, and both files readable, agreed and valid, the sequence passes |
| Init.TemplateRefuses | src/main.rs:276-280 | the generated `eula.txt` always contains `eula=false` |
| Init.EulaAgreedReads | src/main.rs:355-358 | consent is given exactly when eula.txt can be read and contains `eula=true`; a read error counts as no consent |
| Init.AfterProbeKeeps | src/main.rs:231-237 | after a passing probe every other path is as it was |
| Init.ProbeRemoved | src/main.rs:231-237 | the probe is written and removed, leaving the state `AfterProbe` names, exactly when it can be removed |
| Init.CreateIfMissing | src/main.rs:254-255 | an existing path, file or directory, gives no error and no change; otherwise it fails exactly when `create_dir_all` does; afterwards the path exists or the failure changed nothing |
| Init.MslDirs | src/main.rs:252-270 | only directories change, and only `MSL`, `MSL/servers` and `MSL/logs`; on success all three exist; with no fault and no file in the way all creations succeed |
| Init.ViaTemp | src/main.rs:284-288 | the atomic write leaves eula.txt with the new text and no temporary file, or fails leaving the temporary file or nothing; with the MSL directory there and neither path faulty or a directory it succeeds |
| Init.Consent | src/main.rs:298-330 | a read error is returned; refusal exits 4 and changes nothing; consent rewrites `eula=false` to `eula=true` and writes the flag `ok`; a failed flag write exits 1; with nothing in the way the answer alone decides |
| Init.CmdInit | src/main.rs:227-332 | the step-by-step code computes `InitSpec` |
| Init.InitProbe | src/main.rs:231-250 | a failed probe is an error of the same kind and changes nothing; an unremovable probe is a permission error; an existing `.initialized` exits 0 after the probe; the only exit statuses are 0, 1 and 4 |
| Init.InitDryRun | src/main.rs:282-296 | a dry run ignores the answer; it ends in success, an error or exit 0, and on success the MSL tree exists and no file but the probe changed |
| Init.InitConsent | src/main.rs:298-330 | without consent init does not succeed; refusal exits 4 once eula.txt exists; exit 1 only follows consent; success leaves the flag `ok` and `eula=false` replaced by `eula=true`, and a generated eula.txt then grants consent |
| Init.InitDirs | src/main.rs:252-270 | directories are only added, and only the MSL tree; faults and undeletable files stay |
| Init.InitFlag | src/main.rs:326-329 | the flag appears only on success |
| Init.InitKeeps | src/main.rs:227-332 | a success adds no file but eula.txt and the flag, and changes no other file except the probe and the temporary file |
| Init.InitRunsThrough | src/main.rs:227-332 | conversely, where no call fails, a dry run succeeds and a real run succeeds on consent and exits 4 on refusal |
| Init.ExitCode | src/main.rs:197-212 | success is 0; a permission error is 2 and any other I/O error 3; explicit exits keep their code |
| Login.RequestForm | src/main.rs:77-83 | the form carries email then password, and `twoFactorAuthKey` last, only when a code is given |
| Login.Classify | src/main.rs:91-99 | the reply is a success exactly when its code is 200 and it carries data; otherwise the error is the server's message, the no-data message, or the transport error |
| Login.LoginUser | src/main.rs:66-99 | a blank email, and otherwise a blank password, is rejected before any request; otherwise the reply decides |
| Login.LoginRejectsWhitespace | src/main.rs:71-73 | an email made only of whitespace is rejected whatever the server would say |
| Login.AcceptedEmailValid | src/main.rs:386-395 | an email line is taken exactly when its trimmed value is non-empty and contains '@' and '.' |
| Login.AcceptedPasswordValid | src/main.rs:403-413 | a password line is taken exactly when its trimmed value is non-empty and at least 6 bytes long |
| Login.WordMeaning | src/main.rs:422-427 | exactly "y"/"yes" mean yes and "n"/"no" mean no |
| Login.YesNoWords | src/main.rs:453-457 | a yes/no answer is read trimmed and lower-cased: "y"/"yes" is yes, "n"/"no" is no, any other line no answer |
| Login.AgreesNormalises | src/main.rs:307-309 | the consent of `init` ignores surrounding whitespace and the case it is typed in |
| Login.ConsentIsYes | src/main.rs:307-308 | the EULA consent words and the yes/no prompts agree on yes |
| Login.YesNoNormalises | src/main.rs:422 | an answer means the same with surrounding whitespace and in upper case |
| Login.YesNoExamples | src/main.rs:422-427 | " Yes\n" is yes, "N" is no, an empty line is no answer |
| Login.PasswordLengthIsBytes | src/main.rs:409 | two CJK characters (6 bytes) pass the length check and five ASCII letters do not |
| Login.FirstIsEarliest | src/main.rs:381-396 | a prompt takes the first acceptable line and refuses every line before it |
| Login.ReadUntil | src/main.rs:381-396 | the prompt loop finds the line `First` names |
| Login.PromptedValid | src/main.rs:381-433 | prompted credentials are trimmed; the email contains '@' and '.'; the password is at least 6 bytes; the code is trimmed |
| Login.CollectedValid | src/main.rs:395-428 | the values kept from accepted lines are trimmed and valid |
| Login.PromptedNotBlank | src/main.rs:71-76 | interactively entered credentials pass `login_user`'s blank checks |
| Login.PromptCredentials | src/main.rs:379-434 | the three prompt loops compute `Prompted` |
| Login.PromptPassword | src/main.rs:399-414 | the password loop and the rest compute the password stage |
| Login.PromptTwoFactor | src/main.rs:417-433 | the 2FA loop computes the 2FA stage |
| Login.AskSave | src/main.rs:445-459 | the save-token loop computes `SaveAnswer` |
| Login.HandleLogin | src/main.rs:353-475 | the step-by-step run computes `Run` |
| Login.ConsentGatesLogin | src/main.rs:354-362 | without `eula=true` in `MSL/eula.txt` nothing is sent, and that is the only way to end with the consent message |
| Login.OptionsNeedNoInput | src/main.rs:372-377 | with both `--email` and `--password` no input is read; the options are sent as given; `--save-login` decides saving |
| Login.PromptedReachServer | src/main.rs:379-442 | prompted credentials are always sent; a transport error fails the login; a successful login returns the server's data |
| Login.SaveOnlyWhenAsked | src/main.rs:436-475 | a token is saved only after a successful login, and then exactly when `--save-login` (with `--email` given) or the save answer (without) says yes |
| Login.ExitStatus | src/main.rs:353-442 | only an endless prompt has no status; only a failed login exits 1; missing consent and a successful login exit 0 |
| UiState.New | src/ui/mod.rs:13-21 | the initial state does not quit, selects tab 0 and has no announcement |
| Home.TipsText | src/ui/home.rs:16-20 | the tip line is empty exactly when there are no tips, and is otherwise " Tips: " followed by the tips joined with " \| " |
| Home.Render | src/ui/home.rs:4-24 | the sidebar is 15 wide with the selected tab; a banner titled "公告" is drawn exactly when there is an announcement, carrying its tip line and notice |
| Home.SplitJoin | src/ui/home.rs:17 | tips with no '\|' character in them are recovered from the joined text |
| Home.TipsTextRoundTrip | src/ui/home.rs:16-20 | the tips are recovered from the tip line |
| Home.JoinBarCount | src/ui/home.rs:17 | joining adds exactly one separator bar per gap between tips |
| Ui.Render | src/ui/mod.rs:23-25 | rendering the application renders the home screen |
| Ui.InitialFrame | src/ui/mod.rs:13-25 | the initial state renders the sidebar on tab 0 and no banner |

## Left out

- HTTP. `reqwest` and the JSON decoding of the reply are one function
  parameter, from the form sent to the decoded reply or an error message.
  The base URL is not modelled.
- The clock and the user name. `chrono` and `whoami` are parameters of
  `CmdInit`.
- The keyring. Storing the token or failing to store it only prints a
  message, so the model ends at the decision to save.
- Terminal I/O details. These are the prompt texts, flushing stdout, stdin
  read errors and the `read_password` failure message.
- Hidden password entry. `read_password` reads from the terminal with echo
  off; the model takes the password from the same line sequence as the
  other prompts.
- An endless prompt. A prompt loop that never gets an acceptable line has
  no final state; the model reports it as `InputExhausted`.
- `write_log`, including its creation of `MSL/logs`. It only appends a log
  line and its result is ignored.
- The current-directory lookup. `env::current_dir` failing is not
  modelled; paths are relative to the working directory.
- The dry-run consent message. In `cmd_init`, a dry run returns before the
  consent question, so that message can never be printed.
- The TUI. Terminal drawing, the event loop, tab switching, image protocol
  probing, the banner and sidebar widgets, and `Announcement`'s fields
  beyond the notice and tips are not part of this model.
- Argument parsing, `build_cli` and the `new`/`list` subcommands, which
  only print.
- FileSystem.CreateDirAll: all or nothing. A real `create_dir_all` can
  fail after creating some ancestors. When several members of the chain
  cannot be created, the model reports the first from the root down; the
  real call tries the deepest missing directory first.
- Init.CmdInit: `File::create` followed by `writeln!` is one write of
  "permission check\n", so a failure between the two is not separate.
- Checker.CheckWritePermission: modelled only for the path "." the
  preflight check passes.
- Config.Default: serde's JSON decoding is abstracted. A `Json` content
  carries the decoded value, so `ParseConfig` succeeds exactly on the
  default's own document or another well-formed `ConfigDoc`, never on
  arbitrary text. The pretty-printed text of the default is written out
  (`Checker.PrettyConfig`), but nothing is proved about it.
- FileSystem.Read: a non-UTF-8 file and a file without read permission
  are both a fault on its path; `InvalidData` is not a separate kind, and
  a fault makes writing that path fail too.
- Login.Classify: the reply's `code` field is a `u32`; the model uses an
  unbounded natural number, since only equality with 200 matters.
- Strings.AsciiLower: `to_lowercase` is modelled on ASCII letters only.
  Every lower-cased value is compared with an ASCII word, and no non-ASCII
  character lower-cases to ASCII except U+212A, the Kelvin sign, which
  becomes 'k'. No answer word contains 'k', so the comparisons come out
  the same.
