/**
  The `login` subcommand (src/main.rs): the request `login_user` sends and
  how it reads the reply, the interactive prompts, and the order of
  decisions in `handle_login`. Standard input is a sequence of lines; the
  HTTP exchange is a function from the form sent to the reply received.
*/
module Login {
  import opened Wrappers
  import opened Strings
  import FileSystem
  import Init

  const MSG_NO_EMAIL: string := "请输入邮箱"
  const MSG_NO_PASSWORD: string := "请输入密码"
  const MSG_NO_DATA: string := "登录失败: 无返回数据"
  const MIN_PASSWORD_BYTES: nat := 6

  datatype AuthData = AuthData(username: string, token: string)

  /** The server's reply `{code, msg, data?}`; `code` is a `u32`. */
  datatype ApiResponse = ApiResponse(code: nat, msg: string, data: Option<AuthData>)

  /** What the HTTP exchange yields: a decoded reply, or the message of a send, read or decode error. */
  datatype Reply = Received(response: ApiResponse) | TransportFailed(message: string)

  /** The urlencoded form, as ordered key/value pairs. */
  type Form = seq<(string, string)>

  // ---------------------------------------------------------------------
  // login_user

  /** The login form: email and password, then the 2FA code only when one is given, last. */
  function RequestForm(email: string, password: string, twofa: Option<string>): (form: Form)
    ensures |form| == if twofa.Some? then 3 else 2
    ensures form[0] == ("email", email) && form[1] == ("password", password)
    ensures twofa.Some? ==> form[2] == ("twoFactorAuthKey", twofa.value)
  {
    var form := [("email", email), ("password", password)];
    if twofa.Some? then form + [("twoFactorAuthKey", twofa.value)] else form
  }

  /**
    How the reply is read: a code other than 200 is an error carrying the
    server's message; 200 without data is the "no data" error; otherwise
    the data is the result, unchanged.
  */
  function Classify(reply: Reply): (r: Result<AuthData, string>)
    ensures r.Ok? <==> reply.Received? && reply.response.code == 200 && reply.response.data.Some?
    ensures r.Ok? ==> r.value == reply.response.data.value
    ensures reply.Received? && reply.response.code != 200 ==> r == Err(reply.response.msg)
    ensures reply.Received? && reply.response.code == 200 && reply.response.data.None? ==> r == Err(MSG_NO_DATA)
    ensures reply.TransportFailed? ==> r == Err(reply.message)
  {
    match reply
    case TransportFailed(m) => Err(m)
    case Received(resp) =>
      if resp.code != 200 then Err(resp.msg)
      else if resp.data.None? then Err(MSG_NO_DATA)
      else Ok(resp.data.value)
  }

  /**
    `login_user`: a blank email, and otherwise a blank password, is rejected
    before any request is made (whatever the server would answer); otherwise
    the form is sent and the reply classified.
  */
  function LoginUser(email: string, password: string, twofa: Option<string>, exchange: Form -> Reply)
    : (r: Result<AuthData, string>)
    ensures Blank(email) ==> r == Err(MSG_NO_EMAIL)
    ensures !Blank(email) && Blank(password) ==> r == Err(MSG_NO_PASSWORD)
    ensures !Blank(email) && !Blank(password) ==> r == Classify(exchange(RequestForm(email, password, twofa)))
  {
    if Blank(email) then Err(MSG_NO_EMAIL)
    else if Blank(password) then Err(MSG_NO_PASSWORD)
    else Classify(exchange(RequestForm(email, password, twofa)))
  }

  /** Whitespace-only input is blank however much of it there is. */
  lemma LoginRejectsWhitespace(email: string, password: string, twofa: Option<string>, exchange: Form -> Reply)
    requires AllWhitespace(email)
    ensures LoginUser(email, password, twofa, exchange) == Err(MSG_NO_EMAIL)
  {
    BlankIffAllWhitespace(email);
  }

  // ---------------------------------------------------------------------
  // The prompts

  /** An email line is taken when its trimmed form is non-empty and contains '@' and '.'. */
  predicate EmailAccepted(line: string)
  {
    var t := Trim(line);
    t != [] && '@' in t && '.' in t
  }

  /** A password line is taken when its trimmed form is non-empty and at least 6 bytes long. */
  predicate PasswordAccepted(line: string)
  {
    var t := Trim(line);
    t != [] && Utf8Len(t) >= MIN_PASSWORD_BYTES
  }

  /** A yes/no answer, trimmed and lower-cased: "y"/"yes" is yes, "n"/"no" is no, anything else none. */
  function YesNo(line: string): Option<bool>
  {
    Word(AsciiLower(Trim(line)))
  }

  /** The four answer words, compared character by character. */
  function Word(a: string): Option<bool>
  {
    if |a| == 1 then
      if a[0] == 'y' then Some(true) else if a[0] == 'n' then Some(false) else None
    else if |a| == 2 then
      if a[0] == 'n' && a[1] == 'o' then Some(false) else None
    else if |a| == 3 then
      if a[0] == 'y' && a[1] == 'e' && a[2] == 's' then Some(true) else None
    else None
  }

  /** `Word` recognises exactly "y"/"yes" as yes and "n"/"no" as no. */
  lemma WordMeaning(a: string)
    ensures Word(a) == Some(true) <==> a == "y" || a == "yes"
    ensures Word(a) == Some(false) <==> a == "n" || a == "no"
  {
    if |a| == 1 { assert a == [a[0]]; }
    if |a| == 2 { assert a == [a[0], a[1]]; }
    if |a| == 3 { assert a == [a[0], a[1], a[2]]; }
  }

  /**
    A yes/no prompt reads the line trimmed and lower-cased: "y" and "yes"
    mean yes, "n" and "no" mean no, and any other line is no answer.
  */
  lemma YesNoWords(line: string)
    ensures var w := AsciiLower(Trim(line));
      (YesNo(line) == Some(true) <==> w == "y" || w == "yes")
      && (YesNo(line) == Some(false) <==> w == "n" || w == "no")
      && (YesNo(line) == None <==> w != "y" && w != "yes" && w != "n" && w != "no")
  {
    WordMeaning(AsciiLower(Trim(line)));
  }

  predicate Answered(line: string)
  {
    YesNo(line).Some?
  }

  /** The EULA consent answer and the yes/no prompts agree on what "yes" is. */
  lemma ConsentIsYes(line: string)
    ensures Init.Agrees(line) <==> YesNo(line) == Some(true)
  {
    WordMeaning(AsciiLower(Trim(line)));
  }

  lemma {:induction false} TrimStartUpper(s: string)
    ensures TrimStart(AsciiUpper(s)) == AsciiUpper(TrimStart(s))
    decreases |s|
  {
    if s != [] {
      assert AsciiUpper(s)[1..] == AsciiUpper(s[1..]);
      TrimStartUpper(s[1..]);
    }
  }

  lemma {:induction false} TrimEndUpper(s: string)
    ensures TrimEnd(AsciiUpper(s)) == AsciiUpper(TrimEnd(s))
    decreases |s|
  {
    if s != [] {
      assert AsciiUpper(s)[..|s| - 1] == AsciiUpper(s[..|s| - 1]);
      TrimEndUpper(s[..|s| - 1]);
    }
  }

  /** Answers are read the same whatever surrounds them and in whatever case they are typed. */
  lemma YesNoNormalises(a: string, s: string, b: string)
    requires AllWhitespace(a) && AllWhitespace(b)
    ensures YesNo(a + s + b) == YesNo(s)
    ensures YesNo(AsciiUpper(s)) == YesNo(s)
  {
    TrimIgnoresPadding(a, s, b);
    TrimStartUpper(s);
    TrimEndUpper(TrimStart(s));
    LowerOfUpper(Trim(s));
  }

  /** The EULA consent of `init` ignores surrounding whitespace and the case it is typed in. */
  lemma AgreesNormalises(a: string, s: string, b: string)
    requires AllWhitespace(a) && AllWhitespace(b)
    ensures Init.Agrees(a + s + b) <==> Init.Agrees(s)
    ensures Init.Agrees(AsciiUpper(s)) <==> Init.Agrees(s)
  {
    YesNoNormalises(a, s, b);
    ConsentIsYes(a + s + b);
    ConsentIsYes(s);
    ConsentIsYes(AsciiUpper(s));
  }

  /** Some concrete answers. */
  lemma YesNoExamples()
    ensures YesNo(" Yes\n") == Some(true) && YesNo("N") == Some(false) && YesNo("") == None
  {
    var s := " Yes\n";
    assert IsWhitespace(s[0]) && s[1..] == "Yes\n";
    assert TrimStart("Yes\n") == "Yes\n" by { assert !IsWhitespace('Y'); }
    var t := "Yes\n";
    assert IsWhitespace(t[3]) && t[..3] == "Yes";
    assert TrimEnd("Yes") == "Yes" by { assert !IsWhitespace('s'); }
    var l := AsciiLower("Yes");
    assert l[0] == 'y' && l[1] == 'e' && l[2] == 's';
    var n := AsciiLower(Trim("N"));
    assert Trim("N") == "N";
    assert n[0] == 'n';
  }

  /** The password bound counts bytes: a two-character CJK password passes, five ASCII letters do not. */
  lemma PasswordLengthIsBytes()
    ensures PasswordAccepted("密钥")
    ensures !PasswordAccepted("abcde\n")
  {
    assert Trim("密钥") == "密钥";
    assert Trim("abcde\n") == "abcde" by {
      assert TrimEnd("abcde\n") == "abcde";
    }
  }

  /** `read_line` at end of input yields the empty line. */
  function LineAt(input: seq<string>, i: nat): string
  {
    if i < |input| then input[i] else ""
  }

  /**
    The first line from `from` on that `accept` takes. Lines before it are
    refused and re-prompted; `None` means no line is ever taken, and since
    end of input reads as an empty line, which no prompt takes, the prompt
    loop then never ends.
  */
  function First(lines: seq<string>, from: nat, accept: string -> bool): Option<nat>
    decreases |lines| - from
  {
    if from >= |lines| then None
    else if accept(lines[from]) then Some(from)
    else First(lines, from + 1, accept)
  }

  /** `First` finds the earliest line it may: the one found is taken and every line before it refused. */
  lemma {:induction false} FirstIsEarliest(lines: seq<string>, from: nat, accept: string -> bool)
    ensures First(lines, from, accept).Some? ==>
      var k := First(lines, from, accept).value;
      from <= k < |lines| && accept(lines[k]) && forall j :: from <= j < k ==> !accept(lines[j])
    ensures First(lines, from, accept).None? ==> forall j :: from <= j < |lines| ==> !accept(lines[j])
    decreases |lines| - from
  {
    if from < |lines| && !accept(lines[from]) {
      FirstIsEarliest(lines, from + 1, accept);
    }
  }

  lemma FirstInRange(lines: seq<string>, from: nat, accept: string -> bool)
    ensures First(lines, from, accept).Some? ==> from <= First(lines, from, accept).value < |lines|
  {
    FirstIsEarliest(lines, from, accept);
  }

  lemma FirstAccepted(lines: seq<string>, from: nat, accept: string -> bool)
    ensures First(lines, from, accept).Some? ==>
      from <= First(lines, from, accept).value < |lines| && accept(lines[First(lines, from, accept).value])
  {
    FirstIsEarliest(lines, from, accept);
  }

  /** A prompt loop: reads lines from `from` on until one is taken. */
  method ReadUntil(lines: seq<string>, from: nat, accept: string -> bool) returns (k: Option<nat>)
    ensures k == First(lines, from, accept)
    ensures k.Some? ==> from <= k.value < |lines|
  {
    var i := from;
    while i < |lines|
      invariant from <= i
      invariant First(lines, i, accept) == First(lines, from, accept)
      decreases |lines| - i
    {
      if accept(lines[i]) {
        return Some(i);
      }
      i := i + 1;
    }
    return None;
  }

  // ---------------------------------------------------------------------
  // handle_login

  datatype Credentials = Credentials(email: string, password: string, twofa: Option<string>)

  /** The `login` options: `--email`, `--password`, `--twofa`, `--save-login`. */
  datatype LoginArgs = LoginArgs(email: Option<string>, password: Option<string>, twofa: Option<string>, saveLogin: bool)

  /** Both email and password given as options: no prompting. */
  predicate ArgMode(args: LoginArgs)
  {
    args.email.Some? && args.password.Some?
  }

  predicate ValidEmail(e: string)
  {
    e != [] && Trim(e) == e && '@' in e && '.' in e
  }

  predicate ValidPassword(p: string)
  {
    p != [] && Trim(p) == p && Utf8Len(p) >= MIN_PASSWORD_BYTES
  }

  /**
    The credentials the three interactive prompts produce (email, password,
    2FA question and code) and the index of the next unread line; `None`
    when a prompt never gets an acceptable line. Each stage reads on from
    the line after the one the previous stage took.
  */
  function Prompted(input: seq<string>): Option<(Credentials, nat)>
  {
    var ke := First(input, 0, EmailAccepted);
    FirstInRange(input, 0, EmailAccepted);
    if ke.None? then None else PasswordStage(input, ke.value)
  }

  function PasswordStage(input: seq<string>, ke: nat): Option<(Credentials, nat)>
    requires ke < |input|
  {
    var kp := First(input, ke + 1, PasswordAccepted);
    FirstInRange(input, ke + 1, PasswordAccepted);
    if kp.None? then None else TwoFactorStage(input, ke, kp.value)
  }

  function TwoFactorStage(input: seq<string>, ke: nat, kp: nat): Option<(Credentials, nat)>
    requires ke < |input| && kp < |input|
  {
    var ky := First(input, kp + 1, Answered);
    FirstInRange(input, kp + 1, Answered);
    if ky.None? then None else Some(Collected(input, ke, kp, ky.value))
  }

  /** The trimmed answers; the code line, read only after "yes", is the one after the answer. */
  function Collected(input: seq<string>, ke: nat, kp: nat, ky: nat): (Credentials, nat)
    requires ke < |input| && kp < |input| && ky < |input|
  {
    var email := Trim(input[ke]);
    var password := Trim(input[kp]);
    if YesNo(input[ky]) == Some(true) then
      (Credentials(email, password, Some(Trim(LineAt(input, ky + 1)))), ky + 2)
    else
      (Credentials(email, password, None), ky + 1)
  }

  /**
    Whatever the prompts accept is valid: every value is trimmed, the email
    and password pass their checks, and the next unread line lies past the
    lines consumed.
  */
  lemma PromptedValid(input: seq<string>)
    ensures Prompted(input).Some? ==>
      var (c, next) := Prompted(input).value;
      ValidEmail(c.email) && ValidPassword(c.password)
      && (c.twofa.Some? ==> Trim(c.twofa.value) == c.twofa.value)
      && 0 < next <= |input| + 1
  {
    var e := First(input, 0, EmailAccepted);
    if e.Some? {
      var ke := e.value;
      assert ke < |input| && EmailAccepted(input[ke]) by { FirstAccepted(input, 0, EmailAccepted); }
      var p := First(input, ke + 1, PasswordAccepted);
      if p.Some? {
        var kp := p.value;
        assert kp < |input| && PasswordAccepted(input[kp]) by { FirstAccepted(input, ke + 1, PasswordAccepted); }
        var y := First(input, kp + 1, Answered);
        if y.Some? {
          assert y.value < |input| by { FirstInRange(input, kp + 1, Answered); }
          assert Prompted(input) == Some(Collected(input, ke, kp, y.value));
          CollectedValid(input, ke, kp, y.value);
        }
      }
    }
  }

  lemma CollectedValid(input: seq<string>, ke: nat, kp: nat, ky: nat)
    requires ke < |input| && kp < |input| && ky < |input|
    requires EmailAccepted(input[ke]) && PasswordAccepted(input[kp])
    ensures ValidEmail(Collected(input, ke, kp, ky).0.email)
    ensures ValidPassword(Collected(input, ke, kp, ky).0.password)
    ensures Collected(input, ke, kp, ky).0.twofa.Some? ==>
      Trim(Collected(input, ke, kp, ky).0.twofa.value) == Collected(input, ke, kp, ky).0.twofa.value
    ensures 0 < Collected(input, ke, kp, ky).1 <= |input| + 1
  {
    var (c, _) := Collected(input, ke, kp, ky);
    assert ValidEmail(c.email) by { AcceptedEmailValid(input[ke]); }
    assert ValidPassword(c.password) by { AcceptedPasswordValid(input[kp]); }
    assert c.twofa.Some? ==> Trim(c.twofa.value) == c.twofa.value by { TrimIdempotent(LineAt(input, ky + 1)); }
  }

  /** An email line is taken exactly when its trimmed value is a valid email. */
  lemma AcceptedEmailValid(line: string)
    ensures EmailAccepted(line) <==> ValidEmail(Trim(line))
  {
    TrimIdempotent(line);
  }

  /** A password line is taken exactly when its trimmed value is a valid password. */
  lemma AcceptedPasswordValid(line: string)
    ensures PasswordAccepted(line) <==> ValidPassword(Trim(line))
  {
    TrimIdempotent(line);
  }

  /** Interactively obtained credentials always get past `login_user`'s blank checks. */
  lemma PromptedNotBlank(input: seq<string>)
    requires Prompted(input).Some?
    ensures !Blank(Prompted(input).value.0.email) && !Blank(Prompted(input).value.0.password)
  {
    PromptedValid(input);
  }

  /**
    The answer to the save-token question asked from line `from` on:
    whether the first yes/no answer is "yes"; `None` when none comes.
  */
  function SaveAnswer(input: seq<string>, from: nat): Option<bool>
  {
    var k := First(input, from, Answered);
    FirstInRange(input, from, Answered);
    if k.None? then None else Some(YesNo(input[k.value]) == Some(true))
  }

  /** The save-token prompt loop. */
  method AskSave(input: seq<string>, from: nat) returns (answer: Option<bool>)
    ensures answer == SaveAnswer(input, from)
  {
    var k := ReadUntil(input, from, Answered);
    if k.None? {
      return None;
    }
    answer := Some(YesNo(input[k.value]) == Some(true));
  }

  /** How a login run ends. */
  datatype LoginOutcome =
    | EulaNotAgreed                           // message, exit status 0
    | InputExhausted                          // a prompt re-asks forever at end of input
    | LoginFailed(reason: string)             // message, exit status 1
    | LoggedIn(user: AuthData, saveToken: bool)

  /** The credentials a run sent (if it got that far) and how it ended. */
  datatype LoginRun = LoginRun(creds: Option<Credentials>, outcome: LoginOutcome)

  /** The three interactive prompts in turn; `next` is the first line they left unread. */
  method PromptCredentials(input: seq<string>) returns (r: Option<(Credentials, nat)>)
    ensures r == Prompted(input)
  {
    var ke := ReadUntil(input, 0, EmailAccepted);
    if ke.None? {
      return None;
    }
    r := PromptPassword(input, ke.value);
  }

  method PromptPassword(input: seq<string>, ke: nat) returns (r: Option<(Credentials, nat)>)
    requires ke < |input|
    ensures r == PasswordStage(input, ke)
  {
    var kp := ReadUntil(input, ke + 1, PasswordAccepted);
    if kp.None? {
      return None;
    }
    r := PromptTwoFactor(input, ke, kp.value);
  }

  method PromptTwoFactor(input: seq<string>, ke: nat, kp: nat) returns (r: Option<(Credentials, nat)>)
    requires ke < |input| && kp < |input|
    ensures r == TwoFactorStage(input, ke, kp)
  {
    var ky := ReadUntil(input, kp + 1, Answered);
    if ky.None? {
      return None;
    }
    r := Some(Collected(input, ke, kp, ky.value));
  }

  /**
    What `handle_login` does. Without consent in eula.txt nothing else
    happens. With both `--email` and `--password` the options are used as
    given; otherwise all three prompts run (even when `--email` alone was
    given). A failed login ends the run. The save-token question is asked
    only when no `--email` was given; otherwise `--save-login` decides.
  */
  function Run(fs: FileSystem.FsState, args: LoginArgs, input: seq<string>, exchange: Form -> Reply): LoginRun
  {
    if !Init.EulaAgreed(fs) then LoginRun(None, EulaNotAgreed)
    else
      var obtained :=
        if ArgMode(args) then Some((Credentials(args.email.value, args.password.value, args.twofa), 0))
        else Prompted(input);
      if obtained.None? then LoginRun(None, InputExhausted)
      else
        var c := obtained.value.0;
        match LoginUser(c.email, c.password, c.twofa, exchange)
        case Err(e) => LoginRun(Some(c), LoginFailed(e))
        case Ok(d) =>
          if args.email.Some? then LoginRun(Some(c), LoggedIn(d, args.saveLogin))
          else
            match SaveAnswer(input, obtained.value.1)
            case None => LoginRun(Some(c), InputExhausted)
            case Some(save) => LoginRun(Some(c), LoggedIn(d, save))
  }

  /** `handle_login`, step by step: consent check, credentials, request, save question. */
  method HandleLogin(fs: FileSystem.FsState, args: LoginArgs, input: seq<string>, exchange: Form -> Reply)
    returns (run: LoginRun)
    ensures run == Run(fs, args, input, exchange)
  {
    if !Init.EulaAgreed(fs) {
      return LoginRun(None, EulaNotAgreed);
    }
    var creds, next;
    if args.email.Some? && args.password.Some? {
      creds, next := Credentials(args.email.value, args.password.value, args.twofa), 0;
    } else {
      var prompted := PromptCredentials(input);
      if prompted.None? {
        return LoginRun(None, InputExhausted);
      }
      creds, next := prompted.value.0, prompted.value.1;
    }
    var result := LoginUser(creds.email, creds.password, creds.twofa, exchange);
    if result.Err? {
      return LoginRun(Some(creds), LoginFailed(result.error));
    }
    var doSave := args.saveLogin;
    if args.email.None? {
      var answer := AskSave(input, next);
      if answer.None? {
        return LoginRun(Some(creds), InputExhausted);
      }
      doSave := answer.value;
    }
    run := LoginRun(Some(creds), LoggedIn(result.value, doSave));
  }

  /** Nothing but the consent check happens before the EULA is agreed to. */
  lemma ConsentGatesLogin(fs: FileSystem.FsState, args: LoginArgs, input: seq<string>, exchange: Form -> Reply)
    ensures Run(fs, args, input, exchange).creds.None? <== !Init.EulaAgreed(fs)
    ensures !Init.EulaAgreed(fs) <==> Run(fs, args, input, exchange).outcome == EulaNotAgreed
  {
  }

  /**
    With both options given nothing is read from input: the credentials sent
    are the options, and the outcome is the login result with `--save-login`.
  */
  lemma OptionsNeedNoInput(fs: FileSystem.FsState, args: LoginArgs, input: seq<string>, exchange: Form -> Reply)
    requires Init.EulaAgreed(fs) && ArgMode(args)
    ensures Run(fs, args, input, exchange) == Run(fs, args, [], exchange)
    ensures Run(fs, args, input, exchange).creds == Some(Credentials(args.email.value, args.password.value, args.twofa))
    ensures Run(fs, args, input, exchange).outcome ==
      match LoginUser(args.email.value, args.password.value, args.twofa, exchange) {
        case Err(e) => LoginFailed(e)
        case Ok(d) => LoggedIn(d, args.saveLogin)
      }
  {
  }

  /**
    Interactively entered credentials always reach the server: the outcome
    is decided by the reply, never by the blank checks.
  */
  lemma PromptedReachServer(fs: FileSystem.FsState, args: LoginArgs, input: seq<string>, exchange: Form -> Reply)
    requires Init.EulaAgreed(fs) && !ArgMode(args) && Prompted(input).Some?
    ensures
      var c := Prompted(input).value.0;
      var run := Run(fs, args, input, exchange);
      run.creds == Some(c)
      && (exchange(RequestForm(c.email, c.password, c.twofa)).TransportFailed? ==>
            run.outcome == LoginFailed(exchange(RequestForm(c.email, c.password, c.twofa)).message))
      && (run.outcome.LoggedIn? ==> Classify(exchange(RequestForm(c.email, c.password, c.twofa))) == Ok(run.outcome.user))
  {
    PromptedNotBlank(input);
  }

  /**
    A token is saved only after a successful login, and then exactly when
    `--save-login` (with `--email` given) or the answer (without) says so.
  */
  lemma SaveOnlyWhenAsked(fs: FileSystem.FsState, args: LoginArgs, input: seq<string>, exchange: Form -> Reply)
    ensures
      var run := Run(fs, args, input, exchange);
      run.outcome.LoggedIn? && run.outcome.saveToken ==>
        && run.creds.Some?
        && LoginUser(run.creds.value.email, run.creds.value.password, run.creds.value.twofa, exchange) == Ok(run.outcome.user)
        && (args.email.Some? ==> args.saveLogin)
        && (args.email.None? ==> Prompted(input).Some? && SaveAnswer(input, Prompted(input).value.1) == Some(true))
    ensures
      var run := Run(fs, args, input, exchange);
      run.outcome.LoggedIn? ==>
        (args.email.None? ==> Prompted(input).Some?)
        && (run.outcome.saveToken <==>
              if args.email.Some? then args.saveLogin else SaveAnswer(input, Prompted(input).value.1) == Some(true))
  {
  }

  /** The exit status of a finished run; `None` for a run that never finishes. */
  function ExitStatus(o: LoginOutcome): (code: Option<int>)
    ensures code == None <==> o == InputExhausted
    ensures code == Some(1) <==> o.LoginFailed?
    ensures o.EulaNotAgreed? || o.LoggedIn? ==> code == Some(0)
  {
    match o
    case EulaNotAgreed => Some(0)
    case InputExhausted => None
    case LoginFailed(_) => Some(1)
    case LoggedIn(_, _) => Some(0)
  }
}
