/**
  The decisions of the SSH server (core/ssh_server.go): whether a password or a public key logs
  a client in, which channels are served, and what the shell loop does with one line of input.

  Logging, the database, the terminal's line reading and the goroutine around the loop are not
  part of this model; a command handler is plugin code, so running one is an outcome here.
*/
module SshServer {
  import opened Wrappers
  import opened Paths
  import opened PluginConfig
  import opened CmdArgsModel
  import opened Manager

  // ---------------------------------------------------------------------------------------
  // Authentication
  // ---------------------------------------------------------------------------------------

  /** Why a login attempt is refused; `%q`-quoting of the user name is not modelled. */
  datatype AuthError =
    | IncorrectPassword(user: string)
    | UnknownPublicKey(user: string)

  /**
    `CallPasswordInterceptor(username, password, ip)`: false for a plugin without an
    interceptor, otherwise the interceptor's answer, given as `ask`.
  */
  predicate CallPasswordInterceptor(p: Plugin, ask: (Interceptor, string, string) -> bool, username: string, password: string)
  {
    HasPasswordIntercept(p) && ask(p.init.interceptor.value, username, password)
  }

  /** The first plugin of `ps` whose interceptor lets the user in, if any. */
  function FirstAccepting(ps: seq<Plugin>, ask: (Interceptor, string, string) -> bool, username: string, password: string): (r: Option<nat>)
    ensures r.Some? ==> r.value < |ps| && CallPasswordInterceptor(ps[r.value], ask, username, password)
    ensures r.Some? ==> forall j :: 0 <= j < r.value ==> !CallPasswordInterceptor(ps[j], ask, username, password)
    ensures r.None? <==> forall j :: 0 <= j < |ps| ==> !CallPasswordInterceptor(ps[j], ask, username, password)
  {
    if |ps| == 0 then None
    else if CallPasswordInterceptor(ps[0], ask, username, password) then Some(0)
    else match FirstAccepting(ps[1..], ask, username, password)
      case None => None
      case Some(k) => Some(k + 1)
  }

  /**
    `passwordChecker`: with no plugin manager the attempt is refused. Otherwise the password
    plugins are asked in order and the first that says yes logs the user in, so the ones after it
    are not asked; when none says yes, the attempt is refused. `asked` is how many were asked.
  */
  method PasswordChecker(pm: PluginManager?, ask: (Interceptor, string, string) -> bool, username: string, password: string)
    returns (r: Result<(), AuthError>, asked: nat)
    ensures pm == null ==> r == Err(IncorrectPassword(username)) && asked == 0
    ensures pm != null ==>
      match FirstAccepting(pm.passwordPlugins, ask, username, password)
      case Some(k) => r == Ok(()) && asked == k + 1
      case None => r == Err(IncorrectPassword(username)) && asked == |pm.passwordPlugins|
  {
    asked := 0;
    if pm != null {
      var ps := pm.passwordPlugins;
      var i := 0;
      while i < |ps|
        invariant 0 <= i <= |ps| && asked == i
        invariant forall j :: 0 <= j < i ==> !CallPasswordInterceptor(ps[j], ask, username, password)
      {
        asked := asked + 1;
        var should := HasPasswordIntercept(ps[i]) && ask(ps[i].init.interceptor.value, username, password);
        if should {
          FirstAcceptingAt(ps, ask, username, password, i);
          return Ok(()), asked;
        }
        i := i + 1;
      }
    }
    return Err(IncorrectPassword(username)), asked;
  }

  /** `FirstAccepting` names the first plugin that says yes. */
  lemma {:induction false} FirstAcceptingAt(ps: seq<Plugin>, ask: (Interceptor, string, string) -> bool, username: string, password: string, k: nat)
    requires k < |ps| && CallPasswordInterceptor(ps[k], ask, username, password)
    requires forall j :: 0 <= j < k ==> !CallPasswordInterceptor(ps[j], ask, username, password)
    ensures FirstAccepting(ps, ask, username, password) == Some(k)
  {
    if k > 0 {
      FirstAcceptingAt(ps[1..], ask, username, password, k - 1);
    }
  }

  /** `publicKeyChecker`: every public key is refused, for whichever user. */
  function PublicKeyChecker(username: string, key: seq<bv8>): (r: Result<(), AuthError>)
    ensures r.Err? && r.error.UnknownPublicKey? && r.error.user == username
  {
    Err(UnknownPublicKey(username))
  }

  // ---------------------------------------------------------------------------------------
  // Channels
  // ---------------------------------------------------------------------------------------

  /**
    The loop over a connection's new channels: a channel whose type is `session` is accepted,
    any other is rejected. The results are the positions of each, in arrival order.
  */
  method FilterChannels(types: seq<string>) returns (accepted: seq<nat>, rejected: seq<nat>)
    ensures forall i :: 0 <= i < |types| ==> (i in accepted <==> types[i] == "session")
    ensures forall i :: 0 <= i < |types| ==> (i in rejected <==> types[i] != "session")
    ensures forall i :: i in accepted || i in rejected ==> i < |types|
    ensures forall s, t :: 0 <= s < t < |accepted| ==> accepted[s] < accepted[t]
    ensures forall s, t :: 0 <= s < t < |rejected| ==> rejected[s] < rejected[t]
  {
    accepted, rejected := [], [];
    var i := 0;
    while i < |types|
      invariant 0 <= i <= |types|
      invariant forall k :: 0 <= k < i ==> (k in accepted <==> types[k] == "session")
      invariant forall k :: 0 <= k < i ==> (k in rejected <==> types[k] != "session")
      invariant forall k :: k in accepted || k in rejected ==> k < i
      invariant forall s :: 0 <= s < |accepted| ==> accepted[s] < i
      invariant forall s :: 0 <= s < |rejected| ==> rejected[s] < i
      invariant forall s, t :: 0 <= s < t < |accepted| ==> accepted[s] < accepted[t]
      invariant forall s, t :: 0 <= s < t < |rejected| ==> rejected[s] < rejected[t]
    {
      if types[i] != "session" {
        rejected := rejected + [i];
      } else {
        accepted := accepted + [i];
      }
      i := i + 1;
    }
  }

  // ---------------------------------------------------------------------------------------
  // One line of the shell loop
  // ---------------------------------------------------------------------------------------

  /** What the shell loop does with one line. */
  datatype LineOutcome =
    /** The line is blank: nothing is written and the prompt is left as it is. */
    | Skip
    /** Parsing the arguments panicked; nothing recovers the panic, so the server process ends. */
    | Crash
    /** The handler registered under the command runs with the parsed arguments. */
    | Run(fn: CommandFn, rawArgs: string, args: map<string, ArgValue>)
    /** No handler: `out` is written to the terminal. */
    | NotFound(out: string)

  /** The command word of a line: the text before the first space, a `.`-word joined onto the working directory. */
  function CommandName(line: string, pwd: string): string
  {
    var word := SplitFirst(line, ' ')[0];
    if "." <= word then Join(pwd, word) else word
  }

  /** The argument text of a line: what follows the first space, if there is one. */
  function ArgText(line: string): Option<string>
  {
    var parts := SplitFirst(line, ' ');
    if |parts| > 1 then Some(parts[1]) else None
  }

  /**
    The decision for one line read from the terminal, given the working directory and the
    manager's command map. Arguments are parsed before the lookup, so a panicking argument text
    ends the server whether or not the command exists; a line with no space leaves the argument
    map empty. The "not found" message echoes the whole line.
  */
  function DispatchLine(line: string, pwd: string, commands: map<string, CommandFn>): LineOutcome
  {
    if Trim(line, ' ') == "" then Skip
    else
      var cmd := CommandName(line, pwd);
      var raw := ArgText(line);
      var parsed := if raw.Some? then ParseArgs(raw.value) else Some(map[]);
      if parsed.None? then Crash
      else if cmd in commands then Run(commands[cmd], if raw.Some? then raw.value else "", parsed.value)
      else if "/" <= cmd then NotFound(line + ": No such file or directory\n")
      else NotFound(line + ": command not found\n")
  }

  /** After every line that is not blank, and the server still runs, the prompt is computed again. */
  predicate RecomputesPrompt(o: LineOutcome)
  {
    o.Run? || o.NotFound?
  }

  /**
    A line is skipped exactly when it is made of spaces only (the empty line included); the
    prompt is recomputed exactly when the line is not skipped and its arguments parse.
  */
  lemma DispatchSkipIff(line: string, pwd: string, commands: map<string, CommandFn>)
    ensures DispatchLine(line, pwd, commands).Skip? <==> AllChar(line, ' ')
    ensures RecomputesPrompt(DispatchLine(line, pwd, commands)) <==>
      !AllChar(line, ' ') && !(ArgText(line).Some? && ParseArgs(ArgText(line).value).None?)
  {
    TrimEmptyIff(line, ' ');
  }

  /**
    The server crashes on a line exactly when the line has a space after a non-blank start and
    the text after its first space makes `Parse` panic; a line without a space is never parsed.
  */
  lemma DispatchCrashIff(line: string, pwd: string, commands: map<string, CommandFn>)
    ensures DispatchLine(line, pwd, commands).Crash? <==>
      !AllChar(line, ' ') && ' ' in line && ParseArgs(ArgText(line).value).None?
    ensures ' ' !in line && line != "" ==> ArgText(line).None? && !DispatchLine(line, pwd, commands).Crash?
  {
    TrimEmptyIff(line, ' ');
    if ' ' !in line && line != "" {
      assert line[0] != ' ' && !AllChar(line, ' ');
    }
  }

  /**
    A line whose command has no handler gets the "not found" message with the line echoed: "No
    such file or directory" when the command (after the `.` rewrite) is a path from the root,
    "command not found" otherwise.
  */
  lemma DispatchNotFound(line: string, pwd: string, commands: map<string, CommandFn>)
    requires !AllChar(line, ' ')
    requires ArgText(line).None? || ParseArgs(ArgText(line).value).Some?
    ensures CommandName(line, pwd) in commands <==> DispatchLine(line, pwd, commands).Run?
    ensures CommandName(line, pwd) in commands ==>
      DispatchLine(line, pwd, commands).fn == commands[CommandName(line, pwd)]
    ensures CommandName(line, pwd) !in commands ==>
      DispatchLine(line, pwd, commands) ==
        NotFound(line + (if "/" <= CommandName(line, pwd) then ": No such file or directory\n" else ": command not found\n"))
  {
    TrimEmptyIff(line, ' ');
  }

  /**
    Under a working directory that starts at the root, a `.`-command becomes a path from the
    root, so when nothing is registered under it the message is "No such file or directory".
  */
  lemma DotCommandIsRooted(line: string, pwd: string)
    requires |pwd| > 0 && pwd[0] == '/'
    requires "." <= SplitFirst(line, ' ')[0]
    ensures "/" <= CommandName(line, pwd)
  {
    var word := SplitFirst(line, ' ')[0];
    var joined := pwd + "/" + word;
    assert joined[0] == '/';
    CleanRooted(joined);
  }

  /**
    `ls -l ` (a trailing space after an option) brings the server down, for every working
    directory and command map.
  */
  lemma TrailingSpaceCrashes(pwd: string, commands: map<string, CommandFn>)
    ensures DispatchLine("ls -l ", pwd, commands) == Crash
  {
    var line := "ls -l ";
    assert line == "ls" + [' '] + "-l ";
    assert ArgText(line) == Some("-l ");
    TrailingSpacePanics();
    assert line[0] == 'l';
    TrimEmptyIff(line, ' ');
  }
}
