/** Command `mount_sshfs`: gather the mount options (from flags, or from a
    configuration file that replaces every flag), validate them in a fixed
    order that stops at the first failure, and print the `sshfs` command that
    would mount the remote directory.  The operating system and the network
    are parameters: `Env` says what each external call would answer. */
module MountSshfs {
  import opened Errors
  import opened Fmt
  import Strings
  import Ssh

  /** `sshfs`: the options of one mount. */
  datatype Options = Options(uid: int, gid: int, isRoot: bool, isForDocker: bool, mountDir: string, remote: string)

  const ErrRootWallBroken: Error := Text("uid is 0 or gid is 0 and -root flag is not set")
  const ErrInvalidMountDirPath: Error := Text("invalid mount dir path")

  /** Root ids are mapped (uid 0 OR gid 0) without the root acknowledgement. */
  predicate BreaksRootWall(options: Options)
  {
    !options.isRoot && (options.uid == 0 || options.gid == 0)
  }

  /** `validOptions`, with `isValidPath` and `isValidRemote` as oracles: the
      root wall, then the local path, then the remote, first failure wins. */
  function ValidOptions(options: Options, isValidPath: string -> bool, isValidRemote: string -> Option<Error>): (err: Option<Error>)
    ensures err.None? <==> !BreaksRootWall(options) && isValidPath(options.mountDir) && isValidRemote(options.remote).None?
  {
    if !options.isRoot && (options.uid == 0 || options.gid == 0) then Some(ErrRootWallBroken)
    else if !isValidPath(options.mountDir) then Some(ErrInvalidMountDirPath)
    else
      match isValidRemote(options.remote)
      case Some(e) => Some(Wrapped("Unable to verify remote: ", e))
      case None => None
  }

  /** The root wall is checked first: when it is broken neither oracle
      matters, whatever they would answer. */
  lemma RootWallCheckedFirst(options: Options, path1: string -> bool, remote1: string -> Option<Error>,
                             path2: string -> bool, remote2: string -> Option<Error>)
    requires BreaksRootWall(options)
    ensures ValidOptions(options, path1, remote1) == Some(ErrRootWallBroken)
    ensures ValidOptions(options, path1, remote1) == ValidOptions(options, path2, remote2)
  {
  }

  /** The path is checked second: when it is not usable the remote oracle
      does not matter. */
  lemma PathCheckedBeforeRemote(options: Options, isValidPath: string -> bool,
                                remote1: string -> Option<Error>, remote2: string -> Option<Error>)
    requires !BreaksRootWall(options) && !isValidPath(options.mountDir)
    ensures ValidOptions(options, isValidPath, remote1) == Some(ErrInvalidMountDirPath)
    ensures ValidOptions(options, isValidPath, remote1) == ValidOptions(options, isValidPath, remote2)
  {
  }

  /** The remote is checked last, and its error reaches the caller behind a
      fixed prefix. */
  lemma RemoteErrorWrapped(options: Options, isValidPath: string -> bool, isValidRemote: string -> Option<Error>)
    requires !BreaksRootWall(options) && isValidPath(options.mountDir) && isValidRemote(options.remote).Some?
    ensures var err := ValidOptions(options, isValidPath, isValidRemote);
      && err == Some(Wrapped("Unable to verify remote: ", isValidRemote(options.remote).value))
      && Message(err.value) == "Unable to verify remote: " + Message(isValidRemote(options.remote).value)
  {
  }

  /** With the root acknowledgement, the root wall never fails, whatever the ids. */
  lemma RootAcknowledged(options: Options, isValidPath: string -> bool, isValidRemote: string -> Option<Error>)
    requires options.isRoot
    ensures ValidOptions(options, isValidPath, isValidRemote) != Some(ErrRootWallBroken)
  {
  }

  /** `ConfigError(err)` */
  function ConfigError(err: Error): (r: Error)
    ensures Message(r) == "Configuration error: " + Message(err)
  {
    Wrapped("Configuration error: ", err)
  }

  /** What the outside world answers.  `loadConfig` reads and decodes a YAML
      configuration file; `clean` is `filepath.Clean`; `quote` is `%q`;
      `outcome` says which SSH-side external call fails and how. */
  datatype Env = Env(
    isValidPath: string -> bool,
    loadConfig: string -> Result<Options>,
    clean: string -> string,
    quote: string -> string,
    outcome: Ssh.Step -> Option<Error>)

  /** The probe `isValidRemote` runs in the remote directory. */
  function ProbeCommand(directory: string, quote: string -> string): (command: string)
    ensures |command| == 5 + |quote(directory)| && command[..5] == "stat " && command[5..] == quote(directory)
  {
    "stat " + quote(directory)
  }

  /** Everything `isValidRemote` calls after the parse, in order. */
  function VerifySteps(a: Ssh.RemoteAddress, quote: string -> string): (steps: seq<Ssh.Step>)
    ensures |steps| == 7 && steps[0] == Ssh.GetHostKey(a.host)
    ensures steps[6] == Ssh.Probe(ProbeCommand(a.directory, quote))
    ensures forall i :: 0 <= i < 6 ==> !steps[i].Probe?
  {
    Ssh.ConnectionSteps(a) + [Ssh.NewSession, Ssh.Probe(ProbeCommand(a.directory, quote))]
  }

  /** What `isValidRemote(remote)` does, as a value. */
  function VerifyRemote(remote: string, outcome: Ssh.Step -> Option<Error>, quote: string -> string): (r: Ssh.Trace)
    ensures r.calls == [] <==> Ssh.ParseRemote(remote).Err?
    ensures r.calls != [] ==> r.calls[0] == Ssh.GetHostKey(Ssh.ParseRemote(remote).value.host)
    ensures r.failure.None? ==>
      |r.calls| == 7 && r.calls[6] == Ssh.Probe(ProbeCommand(Ssh.ParseRemote(remote).value.directory, quote))
  {
    match Ssh.ParseRemote(remote)
    case Err(e) => Ssh.Trace([], Some(e))
    case Ok(a) => Ssh.Perform(VerifySteps(a, quote), outcome, quote)
  }

  /** A malformed remote is refused before any call, the probe included. */
  lemma MalformedRemoteNeverProbed(remote: string, outcome: Ssh.Step -> Option<Error>, quote: string -> string)
    requires Ssh.ParseRemote(remote).Err?
    ensures VerifyRemote(remote, outcome, quote) == Ssh.Trace([], Some(Ssh.ErrInvalidRemote))
  {
  }

  /** The remote is verified exactly when it parses and every call, from
      loading known_hosts to the probe, succeeds. */
  lemma VerifySucceedsIff(remote: string, outcome: Ssh.Step -> Option<Error>, quote: string -> string)
    ensures VerifyRemote(remote, outcome, quote).failure.None? <==>
      Ssh.ParseRemote(remote).Ok? && Ssh.AllSucceed(VerifySteps(Ssh.ParseRemote(remote).value, quote), outcome)
  {
  }

  /** The probe is run only as the seventh call, after the connection and the
      session were established, and it asks about the parsed directory. */
  lemma ProbeAfterConnection(remote: string, outcome: Ssh.Step -> Option<Error>, quote: string -> string)
    ensures var r := VerifyRemote(remote, outcome, quote);
      forall i :: 0 <= i < |r.calls| && r.calls[i].Probe? ==>
        && i == 6
        && r.calls[i].command == "stat " + quote(Ssh.ParseRemote(remote).value.directory)
        && Ssh.AllSucceed(r.calls[..6], outcome)
  {
    var r := VerifyRemote(remote, outcome, quote);
    if Ssh.ParseRemote(remote).Ok? {
      var steps := VerifySteps(Ssh.ParseRemote(remote).value, quote);
      forall i | 0 <= i < |r.calls| && r.calls[i].Probe?
        ensures i == 6 && r.calls[i].command == "stat " + quote(Ssh.ParseRemote(remote).value.directory)
        ensures Ssh.AllSucceed(r.calls[..6], outcome)
      {
        assert r.calls[i] == steps[i];
        assert i == 6;
        if r.failure.Some? {
          assert r.calls[..6] == r.calls[..|r.calls| - 1];
        }
      }
    }
  }

  /** The session and the probe, as a chain of their own. */
  lemma SessionUnrolled(probe: Ssh.Step, outcome: Ssh.Step -> Option<Error>, quote: string -> string)
    requires probe.Probe?
    ensures Ssh.Perform([Ssh.NewSession, probe], outcome, quote) ==
      if outcome(Ssh.NewSession).Some? then Ssh.Trace([Ssh.NewSession], outcome(Ssh.NewSession))
      else if outcome(probe).Some? then Ssh.Trace([Ssh.NewSession, probe], outcome(probe))
      else Ssh.Trace([Ssh.NewSession, probe], None)
  {
    var tail := [Ssh.NewSession, probe];
    if outcome(tail[0]).Some? {
      Ssh.FirstFailureIs(tail, 0, outcome);
      assert tail[..1] == [Ssh.NewSession];
    } else if outcome(tail[1]).Some? {
      Ssh.FirstFailureIs(tail, 1, outcome);
    } else {
      Ssh.FirstFailureIs(tail, 2, outcome);
    }
  }

  /** VerifyRemote unrolled into the early returns of `isValidRemote`. */
  lemma VerifyUnrolled(remote: string, a: Ssh.RemoteAddress, outcome: Ssh.Step -> Option<Error>, quote: string -> string)
    requires Ssh.ParseRemote(remote) == Ok(a)
    ensures var c := Ssh.Perform(Ssh.ConnectionSteps(a), outcome, quote);
      var probe := Ssh.Probe(ProbeCommand(a.directory, quote));
      VerifyRemote(remote, outcome, quote) ==
        if c.failure.Some? then c
        else if outcome(Ssh.NewSession).Some? then Ssh.Trace(c.calls + [Ssh.NewSession], outcome(Ssh.NewSession))
        else if outcome(probe).Some? then Ssh.Trace(c.calls + [Ssh.NewSession, probe], outcome(probe))
        else Ssh.Trace(c.calls + [Ssh.NewSession, probe], None)
  {
    var probe := Ssh.Probe(ProbeCommand(a.directory, quote));
    Ssh.PerformAppend(Ssh.ConnectionSteps(a), [Ssh.NewSession, probe], outcome, quote);
    SessionUnrolled(probe, outcome, quote);
  }

  /** `isValidRemote(remote)`: open the connection, open a session on it and
      run the probe; any failure is returned as it is. */
  method IsValidRemote(remote: string, outcome: Ssh.Step -> Option<Error>, quote: string -> string)
    returns (err: Option<Error>, calls: seq<Ssh.Step>)
    ensures Ssh.Trace(calls, err) == VerifyRemote(remote, outcome, quote)
  {
    ghost var parsed := Ssh.ParseRemote(remote);
    if parsed.Ok? {
      VerifyUnrolled(remote, parsed.value, outcome, quote);
    }
    var connection, e, connectCalls := Ssh.NewConnection(remote, outcome, quote);
    calls := connectCalls;
    if e.Some? {
      return e, calls;
    }
    var remoteDir := connection.directory;
    calls := calls + [Ssh.NewSession];
    var failure := outcome(Ssh.NewSession);
    if failure.Some? {
      return failure, calls;
    }
    var cmd := "stat " + quote(remoteDir);
    calls := calls + [Ssh.Probe(cmd)];
    failure := outcome(Ssh.Probe(cmd));
    if failure.Some? {
      return failure, calls;
    }
    return None, calls;
  }

  /** The remote oracle that `validOptions` uses in the program. */
  function RemoteCheck(env: Env): string -> Option<Error>
  {
    (remote: string) => VerifyRemote(remote, env.outcome, env.quote).failure
  }

  /** `readConfig(filename)`: load the file, then validate what it holds. */
  function ReadConfig(filename: string, env: Env): (r: Result<Options>)
    ensures r.Ok? ==> env.loadConfig(filename) == r && ValidOptions(r.value, env.isValidPath, RemoteCheck(env)).None?
    ensures r.Ok? <==>
      (env.loadConfig(filename).Ok? && ValidOptions(env.loadConfig(filename).value, env.isValidPath, RemoteCheck(env)).None?)
    ensures env.loadConfig(filename).Err? ==> r == env.loadConfig(filename)
    ensures env.loadConfig(filename).Ok? && ValidOptions(env.loadConfig(filename).value, env.isValidPath, RemoteCheck(env)).Some? ==>
      r == Err(ValidOptions(env.loadConfig(filename).value, env.isValidPath, RemoteCheck(env)).value)
  {
    match env.loadConfig(filename)
    case Err(e) => Err(e)
    case Ok(options) =>
      match ValidOptions(options, env.isValidPath, RemoteCheck(env))
      case Some(e) => Err(e)
      case None => Ok(options)
  }

  /** The values of the command-line flags after `flag.Parse`. */
  datatype FlagValues = FlagValues(
    docker: bool, mountTo: string, remoteDir: string, remoteHost: string,
    uid: int, gid: int, root: bool, config: string)

  /** Every flag left at its default. */
  const DefaultFlags := FlagValues(docker := false, mountTo := "", remoteDir := "", remoteHost := "",
                                   uid := 0, gid := 0, root := false, config := "")

  /** The options the flags describe: each flag copied, and the remote made
      as host ":" cleaned-directory. */
  function FlagOptions(f: FlagValues, clean: string -> string): (o: Options)
    ensures o.remote == f.remoteHost + ":" + clean(f.remoteDir)
    ensures o.uid == f.uid && o.gid == f.gid && o.isRoot == f.root
    ensures o.isForDocker == f.docker && o.mountDir == f.mountTo
  {
    var host, dir := f.remoteHost, clean(f.remoteDir);
    assert Fits("%s:%s", [StrArg(host), StrArg(dir)]) &&
           Sprintf("%s:%s", [StrArg(host), StrArg(dir)]) == host + ":" + dir by {
      SprintfString(host);
      SprintfString(dir);
      SprintfLiteral(":");
      SprintfAppend(":", [], "%s", [StrArg(dir)]);
      SprintfAppend("%s", [StrArg(host)], ":%s", [StrArg(dir)]);
      assert "%s" + (":" + "%s") == "%s:%s";
      assert [] + [StrArg(dir)] == [StrArg(dir)];
    }
    var remote := Sprintf("%s:%s", [StrArg(host), StrArg(dir)]);
    Options(uid := f.uid, gid := f.gid, isForDocker := f.docker, mountDir := f.mountTo,
            remote := remote, isRoot := f.root)
  }

  /** `flags()`: a non-empty `-config` replaces every other flag; otherwise
      the flags are assembled and validated. */
  function Flags(f: FlagValues, env: Env): (r: Result<Options>)
    ensures r.Ok? ==> ValidOptions(r.value, env.isValidPath, RemoteCheck(env)).None?
    ensures f.config != "" && r.Ok? ==> env.loadConfig(f.config) == r
    ensures f.config != "" && r.Err? ==> r.error.Wrapped? && r.error.prefix == "Configuration error: "
    ensures f.config == "" && r.Ok? ==> r.value == FlagOptions(f, env.clean)
    ensures f.config != "" ==> (r.Ok? <==> ReadConfig(f.config, env).Ok?)
    ensures f.config != "" && r.Err? ==> r.error == ConfigError(ReadConfig(f.config, env).error)
    ensures f.config == "" ==>
      (r.Ok? <==> ValidOptions(FlagOptions(f, env.clean), env.isValidPath, RemoteCheck(env)).None?)
    ensures f.config == "" && r.Err? ==>
      r.error == ValidOptions(FlagOptions(f, env.clean), env.isValidPath, RemoteCheck(env)).value
  {
    if f.config != "" then
      match ReadConfig(f.config, env)
      case Err(e) => Err(ConfigError(e))
      case Ok(options) => Ok(options)
    else
      var options := FlagOptions(f, env.clean);
      match ValidOptions(options, env.isValidPath, RemoteCheck(env))
      case Some(e) => Err(e)
      case None => Ok(options)
  }

  /** With `-config`, the other flags are ignored: two flag sets with the same
      configuration file give the same result, which is the file's options or
      a configuration error. */
  lemma ConfigOverridesFlags(f: FlagValues, g: FlagValues, env: Env)
    requires f.config != "" && g.config == f.config
    ensures Flags(f, env) == Flags(g, env)
    ensures Flags(f, env).Ok? ==> env.loadConfig(f.config) == Flags(f, env)
    ensures Flags(f, env).Err? ==> Flags(f, env).error.Wrapped? && Flags(f, env).error.prefix == "Configuration error: "
  {
  }

  /** Without `-config`, the result is the flags' options exactly when they
      pass validation. */
  lemma OptionsFromFlags(f: FlagValues, env: Env)
    requires f.config == ""
    ensures Flags(f, env).Ok? <==> ValidOptions(FlagOptions(f, env.clean), env.isValidPath, RemoteCheck(env)).None?
    ensures Flags(f, env).Ok? ==> Flags(f, env).value.remote == f.remoteHost + ":" + env.clean(f.remoteDir)
  {
  }

  /** A configuration file holding the options the flags describe is
      accepted exactly when the flags are, with the same options; its errors
      are the flags' errors behind the configuration prefix. */
  lemma ConfigMatchesFlags(f: FlagValues, env: Env)
    requires f.config != "" && env.loadConfig(f.config) == Ok(FlagOptions(f, env.clean))
    ensures var g := f.(config := "");
      && (Flags(f, env).Ok? <==> Flags(g, env).Ok?)
      && (Flags(g, env).Ok? ==> Flags(f, env) == Flags(g, env))
      && (Flags(g, env).Err? ==> Flags(f, env) == Err(ConfigError(Flags(g, env).error)))
  {
  }

  /** The flag help calls `-remote-host` "[username@]remote", but the parser
      needs exactly one '@': without a user (and no '@' in the cleaned
      directory) the flags are refused once the local checks pass, and no
      connection is attempted. */
  lemma HostWithoutUserRejected(f: FlagValues, env: Env)
    requires f.config == "" && '@' !in f.remoteHost && '@' !in env.clean(f.remoteDir)
    requires !BreaksRootWall(FlagOptions(f, env.clean)) && env.isValidPath(f.mountTo)
    ensures Flags(f, env) == Err(Wrapped("Unable to verify remote: ", Ssh.ErrInvalidRemote))
    ensures VerifyRemote(FlagOptions(f, env.clean).remote, env.outcome, env.quote).calls == []
  {
    var remote := FlagOptions(f, env.clean).remote;
    assert '@' !in remote;
    assert Strings.Count(remote, '@') == 0;
  }

  /** Run with no flags at all, the program stops at the root wall. */
  lemma DefaultFlagsRejected(env: Env)
    ensures Flags(DefaultFlags, env) == Err(ErrRootWallBroken)
  {
  }

  /** The fixed text of the printed command: the `sudo sshfs` line with the
      id mapping up to the uid, the text between uid and gid, and the line
      break (a backslash, a newline and a tab) that precedes every further
      argument. */
  const IdsLead := "sudo sshfs \\\n\t-o idmap=user,uid="
  const GidLead := ",gid="
  const Break := " \\\n\t"

  /** The three pieces of the format string `main` builds. */
  const Header := IdsLead + "%d" + GidLead + "%d"
  const AllowOther := Break + "-o allow_other"
  const Trailer := Break + "%s" + Break + "%s" + "\n"

  /** The command printed for the options, as text. */
  function CommandText(o: Options): string
  {
    IdsLead + Decimal(o.uid) + GidLead + Decimal(o.gid)
    + (if o.isForDocker then AllowOther else "")
    + (Break + o.remote + Break + o.mountDir + "\n")
  }

  /** The command starts with the `sudo sshfs` line and ends with the mount
      directory on a line of its own. */
  lemma CommandFrame(o: Options)
    ensures var text := CommandText(o);
      |IdsLead| <= |text| && text[..|IdsLead|] == IdsLead
    ensures var text, last := CommandText(o), Break + o.mountDir + "\n";
      |last| <= |text| && text[|text| - |last|..] == last
  {
    var lead, u, gl, g, br := IdsLead, Decimal(o.uid), GidLead, Decimal(o.gid), Break;
    var extra := if o.isForDocker then AllowOther else "";
    var r, m, nl := o.remote, o.mountDir, "\n";
    var middle := u + gl + g + extra + (br + r);
    var last := br + m + nl;
    var text := CommandText(o);
    assert text == lead + middle + last by {
      assert text == lead + u + gl + g + extra + (br + r + br + m + nl);
      assert lead + u + gl + g + extra + (br + r + br + m + nl) == lead + middle + last;
    }
    Framed(lead, middle, last);
  }

  /** A concatenation begins with its first part and ends with its last. */
  lemma Framed(lead: string, middle: string, last: string)
    ensures var t := lead + middle + last;
      |lead| + |last| <= |t| && t[..|lead|] == lead && t[|t| - |last|..] == last
  {
    var t := lead + middle + last;
    assert t[|t| - |last|..] == last;
  }

  /** None of the fixed text contains a verb. */
  lemma FixedTextHasNoVerb()
    ensures '%' !in IdsLead && '%' !in GidLead && '%' !in Break && '%' !in "\n" && '%' !in AllowOther
  {
    assert '%' !in IdsLead;
    assert '%' !in Break;
    assert '%' !in AllowOther by {
      assert AllowOther == " \\\n\t-o allow_other";
    }
  }

  /** Two `%d` verbs, each after text without `%`. */
  lemma TwoInts(p1: string, p2: string, uid: int, gid: int)
    requires '%' !in p1 && '%' !in p2
    ensures Fits(p1 + "%d" + p2 + "%d", [IntArg(uid), IntArg(gid)])
    ensures Sprintf(p1 + "%d" + p2 + "%d", [IntArg(uid), IntArg(gid)]) == p1 + Decimal(uid) + p2 + Decimal(gid)
  {
    var u, g := Decimal(uid), Decimal(gid);
    var ids := [IntArg(uid), IntArg(gid)];
    assert Fits(p2 + "%d", [IntArg(gid)]) && Sprintf(p2 + "%d", [IntArg(gid)]) == p2 + g by {
      var none: seq<Arg> := [];
      IntThen(gid, [], none);
      assert "%d" + [] == "%d" && [IntArg(gid)] + none == [IntArg(gid)];
      LiteralThen(p2, "%d", [IntArg(gid)]);
    }
    assert Fits("%d" + (p2 + "%d"), ids) && Sprintf("%d" + (p2 + "%d"), ids) == u + (p2 + g) by {
      IntThen(uid, p2 + "%d", [IntArg(gid)]);
    }
    LiteralThen(p1, "%d" + (p2 + "%d"), ids);
    assert p1 + ("%d" + (p2 + "%d")) == p1 + "%d" + p2 + "%d";
    assert p1 + (u + (p2 + g)) == p1 + u + p2 + g;
  }

  /** Two `%s` verbs, each after text without `%`, then text without `%`. */
  lemma TwoStrings(p1: string, p2: string, p3: string, a: string, b: string)
    requires '%' !in p1 && '%' !in p2 && '%' !in p3
    ensures Fits(p1 + "%s" + p2 + "%s" + p3, [StrArg(a), StrArg(b)])
    ensures Sprintf(p1 + "%s" + p2 + "%s" + p3, [StrArg(a), StrArg(b)]) == p1 + a + p2 + b + p3
  {
    var paths := [StrArg(a), StrArg(b)];
    assert Fits("%s" + p3, [StrArg(b)]) && Sprintf("%s" + p3, [StrArg(b)]) == b + p3 by {
      var none: seq<Arg> := [];
      SprintfLiteral(p3);
      StringThen(b, p3, none);
      assert [StrArg(b)] + none == [StrArg(b)];
    }
    assert Fits(p2 + ("%s" + p3), [StrArg(b)]) && Sprintf(p2 + ("%s" + p3), [StrArg(b)]) == p2 + (b + p3) by {
      LiteralThen(p2, "%s" + p3, [StrArg(b)]);
    }
    assert Fits("%s" + (p2 + ("%s" + p3)), paths) &&
           Sprintf("%s" + (p2 + ("%s" + p3)), paths) == a + (p2 + (b + p3)) by {
      StringThen(a, p2 + ("%s" + p3), [StrArg(b)]);
    }
    LiteralThen(p1, "%s" + (p2 + ("%s" + p3)), paths);
    assert p1 + ("%s" + (p2 + ("%s" + p3))) == p1 + "%s" + p2 + "%s" + p3;
    assert p1 + (a + (p2 + (b + p3))) == p1 + a + p2 + b + p3;
  }

  /** Two formats joined by text without `%`. */
  lemma JoinedFormats(f1: string, xs: seq<Arg>, mid: string, f2: string, ys: seq<Arg>)
    requires Fits(f1, xs) && '%' !in mid && Fits(f2, ys)
    ensures Fits(f1 + mid + f2, xs + ys)
    ensures Sprintf(f1 + mid + f2, xs + ys) == Sprintf(f1, xs) + mid + Sprintf(f2, ys)
  {
    var s1, s2 := Sprintf(f1, xs), Sprintf(f2, ys);
    assert Fits(mid + f2, ys) && Sprintf(mid + f2, ys) == mid + s2 by {
      LiteralThen(mid, f2, ys);
    }
    assert Fits(f1 + (mid + f2), xs + ys) && Sprintf(f1 + (mid + f2), xs + ys) == s1 + (mid + s2) by {
      SprintfAppend(f1, xs, mid + f2, ys);
    }
    assert f1 + (mid + f2) == f1 + mid + f2;
    assert s1 + (mid + s2) == s1 + mid + s2;
  }

  /** The assembled format fits its four arguments and prints CommandText. */
  lemma TemplateExpands(o: Options, format: string)
    requires format == Header + (if o.isForDocker then AllowOther else "") + Trailer
    ensures var args := [IntArg(o.uid), IntArg(o.gid), StrArg(o.remote), StrArg(o.mountDir)];
      Fits(format, args) && Sprintf(format, args) == CommandText(o)
  {
    var ids := [IntArg(o.uid), IntArg(o.gid)];
    var paths := [StrArg(o.remote), StrArg(o.mountDir)];
    var extra := if o.isForDocker then AllowOther else "";
    FixedTextHasNoVerb();
    TwoInts(IdsLead, GidLead, o.uid, o.gid);
    TwoStrings(Break, Break, "\n", o.remote, o.mountDir);
    JoinedFormats(Header, ids, extra, Trailer, paths);
    assert ids + paths == [IntArg(o.uid), IntArg(o.gid), StrArg(o.remote), StrArg(o.mountDir)];
  }

  /** The printing in `main`: build the format string, adding the
      `allow_other` line only for docker, then print the ids with `%d` and
      the remote and mount directory with `%s`, so that they appear verbatim
      even when they contain `%`. */
  method EmitCommand(flags: Options) returns (out: string)
    ensures out == CommandText(flags)
  {
    var cmd := Header;
    if flags.isForDocker {
      cmd := cmd + AllowOther;
    }
    cmd := cmd + Trailer;
    TemplateExpands(flags, cmd);
    out := Sprintf(cmd, [IntArg(flags.uid), IntArg(flags.gid), StrArg(flags.remote), StrArg(flags.mountDir)]);
  }

  /** How one run of the program ends. */
  datatype Exit = Printed(stdout: string) | Fatal(message: string)

  /** `main`: the options, then either the command or the fatal message. */
  method Run(f: FlagValues, env: Env) returns (exit: Exit)
    ensures Flags(f, env).Err? ==> exit == Fatal("Invalid flags: " + Message(Flags(f, env).error))
    ensures Flags(f, env).Ok? ==> exit == Printed(CommandText(Flags(f, env).value))
  {
    var flags := Flags(f, env);
    if flags.Err? {
      return Fatal("Invalid flags: " + Message(flags.error));
    }
    var out := EmitCommand(flags.value);
    return Printed(out);
  }

  /** Whatever wrapping the failure went through (`ConfigError`, "Unable to
      verify remote: ", a connection step's prefix), the fatal message ends
      with the text of the error it started from. */
  lemma FatalShowsRootCause(f: FlagValues, env: Env, exit: Exit)
    requires Flags(f, env).Err?
    requires exit == Fatal("Invalid flags: " + Message(Flags(f, env).error))
    ensures var root := Message(Root(Flags(f, env).error));
      |root| <= |exit.message| && exit.message[|exit.message| - |root|..] == root
  {
    var e := Flags(f, env).error;
    MessageEndsWithRoot(Wrapped("Invalid flags: ", e));
  }

  /** The id line for uid 1000 and gid 1000. */
  lemma ExampleIds()
    ensures IdsLead + Decimal(1000) + GidLead + Decimal(1000) == "sudo sshfs \\\n\t-o idmap=user,uid=1000,gid=1000"
  {
    assert NatDecimal(1) == "1";
    assert NatDecimal(10) == "10";
    assert NatDecimal(100) == "100";
    assert Decimal(1000) == "1000";
  }

  /** The remote and mount directory lines of the example. */
  lemma ExamplePaths()
    ensures Break + "alice@example.com:/data" + Break + "/mnt/data" + "\n"
      == " \\\n\talice@example.com:/data \\\n\t/mnt/data\n"
  {
  }

  /** uid and gid 1000, no docker: the command has no `allow_other` line. */
  lemma ExampleCommand()
    ensures CommandText(Options(1000, 1000, false, false, "/mnt/data", "alice@example.com:/data"))
      == "sudo sshfs \\\n\t-o idmap=user,uid=1000,gid=1000 \\\n\talice@example.com:/data \\\n\t/mnt/data\n"
  {
    ExampleIds();
    ExamplePaths();
  }

  /** For docker, the command is the plain one with the `allow_other` line
      inserted after the id line; nothing else changes. */
  lemma DockerInsertsAllowOther(o: Options)
    ensures var plain := CommandText(o.(isForDocker := false));
      var k := |IdsLead + Decimal(o.uid) + GidLead + Decimal(o.gid)|;
      k <= |plain| && CommandText(o.(isForDocker := true)) == plain[..k] + AllowOther + plain[k..]
  {
    var ids := IdsLead + Decimal(o.uid) + GidLead + Decimal(o.gid);
    var paths := Break + o.remote + Break + o.mountDir + "\n";
    var plain := CommandText(o.(isForDocker := false));
    assert plain == ids + paths;
    assert plain[..|ids|] == ids && plain[|ids|..] == paths;
  }
}
