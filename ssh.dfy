/** Package `ssh`: opening a client connection described by a remote string
    of the shape "user@host:dir".  The string is decomposed first; everything
    after that (loading known_hosts, the local identity, the dial, and the session
    and probe that `isValidRemote` runs over the connection) is a chain of
    external calls, each of which may fail.  An oracle `outcome` says which
    calls fail and with what error; the calls actually made are returned, so
    the order in which they happen can be stated. */
module Ssh {
  import opened Errors
  import opened Strings

  /** `ErrInvalidRemote` */
  const ErrInvalidRemote: Error := Text("Invalid remote")

  /** The three fields read out of a remote string. */
  datatype RemoteAddress = RemoteAddress(user: string, host: string, directory: string)

  /** The obvious way to write a remote string from its fields. */
  function Compose(a: RemoteAddress): string
  {
    a.user + "@" + a.host + ":" + a.directory
  }

  /** Fields that Compose writes so that they can be read back unchanged:
      the user may contain ':' but no '@'; host and directory contain neither. */
  predicate Unambiguous(a: RemoteAddress)
  {
    '@' !in a.user && '@' !in a.host && ':' !in a.host && '@' !in a.directory && ':' !in a.directory
  }

  /** The decomposition at the start of `NewConnection`: split on '@' (exactly
      two parts), split the second part on ':' and put those parts in front of
      the '@' parts (exactly four entries), then read host, directory and user
      at indices 0, 1 and 2.  Empty fields are not rejected. */
  function ParseRemote(remote: string): (r: Result<RemoteAddress>)
    ensures Count(remote, '@') != 1 ==> r == Err(ErrInvalidRemote)
    ensures r.Err? ==> r.error == ErrInvalidRemote
    ensures r.Ok? ==> Unambiguous(r.value) && Compose(r.value) == remote
  {
    var atFields := Split(remote, '@');
    if |atFields| != 2 then Err(ErrInvalidRemote)
    else
      var fields := Split(atFields[1], ':') + atFields;
      if |fields| != 4 then Err(ErrInvalidRemote)
      else
        var a := RemoteAddress(user := fields[2], host := fields[0], directory := fields[1]);
        var hostDir := Split(atFields[1], ':');
        assert atFields[1] == a.host + ":" + a.directory by {
          assert Join(hostDir, ':') == a.host + ":" + a.directory by {
            assert hostDir[1..] == [a.directory];
          }
        }
        assert remote == a.user + "@" + atFields[1] by {
          assert |hostDir| == 2 && fields[2] == atFields[0];
          assert atFields[1..] == [atFields[1]];
          assert Join(atFields, '@') == atFields[0] + ['@'] + Join(atFields[1..], '@');
        }
        Ok(a)
  }

  /** Writing fields and parsing them back gives the same fields. */
  lemma RoundTrip(a: RemoteAddress)
    requires Unambiguous(a)
    ensures ParseRemote(Compose(a)) == Ok(a)
  {
    var hostDir := a.host + ":" + a.directory;
    assert Compose(a) == a.user + ['@'] + hostDir;
    SplitAtFirst(a.user, hostDir, '@');
    SplitWithout(hostDir, '@');
    SplitAtFirst(a.host, a.directory, ':');
    SplitWithout(a.directory, ':');
  }

  /** With exactly one '@', the remote is accepted exactly when the text after
      the '@' holds exactly one ':'; the text before it is never split on ':'. */
  lemma AcceptedIffOneColonAfterAt(user: string, rest: string)
    requires '@' !in user && '@' !in rest
    ensures ParseRemote(user + "@" + rest).Ok? <==> Count(rest, ':') == 1
  {
    SplitAtFirst(user, rest, '@');
    SplitWithout(rest, '@');
  }

  /** A ':' in the directory part is a second ':' after the '@': rejected. */
  lemma ColonInDirectoryRejected(user: string, host: string, dir: string)
    requires '@' !in user && '@' !in host && '@' !in dir && ':' !in host && ':' in dir
    ensures ParseRemote(user + "@" + host + ":" + dir) == Err(ErrInvalidRemote)
  {
    var rest := host + ":" + dir;
    assert user + "@" + host + ":" + dir == user + "@" + rest;
    AcceptedIffOneColonAfterAt(user, rest);
    CountAppend(host + ":", dir, ':');
    CountAppend(host, ":", ':');
  }

  /** Cases the parser's rule decides in a way that is easy to miss: all
      three fields may be empty, and a ':' in the user is kept. */
  lemma EmptyFieldsAccepted()
    ensures ParseRemote("@:") == Ok(RemoteAddress("", "", ""))
  {
    RoundTrip(RemoteAddress("", "", ""));
    assert Compose(RemoteAddress("", "", "")) == "@:";
  }

  lemma ColonInUserAccepted()
    ensures ParseRemote("a:b@h:d") == Ok(RemoteAddress("a:b", "h", "d"))
  {
    RoundTrip(RemoteAddress("a:b", "h", "d"));
    assert Compose(RemoteAddress("a:b", "h", "d")) == "a:b@h:d";
  }

  /** A remote without ":dir" is rejected by the parse. */
  lemma MissingDirectoryRejected()
    ensures ParseRemote("bob@host") == Err(ErrInvalidRemote)
  {
    AcceptedIffOneColonAfterAt("bob", "host");
    assert "bob@host" == "bob" + "@" + "host";
  }

  /** An established client: where it is connected and as whom. */
  datatype Client = Client(address: string, user: string)

  /** The external calls made while opening and probing a connection. */
  datatype Step =
    | GetHostKey(host: string)            // loading ~/.ssh/known_hosts (the host is not read)
    | CurrentUser                         // user.Current, for the home directory
    | ReadIdentity                        // reading ~/.ssh/id_rsa
    | ParsePrivateKey                     // ssh.ParsePrivateKey
    | Dial(address: string, user: string) // ssh.Dial over TCP
    | NewSession                          // Client.NewSession
    | Probe(command: string)              // session.Run of the probe command

  /** The calls a run made, and the error that stopped it, if any. */
  datatype Trace = Trace(calls: seq<Step>, failure: Option<Error>)

  /** The error returned when `step` fails with `cause`: some are passed on
      as they are, the identity and dial failures get a prefix.  `quote`
      stands for Go's `%q` verb. */
  function StepError(step: Step, cause: Error, quote: string -> string): (e: Error)
    ensures (step.GetHostKey? || step.CurrentUser? || step.NewSession? || step.Probe?) ==> e == cause
  {
    match step
    case ReadIdentity => Wrapped("unable to read private key: ", cause)
    case ParsePrivateKey => Wrapped("unable to parse private key: ", cause)
    case Dial(address, _) => Wrapped("unable to connect to " + quote(address) + ": ", cause)
    case _ => cause
  }

  /** Whatever the step, the returned error's text ends with the cause's text. */
  lemma StepErrorKeepsCause(step: Step, cause: Error, quote: string -> string)
    ensures var m, c := Message(StepError(step, cause, quote)), Message(cause);
      |c| <= |m| && m[|m| - |c|..] == c
  {
  }

  predicate AllSucceed(steps: seq<Step>, outcome: Step -> Option<Error>)
  {
    forall i :: 0 <= i < |steps| ==> outcome(steps[i]).None?
  }

  /** The position of the first step that fails, or |steps| when none does. */
  function FirstFailure(steps: seq<Step>, outcome: Step -> Option<Error>): (k: nat)
    ensures k <= |steps|
    ensures forall i :: 0 <= i < k ==> outcome(steps[i]).None?
    ensures k < |steps| ==> outcome(steps[k]).Some?
  {
    if steps == [] then 0
    else if outcome(steps[0]).Some? then 0
    else 1 + FirstFailure(steps[1..], outcome)
  }

  /** Those three facts pin the first failure down. */
  lemma {:induction false} FirstFailureIs(steps: seq<Step>, k: nat, outcome: Step -> Option<Error>)
    requires k <= |steps|
    requires forall i :: 0 <= i < k ==> outcome(steps[i]).None?
    requires k < |steps| ==> outcome(steps[k]).Some?
    ensures FirstFailure(steps, outcome) == k
  {
    if k > 0 {
      assert outcome(steps[0]).None?;
      var rest := steps[1..];
      forall i | 0 <= i < k - 1 ensures outcome(rest[i]).None? {
        assert rest[i] == steps[i + 1];
      }
      assert k - 1 < |rest| ==> rest[k - 1] == steps[k];
      FirstFailureIs(rest, k - 1, outcome);
    }
  }

  /** A linear chain of early-return calls: each step is made only when all
      the steps before it succeeded, and the first failure ends the chain
      with that step's error. */
  function Perform(steps: seq<Step>, outcome: Step -> Option<Error>, quote: string -> string): (r: Trace)
    ensures r.failure.None? <==> AllSucceed(steps, outcome)
    ensures r.failure.None? ==> r.calls == steps
    ensures r.failure.Some? ==>
      && 0 < |r.calls| <= |steps| && r.calls == steps[..|r.calls|]
      && AllSucceed(r.calls[..|r.calls| - 1], outcome)
      && outcome(r.calls[|r.calls| - 1]).Some?
  {
    var k := FirstFailure(steps, outcome);
    if k == |steps| then Trace(steps, None)
    else
      var r := Trace(steps[..k + 1], Some(StepError(steps[k], outcome(steps[k]).value, quote)));
      assert r.calls[..k] == steps[..k];
      r
  }

  /** A chain made of two chains: the second is started only when the first
      ran to the end. */
  lemma PerformAppend(s1: seq<Step>, s2: seq<Step>, outcome: Step -> Option<Error>, quote: string -> string)
    ensures var r1 := Perform(s1, outcome, quote);
      Perform(s1 + s2, outcome, quote) ==
        if r1.failure.Some? then r1
        else var r2 := Perform(s2, outcome, quote); Trace(s1 + r2.calls, r2.failure)
  {
    var s := s1 + s2;
    var k1 := FirstFailure(s1, outcome);
    if k1 < |s1| {
      FirstFailureIs(s, k1, outcome);
      assert s[..k1 + 1] == s1[..k1 + 1];
    } else {
      var k2 := FirstFailure(s2, outcome);
      forall i | 0 <= i < |s1| + k2 ensures outcome(s[i]).None? {
        if i >= |s1| { assert s[i] == s2[i - |s1|]; }
      }
      if k2 < |s2| {
        assert s[|s1| + k2] == s2[k2];
      }
      FirstFailureIs(s, |s1| + k2, outcome);
      if k2 < |s2| {
        assert s[..|s1| + k2 + 1] == s1 + s2[..k2 + 1];
      }
    }
  }

  /** The dial target: the parsed host on port 22. */
  function DialAddress(host: string): (addr: string)
    ensures |addr| == |host| + 3 && addr[..|host|] == host && addr[|host|..] == ":22"
  {
    host + ":22"
  }

  /** The calls `NewConnection` makes after the parse, in order. */
  function ConnectionSteps(a: RemoteAddress): (steps: seq<Step>)
    ensures |steps| == 5 && steps[0] == GetHostKey(a.host)
    ensures steps[4] == Dial(a.host + ":22", a.user)
    ensures forall i :: 0 <= i < 4 ==> !steps[i].Dial?
    ensures forall i :: 0 <= i < 5 ==> !steps[i].NewSession? && !steps[i].Probe?
  {
    [GetHostKey(a.host), CurrentUser, ReadIdentity, ParsePrivateKey, Dial(DialAddress(a.host), a.user)]
  }

  /** The value a successful `NewConnection` returns. */
  datatype Established = Established(client: Client, directory: string)

  datatype Attempt = Attempt(calls: seq<Step>, result: Result<Established>)

  /** What `NewConnection(remote)` does, as a value. */
  function Connect(remote: string, outcome: Step -> Option<Error>, quote: string -> string): (c: Attempt)
    ensures c.calls == [] <==> ParseRemote(remote).Err?
    ensures ParseRemote(remote).Err? ==> c.result == Err(ErrInvalidRemote)
    ensures c.result.Ok? ==> c.calls == ConnectionSteps(ParseRemote(remote).value)
  {
    match ParseRemote(remote)
    case Err(e) => Attempt([], Err(e))
    case Ok(a) =>
      var run := Perform(ConnectionSteps(a), outcome, quote);
      if run.failure.Some? then Attempt(run.calls, Err(run.failure.value))
      else Attempt(run.calls, Ok(Established(Client(DialAddress(a.host), a.user), a.directory)))
  }

  /** A malformed remote is rejected with ErrInvalidRemote before known_hosts
      is loaded and before any identity or network call is made. */
  lemma MalformedRemoteMakesNoCall(remote: string, outcome: Step -> Option<Error>, quote: string -> string)
    requires ParseRemote(remote).Err?
    ensures Connect(remote, outcome, quote) == Attempt([], Err(ErrInvalidRemote))
  {
  }

  /** Every call comes after a successful parse and known_hosts is loaded
      first; a dial, if made, is the last call, goes to host:22 as
      the parsed user, and is made only after the four local steps succeeded. */
  lemma ConnectCallOrder(remote: string, outcome: Step -> Option<Error>, quote: string -> string)
    ensures var c := Connect(remote, outcome, quote);
      && (c.calls != [] ==> ParseRemote(remote).Ok? && c.calls[0] == GetHostKey(ParseRemote(remote).value.host))
      && (forall i :: 0 <= i < |c.calls| && c.calls[i].Dial? ==>
            var a := ParseRemote(remote).value;
            && i == 4 && c.calls[i] == Dial(a.host + ":22", a.user)
            && AllSucceed(c.calls[..4], outcome))
  {
    var c := Connect(remote, outcome, quote);
    if ParseRemote(remote).Ok? {
      var a := ParseRemote(remote).value;
      var steps := ConnectionSteps(a);
      var run := Perform(steps, outcome, quote);
      assert c.calls == run.calls;
      forall i | 0 <= i < |c.calls| && c.calls[i].Dial?
        ensures i == 4 && c.calls[i] == Dial(a.host + ":22", a.user) && AllSucceed(c.calls[..4], outcome)
      {
        assert c.calls[i] == steps[i];
        assert i == 4;
        if run.failure.Some? {
          assert c.calls[..4] == run.calls[..|run.calls| - 1];
        }
      }
    }
  }

  /** The connection is established exactly when the remote parses and every
      call succeeds; the client is then the dial to host:22 as the user and
      the directory is the parsed one. */
  lemma ConnectSucceedsIff(remote: string, outcome: Step -> Option<Error>, quote: string -> string)
    ensures var c := Connect(remote, outcome, quote);
      c.result.Ok? <==> ParseRemote(remote).Ok? && AllSucceed(ConnectionSteps(ParseRemote(remote).value), outcome)
    ensures var c := Connect(remote, outcome, quote);
      c.result.Ok? ==>
        var a := ParseRemote(remote).value;
        c.result.value == Established(Client(a.host + ":22", a.user), a.directory) && |c.calls| == 5
  {
  }

  /** A chain that stops at call `k` made the calls up to and including
      `k`, and returns that call's error. */
  lemma PerformStopsAt(steps: seq<Step>, k: nat, outcome: Step -> Option<Error>, quote: string -> string)
    requires k < |steps|
    requires forall i :: 0 <= i < k ==> outcome(steps[i]).None?
    requires outcome(steps[k]).Some?
    ensures Perform(steps, outcome, quote) ==
      Trace(steps[..k + 1], Some(StepError(steps[k], outcome(steps[k]).value, quote)))
  {
    FirstFailureIs(steps, k, outcome);
  }

  /** `Connection`: the client and the remote directory to mount. */
  class Connection {
    var client: Option<Client>
    var directory: string

    /** `&Connection{}`: no client yet, empty directory. */
    constructor ()
      ensures client == None && directory == ""
    {
      client := None;
      directory := "";
    }
  }

  /** The external calls of `NewConnection` after the parse: the host-key
      callback, the current user, reading and parsing the identity, and the
      dial to port 22; the first failure ends the chain. */
  method Establish(host: string, remoteUser: string, outcome: Step -> Option<Error>, quote: string -> string)
    returns (client: Option<Client>, err: Option<Error>, calls: seq<Step>)
    ensures var run := Perform(ConnectionSteps(RemoteAddress(remoteUser, host, "")), outcome, quote);
      && calls == run.calls && err == run.failure
      && (err.None? ==> client == Some(Client(host + ":22", remoteUser)))
      && (err.Some? ==> client == None)
  {
    ghost var steps := ConnectionSteps(RemoteAddress(remoteUser, host, ""));
    client := None;
    calls := [GetHostKey(host)];
    var failure := outcome(GetHostKey(host));
    if failure.Some? {
      assert calls == steps[..1];
      PerformStopsAt(steps, 0, outcome, quote);
      return client, failure, calls;
    }
    calls := calls + [CurrentUser];
    failure := outcome(CurrentUser);
    if failure.Some? {
      assert calls == steps[..2];
      PerformStopsAt(steps, 1, outcome, quote);
      return client, failure, calls;
    }
    calls := calls + [ReadIdentity];
    failure := outcome(ReadIdentity);
    if failure.Some? {
      assert calls == steps[..3];
      PerformStopsAt(steps, 2, outcome, quote);
      return client, Some(Wrapped("unable to read private key: ", failure.value)), calls;
    }
    calls := calls + [ParsePrivateKey];
    failure := outcome(ParsePrivateKey);
    if failure.Some? {
      assert calls == steps[..4];
      PerformStopsAt(steps, 3, outcome, quote);
      return client, Some(Wrapped("unable to parse private key: ", failure.value)), calls;
    }
    var address := host + ":22";
    calls := calls + [Dial(address, remoteUser)];
    failure := outcome(Dial(address, remoteUser));
    if failure.Some? {
      assert calls == steps[..5];
      PerformStopsAt(steps, 4, outcome, quote);
      return client, Some(Wrapped("unable to connect to " + quote(address) + ": ", failure.value)), calls;
    }
    assert calls == steps;
    return Some(Client(address, remoteUser)), None, calls;
  }

  /** `NewConnection(remote)`: the parse (ParseRemote), then the chain of
      external calls, filling in the fields of a fresh Connection; that object
      is returned only when every call succeeded. */
  method NewConnection(remote: string, outcome: Step -> Option<Error>, quote: string -> string)
    returns (connection: Connection?, err: Option<Error>, calls: seq<Step>)
    ensures var spec := Connect(remote, outcome, quote);
      && calls == spec.calls
      && (spec.result.Err? ==> connection == null && err == Some(spec.result.error))
      && (spec.result.Ok? ==>
            && err == None && connection != null && fresh(connection)
            && connection.client == Some(spec.result.value.client)
            && connection.directory == spec.result.value.directory)
  {
    var parsed := ParseRemote(remote);
    if parsed.Err? {
      return null, Some(parsed.error), [];
    }
    var a := parsed.value;
    assert ConnectionSteps(RemoteAddress(a.user, a.host, "")) == ConnectionSteps(a);
    connection := new Connection();
    connection.directory := a.directory;
    var client;
    client, err, calls := Establish(a.host, a.user, outcome, quote);
    if err.Some? {
      return null, err, calls;
    }
    connection.client := client;
  }
}
