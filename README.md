# mount_sshfs in Dafny

`mount_sshfs` is a small Go command that prints the `sudo sshfs ...` command
for mounting a remote directory. It first checks its options: the root-id
wall, the local mount path, and whether the remote is reachable over SSH with
the user's `~/.ssh/id_rsa` key and contains the directory. The options come
either from flags or from a YAML configuration file.

This project models two pieces of that program and proves properties about
them.

- **The `ssh` package** (`ssh.dfy`, module `Ssh`):
  - The `user@host:dir` parse at the start of `NewConnection`: `strings.Split` on `@`, then on `:`, the two length guards, and the indexed field reads.
  - The rest of `NewConnection` as a chain of external calls that return early on failure: the known_hosts callback, the current user, reading and parsing the identity, and the dial to `host:22`.
- **The command** (`mount_sshfs.dfy`, module `MountSshfs`):
  - `validOptions` as a short-circuiting sequence of three checks.
  - `isValidRemote`: `NewConnection`, a session, then `stat %q` of the directory.
  - `ConfigError`, `readConfig`, and the config-versus-flags choice in `flags`.
  - The command template built in `main` and printed with `fmt.Printf`.

Supporting modules:

- `Errors`: Go error values. `Text` is an `errors.New` or foreign error. `Wrapped(prefix, cause)` is `fmt.Errorf("prefix%v", cause)`. `Message` is the text `%v` prints.
- `Strings`: `strings.Split` for a one-character separator, with `Join` as its inverse.
- `Fmt`: `fmt.Sprintf` with the verbs `%d` and `%s` that the command template and the remote use (`%%` is modelled as well), with decimal printing and reading back. The program's other verbs are not in `Fmt`: `%q` is the `quote` parameter, and `%v` of an error is `Errors.Message`.

Everything the program asks of the outside world is a parameter:

- An **oracle** `outcome: Step -> Option<Error>` says whether each external call fails, and with what error. A `Step` is loading known_hosts, the current user, reading the key, parsing the key, dialling, opening a session, or running the probe.
- The model returns the **sequence of calls made**, so "parsing happens before any call" and "the probe runs only after a successful connection" are proved statements about that sequence.
- `isValidPath`, reading plus YAML decoding of the configuration file, `filepath.Clean` and `%q` quoting are **uninterpreted functions**, bundled in `MountSshfs.Env`.

`Ssh.NewConnection` is a method. It fills the fields of a fresh `Connection` object one by one, as the Go code does. It is proved equal to the value-level `Ssh.Connect`. `MountSshfs.IsValidRemote` is proved equal to `MountSshfs.VerifyRemote`. `MountSshfs.EmitCommand` builds the format string with `+=` and is proved to print `MountSshfs.CommandText`.

The help text calls `-remote-host` "[username@]remote", but the parser insists on exactly one '@'. A host without a user is therefore always refused once the local checks pass, unless the cleaned directory itself contains '@' (`MountSshfs.HostWithoutUserRejected`). This is recorded as behaviour, not as a defect: the source gives no other evidence of intent.

## Model

| member | source | states |
|---|---|---|
| Ssh.ParseRemote | ssh/ssh.go:32-47 | A remote whose '@' count is not exactly one is refused with ErrInvalidRemote. Every refusal is ErrInvalidRemote. An accepted remote yields fields without '@', and host and directory without ':', that recompose to exactly the input, so user is the text before '@', host the text between '@' and ':', and directory the text after ':'. |
| Ssh.RoundTrip | ssh/ssh.go:33-47 | Parsing the composition of a user without '@' and a host and directory without '@' or ':' returns exactly those three fields. |
| Ssh.AcceptedIffOneColonAfterAt | ssh/ssh.go:37-43 | With exactly one '@', the remote is accepted if and only if the text after '@' holds exactly one ':'. |
| Ssh.ColonInDirectoryRejected | ssh/ssh.go:37-43 | A ':' inside the directory makes the remote invalid. |
| Ssh.ColonInUserAccepted | ssh/ssh.go:37 | "a:b@h:d" is accepted with user "a:b": only the text after '@' is split on ':'. |
| Ssh.EmptyFieldsAccepted | ssh/ssh.go:33-47 | "@:" is accepted with empty user, host and directory; no field is required to be non-empty. |
| Ssh.MissingDirectoryRejected | ssh/ssh.go:41-43 | "bob@host" (no ':') is refused with ErrInvalidRemote. |
| Ssh.FirstFailure | ssh/ssh.go:49-81 | The chain's first failing call: every call before it succeeds, and it fails unless the chain ran to the end. |
| Ssh.FirstFailureIs | ssh/ssh.go:49-81 | Those facts determine the first failing call uniquely. |
| Ssh.Perform | ssh/ssh.go:49-81 | An early-return chain fails if and only if some call fails. On success every call was made. On failure the calls made are a non-empty prefix: every call but the last succeeded, and the last failed. |
| Ssh.PerformAppend | cmd/mount_sshfs/main.go:76-93 | A chain followed by a second chain: the second starts only when the first ran to the end, and the calls made are the first chain's followed by the second's. |
| Ssh.DialAddress | ssh/ssh.go:77 | The dial target is the parsed host followed by ":22". |
| Ssh.MalformedRemoteMakesNoCall | ssh/ssh.go:33-43 | Both format errors are returned as ErrInvalidRemote before known_hosts is loaded and before any user, identity or network call. |
| Ssh.ConnectCallOrder | ssh/ssh.go:33-81 | The first call is always `GetHostKey` with the parsed host, which loads the known_hosts file. A dial happens only as the fifth call, to host + ":22" as the parsed user, after the four local steps all succeeded. |
| Ssh.ConnectSucceedsIff | ssh/ssh.go:32-83 | NewConnection succeeds if and only if the remote parses and every call succeeds. The connection then holds a client for host:22 as the parsed user and the parsed directory, after exactly five calls. |
| Ssh.PerformStopsAt | ssh/ssh.go:49-81 | A chain whose call k is the first to fail made exactly the calls up to and including k, and returns k's error: the host-key and current-user errors as they are, the key read, key parse and dial errors behind their prefixes. |
| Ssh.StepError | ssh/ssh.go:49-81 | The host-key, current-user, session and probe errors are returned as they are; the others are wrapped. |
| Ssh.StepErrorKeepsCause | ssh/ssh.go:59-81 | Whatever the step, the returned error's text ends with the cause's text. |
| Ssh.ConnectionSteps | ssh/ssh.go:49-78 | Five calls, `GetHostKey` with the host (loading known_hosts) first and the dial to host + ":22" as the user last. No other call is a dial, and none is a session or a probe. |
| Ssh.Connect | ssh/ssh.go:32-83 | NewConnection makes no call exactly when the remote does not parse, and then fails with ErrInvalidRemote. A successful connection made exactly the five chain calls. |
| Ssh.Establish | ssh/ssh.go:49-81 | The method makes exactly the chain's calls and returns the chain's error. On success the client is for host + ":22" as the remote user; on failure there is no client. |
| Ssh.Connection.constructor | ssh/ssh.go:44 | A fresh Connection has no client and an empty directory. |
| Ssh.NewConnection | ssh/ssh.go:32-83 | The method makes exactly Connect's calls, parsing before any of them. On failure it returns no connection and Connect's error. On success it returns no error and a freshly allocated connection whose client and directory are Connect's. |
| Strings.Split | ssh/ssh.go:33-37 | strings.Split on one character yields one more part than there are separators. No part holds the separator. Joining the parts gives back the input. |
| Strings.SplitAtFirst | ssh/ssh.go:33-37 | Splitting text whose first separator follows a separator-free prefix yields that prefix, then the split of the rest. |
| Errors.MessageEndsWithRoot | cmd/mount_sshfs/main.go:97-99 | A wrapped error's message ends with its innermost cause's message. |
| MountSshfs.ValidOptions | cmd/mount_sshfs/main.go:61-71 | Validation succeeds if and only if the root wall holds, the mount path is valid and the remote check reports no error. |
| MountSshfs.RootWallCheckedFirst | cmd/mount_sshfs/main.go:62-64 | Without root and with uid 0 OR gid 0, the result is ErrRootWallBroken, whatever the path and remote oracles answer. |
| MountSshfs.RootAcknowledged | cmd/mount_sshfs/main.go:62 | With root set, validation never fails with ErrRootWallBroken, whatever the ids. |
| MountSshfs.PathCheckedBeforeRemote | cmd/mount_sshfs/main.go:65-67 | Past the root wall, an invalid mount path gives ErrInvalidMountDirPath, whatever the remote oracle answers. |
| MountSshfs.RemoteErrorWrapped | cmd/mount_sshfs/main.go:68-70 | A remote-check failure is returned wrapped, its message prefixed with "Unable to verify remote: ". |
| MountSshfs.ConfigError | cmd/mount_sshfs/main.go:97-99 | The message is "Configuration error: " followed by the argument's message. |
| MountSshfs.MalformedRemoteNeverProbed | cmd/mount_sshfs/main.go:76-79 | A remote that does not parse is refused with ErrInvalidRemote, with no call made. |
| MountSshfs.VerifySucceedsIff | cmd/mount_sshfs/main.go:74-94 | isValidRemote succeeds if and only if the remote parses and all seven calls succeed, from loading known_hosts to the probe. |
| MountSshfs.ProbeAfterConnection | cmd/mount_sshfs/main.go:80-89 | The probe is only ever the seventh call, after all six earlier calls succeeded. It is "stat " followed by the quoted parsed directory. |
| MountSshfs.SessionUnrolled | cmd/mount_sshfs/main.go:82-93 | The session and the probe, one branch per early return, each error passed on unchanged. |
| MountSshfs.VerifyUnrolled | cmd/mount_sshfs/main.go:74-94 | isValidRemote is the connection chain, then the session, then the probe; each error is returned as it is. |
| MountSshfs.IsValidRemote | cmd/mount_sshfs/main.go:74-94 | The method's error and calls are exactly VerifyRemote's. |
| MountSshfs.ProbeCommand | cmd/mount_sshfs/main.go:88 | The probe is "stat " followed by the quoted remote directory. |
| MountSshfs.VerifySteps | cmd/mount_sshfs/main.go:76-89 | Seven calls: `GetHostKey` with the host (loading known_hosts) first, the probe of the directory last, and no earlier probe. |
| MountSshfs.VerifyRemote | cmd/mount_sshfs/main.go:74-94 | isValidRemote makes no call exactly when the remote does not parse. Otherwise its first call is `GetHostKey` with the parsed host, which loads the known_hosts file. A success made seven calls, the last the probe of the parsed directory. |
| MountSshfs.ReadConfig | cmd/mount_sshfs/main.go:46-59 | A file is accepted if and only if it loads and its options validate, and the result is then exactly the loaded options. A load error is returned unchanged. A validation error is returned unchanged. |
| MountSshfs.FlagOptions | cmd/mount_sshfs/main.go:119-127 | The remote is host + ":" + Clean(remote-dir). Every other option is the flag of the same meaning. |
| MountSshfs.ConfigOverridesFlags | cmd/mount_sshfs/main.go:111-118 | With a non-empty -config, the other flags do not affect the result. A success returns exactly the file's options, and every error carries the "Configuration error: " prefix. |
| MountSshfs.OptionsFromFlags | cmd/mount_sshfs/main.go:119-131 | Without -config, the flags are accepted if and only if the options they describe validate. The accepted remote is host + ":" + Clean(remote-dir). |
| MountSshfs.ConfigMatchesFlags | cmd/mount_sshfs/main.go:111-131 | A file holding the options the flags describe is accepted exactly when the flags are, with the same options. The file's errors are the flags' errors behind ConfigError. |
| MountSshfs.HostWithoutUserRejected | cmd/mount_sshfs/main.go:105-128 | A -remote-host without '@' (and no '@' in the cleaned directory) that passes the local checks is refused as "Unable to verify remote: Invalid remote", with no call made. |
| MountSshfs.DefaultFlagsRejected | cmd/mount_sshfs/main.go:102-130 | With every flag at its default, flags fails with ErrRootWallBroken. |
| MountSshfs.Flags | cmd/mount_sshfs/main.go:101-132 | Accepted options always pass validation. With -config, the result is accepted if and only if readConfig accepts the file; a success is the file's options, and an error is ConfigError of readConfig's error. Without -config, the result is accepted if and only if the options the flags describe validate; a success is those options, and an error is validOptions' error unchanged. |
| MountSshfs.TemplateExpands | cmd/mount_sshfs/main.go:140-153 | The assembled format has exactly one verb per argument, and prints CommandText. |
| MountSshfs.EmitCommand | cmd/mount_sshfs/main.go:140-153 | The output is "sudo sshfs \\\n\t-o idmap=user,uid=U,gid=G" with U and G in decimal, then " \\\n\t-o allow_other" for docker only, then " \\\n\t" + Remote + " \\\n\t" + MountDir + "\n". Remote and MountDir appear verbatim, even when they contain '%'. |
| MountSshfs.DockerInsertsAllowOther | cmd/mount_sshfs/main.go:142-145 | The docker command is the plain one with the allow_other line inserted after the id line, and nothing else changed. |
| MountSshfs.CommandFrame | cmd/mount_sshfs/main.go:140-149 | CommandText, the printed command, starts with the "sudo sshfs" line and the uid part of the id mapping, and ends with a line break followed by the mount directory and a newline. |
| MountSshfs.FatalShowsRootCause | cmd/mount_sshfs/main.go:136-139 | The fatal "Invalid flags: " message ends with the text of the error the failure started from, through every wrapping on the way. |
| MountSshfs.ExampleCommand | cmd/mount_sshfs/main.go:140-153 | uid and gid 1000, no docker, remote alice@example.com:/data and mount directory /mnt/data: the command is the three lines with no allow_other line. |
| MountSshfs.Run | cmd/mount_sshfs/main.go:134-153 | main prints the command for the accepted options, or stops with "Invalid flags: " followed by the error's message. |
| Fmt.DecimalRoundTrip | cmd/mount_sshfs/main.go:150-151 | %d loses nothing: reading the printed decimal back gives the integer. |
| Fmt.SprintfAppend | cmd/mount_sshfs/main.go:140-153 | Formatting distributes over concatenating formats and their argument lists. |
| Fmt.SprintfString | cmd/mount_sshfs/main.go:119 | %s copies its argument verbatim. |

## Left out

- The SSH library's behaviour (known_hosts parsing, key parsing, the TCP dial, sessions, remote `stat`) is foreign code. Each call is a `Step` whose success or error comes from the `outcome` oracle. `GetHostKey`'s own `user.Current` and `knownhosts.New` are one step.
- `Ssh.GetHostKey` takes the host but never reads it: the Go function only loads `~/.ssh/known_hosts` through `knownhosts.New`. The model lets the oracle's answer for `GetHostKey(host)` depend on the host, which is more general than the Go call. Whether the server's key is in known_hosts is checked inside `ssh.Dial` by the callback, so a host-key rejection is part of the `Dial` step's outcome.
- The identity path (`$HOME/.ssh/id_rsa`) is not modelled: reading the key is one step whose outcome the oracle gives.
- `isValidPath` creates and removes files. It is the `isValidPath` parameter of `Env`.
- Reading the configuration file and YAML decoding are the `loadConfig` parameter of `Env`. A YAML document that decodes to no value makes `validOptions` read the fields of a nil `*sshfs`; that crash is not modelled.
- The `flag` package is not modelled: `FlagValues` holds the values after `flag.Parse`, and `DefaultFlags` the declared defaults.
- `filepath.Clean` and `%q` are the uninterpreted `clean` and `quote` parameters.
- Log output, the `debug` switch, wiring the session's output to stderr, and `defer connection.Client.Close()` have no functional content and are left out. So are the newline and exit status of `log.Fatalf`; `Exit.Fatal` carries the message only.
- Go's `int` is 64 bits wide; uid and gid are unbounded integers here. Only their decimal printing matters, and it is exact for every integer.
- `Errors.Root` (the innermost error of a wrapping) exists only in the model's representation of errors: Go's `fmt.Errorf` with `%v` keeps only the text, so `errors.Unwrap` returns nil. The Go-level facts are `Errors.MessageEndsWithRoot`, which is about the message text, and `MountSshfs.FatalShowsRootCause`, which applies it to the fatal message of `main`.
- The SSH client object itself is not modelled. `Connection.client` holds the dial address and user it was made with.
