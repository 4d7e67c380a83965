# honeyshell: a verified model of the simulated shell

honeyshell is an SSH honeypot. A client that logs in gets a fake shell. Its commands come
from plugins, and it runs over an in-memory filesystem decoded from JSON. This project models
the parts of that shell that make decisions:

- **The simulated filesystem** (`VFS`) covers:
  - the tree of nodes;
  - lookup of a textual path against the working and home directories, including the rewrite
    of the login name's home into the template home `/home/{}`;
  - the permission check `CanAccess`;
  - the three operations that change the tree: `Mkdir`, `Rmfile` and `WriteFile`.
- **The argument parser** (`CmdArgs`) that plugin commands receive.
- **The command registry**: a plugin's `Config`, and the `PluginManager` that merges the plugins'
  commands and collects their password interceptors.
- **The session**: its working directory, the terminal it writes to, and the tab-completion
  callback.
- **The server's decisions**:
  - which logins are accepted;
  - which channels are served;
  - what the shell loop does with one line of input.
- **`escape`** from the C part of the server.

Go's `path/filepath` (`Clean`, `Join`, `Dir`, `Base`) and the needed parts of `strings` are
defined over lists of path elements in module `Paths`, with their properties proved.

## How the model maps onto the source

| module | file | form |
|---|---|---|
| `Wrappers` | (shared) | `Option` and `Result` |
| `Paths` | Go's `filepath` and `strings` | functions and lemmas |
| `VfsNode` | plugin/vfs.go (nodes) | `Node` datatype; `findFile` as `FindIn`; `CanAccess` and `ForEach` as methods with loops |
| `Vfs` | plugin/vfs.go (`VFS`) | class `VFS` with fields `root`, `home`, `pwd`, `user` |
| `CmdArgsModel` | plugin/cmd_args.go | class `CmdArgs` with fields `rawArgs`, `argMap` |
| `PluginConfig` | plugin/config.go | class `Config` with field `commandCallbacks` |
| `Manager` | plugin/manager.go | class `PluginManager` with fields `plugins`, `passwordPlugins`, `commandMap` |
| `Sessions` | plugin/session.go | classes `Session` and `Terminal` |
| `SshServer` | core/ssh_server.go | functions for the line step; methods for the two loops |
| `Honeyshell` | honeyshell.c | `escape` over an array buffer |

### Go semantics the model keeps

- **Nil maps:** a nil map (`files == None`, `commandCallbacks == None`) reads as empty. Writing
  to one panics; the model returns that as `NilMapWrite`, or as `panicked` in
  `Config.RegisterCommand`.
- **Shared child maps:** a node's child map is a shared reference. A store through the node
  that `FindFile` returns is therefore seen from the root, so `Mkdir`, `Rmfile` and `WriteFile`
  are functional updates at the parent's key path (`UpdateAt`).
- **Panics in `CmdArgs.Parse`:** an index out of range is a `panicked` outcome. In the shell
  loop it is the `Crash` outcome, because nothing recovers it.
- **Bit widths:** `os.FileMode` is `bv32`. `CanAccess` reads it through the same 32-slot
  buffer and write index as the source.

## Model

| member | source | states |
|---|---|---|
| `Paths.JoinSplit` | plugin/vfs.go:171 | joining the pieces of `strings.Split` with the separator gives back the string |
| `Paths.SplitJoin` | plugin/vfs.go:171 | splitting a join of separator-free pieces gives back the pieces |
| `Paths.TrimEmptyIff` | plugin/cmd_args.go:15-19 | `strings.Trim(s, c)` is empty exactly when `s` is made only of `c` |
| `Paths.TrimShape` | plugin/cmd_args.go:15 | `Trim` removes a run of `c` from each end and leaves a result that neither starts nor ends with `c` |
| `Paths.ReplaceFirstAt` | plugin/vfs.go:168 | `strings.Replace(s, pat, rep, 1)` replaces exactly the first occurrence |
| `Paths.ReplaceFirstAbsent` | plugin/vfs.go:155 | with no occurrence, `Replace` changes nothing |
| `Paths.SplitFirst` | core/ssh_server.go:235-236 | `SplitN(s, sep, 2)`: one piece when `sep` is absent, else the text before the first `sep` and the rest |
| `Paths.CleanRooted` | plugin/vfs.go:157-163 | `Clean` of a rooted path is `/` followed by normal elements only, with no `..` left |
| `Paths.CleanIdempotent` | plugin/vfs.go:157-163 | `Clean(Clean(p)) == Clean(p)` |
| `Paths.CleanNormalRelative` | plugin/vfs.go:56 | a `/`-join of normal elements is already clean |
| `Paths.CleanRootedNormal` | plugin/vfs.go:52-56 | `Join("/", p)` of normal elements puts a single `/` in front |
| `VfsNode.FindInSucceedsIff` | plugin/vfs.go:37-61 | `findFile` succeeds exactly when every step names a child of a `T_DIR` node under its own name, and it returns the node those keys reach |
| `VfsNode.FindInFailure` | plugin/vfs.go:41-60 | "file not a directory" means the descent reached a non-directory with segments left; "file not found" means a missing or misnamed child; no other error occurs |
| `VfsNode.FindInPathFromRoot` | plugin/vfs.go:52-56 | a successful lookup from the root along normal elements returns `/` followed by the elements joined with `/` |
| `VfsNode.FindInPathBelow` | plugin/vfs.go:56 | below the root, the returned path is the node's name and the elements joined with `/` |
| `VfsNode.CanAccess` | plugin/vfs.go:63-109 | the loops over the 13 type bits and the 9 permission bits fill the buffer exactly as `AccessOf` reads it, and the owner, group and other branches pick entries 1-3, 4-6 and 7-9 |
| `VfsNode.MarkTypeBits` | plugin/vfs.go:64-78 | the type-bit loop writes one `true` per set bit among bits 31 to 19, then a `false` when none was set, and returns the write index `PermStart` |
| `VfsNode.MarkPermBits` | plugin/vfs.go:80-90 | the permission loop writes bits 8 down to 0 after the type entries and advances the index by nine |
| `VfsNode.AccessAligned` | plugin/vfs.go:68-106 | with at most one type bit set, `CanAccess` is the POSIX owner, else group, else other triple, owner first |
| `VfsNode.AccessMisaligned` | plugin/vfs.go:67-106 | with two type bits set (directory and sticky, mode 0o755), a stranger gets `rw-` where POSIX gives `r-x` |
| `VfsNode.AccessExample` | plugin/vfs.go:94-106 | mode 0o640 owned by alice:staff: alice `rw-`, staff `r--`, others `---` |
| `VfsNode.ForEach` | plugin/vfs.go:111-123 | a file gets one call with index 0; a directory gets one call per child, each once, with indices 0, 1, 2, ... |
| `VfsNode.StoreChild` | plugin/vfs.go:222 | storing into the parent's child map (also at line 309 for `WriteFile`) makes the new child reachable, adds exactly that key, and changes no sibling and no unrelated path |
| `VfsNode.DeleteChild` | plugin/vfs.go:258 | deleting from the parent's child map makes the child unreachable, removes exactly that key, and changes no sibling and no unrelated path |
| `VfsNode.UpdateAtFrame` | plugin/vfs.go:222 | a store at one key path (also the stores at lines 258 and 309) is not seen on any path off the way to it |
| `VfsNode.UpdateAtKeepsAbove` | plugin/vfs.go:222 | a store at one key path (also those at lines 258 and 309) keeps every node above it but for its child map, whose keys stay the same |
| `VfsNode.UpdateAtWalk` | plugin/vfs.go:37-61 | replacing the node at the end of a legal descent by one of the same name keeps the root's name and the descent legal |
| `Vfs.FindFileLocates` | plugin/vfs.go:144-174 | `FindFile` succeeds exactly when the path resolves to `/` or the descent along its elements is legal; the node returned is the node at those keys |
| `Vfs.FindFileRoot` | plugin/vfs.go:145-166 | `""` and `"/"` give `"/"` and the root, whatever the working directory |
| `Vfs.ResolveHome` | plugin/vfs.go:151-153 | `~`, `~/` and `~/.` resolve to the home directory |
| `Vfs.ResolveTilde` | plugin/vfs.go:154-155 | `~/x` resolves to `Join(home, x)` |
| `Vfs.ResolveRelative` | plugin/vfs.go:136-163 | `.`, `./`, `..`-prefixed and other relative paths are joined with the working directory (`.` and `./` are the working directory itself) |
| `Vfs.ResolveAbsolute` | plugin/vfs.go:161-171 | an absolute path is looked up as written, neither joined nor cleaned |
| `Vfs.ResolveRelativeStaysUnderRoot` | plugin/vfs.go:157-163 | from a rooted working directory, a relative path resolves to `/` and normal elements: `..` never climbs above `/` |
| `Vfs.ClimbAboveRoot` | plugin/vfs.go:159-160 | from `/a/b`, `../../../x/y` joins to `/x/y` |
| `Vfs.TestClimb` | plugin/vfs_test.go:98-106 | from `/home/{}`, `../../../etc/hostname` resolves to `/etc/hostname` |
| `Vfs.FindFileHomeAlias` | plugin/vfs.go:167-168 | `/home/<login>` followed by anything looks up the same node as `/home/{}` followed by the same |
| `Vfs.FindFileTildeIsLoginHome` | plugin/vfs.go:151-168 | with home `/home/{}`, `~` and `/home/<login>` are the same lookup |
| `Vfs.HomeRewriteIsTextual` | plugin/vfs.go:167-168 | the rewrite is a text-prefix test: for login `bo`, `/home/bob` becomes `/home/{}b` |
| `Vfs.FindFileCanonicalPath` | plugin/vfs.go:171-173 | a lookup of `/` and normal elements returns that same path |
| `Vfs.FindAfterUpdate` | plugin/vfs.go:144-174 | after the node a lookup finds is replaced by one of the same name, the same lookup finds the replacement |
| `Vfs.TestDescent` | plugin/vfs_test.go:24-32 | the tests' tree: `findFile` along `etc`, `issue` returns `/etc/issue` and that file |
| `Vfs.TestAbsoluteLookup` | plugin/vfs_test.go:24-36 | the tests' tree: `FindFile("/etc/issue")` returns `/etc/issue` and the file holding "Ubuntu 22.04" |
| `Vfs.VFS.Mkdir` | plugin/vfs.go:176-225 | the method, with the source's early returns, leaves the result and new root of `MkdirIn` of the old root; `home`, `pwd` and `user` are unchanged |
| `Vfs.MkdirEffect` | plugin/vfs.go:176-225 | a failure leaves the tree alone. On success: the parent was a directory writable by `{}` with the base name free; the new child is an empty `T_DIR` named by the base name, with mode `(mode or 0775) \| ModeDir`, owned by `{}:{}` and timestamped `now`. Nothing else changes: the parent keeps its fields and other children, the nodes above it keep all but their child maps (`KeptAbove`), and paths off the way are untouched |
| `Vfs.MkdirOutcome` | plugin/vfs.go:177-222 | the failures come in the source's order: the parent's lookup error, then "No such file or directory" for a non-directory, then "Permission denied", then "already exists"; it succeeds exactly when all checks pass and the child map is not nil |
| `Vfs.MkdirTwice` | plugin/vfs.go:176-225 | a second `Mkdir` of a path the first one created fails with "already exists", whatever its mode and time |
| `Vfs.VFS.Rmfile` | plugin/vfs.go:227-261 | the method, with the source's early returns, leaves the result and new root of `RmfileIn` of the old root; the other fields are unchanged |
| `Vfs.RmfileEffect` | plugin/vfs.go:227-261 | a failure leaves the tree alone. On success: the target existed and `{}` could write the target itself (not its parent); exactly that key is gone, even for a non-empty directory. Nothing else changes: the parent keeps its fields and other children, the nodes above it keep all but their child maps, and paths off the way are untouched |
| `Vfs.RmfileOutcome` | plugin/vfs.go:228-258 | the failures come in the source's order: the parent's lookup error, then "no such file or directory" for an absent base name, then "permission denied" for a child `{}` may not write; it succeeds exactly when the checks pass |
| `Vfs.VFS.WriteFile` | plugin/vfs.go:263-312 | the method, with the source's early returns, leaves the result and new root of `WriteFileIn` of the old root; the other fields are unchanged |
| `Vfs.WriteFileEffect` | plugin/vfs.go:263-312 | a failure leaves the tree alone. On success: the parent was writable by `{}`; an existing non-directory writable by `{}` changes only its contents; otherwise a new 0664 `T_FILE` owned by `{}:{}` appears. Nothing else changes: the parent keeps its fields and other children, the nodes above it keep all but their child maps, and paths off the way are untouched |
| `Vfs.WriteFileOutcome` | plugin/vfs.go:264-309 | the failures come in the source's order: the parent's lookup error, then "permission denied" for the parent, then "file is a directory", then "permission denied" for an existing child; it succeeds exactly when all checks pass and the child map is not nil |
| `CmdArgsModel.CmdArgs.Parse` | plugin/cmd_args.go:10-45 | the loop rebuilds `argMap` from scratch as `ParseArgs(rawArgs)`, so parsing again gives the same map; it panics exactly when `ParseArgs` has no result |
| `CmdArgsModel.ParsePanicsIff` | plugin/cmd_args.go:21-32 | the parse panics exactly when some word is a lone `-` or an option followed by an empty word |
| `CmdArgsModel.ParseKeys` | plugin/cmd_args.go:12-43 | the keys are exactly those the words set (an option's trimmed key, a short option's letters, `raw`); every value but `raw`'s is `true` |
| `CmdArgsModel.ParseRawIsLastBare` | plugin/cmd_args.go:41-43 | a word under `raw` is the last bare word; a word after an option is not consumed |
| `CmdArgsModel.ParseRawHoldsLastBare` | plugin/cmd_args.go:41-43 | conversely, a bare word that no later bare word or `raw` option overrides is the value under `raw` |
| `CmdArgsModel.AddRunesKeys` | plugin/cmd_args.go:38-40 | the cluster loop sets each character of the key, as a one-character key, to `true`, and nothing else |
| `CmdArgsModel.ParseShortCluster` | plugin/cmd_args.go:29-43 | `-la /tmp` gives `la`, `l`, `a` as `true` and `raw` as `/tmp` |
| `CmdArgsModel.ParseDropsOptionValue` | plugin/cmd_args.go:21-43 | `--name value` gives `name` as `true` (the value written at line 25 is overwritten) and `raw` as `value` |
| `CmdArgsModel.TrailingSpacePanics` | plugin/cmd_args.go:29-32 | `-l ` (trailing space) panics |
| `CmdArgsModel.ParseFixedAgrees` | plugin/cmd_args.go:10-45 | the guarded parse never panics, and it agrees with the parse as written wherever that does not panic |
| `CmdArgsModel.TrailingSpaceFixed` | plugin/cmd_args.go:29-40 | the guarded parse of `-l ` sets `l` |
| `CmdArgsModel.CmdArgs.Get` | plugin/cmd_args.go:47-53 | the stored value for a present key, nil otherwise (also before any `Parse`) |
| `CmdArgsModel.CmdArgs.ForEach` | plugin/cmd_args.go:55-59 | one callback per entry, each key once, with its value |
| `PluginConfig.Config.Init` | plugin/config.go:13-15 | the command map becomes an empty map |
| `PluginConfig.Config.RegisterCommand` | plugin/config.go:17-27 | a nil handler returns false and changes nothing. Otherwise it returns true, sets `cmd` to the handler (overwriting), and changes no other key. Before `Init` the map is nil and the write panics |
| `Manager.PluginManager.LoadPlugins` | plugin/manager.go:12-41 | the plugin list is the scan's result, and both collections are reset before the scan error is returned. Plugins are initialised in order and the first `Init` error is returned. The password plugins and the command map are then those of the plugins before that failure, and no later plugin is merged |
| `Manager.PluginManager.Install` | plugin/manager.go:29-37 | one loop turn: the plugin joins the password plugins if it has an interceptor, and its commands are merged in over the map |
| `Manager.CopyCommands` | plugin/manager.go:34-36 | the copy loop yields the union of the maps, the plugin's handler winning on a shared name |
| `Manager.InterceptingIsOrderedFilter` | plugin/manager.go:22-31 | the password plugins are the in-order subsequence of the plugins with an interceptor, and every such plugin is among them |
| `Manager.MergedCommandsLastWins` | plugin/manager.go:33-37 | a command is in the merged map exactly when some plugin registered it, and it maps to the handler of the last plugin that did |
| `Manager.MergeExample` | plugin/manager.go:22-37 | two plugins that both register `ls`: the later handler is kept, and only the plugin with an interceptor is a password plugin |
| `Manager.PluginManager.GetCommand` | plugin/manager.go:43-49 | a handler exactly when the name is a key, and then the stored one; nothing changes |
| `Manager.PluginManager.GetPasswordIntercepts` | plugin/manager.go:51-53 | every plugin returned has an interceptor |
| `Sessions.Session.Chdir` | plugin/session.go:35-38 | the session's and the filesystem's working directories both become the argument, unchecked; nothing else changes |
| `Sessions.ChdirThenFind` | plugin/session.go:35-42 | after `Chdir(p)`, `GetPWD` returns `p` and the filesystem resolves paths against `p` |
| `Sessions.Session.TermWrite` | plugin/session.go:29-33 | one terminal write per argument, in order |
| `Sessions.Session.AutoCompleteCallback` | plugin/session.go:15-27 | `line` and `pos` come back unchanged with `ok` false. On a tab the matches are written, then `"\n"`; any other key writes nothing |
| `SshServer.PasswordChecker` | core/ssh_server.go:105-113 | with no plugin manager, refused. Otherwise accepted exactly when some password plugin says yes: the plugins are asked in order and asking stops at the first yes. Refused with "incorrect password" when none does |
| `SshServer.FirstAccepting` | core/ssh_server.go:106-110 | the index of the first plugin whose interceptor says yes, or none when no plugin says yes |
| `SshServer.PublicKeyChecker` | core/ssh_server.go:145 | every public key is refused with "unknown public key" for the user |
| `SshServer.FilterChannels` | core/ssh_server.go:173-177 | channels of type `session` are accepted and all others rejected, in arrival order |
| `SshServer.DispatchSkipIff` | core/ssh_server.go:231-269 | a line is skipped exactly when it is all spaces. The prompt is recomputed after every other line whose arguments parse |
| `SshServer.DispatchCrashIff` | core/ssh_server.go:235-247 | the server dies exactly when the text after the first space makes `Parse` panic; a line with no space is never parsed |
| `SshServer.DispatchNotFound` | core/ssh_server.go:249-264 | a known command runs its handler. An unknown one gets `<line>: No such file or directory` when the rewritten command starts with `/`, else `<line>: command not found` |
| `SshServer.DotCommandIsRooted` | core/ssh_server.go:239-242 | under a rooted working directory, a `.`-command becomes a rooted path |
| `SshServer.TrailingSpaceCrashes` | core/ssh_server.go:244-247 | the line `ls -l ` crashes the server, whatever the command map |
| `Honeyshell.Piece` | honeyshell.c:11-16 | `\` becomes `\\`, `"` becomes `\"`, any other character is copied |
| `Honeyshell.Escaped` | honeyshell.c:10-18 | the output length is the input length plus the number of `\` and `"` |
| `Honeyshell.UnescapeEscaped` | honeyshell.c:10-18 | unescaping the output gives back the input |
| `Honeyshell.EscapedPlain` | honeyshell.c:15-16 | text with nothing to escape is copied unchanged, in order |
| `Honeyshell.EscapeInto` | honeyshell.c:7-18 | over a zeroed buffer, the appends produce the escaped text followed by NULs. They overflow exactly when the input is non-empty and text plus terminator exceed the buffer |
| `Honeyshell.Fill` | honeyshell.c:10-18 | the loop over the input keeps the buffer holding the escaped prefix followed by NULs; it stops exactly when the next piece and terminator would not fit, which happens exactly when the whole escaped text does not fit |
| `Honeyshell.Escape` | honeyshell.c:6-21 | with the `2 * strlen` buffer, it overflows exactly when the input is non-empty and every character needs escaping. The terminator fits exactly when some character needs no escaping, so the empty input gives a zero-length buffer with no NUL, without overflowing |
| `Honeyshell.QuoteOverflows` | honeyshell.c:7-8 | the input `"` needs three characters with the terminator but gets two; the empty input needs one and gets none |
| `Honeyshell.EscapeFixed` | honeyshell.c:6-21 | with a `2 * strlen + 1` buffer, the result is always the escaped text and a NUL |

## Findings

| source | as written | input that shows it | evidently intended | confidence | as-written member | corrected member |
|---|---|---|---|---|---|---|
| plugin/cmd_args.go:21-32 | `part[1]` and `parts[i+1][0]` are read without checking the lengths | `-l ` (a trailing space), `a  -b` followed by a double space, or a lone `-`: index out of range, and through core/ssh_server.go:244-247 the panic ends the server | a lone `-` is a bare word, and an empty next word is no value | high (not executed) | `CmdArgsModel.TrailingSpacePanics` | `CmdArgsModel.ParseFixedAgrees` |
| honeyshell.c:7-8 | `malloc(strlen(str) * 2)` | the one-character string `"`: the escaped `\"` and its terminator need 3 bytes, 2 are allocated. The empty string (an empty password, passed at honeyshell.c:72): 0 bytes are allocated and no NUL is written, so the `%s` there reads past the buffer | room for the terminator, `2 * strlen(str) + 1` | high (not executed) | `Honeyshell.QuoteOverflows` | `Honeyshell.EscapeFixed` |

The corrected parse is `CmdArgsModel.ParseFixed`. `CmdArgs.Parse` and the shell-loop step
keep the parse as written, because that is what the server runs. `Honeyshell.Escape` keeps
the buffer as written.

## Left out

- `ReadVFSJSONFile` (plugin/vfs.go:315-329) and the JSON decoding of the tree: the tree is a given `Node` value.
- `StrMode`: a wrapper around `os.FileMode.String`.
- `time.Now()` in `Mkdir` and `WriteFile`: a `now` parameter.
- `VFS.User` being nil: the model always has a user. The source would dereference nil at plugin/vfs.go:167.
- Mkdir, Rmfile and WriteFile check permissions as `{}:{}`. plugin/vfs.go:189 compares the user's name with a copy of itself, so the model uses `{}:{}` directly (`Vfs.Placeholder`).
- Error messages are constructors of `VfsError` that carry the path where the source prints it. Go's `%q` and `‘%s‘` formatting is not modelled.
- `Plugin.Init`, the Lua runtime and `plugin.go`'s other members: a plugin carries the outcome of its `Init` (an error, or its command map and optional interceptor).
- Directory scanning (`plugin/utils.go`): `LoadPlugins` receives the scan's list and error.
- Handlers and interceptors are uninterpreted values (`CommandFn`, `Interceptor`). An interceptor's answer is the parameter `ask`; the client's IP address is not passed.
- `MatchCommand` is not declared in the plugin package: `AutoCompleteCallback` receives it as a parameter.
- The terminal is the sequence of its writes. Line editing, `ReadLine` and `SetPrompt` are not modelled; the prompt plugin is abstract.
- The shell loop itself is left out: the goroutine, reading lines, and running a handler, which is plugin code. `DispatchLine` models one iteration's decision, and running a handler is the `Run` outcome.
- A failed `Accept` of a session channel (core/ssh_server.go:179-183) calls `log.Fatalf`, which ends the process; `FilterChannels` treats every accept as successful.
- The session set-up at core/ssh_server.go:180-220 is left out: the shallow copy of the filesystem shared between connections, the login message and the database records.
- Logging, the database, SHA3 hashing, libssh callbacks, `queue.c` and the rest of `honeyshell.c`: I/O and foreign code.
- `Honeyshell.Escape`: the `sprintf(escaped, "%s%c", escaped, c)` at honeyshell.c:16 copies the buffer onto itself, which ISO C11 section 7.21.6.6 leaves undefined. It is modelled as the append it is meant to be.
- `Honeyshell.EscapeInto`: a write past the buffer's end is undefined in C. The model stops there and reports `overflow`, so it does not say what the buffer holds afterwards.
- `Honeyshell`: C's `char` is modelled as Dafny's `char`. The input has no NUL, as `strlen` requires.
