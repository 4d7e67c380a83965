/**
  The simulated filesystem that a session sees (plugin/vfs.go, `VFS`): path resolution relative
  to the working directory and the home directory, lookup from the root, and the three
  operations that change the tree, `Mkdir`, `Rmfile` and `WriteFile`.

  The fake user owns the template home directory `/home/{}`: the login name is rewritten to
  `{}` in looked-up paths, and every permission check of a change is made for the user `{}`
  of group `{}`.
*/
module Vfs {
  import opened Wrappers
  import opened Paths
  import opened VfsNode

  /** The identity that `Mkdir`, `Rmfile` and `WriteFile` check permissions for, whoever is logged in. */
  const Placeholder: User := User("{}", "{}")

  /** `0775`, the mode `Mkdir` uses when it is given 0. */
  const DefaultDirMode: bv32 := 0x1FD

  /** `0664`, the mode of a file created by `WriteFile`. */
  const NewFileMode: bv32 := 0x1B4

  // ---------------------------------------------------------------------------------------
  // Path resolution
  // ---------------------------------------------------------------------------------------

  /** `resolveDotPath`: `.` and `./` are the working directory, anything else is joined to it. */
  function ResolveDotPath(pwd: string, path: string): string
  {
    if path == "." || path == "./" then pwd else Join(pwd, path)
  }

  /** The first step of `FindFile`: an empty path is `/`, and one trailing `/` is dropped from a path longer than two. */
  function TrimPath(path: string): string
  {
    if path == "" then "/"
    else if |path| > 2 && EndsInSlash(path) then path[..|path| - 1]
    else path
  }

  /**
    The absolute path `FindFile` goes on to look up: `~` forms are taken relative to the home
    directory, `.`, `..` and other relative forms relative to the working directory, and an
    absolute path is kept as written.
  */
  function ResolvePath(path: string, home: string, pwd: string): string
  {
    var p := TrimPath(path);
    if "~" <= p then
      if p == "~" || p == "~/" || p == "~/." then home
      else Join(home, ReplaceFirst(p, "~/", ""))
    else if p == "." || "./" <= p then ResolveDotPath(pwd, p)
    else if p == ".." || "../" <= p then Join(pwd, p)
    else if !("/" <= p) then Join(pwd, p)
    else p
  }

  /** The rewrite of a resolved path that starts with `/home/` and the login name into the template home `/home/{}`. */
  function HomeRewrite(p: string, username: string): string
  {
    var loginHome := "/home/" + username;
    if loginHome <= p then ReplaceFirst(p, loginHome, "/home/{}") else p
  }

  /** The child keys `FindFile` descends along from the root: none for `/`, otherwise the elements after the leading one. */
  function KeysFor(path: string, home: string, pwd: string, user: User): seq<string>
  {
    var p := ResolvePath(path, home, pwd);
    if p == "/" then [] else Split(HomeRewrite(p, user.username), '/')[1..]
  }

  /** The path ends in `/`. */
  predicate EndsInSlash(p: string)
  {
    |p| > 0 && p[|p| - 1] == '/'
  }

  /** `FindFile` on a given tree and session state. */
  function FindFileIn(root: Node, home: string, pwd: string, user: User, path: string): Result<(string, Node), VfsError>
  {
    var p := ResolvePath(path, home, pwd);
    if p == "/" then Ok(("/", root))
    else
      var parts := Split(HomeRewrite(p, user.username), '/');
      FindIn(root, parts[0], parts[1..])
  }

  // ---------------------------------------------------------------------------------------
  // The outcomes of the operations that change the tree
  // ---------------------------------------------------------------------------------------

  /** The mode of the directory `Mkdir` creates: the requested mode (0775 for 0) with `ModeDir` set. */
  function DirMode(mode: bv32): bv32
  {
    (if mode == 0 then DefaultDirMode else mode) | ModeDir
  }

  /** The directory `Mkdir` creates. */
  function NewDir(base: string, mode: bv32, now: int): Node
  {
    Node(T_DIR, base, Some(map[]), "", DirMode(mode), "{}", "{}", now, "", 0, None)
  }

  /** The file `WriteFile` creates where none exists. */
  function NewFile(base: string, contents: string, now: int): Node
  {
    Node(T_FILE, base, None, contents, NewFileMode, "{}", "{}", now, "", 0, None)
  }

  /**
    `Mkdir(path, mode)`: the lookup error of the parent directory, else "No such file or
    directory" if the parent is not a directory, else "Permission denied" if `{}` may not write
    to it, else "already exists" if it has a child under the base name; otherwise a new
    directory is stored in the parent's child map (a runtime panic if that map is nil). Returns
    the outcome and the new root.
  */
  function MkdirIn(root: Node, home: string, pwd: string, user: User, path: string, mode: bv32, now: int)
    : (Result<Node, VfsError>, Node)
  {
    match FindFileIn(root, home, pwd, user, Dir(path))
    case Err(e) => (Err(e), root)
    case Ok(found) =>
      var parent := found.1;
      var base := Base(path);
      if parent.kind != T_DIR then (Err(CannotCreateNoSuchFile(path)), root)
      else if !AccessOf(parent, Placeholder).write then (Err(CannotCreateDenied(path)), root)
      else if base in Children(parent) then (Err(AlreadyExists(path)), root)
      else if parent.files.None? then (Err(NilMapWrite), root)
      else
        var d := NewDir(base, mode, now);
        (Ok(d), UpdateAt(root, KeysFor(Dir(path), home, pwd, user), parent.(files := Some(parent.files.value[base := d]))))
  }

  /**
    `Rmfile(path)`: the lookup error of the parent directory, else "no such file or directory"
    if it has no child under the base name, else "permission denied" if `{}` may not write the
    child itself; otherwise the child is deleted from the parent's child map.
  */
  function RmfileIn(root: Node, home: string, pwd: string, user: User, path: string): (Result<(), VfsError>, Node)
  {
    match FindFileIn(root, home, pwd, user, Dir(path))
    case Err(e) => (Err(e), root)
    case Ok(found) =>
      var parent := found.1;
      var base := Base(path);
      if base !in Children(parent) then (Err(NoSuchFileOrDirectory), root)
      else if !AccessOf(Children(parent)[base], Placeholder).write then (Err(PermissionDenied), root)
      else (Ok(()), UpdateAt(root, KeysFor(Dir(path), home, pwd, user), parent.(files := Some(parent.files.value - {base}))))
  }

  /**
    `WriteFile(path, contents)`: the lookup error of the parent directory, else "permission
    denied" if `{}` may not write to it, else "file is a directory" if the child under the base
    name is a directory, else "permission denied" if `{}` may not write the child; otherwise the
    child's contents are replaced, or a new file is created, in the parent's child map (a
    runtime panic if that map is nil).
  */
  function WriteFileIn(root: Node, home: string, pwd: string, user: User, path: string, contents: string, now: int)
    : (Result<(), VfsError>, Node)
  {
    match FindFileIn(root, home, pwd, user, Dir(path))
    case Err(e) => (Err(e), root)
    case Ok(found) =>
      var parent := found.1;
      var base := Base(path);
      if !AccessOf(parent, Placeholder).write then (Err(PermissionDenied), root)
      else if base in Children(parent) && Children(parent)[base].kind == T_DIR then (Err(IsADirectory), root)
      else if base in Children(parent) && !AccessOf(Children(parent)[base], Placeholder).write then (Err(PermissionDenied), root)
      else if parent.files.None? then (Err(NilMapWrite), root)
      else
        var file := if base in Children(parent) then Children(parent)[base].(contents := contents) else NewFile(base, contents, now);
        (Ok(()), UpdateAt(root, KeysFor(Dir(path), home, pwd, user), parent.(files := Some(parent.files.value[base := file]))))
  }

  // ---------------------------------------------------------------------------------------
  // The filesystem object
  // ---------------------------------------------------------------------------------------

  class VFS {
    var root: Node
    var home: string
    /** The working directory, set by the session's `Chdir`; empty until then. */
    var pwd: string
    var user: User

    /** A filesystem as decoded from its JSON description, for a logged-in user: the working directory is still empty. */
    constructor (root: Node, home: string, user: User)
      ensures this.root == root && this.home == home && this.user == user && this.pwd == ""
    {
      this.root := root;
      this.home := home;
      this.user := user;
      this.pwd := "";
    }

    /** `FindFile(path)`: the canonical path and the node that `path` names, or the lookup error. */
    function FindFile(path: string): Result<(string, Node), VfsError>
      reads this
    {
      FindFileIn(root, home, pwd, user, path)
    }

    /** `Mkdir(path, mode)`, with `now` standing for `time.Now()`. */
    method Mkdir(path: string, mode: bv32, now: int) returns (r: Result<Node, VfsError>)
      modifies this
      ensures (r, root) == MkdirIn(old(root), home, pwd, user, path, mode, now)
      ensures home == old(home) && pwd == old(pwd) && user == old(user)
    {
      var found := FindFileIn(root, home, pwd, user, Dir(path));
      if found.Err? {
        return Err(found.error);
      }
      var file := found.value.1;
      if file.kind != T_DIR {
        return Err(CannotCreateNoSuchFile(path));
      }
      var realUser := Placeholder;
      var perms := CanAccess(file, realUser);
      if !perms.write {
        return Err(CannotCreateDenied(path));
      }
      var base := Base(path);
      if base in Children(file) {
        return Err(AlreadyExists(path));
      }
      var m := mode;
      if m == 0 {
        m := DefaultDirMode;
      }
      var newFile := Node(T_DIR, base, Some(map[]), "", m | ModeDir, "{}", "{}", now, "", 0, None);
      assert m | ModeDir == DirMode(mode);
      if file.files.None? {
        return Err(NilMapWrite);
      }
      root := UpdateAt(root, KeysFor(Dir(path), home, pwd, user), file.(files := Some(file.files.value[base := newFile])));
      r := Ok(newFile);
    }

    /** `Rmfile(path)`. */
    method Rmfile(path: string) returns (r: Result<(), VfsError>)
      modifies this
      ensures (r, root) == RmfileIn(old(root), home, pwd, user, path)
      ensures home == old(home) && pwd == old(pwd) && user == old(user)
    {
      var found := FindFileIn(root, home, pwd, user, Dir(path));
      if found.Err? {
        return Err(found.error);
      }
      var parentFolder := found.value.1;
      var realUser := Placeholder;
      var base := Base(path);
      if base !in Children(parentFolder) {
        return Err(NoSuchFileOrDirectory);
      }
      var file := Children(parentFolder)[base];
      var perms := CanAccess(file, realUser);
      if !perms.write {
        return Err(PermissionDenied);
      }
      root := UpdateAt(root, KeysFor(Dir(path), home, pwd, user),
        parentFolder.(files := Some(parentFolder.files.value - {base})));
      r := Ok(());
    }

    /** `WriteFile(path, contents)`, with `now` standing for `time.Now()`. */
    method WriteFile(path: string, contents: string, now: int) returns (r: Result<(), VfsError>)
      modifies this
      ensures (r, root) == WriteFileIn(old(root), home, pwd, user, path, contents, now)
      ensures home == old(home) && pwd == old(pwd) && user == old(user)
    {
      var found := FindFileIn(root, home, pwd, user, Dir(path));
      if found.Err? {
        return Err(found.error);
      }
      var parentFolder := found.value.1;
      var realUser := Placeholder;
      var base := Base(path);
      var perms := CanAccess(parentFolder, realUser);
      if !perms.write {
        return Err(PermissionDenied);
      }
      var ok := base in Children(parentFolder);
      if ok {
        var existing := Children(parentFolder)[base];
        if existing.kind == T_DIR {
          return Err(IsADirectory);
        }
        var existingPerms := CanAccess(existing, realUser);
        if !existingPerms.write {
          return Err(PermissionDenied);
        }
      }
      var file;
      if ok {
        file := Children(parentFolder)[base].(contents := contents);
      } else {
        file := Node(T_FILE, base, None, contents, NewFileMode, "{}", "{}", now, "", 0, None);
      }
      if parentFolder.files.None? {
        return Err(NilMapWrite);
      }
      root := UpdateAt(root, KeysFor(Dir(path), home, pwd, user),
        parentFolder.(files := Some(parentFolder.files.value[base := file])));
      r := Ok(());
    }
  }

  // ---------------------------------------------------------------------------------------
  // Lookup
  // ---------------------------------------------------------------------------------------

  /**
    A lookup succeeds exactly when the path resolves to `/`, or when its leading element is the
    root's name and every step of the descent along the remaining elements is legal; the node
    it returns is the one at those keys.
  */
  lemma FindFileLocates(root: Node, home: string, pwd: string, user: User, path: string)
    ensures var keys := KeysFor(path, home, pwd, user);
      var p := ResolvePath(path, home, pwd);
      && (FindFileIn(root, home, pwd, user, path).Ok? <==>
            p == "/" || (Split(HomeRewrite(p, user.username), '/')[0] == root.name && WalkOk(root, keys)))
      && (FindFileIn(root, home, pwd, user, path).Ok? ==>
            NodeAt(root, keys) == Some(FindFileIn(root, home, pwd, user, path).value.1))
  {
    var p := ResolvePath(path, home, pwd);
    if p != "/" {
      var parts := Split(HomeRewrite(p, user.username), '/');
      FindInSucceedsIff(root, parts[1..]);
    }
  }

  /** `""` and `"/"` name the root. */
  lemma FindFileRoot(root: Node, home: string, pwd: string, user: User)
    ensures FindFileIn(root, home, pwd, user, "") == Ok(("/", root))
    ensures FindFileIn(root, home, pwd, user, "/") == Ok(("/", root))
  {
    assert "/"[0] == '/';
    assert !("~" <= "/") && !("./" <= "/") && !("../" <= "/");
  }

  /** `~`, `~/` and `~/.` are the home directory. */
  lemma ResolveHome(home: string, pwd: string)
    ensures ResolvePath("~", home, pwd) == home
    ensures ResolvePath("~/", home, pwd) == home
    ensures ResolvePath("~/.", home, pwd) == home
  {
    assert "~" <= "~/" && "~" <= "~/.";
  }

  /** `~/x` is `x` joined to the home directory. */
  lemma ResolveTilde(home: string, pwd: string, x: string)
    requires x != "" && x != "." && !EndsInSlash(x)
    ensures ResolvePath("~/" + x, home, pwd) == Join(home, x)
  {
    var p := "~/" + x;
    assert TrimPath(p) == p;
    assert "~" <= p && "~/" <= p;
    assert p != "~/" && p != "~/.";
    assert p[..2] == "~/" && p[2..] == x;
    assert ReplaceFirst(p, "~/", "") == "" + x == x;
  }

  /** A relative path that does not start with `~` is taken relative to the working directory. */
  lemma ResolveRelative(home: string, pwd: string, p: string)
    requires p != "" && p[0] != '/' && p[0] != '~'
    requires |p| <= 2 || !EndsInSlash(p)
    ensures ResolvePath(p, home, pwd) == if p == "." || p == "./" then pwd else Join(pwd, p)
  {
    assert TrimPath(p) == p;
    assert !("~" <= p) && !("/" <= p);
  }

  /** An absolute path is looked up as written (but for a dropped trailing `/`): it is neither joined nor cleaned. */
  lemma ResolveAbsolute(home: string, pwd: string, p: string)
    requires p != "" && p[0] == '/'
    requires |p| <= 2 || !EndsInSlash(p)
    ensures ResolvePath(p, home, pwd) == p
  {
    assert TrimPath(p) == p;
    assert !("~" <= p) && !("./" <= p) && !("../" <= p) && p != "." && p != "..";
  }

  /**
    From an absolute working directory, a relative path resolves to an absolute path of normal
    elements: however many `..` it holds, it never climbs above `/`.
  */
  lemma ResolveRelativeStaysUnderRoot(home: string, pwd: string, p: string)
    requires pwd != "" && pwd[0] == '/'
    requires p != "" && p[0] != '/' && p[0] != '~' && p != "." && p != "./"
    requires |p| <= 2 || !EndsInSlash(p)
    ensures var r := ResolvePath(p, home, pwd);
      exists segs: seq<string> :: r == "/" + JoinSegments(segs) &&
        forall i :: 0 <= i < |segs| ==> IsNormalSegment(segs[i])
  {
    ResolveRelative(home, pwd, p);
    var s := pwd + "/" + p;
    assert s[0] == '/';
    CleanRooted(s);
  }

  /** The pieces of `/a/b/../../../x/y`, cut at each `/`. */
  lemma ClimbPieces(a: string, b: string, x: string, y: string)
    ensures JoinWith(["", a, b, "..", "..", "..", x, y], '/') ==
      ("/" + a + "/" + b) + "/" + ("../../../" + x + "/" + y)
  {
    var parts := ["", a, b, "..", "..", "..", x, y];
    var j6 := x + "/" + y;
    var j3 := ".." + "/" + (".." + "/" + (".." + "/" + j6));
    assert JoinWith(parts[7..], '/') == y;
    assert JoinWith(parts[6..], '/') == j6;
    assert JoinWith(parts[5..], '/') == ".." + "/" + j6;
    assert JoinWith(parts[4..], '/') == ".." + "/" + (".." + "/" + j6);
    assert JoinWith(parts[3..], '/') == j3;
    assert JoinWith(parts[2..], '/') == b + "/" + j3;
    assert JoinWith(parts[1..], '/') == a + "/" + (b + "/" + j3);
    assert "../../../" == ".." + "/" + ".." + "/" + ".." + "/";
  }

  /** `Clean`'s scan of those pieces from the root: the three `..` undo `b`, `a` and nothing. */
  lemma ClimbScan(a: string, b: string, x: string, y: string)
    requires IsNormalSegment(a) && IsNormalSegment(b) && IsNormalSegment(x) && IsNormalSegment(y)
    ensures CleanFrom([], ["", a, b, "..", "..", "..", x, y], true) == [x, y]
  {
    var up := [".."] + ([".."] + ([".."] + ([x] + [y])));
    assert [""] + ([a] + ([b] + up)) == ["", a, b, "..", "..", "..", x, y];
    ClimbDown(a, b, up);
    ClimbUp(a, b, x, y);
  }

  /** From the root, the scan of an empty element and two names stacks the names. */
  lemma ClimbDown(a: string, b: string, rest: seq<string>)
    requires IsNormalSegment(a) && IsNormalSegment(b)
    ensures CleanFrom([], [""] + ([a] + ([b] + rest)), true) == CleanFrom([a, b], rest, true)
  {
    CleanFromEmpty([], [a] + ([b] + rest), true);
    CleanFromNormal([], a, [b] + rest, true);
    assert [] + [a] == [a];
    CleanFromNormal([a], b, rest, true);
    assert [a] + [b] == [a, b];
  }

  /** Three `..` over two stacked names empty the stack, and two more names are stacked. */
  lemma ClimbUp(a: string, b: string, x: string, y: string)
    requires IsNormalSegment(a) && IsNormalSegment(b) && IsNormalSegment(x) && IsNormalSegment(y)
    ensures CleanFrom([a, b], [".."] + ([".."] + ([".."] + ([x] + [y]))), true) == [x, y]
  {
    CleanFromCons([a, b], "..", [".."] + ([".."] + ([x] + [y])), true);
    assert CleanStep([a, b], "..", true) == [a];
    CleanFromUp([a], [".."] + ([x] + [y]));
    CleanFromUp([], [x] + [y]);
    CleanFromNormal([], x, [y], true);
    assert [y] == [y] + [];
    CleanFromNormal([x], y, [], true);
    assert [] + [x] == [x] && [x] + [y] == [x, y];
  }

  /**
    `..` cannot climb above the root: from a working directory two levels deep, three `..`
    followed by two names reach those names directly under `/`.
  */
  lemma ClimbAboveRoot(a: string, b: string, x: string, y: string)
    requires IsNormalSegment(a) && IsNormalSegment(b) && IsNormalSegment(x) && IsNormalSegment(y)
    ensures Join("/" + a + "/" + b, "../../../" + x + "/" + y) == "/" + x + "/" + y
  {
    var parts := ["", a, b, "..", "..", "..", x, y];
    var s := ("/" + a + "/" + b) + "/" + ("../../../" + x + "/" + y);
    ClimbPieces(a, b, x, y);
    assert forall i :: 0 <= i < |parts| ==> '/' !in parts[i];
    SplitJoin(parts, '/');
    ClimbScan(a, b, x, y);
    assert s[0] == '/';
    assert [x, y][1..] == [y];
    assert JoinWith([x, y], '/') == x + "/" + y;
  }

  /**
    The tests' climb: from `/home/{}`, `../../../etc/hostname` resolves to `/etc/hostname`. The
    names are parameters so that the resolution is reasoned about step by step.
  */
  lemma TestClimb(home: string, braces: string, etc: string, hostname: string)
    requires home == "home" && braces == "{}" && etc == "etc" && hostname == "hostname"
    ensures ResolvePath("../../../" + etc + "/" + hostname, "/" + home + "/" + braces, "/" + home + "/" + braces) ==
      "/" + etc + "/" + hostname
  {
    var p := "../../../" + etc + "/" + hostname;
    assert p[0] == '.' && p[|p| - 1] == 'e';
    assert p != "." && p != "./";
    ResolveRelative("/" + home + "/" + braces, "/" + home + "/" + braces, p);
    assert IsNormalSegment(home) && IsNormalSegment(braces) && IsNormalSegment(etc) && IsNormalSegment(hostname);
    ClimbAboveRoot(home, braces, etc, hostname);
  }

  /**
    The login name is an alias for the template home: `/home/<name>` followed by anything looks
    up the same node as `/home/{}` followed by the same, as long as the name does not itself
    match a prefix of the template path.
  */
  lemma FindFileHomeAlias(root: Node, home: string, pwd: string, user: User, rest: string)
    requires !(user.username <= "{}" + rest)
    requires !EndsInSlash("/home/" + user.username + rest)
    ensures FindFileIn(root, home, pwd, user, "/home/" + user.username + rest) ==
            FindFileIn(root, home, pwd, user, "/home/{}" + rest)
  {
    var a := "/home/" + user.username + rest;
    var b := "/home/{}" + rest;
    ResolveAbsolute(home, pwd, a);
    ResolveAbsolute(home, pwd, b);
    HomeRewriteLogin(user.username, rest);
    HomeRewriteTemplate(user.username, rest);
  }

  /** A path under the login name's home is rewritten into the template home. */
  lemma HomeRewriteLogin(name: string, rest: string)
    ensures HomeRewrite("/home/" + name + rest, name) == "/home/{}" + rest
  {
    var loginHome := "/home/" + name;
    var a := loginHome + rest;
    assert loginHome <= a;
    assert a[|loginHome|..] == rest;
  }

  /** A path under the template home stays as it is, unless the login name matches a prefix of what follows `/home/`. */
  lemma HomeRewriteTemplate(name: string, rest: string)
    requires !(name <= "{}" + rest)
    ensures HomeRewrite("/home/{}" + rest, name) == "/home/{}" + rest
  {
    var b := "/home/{}" + rest;
    assert b == "/home/" + ("{}" + rest);
    PrefixCancel("/home/", name, "{}" + rest);
  }

  /** A common prefix can be cancelled from a prefix relation. */
  lemma PrefixCancel(p: string, a: string, x: string)
    ensures p + a <= p + x ==> a <= x
  {
    if p + a <= p + x {
      forall k | 0 <= k < |a| ensures a[k] == x[k] {
        assert (p + a)[|p| + k] == a[k] && (p + x)[|p| + k] == x[k];
      }
    }
  }

  /**
    With the template home `/home/{}`, `~` and the login name's home directory are the same
    lookup.
  */
  lemma FindFileTildeIsLoginHome(root: Node, pwd: string, user: User)
    requires !(user.username <= "{}")
    requires !EndsInSlash(user.username)
    ensures FindFileIn(root, "/home/{}", pwd, user, "~") == FindFileIn(root, "/home/{}", pwd, user, "/home/" + user.username)
  {
    ResolveHome("/home/{}", pwd);
    FindFileHomeAlias(root, "/home/{}", pwd, user, "");
    assert "/home/" + user.username + "" == "/home/" + user.username;
    assert "/home/{}" + "" == "/home/{}";
    ResolveAbsolute("/home/{}", pwd, "/home/{}");
  }

  /**
    The rewrite is a prefix test on text, not on path elements: for the login name `bo`, the
    directory `/home/bob` is looked up as `/home/{}b`.
  */
  lemma HomeRewriteIsTextual()
    ensures HomeRewrite("/home/bob", "bo") == "/home/{}b"
  {
    assert "/home/bo" <= "/home/bob";
    assert "/home/bob"[|"/home/bo"|..] == "b";
  }

  /**
    A lookup along normal elements from a root named `""` reports the path as the canonical
    absolute path it was given.
  */
  lemma FindFileCanonicalPath(root: Node, home: string, pwd: string, user: User, keys: seq<string>)
    requires root.name == "" && |keys| > 0
    requires forall i :: 0 <= i < |keys| ==> IsNormalSegment(keys[i])
    requires !("/home/" + user.username <= "/" + JoinWith(keys, '/'))
    requires FindFileIn(root, home, pwd, user, "/" + JoinWith(keys, '/')).Ok?
    ensures FindFileIn(root, home, pwd, user, "/" + JoinWith(keys, '/')).value.0 == "/" + JoinWith(keys, '/')
  {
    var p := "/" + JoinWith(keys, '/');
    SplitRootedJoin(keys);
    ResolveAbsolute(home, pwd, p);
    assert HomeRewrite(p, user.username) == p;
    FindInPathFromRoot(root, keys);
  }

  /** An absolute path of normal elements splits into an empty leading element and the elements. */
  lemma SplitRootedJoin(keys: seq<string>)
    requires |keys| > 0
    requires forall i :: 0 <= i < |keys| ==> IsNormalSegment(keys[i])
    ensures var p := "/" + JoinWith(keys, '/');
      && Split(p, '/') == [""] + keys && p != "/" && p[0] == '/' && !EndsInSlash(p)
  {
    var j := JoinWith(keys, '/');
    assert Canonical(keys, true);
    SplitJoinSegments(keys, true);
    LastCharOfJoin(keys);
    SplitLeadingSep(j, '/');
    assert "/" + j == ['/'] + j;
  }

  /** A `/`-join of normal elements ends in a character other than `/`. */
  lemma {:induction false} LastCharOfJoin(keys: seq<string>)
    requires |keys| > 0
    requires forall i :: 0 <= i < |keys| ==> IsNormalSegment(keys[i])
    ensures var j := JoinWith(keys, '/'); |j| > 0 && j[|j| - 1] != '/'
    decreases |keys|
  {
    var last := keys[0];
    assert |last| > 0 && last[|last| - 1] in last;
    if |keys| > 1 {
      LastCharOfJoin(keys[1..]);
    }
  }

  // ---------------------------------------------------------------------------------------
  // The changes to the tree
  // ---------------------------------------------------------------------------------------

  /**
    A failed `Mkdir` leaves the tree as it was. A successful one stores, under the base name in
    the parent directory, a new empty directory of the requested mode (0775 for 0) owned by
    `{}`; the base name was free and the parent writable by `{}`; the parent gains exactly that
    child and keeps its other children, and no path off the way to the parent sees a change.
  */
  lemma MkdirEffect(root: Node, home: string, pwd: string, user: User, path: string, mode: bv32, now: int)
    ensures var (r, t) := MkdirIn(root, home, pwd, user, path, mode, now);
      var keys := KeysFor(Dir(path), home, pwd, user);
      var base := Base(path);
      && (r.Err? ==> t == root)
      && (r.Ok? ==>
        && NodeAt(root, keys).Some?
        && var parent := NodeAt(root, keys).value;
        && parent.kind == T_DIR && AccessOf(parent, Placeholder).write
        && NodeAt(root, keys + [base]) == None
        && NodeAt(t, keys + [base]) == Some(r.value)
        && r.value.kind == T_DIR && r.value.name == base && Children(r.value) == map[]
        && r.value.mode == DirMode(mode)
        && r.value.owner == "{}" && r.value.group == "{}" && r.value.modTime == now
        && NodeAt(t, keys).Some?
        && Children(NodeAt(t, keys).value).Keys == Children(parent).Keys + {base}
        && NodeAt(t, keys).value.(files := parent.files) == parent
        && KeptAbove(root, t, keys)
        && (forall c :: c in Children(parent) && c != base ==> NodeAt(t, keys + [c]) == NodeAt(root, keys + [c]))
        && (forall other :: !(keys <= other) && !(other <= keys) ==> NodeAt(t, other) == NodeAt(root, other)))
  {
    var (r, t) := MkdirIn(root, home, pwd, user, path, mode, now);
    var keys := KeysFor(Dir(path), home, pwd, user);
    FindFileLocates(root, home, pwd, user, Dir(path));
    if r.Ok? {
      var parent := NodeAt(root, keys).value;
      NodeAtAppend(root, keys, [Base(path)]);
      StoreChild(root, keys, parent, Base(path), r.value);
      UpdateAtKeepsAbove(root, keys, parent.(files := Some(parent.files.value[Base(path) := r.value])));
    }
  }

  /**
    A failed `Rmfile` leaves the tree as it was. A successful one removed a child that `{}` may
    write: the path to it now leads nowhere, the parent loses exactly that child and keeps its
    other children, and no path off the way to the parent sees a change.
  */
  lemma RmfileEffect(root: Node, home: string, pwd: string, user: User, path: string)
    ensures var (r, t) := RmfileIn(root, home, pwd, user, path);
      var keys := KeysFor(Dir(path), home, pwd, user);
      var base := Base(path);
      && (r.Err? ==> t == root)
      && (r.Ok? ==>
        && NodeAt(root, keys).Some?
        && var parent := NodeAt(root, keys).value;
        && NodeAt(root, keys + [base]).Some?
        && AccessOf(NodeAt(root, keys + [base]).value, Placeholder).write
        && NodeAt(t, keys + [base]) == None
        && NodeAt(t, keys).Some?
        && Children(NodeAt(t, keys).value).Keys == Children(parent).Keys - {base}
        && NodeAt(t, keys).value.(files := parent.files) == parent
        && KeptAbove(root, t, keys)
        && (forall c :: c in Children(parent) && c != base ==> NodeAt(t, keys + [c]) == NodeAt(root, keys + [c]))
        && (forall other :: !(keys <= other) && !(other <= keys) ==> NodeAt(t, other) == NodeAt(root, other)))
  {
    var (r, t) := RmfileIn(root, home, pwd, user, path);
    var keys := KeysFor(Dir(path), home, pwd, user);
    FindFileLocates(root, home, pwd, user, Dir(path));
    if r.Ok? {
      var parent := NodeAt(root, keys).value;
      NodeAtAppend(root, keys, [Base(path)]);
      DeleteChild(root, keys, parent, Base(path));
      UpdateAtKeepsAbove(root, keys, parent.(files := Some(parent.files.value - {Base(path)})));
    }
  }

  /**
    A failed `WriteFile` leaves the tree as it was. A successful one needed a parent writable by
    `{}` and no directory under the base name; an existing file, which `{}` may write, keeps
    everything but its contents, and otherwise a new file of mode 0664 owned by `{}` appears.
    Either way the file under the base name holds the contents written, the parent keeps its
    other children, and no path off the way to the parent sees a change.
  */
  lemma WriteFileEffect(root: Node, home: string, pwd: string, user: User, path: string, contents: string, now: int)
    ensures var (r, t) := WriteFileIn(root, home, pwd, user, path, contents, now);
      var keys := KeysFor(Dir(path), home, pwd, user);
      var base := Base(path);
      && (r.Err? ==> t == root)
      && (r.Ok? ==>
        && NodeAt(root, keys).Some?
        && var parent := NodeAt(root, keys).value;
        && AccessOf(parent, Placeholder).write
        && NodeAt(t, keys + [base]).Some?
        && var file := NodeAt(t, keys + [base]).value;
        && file.contents == contents
        && (match NodeAt(root, keys + [base])
            case Some(before) =>
              before.kind != T_DIR && AccessOf(before, Placeholder).write && file == before.(contents := contents)
            case None =>
              file.kind == T_FILE && file.name == base && file.mode == NewFileMode &&
              file.owner == "{}" && file.group == "{}" && file.modTime == now)
        && NodeAt(t, keys).Some?
        && Children(NodeAt(t, keys).value).Keys == Children(parent).Keys + {base}
        && NodeAt(t, keys).value.(files := parent.files) == parent
        && KeptAbove(root, t, keys)
        && (forall c :: c in Children(parent) && c != base ==> NodeAt(t, keys + [c]) == NodeAt(root, keys + [c]))
        && (forall other :: !(keys <= other) && !(other <= keys) ==> NodeAt(t, other) == NodeAt(root, other)))
  {
    var (r, t) := WriteFileIn(root, home, pwd, user, path, contents, now);
    var keys := KeysFor(Dir(path), home, pwd, user);
    FindFileLocates(root, home, pwd, user, Dir(path));
    if r.Ok? {
      var parent := FindFileIn(root, home, pwd, user, Dir(path)).value.1;
      var base := Base(path);
      NodeAtAppend(root, keys, [base]);
      var file := if base in Children(parent) then Children(parent)[base].(contents := contents) else NewFile(base, contents, now);
      assert t == UpdateAt(root, keys, parent.(files := Some(parent.files.value[base := file])));
      StoreChild(root, keys, parent, base, file);
      UpdateAtKeepsAbove(root, keys, parent.(files := Some(parent.files.value[base := file])));
    }
  }

  /**
    The order in which `Mkdir` fails: the parent's lookup error, then "No such file or
    directory" for a parent that is not a directory, then "Permission denied" for a parent `{}`
    may not write, then "already exists" for a taken base name; it succeeds exactly when all
    four checks pass and the parent's child map is not nil.
  */
  lemma MkdirOutcome(root: Node, home: string, pwd: string, user: User, path: string, mode: bv32, now: int)
    ensures var r := MkdirIn(root, home, pwd, user, path, mode, now).0;
      var found := FindFileIn(root, home, pwd, user, Dir(path));
      var base := Base(path);
      && (found.Err? ==> r == Err(found.error))
      && (found.Ok? && found.value.1.kind != T_DIR ==> r == Err(CannotCreateNoSuchFile(path)))
      && (found.Ok? && found.value.1.kind == T_DIR && !AccessOf(found.value.1, Placeholder).write ==>
            r == Err(CannotCreateDenied(path)))
      && ((found.Ok? && found.value.1.kind == T_DIR && AccessOf(found.value.1, Placeholder).write &&
           base in Children(found.value.1)) ==> r == Err(AlreadyExists(path)))
      && (r.Ok? <==>
            found.Ok? && found.value.1.kind == T_DIR && AccessOf(found.value.1, Placeholder).write &&
            base !in Children(found.value.1) && found.value.1.files.Some?)
  {
  }

  /**
    The order in which `Rmfile` fails: the parent's lookup error, then "no such file or
    directory" for an absent base name, then "permission denied" for a child `{}` may not write;
    it succeeds exactly when all three checks pass.
  */
  lemma RmfileOutcome(root: Node, home: string, pwd: string, user: User, path: string)
    ensures var r := RmfileIn(root, home, pwd, user, path).0;
      var found := FindFileIn(root, home, pwd, user, Dir(path));
      var base := Base(path);
      && (found.Err? ==> r == Err(found.error))
      && (found.Ok? && base !in Children(found.value.1) ==> r == Err(NoSuchFileOrDirectory))
      && (found.Ok? && base in Children(found.value.1) && !AccessOf(Children(found.value.1)[base], Placeholder).write ==>
            r == Err(PermissionDenied))
      && (r.Ok? <==>
            found.Ok? && base in Children(found.value.1) && AccessOf(Children(found.value.1)[base], Placeholder).write)
  {
  }

  /**
    The order in which `WriteFile` fails: the parent's lookup error, then "permission denied"
    for a parent `{}` may not write, then "file is a directory" for a directory under the base
    name, then "permission denied" for an existing child `{}` may not write; it succeeds exactly
    when all four checks pass and the parent's child map is not nil.
  */
  lemma WriteFileOutcome(root: Node, home: string, pwd: string, user: User, path: string, contents: string, now: int)
    ensures var r := WriteFileIn(root, home, pwd, user, path, contents, now).0;
      var found := FindFileIn(root, home, pwd, user, Dir(path));
      var base := Base(path);
      && (found.Err? ==> r == Err(found.error))
      && (found.Ok? && !AccessOf(found.value.1, Placeholder).write ==> r == Err(PermissionDenied))
      && ((found.Ok? && AccessOf(found.value.1, Placeholder).write && base in Children(found.value.1) &&
           Children(found.value.1)[base].kind == T_DIR) ==> r == Err(IsADirectory))
      && ((found.Ok? && AccessOf(found.value.1, Placeholder).write && base in Children(found.value.1) &&
           Children(found.value.1)[base].kind != T_DIR && !AccessOf(Children(found.value.1)[base], Placeholder).write) ==>
            r == Err(PermissionDenied))
      && (r.Ok? <==>
            found.Ok? && AccessOf(found.value.1, Placeholder).write &&
            (base in Children(found.value.1) ==>
              Children(found.value.1)[base].kind != T_DIR && AccessOf(Children(found.value.1)[base], Placeholder).write) &&
            found.value.1.files.Some?)
  {
  }

  /**
    After the node that a lookup finds is replaced by one of the same name, the same lookup
    succeeds and finds the replacement.
  */
  lemma FindAfterUpdate(root: Node, home: string, pwd: string, user: User, q: string, g: Node)
    requires FindFileIn(root, home, pwd, user, q).Ok?
    requires g.name == FindFileIn(root, home, pwd, user, q).value.1.name
    ensures var t := UpdateAt(root, KeysFor(q, home, pwd, user), g);
      FindFileIn(t, home, pwd, user, q).Ok? && FindFileIn(t, home, pwd, user, q).value.1 == g
  {
    var keys := KeysFor(q, home, pwd, user);
    FindFileLocates(root, home, pwd, user, q);
    UpdateAtWalk(root, keys, g);
    UpdateAtTarget(root, keys, g, []);
    assert keys + [] == keys;
    FindFileLocates(UpdateAt(root, keys, g), home, pwd, user, q);
  }

  /**
    A successful `Mkdir` found, as `found`, a writable directory with a child map as the parent,
    and the new tree is the old one with the new directory stored in that map under the base
    name.
  */
  lemma MkdirOkShape(root: Node, home: string, pwd: string, user: User, path: string, mode: bv32, now: int,
                     found: Result<(string, Node), VfsError>)
    requires found == FindFileIn(root, home, pwd, user, Dir(path))
    requires MkdirIn(root, home, pwd, user, path, mode, now).0.Ok?
    ensures found.Ok? && found.value.1.kind == T_DIR && AccessOf(found.value.1, Placeholder).write
    ensures found.value.1.files.Some?
    ensures MkdirIn(root, home, pwd, user, path, mode, now).1 ==
      UpdateAt(root, KeysFor(Dir(path), home, pwd, user),
        found.value.1.(files := Some(found.value.1.files.value[Base(path) := NewDir(Base(path), mode, now)])))
  {
    assert found.Ok?;
    var parent, base := found.value.1, Base(path);
    assert parent.kind == T_DIR && AccessOf(parent, Placeholder).write && base !in Children(parent) && parent.files.Some?;
    var d := NewDir(base, mode, now);
    assert MkdirIn(root, home, pwd, user, path, mode, now) ==
      (Ok(d), UpdateAt(root, KeysFor(Dir(path), home, pwd, user), parent.(files := Some(parent.files.value[base := d]))));
  }

  /** A second `Mkdir` of a path that the first one created fails with "already exists", whatever its mode and time. */
  lemma MkdirTwice(root: Node, home: string, pwd: string, user: User, path: string, mode: bv32, now: int, mode': bv32, now': int)
    requires MkdirIn(root, home, pwd, user, path, mode, now).0.Ok?
    ensures MkdirIn(MkdirIn(root, home, pwd, user, path, mode, now).1, home, pwd, user, path, mode', now').0
      == Err(AlreadyExists(path))
  {
    var found := FindFileIn(root, home, pwd, user, Dir(path));
    MkdirOkShape(root, home, pwd, user, path, mode, now, found);
    var t := MkdirIn(root, home, pwd, user, path, mode, now).1;
    var base := Base(path);
    var parent := found.value.1;
    var p' := parent.(files := Some(parent.files.value[base := NewDir(base, mode, now)]));
    FindAfterUpdate(root, home, pwd, user, Dir(path), p');
    assert base in Children(p') && p'.kind == T_DIR && AccessOf(p', Placeholder).write by {
      assert AccessOf(p', Placeholder) == AccessOf(parent, Placeholder);
    }
    MkdirOutcome(t, home, pwd, user, path, mode', now');
  }

  // ---------------------------------------------------------------------------------------
  // The tree of the package's own tests
  // ---------------------------------------------------------------------------------------

  function TestFile(name: string, owner: string, contents: string, mode: bv32): Node
  {
    Node(T_FILE, name, None, contents, mode, owner, "", 0, "", 0, None)
  }

  function TestDir(name: string, owner: string, files: map<string, Node>, mode: bv32): Node
  {
    Node(T_DIR, name, Some(files), "", mode, owner, "", 0, "", 0, None)
  }

  function TestIssue(): Node
  {
    TestFile("issue", "root", "Ubuntu 22.04", 420)
  }

  function TestEtc(): Node
  {
    TestDir("etc", "root", map[
      "hostname" := TestFile("hostname", "root", "test-hostname", 420),
      "issue" := TestIssue()], 2147484141)
  }

  function TestHome(): Node
  {
    TestDir("home", "root", map[
      "{}" := TestDir("{}", "{}", map[
        "test.txt" := TestFile("test.txt", "{}", "This is a test file", 432)], 2147484157)], 2147484141)
  }

  /** `/etc/hostname`, `/etc/issue` and `/home/{}/test.txt`, as the tests decode them. */
  function TestRoot(): Node
  {
    TestDir("", "root", map["home" := TestHome(), "etc" := TestEtc()], 2147484141)
  }

  /** The two `filepath.Join` calls of a two-step descent from the root through plain names. */
  lemma JoinTwoNames(a: string, b: string)
    requires IsNormalSegment(a) && IsNormalSegment(b)
    ensures Join(a, b) == a + "/" + b
    ensures Join("/", a + "/" + b) == "/" + a + "/" + b
  {
    assert JoinWith([b], '/') == b;
    assert [a, b][1..] == [b];
    assert JoinWith([a, b], '/') == a + "/" + b;
    JoinNormal(a, [b]);
    assert [a] + [b] == [a, b];
    CleanRootedNormal([a, b]);
  }

  /**
    The descent of the tests' lookup of `/etc/issue`: the file is found, under its canonical
    path. The names are parameters so that the lookup is reasoned about step by step.
  */
  lemma TestDescent(etc: string, issue: string)
    requires etc == "etc" && issue == "issue"
    ensures FindIn(TestRoot(), "", [etc, issue]) == Ok(("/" + etc + "/" + issue, TestIssue()))
  {
    assert Children(TestRoot())[etc] == TestEtc();
    assert Children(TestEtc())[issue] == TestIssue();
    assert [issue][1..] == [];
    assert FindIn(TestIssue(), issue, []) == Ok((issue, TestIssue()));
    assert IsNormalSegment(etc) && IsNormalSegment(issue);
    JoinTwoNames(etc, issue);
    assert FindIn(TestEtc(), etc, [issue]) == Ok((etc + "/" + issue, TestIssue()));
    assert [etc, issue][1..] == [issue];
  }

  /** The absolute lookup of the tests: `/etc/issue` is found, under its own path, with its contents. */
  lemma TestAbsoluteLookup(etc: string, issue: string)
    requires etc == "etc" && issue == "issue"
    ensures FindFileIn(TestRoot(), "/home/{}", "", User("{}", "{}"), "/" + etc + "/" + issue) ==
      Ok(("/" + etc + "/" + issue, TestIssue()))
  {
    var keys := [etc, issue];
    var p := "/" + etc + "/" + issue;
    assert IsNormalSegment(etc) && IsNormalSegment(issue);
    assert keys[1..] == [issue];
    assert JoinWith(keys, '/') == etc + "/" + issue;
    assert p == "/" + JoinWith(keys, '/');
    SplitRootedJoin(keys);
    assert !("/home/{}" <= p) by {
      assert p[1] == 'e' && "/home/{}"[1] == 'h';
    }
    ResolveAbsolute("/home/{}", "", p);
    TestDescent(etc, issue);
  }
}
