/**
  The node of the simulated filesystem (plugin/vfs.go, `VFSFile`): its recursive lookup
  `findFile`, the permission check `CanAccess` and the child iteration `ForEach`, together with
  the key-path view of the tree that the mutating operations of module `Vfs` update.
*/
module VfsNode {
  import opened Wrappers
  import opened Paths
  import opened PluginConfig

  /** The node type tags. `T_ANY` is declared by the source and never stored in a node by it. */
  const T_DIR: int := 1
  const T_FILE: int := 2
  const T_SYMLINK: int := 3
  const T_ANY: int := 4

  /** `os.ModeDir`, the directory bit of a Go `os.FileMode`. */
  const ModeDir: bv32 := 0x8000_0000

  /** `os.ModeSticky`, one of the 13 type bits of a Go `os.FileMode`. */
  const ModeSticky: bv32 := 0x0010_0000

  /** The identity that permission checks are made for. */
  datatype User = User(username: string, group: string)

  datatype Perm = Perm(read: bool, write: bool, exec: bool)

  /**
    A `VFSFile`. `files` is `None` for Go's nil map (what a node decoded without children has):
    looking up in it finds nothing, storing into it panics. `modTime` is a timestamp supplied by
    the caller in place of `time.Now()`.
  */
  datatype Node = Node(
    kind: int,
    name: string,
    files: Option<map<string, Node>>,
    contents: string,
    mode: bv32,
    owner: string,
    group: string,
    modTime: int,
    linkTo: string,
    nLink: int,
    cmdFn: Option<CommandFn>)

  /** The error values of plugin/vfs.go; `NilMapWrite` stands for the runtime panic of a store into a nil map. */
  datatype VfsError =
    | FileNotADirectory              // "file not a directory"
    | FileNotFound                   // "file not found"
    | CannotCreateNoSuchFile(path: string)  // "cannot create directory ‘path‘: No such file or directory"
    | CannotCreateDenied(path: string)      // "cannot create directory ‘path‘: Permission denied"
    | AlreadyExists(path: string)           // "file \"path\" already exists"
    | NoSuchFileOrDirectory          // "no such file or directory"
    | PermissionDenied               // "permission denied"
    | IsADirectory                   // "file is a directory"
    | NilMapWrite                    // panic: assignment to entry in nil map

  /** The children of a node; a nil map reads as empty. */
  function Children(f: Node): map<string, Node>
  {
    if f.files.Some? then f.files.value else map[]
  }

  // ---------------------------------------------------------------------------------------
  // findFile
  // ---------------------------------------------------------------------------------------

  /**
    `f.findFile(name, rest)`: `name` must be this node's name; each further segment must name a
    child of a `T_DIR` node. The path returned is built back up with `filepath.Join`, with the
    root's empty name written as `/`.
  */
  function FindIn(f: Node, name: string, rest: seq<string>): Result<(string, Node), VfsError>
    decreases |rest|
  {
    if name == f.name && |rest| == 0 then Ok((name, f))
    else if name == f.name && |rest| > 0 then
      if f.kind != T_DIR then Err(FileNotADirectory)
      else if rest[0] in Children(f) then
        match FindIn(Children(f)[rest[0]], rest[0], rest[1..])
        case Err(e) => Err(e)
        case Ok(found) => Ok((Join(if name == "" then "/" else name, found.0), found.1))
      else Err(FileNotFound)
    else Err(FileNotFound)
  }

  /** The node reached from `f` by following `keys` through the child maps, with no other check. */
  function NodeAt(f: Node, keys: seq<string>): Option<Node>
    decreases |keys|
  {
    if keys == [] then Some(f)
    else if keys[0] in Children(f) then NodeAt(Children(f)[keys[0]], keys[1..])
    else None
  }

  /**
    Step `j` of a descent along `keys` is legal: the node reached by the first `j` keys is a
    directory holding a child under `keys[j]` whose own name is `keys[j]`.
  */
  ghost predicate StepOk(f: Node, keys: seq<string>, j: nat)
    requires j < |keys|
  {
    var n := NodeAt(f, keys[..j]);
    && n.Some?
    && n.value.kind == T_DIR
    && keys[j] in Children(n.value)
    && Children(n.value)[keys[j]].name == keys[j]
  }

  /** Every step of the descent along `keys` is legal. */
  ghost predicate WalkOk(f: Node, keys: seq<string>)
  {
    forall j :: 0 <= j < |keys| ==> StepOk(f, keys, j)
  }

  lemma NodeAtCons(f: Node, keys: seq<string>, j: nat)
    requires 0 < j <= |keys| && keys[0] in Children(f)
    ensures NodeAt(f, keys[..j]) == NodeAt(Children(f)[keys[0]], keys[1..][..j - 1])
  {
    assert keys[..j][0] == keys[0];
    assert keys[..j][1..] == keys[1..][..j - 1];
  }

  /** A legal descent is a legal first step followed by a legal descent from the child. */
  lemma WalkOkCons(f: Node, keys: seq<string>)
    requires |keys| > 0
    ensures WalkOk(f, keys) <==>
      && f.kind == T_DIR && keys[0] in Children(f) && Children(f)[keys[0]].name == keys[0]
      && WalkOk(Children(f)[keys[0]], keys[1..])
  {
    assert keys[..0] == [];
    if f.kind == T_DIR && keys[0] in Children(f) {
      var c := Children(f)[keys[0]];
      assert NodeAt(f, keys[..0]) == Some(f);
      if WalkOk(f, keys) {
        assert StepOk(f, keys, 0);
      }
      forall j | 1 <= j < |keys| ensures StepOk(f, keys, j) <==> StepOk(c, keys[1..], j - 1) {
        NodeAtCons(f, keys, j);
      }
      if WalkOk(f, keys) {
        forall j | 0 <= j < |keys| - 1 ensures StepOk(c, keys[1..], j) {
          assert StepOk(f, keys, j + 1);
        }
      }
      if c.name == keys[0] && WalkOk(c, keys[1..]) {
        forall j | 0 <= j < |keys| ensures StepOk(f, keys, j) {
          if j > 0 { assert StepOk(c, keys[1..], j - 1); }
        }
      }
    } else {
      assert !StepOk(f, keys, 0);
    }
  }

  /**
    `findFile` from a node under its own name succeeds exactly when every step of the descent is
    legal, and then returns the node that the keys reach.
  */
  lemma {:induction false} FindInSucceedsIff(f: Node, keys: seq<string>)
    ensures FindIn(f, f.name, keys).Ok? <==> WalkOk(f, keys)
    ensures FindIn(f, f.name, keys).Ok? ==> Some(FindIn(f, f.name, keys).value.1) == NodeAt(f, keys)
    decreases |keys|
  {
    if |keys| > 0 {
      WalkOkCons(f, keys);
      if f.kind == T_DIR && keys[0] in Children(f) {
        FindInSucceedsIff(Children(f)[keys[0]], keys[1..]);
      }
    }
  }

  /**
    When `findFile` fails, the first illegal step is identified by the error: "file not a
    directory" means the descent reached a non-directory with segments left, "file not found"
    means it reached a directory without a child under the next segment, or with a child of a
    different name.
  */
  lemma {:induction false} FindInFailure(f: Node, keys: seq<string>)
    ensures FindIn(f, f.name, keys) == Err(FileNotADirectory) ==>
      exists j :: 0 <= j < |keys| && WalkOk(f, keys[..j]) && NodeAt(f, keys[..j]).Some? &&
        NodeAt(f, keys[..j]).value.kind != T_DIR
    ensures FindIn(f, f.name, keys) == Err(FileNotFound) ==>
      exists j :: 0 <= j < |keys| && WalkOk(f, keys[..j]) && NodeAt(f, keys[..j]).Some? &&
        var n := NodeAt(f, keys[..j]).value;
        n.kind == T_DIR && (keys[j] !in Children(n) || Children(n)[keys[j]].name != keys[j])
    ensures FindIn(f, f.name, keys).Err? ==>
      FindIn(f, f.name, keys) == Err(FileNotADirectory) || FindIn(f, f.name, keys) == Err(FileNotFound)
    decreases |keys|
  {
    if |keys| > 0 {
      assert keys[..0] == [];
      assert WalkOk(f, []);
      assert NodeAt(f, keys[..0]) == Some(f);
      if f.kind == T_DIR && keys[0] in Children(f) {
        var c := Children(f)[keys[0]];
        if c.name == keys[0] {
          FindInFailure(c, keys[1..]);
          assert FindIn(f, f.name, keys).Err? ==> FindIn(f, f.name, keys) == FindIn(c, c.name, keys[1..]);
          if FindIn(f, f.name, keys) == Err(FileNotADirectory) {
            var j :| 0 <= j < |keys| - 1 && WalkOk(c, keys[1..][..j]) && NodeAt(c, keys[1..][..j]).Some? &&
              NodeAt(c, keys[1..][..j]).value.kind != T_DIR;
            WalkLift(f, keys, j);
          } else if FindIn(f, f.name, keys) == Err(FileNotFound) {
            var j :| 0 <= j < |keys| - 1 && WalkOk(c, keys[1..][..j]) && NodeAt(c, keys[1..][..j]).Some? &&
              var n := NodeAt(c, keys[1..][..j]).value;
              n.kind == T_DIR && (keys[1..][j] !in Children(n) || Children(n)[keys[1..][j]].name != keys[1..][j]);
            WalkLift(f, keys, j);
            assert keys[1..][j] == keys[j + 1];
          }
        } else {
          assert FindIn(c, keys[0], keys[1..]) == Err(FileNotFound);
          assert FindIn(f, f.name, keys) == Err(FileNotFound);
          assert 0 < |keys| && WalkOk(f, keys[..0]) && NodeAt(f, keys[..0]) == Some(f);
        }
      }
    }
  }

  /** A legal descent from a child, prefixed with the step into that child, is a legal descent from the parent. */
  lemma WalkLift(f: Node, keys: seq<string>, j: nat)
    requires j < |keys| - 1
    requires f.kind == T_DIR && keys[0] in Children(f) && Children(f)[keys[0]].name == keys[0]
    requires WalkOk(Children(f)[keys[0]], keys[1..][..j])
    ensures WalkOk(f, keys[..j + 1])
    ensures NodeAt(f, keys[..j + 1]) == NodeAt(Children(f)[keys[0]], keys[1..][..j])
  {
    assert keys[..j + 1][1..] == keys[1..][..j];
    assert keys[..j + 1][0] == keys[0];
    WalkOkCons(f, keys[..j + 1]);
    NodeAtCons(f, keys, j + 1);
  }

  /** `filepath.Join` of a normal element and a cleaned relative path concatenates them. */
  lemma JoinNormal(name: string, segs: seq<string>)
    requires IsNormalSegment(name) && |segs| > 0
    requires forall i :: 0 <= i < |segs| ==> IsNormalSegment(segs[i])
    ensures Join(name, JoinWith(segs, '/')) == JoinWith([name] + segs, '/')
  {
    var all := [name] + segs;
    assert all[1..] == segs;
    assert JoinWith(all, '/') == name + "/" + JoinWith(segs, '/');
    CleanNormalRelative(all);
  }

  /**
    With consistent names along the way, `findFile` from a node named by a normal element
    returns the path of that element and the segments, joined with `/`.
  */
  lemma {:induction false} FindInPathBelow(f: Node, keys: seq<string>)
    requires IsNormalSegment(f.name)
    requires forall i :: 0 <= i < |keys| ==> IsNormalSegment(keys[i])
    requires FindIn(f, f.name, keys).Ok?
    ensures FindIn(f, f.name, keys).value.0 == JoinWith([f.name] + keys, '/')
    decreases |keys|
  {
    if |keys| > 0 {
      var c := Children(f)[keys[0]];
      FindInPathBelow(c, keys[1..]);
      assert [c.name] + keys[1..] == keys;
      JoinNormal(f.name, keys);
    }
  }

  /**
    A successful lookup from the root (whose name is empty) along normal segments returns the
    canonical absolute path: `/` followed by the segments joined with `/`.
  */
  lemma FindInPathFromRoot(root: Node, keys: seq<string>)
    requires root.name == "" && |keys| > 0
    requires forall i :: 0 <= i < |keys| ==> IsNormalSegment(keys[i])
    requires FindIn(root, "", keys).Ok?
    ensures FindIn(root, "", keys).value.0 == "/" + JoinWith(keys, '/')
  {
    var c := Children(root)[keys[0]];
    FindInPathBelow(c, keys[1..]);
    assert [c.name] + keys[1..] == keys;
    CleanRootedNormal(keys);
  }

  // ---------------------------------------------------------------------------------------
  // Updating the tree at a key path
  // ---------------------------------------------------------------------------------------

  /**
    The tree with the node at `keys` replaced by `g` (the tree unchanged if `keys` leads nowhere).
    This is what a store into the child map of a node found by `FindFile` amounts to: the maps
    are shared references, so the store is seen from the root.
  */
  function UpdateAt(f: Node, keys: seq<string>, g: Node): Node
    decreases |keys|
  {
    if keys == [] then g
    else if keys[0] in Children(f) then
      f.(files := Some(Children(f)[keys[0] := UpdateAt(Children(f)[keys[0]], keys[1..], g)]))
    else f
  }

  /** After the update, the node at `keys` is `g`, and everything below it is what lies below `g`. */
  lemma {:induction false} UpdateAtTarget(f: Node, keys: seq<string>, g: Node, more: seq<string>)
    requires NodeAt(f, keys).Some?
    ensures NodeAt(UpdateAt(f, keys, g), keys + more) == NodeAt(g, more)
    decreases |keys|
  {
    if keys != [] {
      UpdateAtTarget(Children(f)[keys[0]], keys[1..], g, more);
      assert (keys + more)[0] == keys[0];
      assert (keys + more)[1..] == keys[1..] + more;
    } else {
      assert keys + more == more;
    }
  }

  /** Paths that neither lead to nor pass through `keys` reach the same node after the update. */
  lemma {:induction false} UpdateAtFrame(f: Node, keys: seq<string>, g: Node, other: seq<string>)
    requires !(keys <= other) && !(other <= keys)
    ensures NodeAt(UpdateAt(f, keys, g), other) == NodeAt(f, other)
    decreases |keys|
  {
    assert keys != [] && other != [];
    if keys[0] in Children(f) && keys[0] == other[0] {
      assert !(keys[1..] <= other[1..]) && !(other[1..] <= keys[1..]);
      UpdateAtFrame(Children(f)[keys[0]], keys[1..], g, other[1..]);
    }
  }

  /**
    The nodes on the way down to `keys` keep every field but their child maps, and keep the
    names of their children.
  */
  lemma {:induction false} UpdateAtAncestors(f: Node, keys: seq<string>, g: Node, j: nat)
    requires NodeAt(f, keys).Some? && j < |keys|
    ensures NodeAt(f, keys[..j]).Some? && NodeAt(UpdateAt(f, keys, g), keys[..j]).Some?
    ensures var a, b := NodeAt(f, keys[..j]).value, NodeAt(UpdateAt(f, keys, g), keys[..j]).value;
      b.(files := a.files) == a && Children(b).Keys == Children(a).Keys
    decreases |keys|
  {
    var c := Children(f)[keys[0]];
    if j == 0 {
      assert keys[..0] == [];
    } else {
      UpdateAtAncestors(c, keys[1..], g, j - 1);
      NodeAtCons(f, keys, j);
      NodeAtCons(UpdateAt(f, keys, g), keys, j);
    }
  }

  /**
    Every node strictly above `keys` is, in `t`, the node of `f` with another child map, and
    that map has the same keys.
  */
  ghost predicate KeptAbove(f: Node, t: Node, keys: seq<string>)
  {
    forall j :: 0 <= j < |keys| ==>
      && NodeAt(f, keys[..j]).Some? && NodeAt(t, keys[..j]).Some?
      && NodeAt(t, keys[..j]).value.(files := NodeAt(f, keys[..j]).value.files) == NodeAt(f, keys[..j]).value
      && Children(NodeAt(t, keys[..j]).value).Keys == Children(NodeAt(f, keys[..j]).value).Keys
  }

  /** An update at `keys` keeps every node above `keys` but for its child map. */
  lemma UpdateAtKeepsAbove(f: Node, keys: seq<string>, g: Node)
    requires NodeAt(f, keys).Some?
    ensures KeptAbove(f, UpdateAt(f, keys, g), keys)
  {
    forall j | 0 <= j < |keys| {
      UpdateAtAncestors(f, keys, g, j);
    }
  }

  /**
    Replacing the node at `keys` by one of the same name keeps the root's name and keeps a legal
    descent along `keys` legal.
  */
  lemma UpdateAtWalk(f: Node, keys: seq<string>, g: Node)
    requires NodeAt(f, keys).Some? && g.name == NodeAt(f, keys).value.name
    ensures UpdateAt(f, keys, g).name == f.name
    ensures WalkOk(f, keys) ==> WalkOk(UpdateAt(f, keys, g), keys)
  {
    if WalkOk(f, keys) {
      forall j | 0 <= j < |keys| ensures StepOk(UpdateAt(f, keys, g), keys, j) {
        UpdateAtStep(f, keys, g, j);
      }
    }
  }

  /** One legal step of the descent stays legal after the update. */
  lemma UpdateAtStep(f: Node, keys: seq<string>, g: Node, j: nat)
    requires NodeAt(f, keys).Some? && g.name == NodeAt(f, keys).value.name
    requires j < |keys| && StepOk(f, keys, j)
    ensures StepOk(UpdateAt(f, keys, g), keys, j)
  {
    var t := UpdateAt(f, keys, g);
    UpdateAtAncestors(f, keys, g, j);
    assert keys[..j] + [keys[j]] == keys[..j + 1];
    NodeAtAppend(f, keys[..j], [keys[j]]);
    NodeAtAppend(t, keys[..j], [keys[j]]);
    if j + 1 < |keys| {
      UpdateAtAncestors(f, keys, g, j + 1);
    } else {
      assert keys[..j + 1] == keys;
      UpdateAtTarget(f, keys, g, []);
      assert keys + [] == keys;
    }
  }

  /**
    Storing `x` under `base` in the child map of the node at `keys` (Mkdir, WriteFile): the node
    at `keys + [base]` becomes `x`, the node's keys gain exactly `base`, its other children stay
    as they were, and no path off the way to `keys` sees a change.
  */
  lemma StoreChild(root: Node, keys: seq<string>, parent: Node, base: string, x: Node)
    requires NodeAt(root, keys) == Some(parent) && parent.files.Some?
    ensures var t := UpdateAt(root, keys, parent.(files := Some(parent.files.value[base := x])));
      && NodeAt(t, keys + [base]) == Some(x)
      && NodeAt(t, keys).Some? && Children(NodeAt(t, keys).value).Keys == Children(parent).Keys + {base}
      && NodeAt(t, keys).value.(files := parent.files) == parent
      && (forall c :: c in Children(parent) && c != base ==> NodeAt(t, keys + [c]) == NodeAt(root, keys + [c]))
      && (forall other :: !(keys <= other) && !(other <= keys) ==> NodeAt(t, other) == NodeAt(root, other))
  {
    var p' := parent.(files := Some(parent.files.value[base := x]));
    var t := UpdateAt(root, keys, p');
    UpdateAtTarget(root, keys, p', [base]);
    UpdateAtTarget(root, keys, p', []);
    assert keys + [] == keys;
    forall c | c in Children(parent) && c != base ensures NodeAt(t, keys + [c]) == NodeAt(root, keys + [c]) {
      UpdateAtTarget(root, keys, p', [c]);
      NodeAtAppend(root, keys, [c]);
    }
    forall other | !(keys <= other) && !(other <= keys) ensures NodeAt(t, other) == NodeAt(root, other) {
      UpdateAtFrame(root, keys, p', other);
    }
  }

  /**
    Deleting `base` from the child map of the node at `keys` (Rmfile): the path `keys + [base]`
    no longer leads anywhere, the node's keys lose exactly `base`, its other children stay as they
    were, and no path off the way to `keys` sees a change.
  */
  lemma DeleteChild(root: Node, keys: seq<string>, parent: Node, base: string)
    requires NodeAt(root, keys) == Some(parent) && parent.files.Some?
    ensures var t := UpdateAt(root, keys, parent.(files := Some(parent.files.value - {base})));
      && NodeAt(t, keys + [base]) == None
      && NodeAt(t, keys).Some? && Children(NodeAt(t, keys).value).Keys == Children(parent).Keys - {base}
      && NodeAt(t, keys).value.(files := parent.files) == parent
      && (forall c :: c in Children(parent) && c != base ==> NodeAt(t, keys + [c]) == NodeAt(root, keys + [c]))
      && (forall other :: !(keys <= other) && !(other <= keys) ==> NodeAt(t, other) == NodeAt(root, other))
  {
    var p' := parent.(files := Some(parent.files.value - {base}));
    var t := UpdateAt(root, keys, p');
    UpdateAtTarget(root, keys, p', [base]);
    UpdateAtTarget(root, keys, p', []);
    assert keys + [] == keys;
    forall c | c in Children(parent) && c != base ensures NodeAt(t, keys + [c]) == NodeAt(root, keys + [c]) {
      UpdateAtTarget(root, keys, p', [c]);
      NodeAtAppend(root, keys, [c]);
    }
    forall other | !(keys <= other) && !(other <= keys) ensures NodeAt(t, other) == NodeAt(root, other) {
      UpdateAtFrame(root, keys, p', other);
    }
  }

  /** Following `keys + more` is following `keys`, then `more`. */
  lemma {:induction false} NodeAtAppend(f: Node, keys: seq<string>, more: seq<string>)
    requires NodeAt(f, keys).Some?
    ensures NodeAt(f, keys + more) == NodeAt(NodeAt(f, keys).value, more)
    decreases |keys|
  {
    if keys != [] {
      NodeAtAppend(Children(f)[keys[0]], keys[1..], more);
      assert (keys + more)[0] == keys[0];
      assert (keys + more)[1..] == keys[1..] + more;
    } else {
      assert keys + more == more;
    }
  }

  // ---------------------------------------------------------------------------------------
  // CanAccess
  // ---------------------------------------------------------------------------------------

  /** Bit `b` of a mode. */
  function Bit(mode: bv32, b: nat): bool
    requires b < 32
  {
    mode & (1 << b) != 0
  }

  /** How many of the `i` highest type bits (31, 30, ..., 32 - i) are set. */
  function TypeBitCount(mode: bv32, i: nat): (r: nat)
    requires i <= 13
    ensures r <= i
  {
    if i == 0 then 0 else TypeBitCount(mode, i - 1) + (if Bit(mode, 32 - i) then 1 else 0)
  }

  /** Where the nine `rwxrwxrwx` entries start in `CanAccess`'s buffer: after one entry per set type bit, or after one `false`. */
  function PermStart(mode: bv32): (r: nat)
    ensures 1 <= r <= 13
  {
    var k := TypeBitCount(mode, 13);
    if k == 0 then 1 else k
  }

  /** Entry `j` of `rawPerms` in `CanAccess`: the set type bits, a padding `false` if there are none, then `rwxrwxrwx`. */
  function RawPerm(mode: bv32, j: nat): bool
    requires j < PermStart(mode) + 9
  {
    if j < TypeBitCount(mode, 13) then true
    else if j < PermStart(mode) then false
    else Bit(mode, 8 - (j - PermStart(mode)))
  }

  /** Entry `PermStart + i` of `rawPerms` is permission bit `8 - i`. */
  lemma RawPermAt(mode: bv32, i: nat)
    requires i < 9
    ensures RawPerm(mode, PermStart(mode) + i) == Bit(mode, 8 - i)
  {
  }

  /** What `CanAccess` reads: entries 1-3 for the owner, 4-6 for a group member, 7-9 for anyone else. */
  function AccessOf(f: Node, user: User): Perm
  {
    if user.username == f.owner then Perm(RawPerm(f.mode, 1), RawPerm(f.mode, 2), RawPerm(f.mode, 3))
    else if user.group == f.group then Perm(RawPerm(f.mode, 4), RawPerm(f.mode, 5), RawPerm(f.mode, 6))
    else Perm(RawPerm(f.mode, 7), RawPerm(f.mode, 8), RawPerm(f.mode, 9))
  }

  /** The permission classes of POSIX: owner bits 0o700, else group bits 0o070, else other bits 0o007. */
  function ModePerm(mode: bv32, owner: string, group: string, user: User): Perm
  {
    if user.username == owner then Perm(Bit(mode, 8), Bit(mode, 7), Bit(mode, 6))
    else if user.group == group then Perm(Bit(mode, 5), Bit(mode, 4), Bit(mode, 3))
    else Perm(Bit(mode, 2), Bit(mode, 1), Bit(mode, 0))
  }

  /**
    `f.CanAccess(user)`: fills a 32-entry buffer with one `true` per set type bit (31 down to 19),
    a `false` if there was none, then the nine permission bits, and reads the owner, group or
    other triple out of entries 1 to 9.
  */
  method CanAccess(f: Node, user: User) returns (perm: Perm)
    ensures perm == AccessOf(f, user)
  {
    var buf := new bool[32](_ => false);
    var start := MarkTypeBits(buf, f.mode);
    var w := MarkPermBits(buf, f.mode, start);
    var rawPerms := buf[..w];
    perm := Perm(false, false, false);
    if user.username == f.owner {
      perm := Perm(rawPerms[1], rawPerms[2], rawPerms[3]);
    } else if user.username != f.owner && user.group == f.group {
      perm := Perm(rawPerms[4], rawPerms[5], rawPerms[6]);
    } else if user.username != f.owner && user.group != f.group {
      perm := Perm(rawPerms[7], rawPerms[8], rawPerms[9]);
    }
  }

  /**
    The first half of `CanAccess`: one `true` per set type bit, from bit 31 down to bit 19, then
    a `false` if there was none. Returns the write index.
  */
  method MarkTypeBits(buf: array<bool>, mode: bv32) returns (w: nat)
    requires buf.Length == 32
    modifies buf
    ensures w == PermStart(mode)
    ensures forall k :: 0 <= k < w ==> buf[k] == RawPerm(mode, k)
  {
    w := 0;
    for i := 0 to 13
      invariant w == TypeBitCount(mode, i)
      invariant forall k :: 0 <= k < w ==> buf[k]
    {
      if Bit(mode, 32 - 1 - i) {
        buf[w] := true;
        w := w + 1;
      }
    }
    if w == 0 {
      buf[w] := false;
      w := w + 1;
    }
  }

  /** The second half of `CanAccess`: the nine permission bits `rwxrwxrwx`, from bit 8 down to bit 0. */
  method MarkPermBits(buf: array<bool>, mode: bv32, start: nat) returns (w: nat)
    requires buf.Length == 32 && start == PermStart(mode)
    requires forall k :: 0 <= k < start ==> buf[k] == RawPerm(mode, k)
    modifies buf
    ensures w == start + 9
    ensures forall k :: 0 <= k < w ==> buf[k] == RawPerm(mode, k)
  {
    w := start;
    for i := 0 to 9
      invariant w == start + i
      invariant forall k :: 0 <= k < w ==> buf[k] == RawPerm(mode, k)
    {
      RawPermAt(mode, i);
      if Bit(mode, 9 - 1 - i) {
        buf[w] := true;
      } else {
        buf[w] := false;
      }
      w := w + 1;
    }
  }

  /**
    With at most one of the 13 type bits set, `CanAccess` reads exactly the POSIX owner, group or
    other triple, the owner class taking precedence over the group class.
  */
  lemma AccessAligned(f: Node, user: User)
    requires TypeBitCount(f.mode, 13) <= 1
    ensures AccessOf(f, user) == ModePerm(f.mode, f.owner, f.group, user)
  {
  }

  /**
    With two type bits set, the triples shift by one: a sticky directory with mode 0o755 lets
    anyone outside its owner and group write to it, and denies them the execute bit it grants.
  */
  lemma AccessMisaligned()
    ensures var f := Node(T_DIR, "tmp", Some(map[]), "", 0x8010_01ED, "root", "root", 0, "", 0, None);
      var u := User("guest", "guest");
      && TypeBitCount(f.mode, 13) == 2
      && AccessOf(f, u) == Perm(true, true, false)
      && ModePerm(f.mode, f.owner, f.group, u) == Perm(true, false, true)
  {
  }

  /**
    The example of a file with mode rw-r----- owned by alice:staff: alice may read and write,
    another member of staff may only read, anyone else may do nothing.
  */
  lemma AccessExample()
    ensures var f := Node(T_FILE, "notes", None, "", 0x1A0, "alice", "staff", 0, "", 0, None);
      && AccessOf(f, User("alice", "wheel")) == Perm(true, true, false)
      && AccessOf(f, User("bob", "staff")) == Perm(true, false, false)
      && AccessOf(f, User("bob", "other")) == Perm(false, false, false)
  {
    var f := Node(T_FILE, "notes", None, "", 0x1A0, "alice", "staff", 0, "", 0, None);
    assert TypeBitCount(f.mode, 13) == 0;
    AccessAligned(f, User("alice", "wheel"));
    AccessAligned(f, User("bob", "staff"));
    AccessAligned(f, User("bob", "other"));
  }

  // ---------------------------------------------------------------------------------------
  // ForEach
  // ---------------------------------------------------------------------------------------

  /**
    `f.ForEach(callback)`: a `T_FILE` node is passed to the callback once, with index 0; any
    other node has the callback called once per child, in the map's unspecified order, with
    indices 0, 1, 2, ... . The calls are returned in the order they are made.
  */
  method ForEach(f: Node) returns (calls: seq<(Node, int)>, ghost order: seq<string>)
    ensures f.kind == T_FILE ==> calls == [(f, 0)]
    ensures f.kind != T_FILE ==>
      && |calls| == |order| == |Children(f)|
      && (forall k :: k in order <==> k in Children(f))
      && (forall i, j :: 0 <= i < j < |order| ==> order[i] != order[j])
      && (forall i :: 0 <= i < |calls| ==> calls[i] == (Children(f)[order[i]], i))
  {
    if f.kind == T_FILE {
      calls := [(f, 0)];
      order := [];
      return;
    }
    var kids := Children(f);
    var remaining := kids.Keys;
    calls, order := [], [];
    var i := 0;
    while remaining != {}
      invariant remaining <= kids.Keys
      invariant i == |calls| == |order|
      invariant forall k :: k in order <==> k in kids && k !in remaining
      invariant forall a, b :: 0 <= a < b < |order| ==> order[a] != order[b]
      invariant forall a :: 0 <= a < |calls| ==> calls[a] == (kids[order[a]], a)
      invariant |order| + |remaining| == |kids.Keys|
      decreases |remaining|
    {
      var k :| k in remaining;
      calls := calls + [(kids[k], i)];
      order := order + [k];
      remaining := remaining - {k};
      i := i + 1;
    }
    assert |kids.Keys| == |kids|;
  }
}
