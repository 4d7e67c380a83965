/**
  A shell session (plugin/session.go): the working directory, which is mirrored into the
  session's filesystem, the terminal it writes to, and the tab-completion callback.

  The terminal is modelled by what has been written to it, one `Write` call per element. Command
  matching for completion is not declared in the plugin package, so the callback receives it as
  a parameter.
*/
module Sessions {
  import opened Wrappers
  import opened VfsNode
  import opened Vfs
  import opened Manager

  /** The session's terminal, as the sequence of writes made to it. */
  class Terminal {
    var written: seq<string>

    constructor ()
      ensures written == []
    {
      written := [];
    }

    /** `Term.Write(data)`: one more write at the end, nothing else changes. */
    method Write(data: string)
      modifies this
      ensures written == old(written) + [data]
    {
      written := written + [data];
    }
  }

  class Session {
    var vfs: VFS
    var username: string
    var term: Terminal
    var manager: PluginManager?
    var pwd: string

    /** A session as the server builds it: no working directory yet. */
    constructor (vfs: VFS, username: string, term: Terminal, manager: PluginManager?)
      ensures this.vfs == vfs && this.username == username && this.term == term
      ensures this.manager == manager && this.pwd == ""
    {
      this.vfs := vfs;
      this.username := username;
      this.term := term;
      this.manager := manager;
      this.pwd := "";
    }

    /**
      `Chdir(newPath)`: the session's directory and its filesystem's directory both become
      `newPath`, which is not checked against the tree; nothing else changes.
    */
    method Chdir(newPath: string)
      modifies this, vfs
      ensures pwd == newPath && vfs.pwd == newPath
      ensures vfs == old(vfs) && term == old(term) && manager == old(manager) && username == old(username)
      ensures vfs.root == old(vfs.root) && vfs.home == old(vfs.home) && vfs.user == old(vfs.user)
    {
      vfs.pwd := newPath;
      pwd := newPath;
    }

    /** `GetPWD()`: the directory given to the last `Chdir`, the same one the filesystem resolves against. */
    function GetPWD(): string
      reads this
    {
      pwd
    }

    /** `TermWrite(data...)`: one terminal write per argument, in order. */
    method TermWrite(data: seq<string>)
      modifies term
      ensures term.written == old(term.written) + data
    {
      var i := 0;
      while i < |data|
        invariant 0 <= i <= |data|
        invariant term.written == old(term.written) + data[..i]
      {
        term.Write(data[i]);
        assert data[..i + 1] == data[..i] + [data[i]];
        i := i + 1;
      }
      assert data[..|data|] == data;
    }

    /**
      `AutoCompleteCallback(line, pos, key)`: on a tab (`key == 9`) each matching command is
      written, then a newline; any other key writes nothing. The line and the cursor come back
      unchanged and `ok` is always false, because the named result `ok` is never assigned.
    */
    method AutoCompleteCallback(line: string, pos: int, key: int, matchCommand: string -> seq<string>)
      returns (newLine: string, newPos: int, ok: bool)
      modifies term
      ensures newLine == line && newPos == pos && !ok
      ensures term.written == old(term.written) + (if key == 9 then matchCommand(line) + ["\n"] else [])
    {
      ok := false;
      if key == 9 {
        var matching := matchCommand(line);
        var i := 0;
        while i < |matching|
          invariant 0 <= i <= |matching|
          invariant term.written == old(term.written) + matching[..i]
        {
          term.Write(matching[i]);
          assert matching[..i + 1] == matching[..i] + [matching[i]];
          i := i + 1;
        }
        assert matching[..|matching|] == matching;
        term.Write("\n");
      }
      return line, pos, ok;
    }
  }

  /**
    After `Chdir(p)` the session reports `p`, and a lookup through the session's filesystem
    resolves a relative path against `p`.
  */
  method ChdirThenFind(s: Session, p: string, path: string) returns (pwd: string, found: Result<(string, Node), VfsError>)
    modifies s, s.vfs
    ensures pwd == p
    ensures found == FindFileIn(old(s.vfs.root), old(s.vfs.home), p, old(s.vfs.user), path)
  {
    s.Chdir(p);
    pwd := s.GetPWD();
    found := s.vfs.FindFile(path);
  }
}
