/**
  The plugin manager (plugin/manager.go): it initialises the scanned plugins in order, collects
  those that intercept password logins, and merges the commands they register into one map.

  A plugin's initialisation runs its Lua script, which is not part of this model: a plugin
  carries the outcome of its `Init` — an error, or the command map its install function
  registered through `Config.RegisterCommand` and whether it set a password interceptor.
*/
module Manager {
  import opened Wrappers
  import opened PluginConfig

  /** A password interceptor supplied by a plugin script, known only by an uninterpreted handle. */
  datatype Interceptor = Interceptor(handle: nat)

  /** What `Plugin.Init` yields. */
  datatype InitOutcome =
    | InitFailed(msg: string)
    | Initialised(commands: map<string, CommandFn>, interceptor: Option<Interceptor>)

  datatype Plugin = Plugin(path: string, init: InitOutcome)

  /** `HasPasswordIntercept`, for an initialised plugin. */
  predicate HasPasswordIntercept(p: Plugin)
  {
    p.init.Initialised? && p.init.interceptor.Some?
  }

  /** `Commands()`, for an initialised plugin; nothing for one whose `Init` failed. */
  function Commands(p: Plugin): map<string, CommandFn>
  {
    if p.init.Initialised? then p.init.commands else map[]
  }

  /** How many plugins at the front of the list initialise without error. */
  function InitPrefix(ps: seq<Plugin>): (k: nat)
    ensures k <= |ps|
    ensures forall i :: 0 <= i < k ==> ps[i].init.Initialised?
    ensures k < |ps| ==> ps[k].init.InitFailed?
  {
    if |ps| == 0 || ps[0].init.InitFailed? then 0 else 1 + InitPrefix(ps[1..])
  }

  /** The plugins that intercept password logins, in list order. */
  function Intercepting(ps: seq<Plugin>): seq<Plugin>
  {
    if |ps| == 0 then []
    else Intercepting(ps[..|ps| - 1]) + (if HasPasswordIntercept(ps[|ps| - 1]) then [ps[|ps| - 1]] else [])
  }

  /** The plugins' command maps merged in list order: a later plugin's command replaces an earlier one of the same name. */
  function MergedCommands(ps: seq<Plugin>): map<string, CommandFn>
  {
    if |ps| == 0 then map[] else MergedCommands(ps[..|ps| - 1]) + Commands(ps[|ps| - 1])
  }

  class PluginManager {
    var plugins: seq<Plugin>
    var passwordPlugins: seq<Plugin>
    var commandMap: map<string, CommandFn>

    /** `passwordPlugins` holds only plugins that intercept password logins. */
    ghost predicate Valid()
      reads this
    {
      forall i :: 0 <= i < |passwordPlugins| ==> HasPasswordIntercept(passwordPlugins[i])
    }

    /** `&PluginManager{}`: no plugins, nil slices and a nil map, which read as empty. */
    constructor ()
      ensures plugins == [] && passwordPlugins == [] && commandMap == map[]
      ensures Valid()
    {
      plugins, passwordPlugins, commandMap := [], [], map[];
    }

    /**
      `LoadPlugins(path)`: `scanned` and `scanErr` stand for the directory scan's result, whose
      list is kept even when it comes with an error. The password plugins and the command map are
      reset before the error is looked at. Plugins are then initialised in order; the first
      failure is returned at once, with the plugins before it merged and none after it.
    */
    method LoadPlugins(scanned: seq<Plugin>, scanErr: Option<string>) returns (err: Option<string>)
      modifies this
      ensures Valid()
      ensures plugins == scanned
      ensures scanErr.Some? ==> err == scanErr && passwordPlugins == [] && commandMap == map[]
      ensures scanErr.None? ==>
        var k := InitPrefix(scanned);
        && err == (if k < |scanned| then Some(scanned[k].init.msg) else None)
        && passwordPlugins == Intercepting(scanned[..k])
        && commandMap == MergedCommands(scanned[..k])
    {
      plugins := scanned;
      passwordPlugins := [];
      commandMap := map[];
      if scanErr.Some? {
        return scanErr;
      }
      var i := 0;
      while i < |plugins|
        invariant 0 <= i <= |plugins| && plugins == scanned
        invariant forall j :: 0 <= j < i ==> plugins[j].init.Initialised?
        invariant passwordPlugins == Intercepting(plugins[..i])
        invariant commandMap == MergedCommands(plugins[..i])
        invariant Valid()
      {
        var pl := plugins[i];
        if pl.init.InitFailed? {
          InitPrefixAt(plugins, i);
          return Some(pl.init.msg);
        }
        Install(pl);
        assert plugins[..i + 1][..i] == plugins[..i];
        i := i + 1;
      }
      InitPrefixAt(plugins, |plugins|);
      assert plugins[..|plugins|] == plugins;
      return None;
    }

    /**
      One turn of `LoadPlugins`' loop for a plugin whose `Init` succeeded: it joins the password
      plugins when it intercepts, and each of its commands is copied into the command map.
    */
    method Install(pl: Plugin)
      requires Valid() && pl.init.Initialised?
      modifies this
      ensures Valid()
      ensures plugins == old(plugins)
      ensures passwordPlugins == old(passwordPlugins) + (if HasPasswordIntercept(pl) then [pl] else [])
      ensures commandMap == old(commandMap) + Commands(pl)
    {
      var intercepts := passwordPlugins;
      if HasPasswordIntercept(pl) {
        intercepts := intercepts + [pl];
      }
      assert forall i :: 0 <= i < |intercepts| ==> HasPasswordIntercept(intercepts[i]);
      var cmds := Commands(pl);
      var merged := CopyCommands(commandMap, cmds);
      UnionPointwise(commandMap, cmds, merged);
      passwordPlugins, commandMap := intercepts, merged;
    }

    /** `GetCommand(cmd)`: the handler registered under `cmd`, or `(nil, false)`; nothing changes. */
    function GetCommand(cmd: string): (r: Option<CommandFn>)
      reads this
      ensures r.Some? <==> cmd in commandMap
      ensures r.Some? ==> r.value == commandMap[cmd]
    {
      if cmd in commandMap then Some(commandMap[cmd]) else None
    }

    /** `GetPasswordIntercepts()`: the password plugins, each of which has an interceptor. */
    function GetPasswordIntercepts(): (r: seq<Plugin>)
      requires Valid()
      reads this
      ensures forall i :: 0 <= i < |r| ==> HasPasswordIntercept(r[i])
    {
      passwordPlugins
    }
  }

  /**
    The `for name, fn := range plugin.Commands()` loop: each command of `cmds` is written into
    `m`, replacing an entry of the same name.
  */
  method CopyCommands(m: map<string, CommandFn>, cmds: map<string, CommandFn>) returns (r: map<string, CommandFn>)
    ensures r.Keys == m.Keys + cmds.Keys
    ensures forall c :: c in cmds ==> r[c] == cmds[c]
    ensures forall c :: c in m && c !in cmds ==> r[c] == m[c]
  {
    r := m;
    var todo := cmds.Keys;
    while todo != {}
      invariant todo <= cmds.Keys
      invariant r.Keys == m.Keys + (cmds.Keys - todo)
      invariant forall c :: c in cmds && c !in todo ==> r[c] == cmds[c]
      invariant forall c :: c in m && c !in cmds ==> r[c] == m[c]
      decreases todo
    {
      var c :| c in todo;
      r := r[c := cmds[c]];
      todo := todo - {c};
    }
  }

  /** A map that agrees with `m + cmds` key by key is `m + cmds`. */
  lemma UnionPointwise(m: map<string, CommandFn>, cmds: map<string, CommandFn>, r: map<string, CommandFn>)
    requires r.Keys == m.Keys + cmds.Keys
    requires forall c :: c in cmds ==> r[c] == cmds[c]
    requires forall c :: c in m && c !in cmds ==> r[c] == m[c]
    ensures r == m + cmds
  {
    assert r.Keys == (m + cmds).Keys;
  }

  /** `InitPrefix` is the index of the first failure when every plugin before it initialises. */
  lemma {:induction false} InitPrefixAt(ps: seq<Plugin>, k: nat)
    requires k <= |ps|
    requires forall j :: 0 <= j < k ==> ps[j].init.Initialised?
    requires k < |ps| ==> ps[k].init.InitFailed?
    ensures InitPrefix(ps) == k
  {
    if k > 0 {
      InitPrefixAt(ps[1..], k - 1);
    }
  }

  /**
    The password plugins are the subsequence, in list order, of the plugins that intercept:
    `idx` names, in increasing order, the position each of them holds in the list, and every
    intercepting plugin of the list is among them.
  */
  lemma {:induction false} InterceptingIsOrderedFilter(ps: seq<Plugin>) returns (idx: seq<nat>)
    ensures |idx| == |Intercepting(ps)|
    ensures forall t :: 0 <= t < |idx| ==> idx[t] < |ps| && Intercepting(ps)[t] == ps[idx[t]]
    ensures forall s, t :: 0 <= s < t < |idx| ==> idx[s] < idx[t]
    ensures forall i :: 0 <= i < |ps| && HasPasswordIntercept(ps[i]) ==> i in idx
    ensures forall t :: 0 <= t < |idx| ==> HasPasswordIntercept(Intercepting(ps)[t])
  {
    if |ps| == 0 {
      idx := [];
    } else {
      var front := ps[..|ps| - 1];
      var prev := InterceptingIsOrderedFilter(front);
      var last := |ps| - 1;
      if HasPasswordIntercept(ps[last]) {
        idx := prev + [last];
      } else {
        idx := prev;
      }
      forall i | 0 <= i < |ps| && HasPasswordIntercept(ps[i]) ensures i in idx {
        if i < last {
          assert front[i] == ps[i];
        }
      }
    }
  }

  /** Plugin `i` of `ps` registers `c`, and no plugin after it does. */
  ghost predicate LastDefines(ps: seq<Plugin>, c: string, i: int)
  {
    0 <= i < |ps| && c in Commands(ps[i]) && forall j :: i < j < |ps| ==> c !in Commands(ps[j])
  }

  /**
    The merged map holds exactly the commands some plugin registered, each with the handler of
    the last plugin in list order that registered it.
  */
  lemma MergedCommandsLastWins(ps: seq<Plugin>, c: string)
    ensures c in MergedCommands(ps) <==> exists i :: 0 <= i < |ps| && c in Commands(ps[i])
    ensures c in MergedCommands(ps) ==> exists i :: LastDefines(ps, c, i) && MergedCommands(ps)[c] == Commands(ps[i])[c]
  {
    MergedCommandsHas(ps, c);
    if c in MergedCommands(ps) {
      MergedCommandsFrom(ps, c);
    }
  }

  /** A command is in the merged map exactly when some plugin registers it. */
  lemma {:induction false} MergedCommandsHas(ps: seq<Plugin>, c: string)
    ensures c in MergedCommands(ps) <==> exists i :: 0 <= i < |ps| && c in Commands(ps[i])
  {
    if |ps| > 0 {
      var front := ps[..|ps| - 1];
      var last := |ps| - 1;
      MergedCommandsHas(front, c);
      if c in MergedCommands(front) {
        var i :| 0 <= i < |front| && c in Commands(front[i]);
        assert ps[i] == front[i];
      }
      if exists i :: 0 <= i < |ps| && c in Commands(ps[i]) {
        var i :| 0 <= i < |ps| && c in Commands(ps[i]);
        if i < last {
          assert front[i] == ps[i];
        }
      }
    }
  }

  /** A command in the merged map holds the handler of the last plugin that registers it. */
  lemma {:induction false} MergedCommandsFrom(ps: seq<Plugin>, c: string)
    requires c in MergedCommands(ps)
    ensures exists i :: LastDefines(ps, c, i) && MergedCommands(ps)[c] == Commands(ps[i])[c]
  {
    var front := ps[..|ps| - 1];
    var last := |ps| - 1;
    if c in Commands(ps[last]) {
      assert LastDefines(ps, c, last);
    } else {
      MergedCommandsFrom(front, c);
      var i :| LastDefines(front, c, i) && MergedCommands(front)[c] == Commands(front[i])[c];
      assert ps[i] == front[i];
      forall j | i < j < |ps| ensures c !in Commands(ps[j]) {
        if j < last {
          assert ps[j] == front[j];
        }
      }
      assert LastDefines(ps, c, i);
    }
  }

  /** Initialising and merging a list of two plugins that both register `ls`: the later handler is kept. */
  lemma MergeExample()
    ensures var a := Plugin("a", Initialised(map["ls" := CommandFn(1), "cat" := CommandFn(2)], None));
      var b := Plugin("b", Initialised(map["ls" := CommandFn(3)], Some(Interceptor(7))));
      && MergedCommands([a, b]) == map["ls" := CommandFn(3), "cat" := CommandFn(2)]
      && Intercepting([a, b]) == [b]
  {
    var a := Plugin("a", Initialised(map["ls" := CommandFn(1), "cat" := CommandFn(2)], None));
    var b := Plugin("b", Initialised(map["ls" := CommandFn(3)], Some(Interceptor(7))));
    assert [a, b][..1] == [a];
    assert [a][..0] == [];
    assert MergedCommands([a]) == Commands(a);
    assert MergedCommands([a, b]) == Commands(a) + Commands(b);
    assert Intercepting([a]) == [];
    assert Intercepting([a, b]) == [b];
  }
}
