/**
  A plugin's registration object (plugin/config.go): the map of command callbacks that a
  plugin's install script fills through `RegisterCommand`.
*/
module PluginConfig {
  import opened Wrappers

  /**
    A command implementation supplied by a plugin script. The script's code is not part of the
    model; a handler is known only by an uninterpreted handle, and Go's `nil` function is `None`.
  */
  datatype CommandFn = CommandFn(handle: nat)

  class Config {
    /** `CommandCallbacks`; `None` is Go's nil map of a `Config{}` that `Init` has not yet run on. */
    var commandCallbacks: Option<map<string, CommandFn>>

    /** `&Config{}`: the zero value, whose map is nil. */
    constructor ()
      ensures commandCallbacks == None
    {
      commandCallbacks := None;
    }

    /** `Init` allocates an empty callback map, dropping whatever was registered before. */
    method Init()
      modifies this
      ensures commandCallbacks == Some(map[])
    {
      commandCallbacks := Some(map[]);
    }

    /**
      `RegisterCommand(cmd, cmdFn)`: a nil function is refused and nothing changes; otherwise the
      handler is stored under `cmd`, replacing any earlier handler of that name, and no other
      entry changes. Storing into the nil map of an uninitialised `Config` is a Go runtime panic,
      reported here as `panicked`.
    */
    method RegisterCommand(cmd: string, cmdFn: Option<CommandFn>) returns (ok: bool, panicked: bool)
      modifies this
      ensures panicked <==> cmdFn.Some? && old(commandCallbacks).None?
      ensures ok <==> cmdFn.Some? && !panicked
      ensures !ok ==> commandCallbacks == old(commandCallbacks)
      ensures ok ==> commandCallbacks == Some(old(commandCallbacks).value[cmd := cmdFn.value])
      ensures ok ==> forall c :: c != cmd ==>
        (c in commandCallbacks.value <==> c in old(commandCallbacks).value) &&
        (c in commandCallbacks.value ==> commandCallbacks.value[c] == old(commandCallbacks).value[c])
    {
      panicked := false;
      if cmdFn.None? {
        ok := false;
        return;
      }
      if commandCallbacks.None? {
        ok, panicked := false, true;
        return;
      }
      commandCallbacks := Some(commandCallbacks.value[cmd := cmdFn.value]);
      ok := true;
    }
  }
}
