/**
 * The plain list of running commands a server owns
 * (cpc/server/state/cmdlist.py): commands keyed by id, with no heartbeat
 * data.
 */
module CommandLists {
  import opened Wrappers
  import opened Text
  import opened Commands
  import opened Heartbeats
  import opened Enumerations

  /** The errors the list raises: an unknown id, or an id that is already running. */
  datatype CmdListError = NotFound(id: CmdKey) | DuplicateId

  class RunningCmdList {
    var cmds: map<CmdKey, Command>

    constructor()
      ensures cmds == map[]
    {
      cmds := map[];
    }

    /** get: the command stored under `id`; an unknown id raises. */
    function Get(id: CmdKey): (r: Result<Command, CmdListError>)
      reads this
      ensures r.Ok? <==> id in cmds
      ensures r.Ok? ==> r.value == cmds[id]
      ensures r.Err? ==> r.error == NotFound(id)
    {
      if id in cmds then Ok(cmds[id]) else Err(NotFound(id))
    }

    /**
     * add: the command is stored under its id and marked running at
     * `location`; an id already present raises and changes nothing.
     */
    method Add(cmd: Command, location: String) returns (r: Result<(), CmdListError>)
      modifies this, cmd
      ensures r.Err? <==> old(cmd.id) in old(cmds)
      ensures r.Err? ==> r.error == DuplicateId && cmds == old(cmds) && unchanged(cmd)
      ensures cmd.id == old(cmd.id)
      ensures r.Ok? ==> cmds == old(cmds)[cmd.id := cmd] && cmd.running && cmd.workerServer == Some(location)
      ensures r.Ok? ==> cmd.args == old(cmd.args) && cmd.task == old(cmd.task) && cmd.addPriority == old(cmd.addPriority)
      ensures r.Ok? ==> cmd.cputime == old(cmd.cputime) && cmd.env == old(cmd.env) && cmd.outputFiles == old(cmd.outputFiles)
      ensures r.Ok? ==> cmd.reserved == old(cmd.reserved) && cmd.minRequired == old(cmd.minRequired)
                        && cmd.maxAllowed == old(cmd.maxAllowed)
    {
      if cmd.id in cmds {
        return Err(DuplicateId);
      }
      cmds := cmds[cmd.id := cmd];
      cmd.SetRunning(true, Some(location));
      return Ok(());
    }

    /** remove: the command's entry is deleted; an unknown command raises and changes nothing. */
    method Remove(cmd: Command) returns (r: Result<(), CmdListError>)
      modifies this
      ensures r.Ok? <==> cmd.id in old(cmds)
      ensures r.Err? ==> r.error == NotFound(cmd.id)
      ensures cmds == old(cmds) - {cmd.id}
    {
      if cmd.id !in cmds {
        return Err(NotFound(cmd.id));
      }
      cmds := cmds - {cmd.id};
      return Ok(());
    }

    /** handleFinished: as remove. */
    method HandleFinished(cmd: Command) returns (r: Result<(), CmdListError>)
      modifies this
      ensures r.Ok? <==> cmd.id in old(cmds)
      ensures r.Err? ==> r.error == NotFound(cmd.id)
      ensures cmds == old(cmds) - {cmd.id}
    {
      r := Remove(cmd);
    }

    /**
     * list: every stored command once, in the order `order` the dictionary
     * lists its ids.
     */
    method List() returns (ret: seq<Command>, ghost order: seq<CmdKey>)
      ensures Enumerates(order, cmds.Keys)
      ensures |ret| == |order| && forall i :: 0 <= i < |ret| ==> ret[i] == cmds[order[i]]
    {
      var keys := cmds.Keys;
      ret, order := [], [];
      while keys != {}
        invariant keys <= cmds.Keys
        invariant Enumerates(order, cmds.Keys - keys)
        invariant |ret| == |order| && forall i :: 0 <= i < |ret| ==> ret[i] == cmds[order[i]]
        decreases |keys|
      {
        var k :| k in keys;
        EnumeratesNext(order, cmds.Keys, keys, k);
        ret, order := ret + [cmds[k]], order + [k];
        keys := keys - {k};
      }
      assert cmds.Keys - keys == cmds.Keys;
    }
  }
}
