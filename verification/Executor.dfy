/** The command registry. */
module Executor {
  import opened Bytes
  import opened Session
  import opened Invariants

  class Executor {
    var cmds: seq<Command>

    constructor ()
      ensures cmds == []
    {
      cmds := [];
    }

    /** Registers a command; the duplicate check is an assertion, so a caller must
        bring a new name. */
    method PushNewCommand(e: Command)
      requires DistinctCommands(cmds) && forall i :: 0 <= i < |cmds| ==> cmds[i].name != e.name
      modifies this
      ensures cmds == old(cmds) + [e]
      ensures DistinctCommands(cmds)
    {
      for i := 0 to |cmds| {
        assert cmds[i].name != e.name;
      }
      cmds := cmds + [e];
    }
  }

  /** Command i, and no other, has this name. */
  predicate OnlyNamed(cmds: seq<Command>, i: int, name: Bytes) {
    && 0 <= i < |cmds| && cmds[i].name == name
    && forall j :: 0 <= j < |cmds| && j != i ==> cmds[j].name != name
  }

  /** Dispatch is single-valued: a line runs the one command its first word names, or
      nothing is so named and the sender gets one not-found reply. */
  lemma RunsExactlyOne(s: Server, p: nat, line: Bytes)
    requires p < |s.clients| && DistinctCommands(s.cmds)
    ensures var args := Args(line);
      if FindCommand(s.cmds, args[0]).Some? then
        exists i :: OnlyNamed(s.cmds, i, args[0]) && Dispatch(s, p, line) == RunBody(s, p, s.cmds[i].body, args)
      else
        && Dispatch(s, p, line) == SendTo(s, s.clients[p].sock, Direct(NotFound(line)))
        && forall i :: 0 <= i < |s.cmds| ==> s.cmds[i].name != args[0]
  {
    hide Args, Direct, NotFound, RunBody;
    var cmd := FindCommand(s.cmds, Args(line)[0]);
    if cmd.Some? {
      var i :| 0 <= i < |s.cmds| && s.cmds[i] == cmd.value;
      assert OnlyNamed(s.cmds, i, Args(line)[0]);
    }
  }
}
