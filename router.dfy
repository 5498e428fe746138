/** The execution router `runCmdLine` of src/cmd_line/main.ts: it decides
    whether a command line runs on the local command implementation or is
    delegated to an embedded Neovim (`run`, modelled by `Session`). The parser
    is abstract: a function from the command text to the outcome of parsing
    it (and, for a local command, of executing it). */
module Router {
  import opened Wrappers

  /** What `parser.parse(command)` does. */
  datatype ParseOutcome =
    | ParseThrows                          // parse raises
    | ParsedEmpty                          // the parsed command line `isEmpty`
    | NeovimCapable                        // its command is marked `neovimCapable`
    | LocalCommand(executeSucceeds: bool)  // any other command; does `execute` resolve?

  /** What `console.log` reports after a delegation. */
  datatype LogEntry =
    | Substituted   // "Substituted for neovim command": a neovimCapable command ran
    | Succeeded     // "SUCCESS": the fallback delegation ran
    | Rejected      // the error `run` rejected with

  /** One thing `runCmdLine` does, in the order it does them. */
  datatype Action =
    | Parse                   // parser.parse(command)
    | Execute                 // cmd.execute(editor, modeHandler)
    | Run(command: string)    // run(vimState, command)
    | Log(entry: LogEntry)    // console.log in the handlers of run's promise

  /** The commands handed to `run`, in order. */
  function Runs(actions: seq<Action>): seq<string>
  {
    if actions == [] then []
    else (if actions[0].Run? then [actions[0].command] else []) + Runs(actions[1..])
  }

  /** `command` is neither undefined nor empty. */
  predicate Present(command: Option<string>)
  {
    command.Some? && command.value != ""
  }

  /** Calls `run` on `command` and logs how it settled; a rejection is
      caught here and never propagates. */
  function Delegate(command: string, onSuccess: LogEntry, runSucceeds: bool): (actions: seq<Action>)
    requires onSuccess != Rejected
    ensures |actions| == 2 && actions[0] == Run(command) && actions[1].Log?
    ensures actions[1].entry == Rejected <==> !runSucceeds
  {
    [Run(command), Log(if runSucceeds then onSuccess else Rejected)]
  }

  /** `runCmdLine(command, modeHandler)`: `parse` stands for the parser and
      for `execute`, `runSucceeds` for whether `run` resolves. The result
      holds every action taken; it has no error case because every failure
      is caught: the router always completes normally. */
  function RunCmdLine(command: Option<string>, parse: string -> ParseOutcome, runSucceeds: bool): (actions: seq<Action>)
    ensures !Present(command) ==> actions == []
    ensures Execute in actions <==> Present(command) && parse(command.value).LocalCommand?
    ensures forall i, j :: 0 <= i < |actions| && 0 <= j < |actions| && actions[i] == Execute && actions[j].Run? ==> i < j
    ensures forall i :: 0 <= i < |actions| && actions[i].Run? ==>
      i + 1 < |actions| && actions[i + 1].Log? && (actions[i + 1].entry == Rejected <==> !runSucceeds)
  {
    if !Present(command) then []
    else
      var c := command.value;
      match parse(c)
      case ParsedEmpty => [Parse]
      case NeovimCapable => [Parse] + Delegate(c, Substituted, runSucceeds)
      case LocalCommand(ok) =>
        if ok then [Parse, Execute] else [Parse, Execute] + Delegate(c, Succeeded, runSucceeds)
      case ParseThrows => [Parse] + Delegate(c, Succeeded, runSucceeds)
  }

  /** The command lines that end up in Neovim: those the parser rejects,
      those it marks `neovimCapable`, and local commands whose execution fails. */
  predicate Delegated(command: Option<string>, parse: string -> ParseOutcome)
  {
    && Present(command)
    && (parse(command.value) == ParseThrows || parse(command.value) == NeovimCapable
        || parse(command.value) == LocalCommand(false))
  }

  lemma {:induction false} RunsAppend(a: seq<Action>, b: seq<Action>)
    ensures Runs(a + b) == Runs(a) + Runs(b)
  {
    if a != [] {
      assert (a + b)[0] == a[0] && (a + b)[1..] == a[1..] + b;
      RunsAppend(a[1..], b);
    } else {
      assert a + b == b;
    }
  }

  lemma RunsOfDelegate(command: string, onSuccess: LogEntry, runSucceeds: bool)
    requires onSuccess != Rejected
    ensures Runs(Delegate(command, onSuccess, runSucceeds)) == [command]
  {
    var d := Delegate(command, onSuccess, runSucceeds);
    assert d[1..][1..] == [];
    assert Runs(d[1..]) == [];
  }

  /** `run` is called exactly once, with the command as typed (no `:`
      prefix), when the command is delegated, and never otherwise. */
  lemma {:induction false} RunsExactlyWhenDelegated(command: Option<string>, parse: string -> ParseOutcome, runSucceeds: bool)
    ensures Runs(RunCmdLine(command, parse, runSucceeds))
         == if Delegated(command, parse) then [command.value] else []
  {
    if Present(command) {
      var c := command.value;
      var outcome := parse(c);
      var head := if outcome.LocalCommand? then [Parse, Execute] else [Parse];
      assert Runs([Parse]) == [];
      assert [Parse, Execute][1..] == [Execute];
      assert Runs([Parse, Execute]) == [];
      if outcome != ParsedEmpty && outcome != LocalCommand(true) {
        var onSuccess := if outcome == NeovimCapable then Substituted else Succeeded;
        assert RunCmdLine(command, parse, runSucceeds) == head + Delegate(c, onSuccess, runSucceeds);
        RunsAppend(head, Delegate(c, onSuccess, runSucceeds));
        RunsOfDelegate(c, onSuccess, runSucceeds);
      }
    }
  }

  /** Both a local execution and a delegation happen exactly when a local
      command's execution fails: the delegation is its fallback. */
  lemma BothOnlyWhenLocalFails(command: Option<string>, parse: string -> ParseOutcome, runSucceeds: bool)
    ensures var actions := RunCmdLine(command, parse, runSucceeds);
      (Execute in actions && Runs(actions) != []) <==> Present(command) && parse(command.value) == LocalCommand(false)
  {
    RunsExactlyWhenDelegated(command, parse, runSucceeds);
  }

  /** A present command that does not parse to an empty command line is
      executed locally or delegated, never left undone. */
  lemma NeverNeither(command: Option<string>, parse: string -> ParseOutcome, runSucceeds: bool)
    requires Present(command) && parse(command.value) != ParsedEmpty
    ensures var actions := RunCmdLine(command, parse, runSucceeds);
      Execute in actions || Runs(actions) == [command.value]
  {
    RunsExactlyWhenDelegated(command, parse, runSucceeds);
  }
}
