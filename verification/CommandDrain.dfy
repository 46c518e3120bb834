/** Draining the command ledger on the hosting device: pick, judge, mark, execute, resolve
    (crates/engine/src/doc_host.rs). */
module CommandDrain {
  import opened Common
  import opened Commands

  /** What executing a command leads to: the status to write, and the ids of the messages it
      adds to the transcript. */
  datatype Outcome = Outcome(status: Status, resolution: Option<string>, said: seq<string>)

  /** The document's commands and message ids, the processed ledger, and every execution. */
  datatype Host = Host(commands: seq<Command>, messages: seq<string>, processed: set<string>, executed: seq<Command>)

  predicate Ready(c: Command, processed: set<string>) { c.status.Pending? && c.id !in processed }

  function FirstReady(commands: seq<Command>, processed: set<string>): (k: nat)
    ensures k <= |commands|
    ensures k < |commands| ==> Ready(commands[k], processed)
    ensures forall j :: 0 <= j < k ==> !Ready(commands[j], processed)
  {
    if commands == [] || Ready(commands[0], processed) then 0 else 1 + FirstReady(commands[1..], processed)
  }

  function FirstWith(commands: seq<Command>, id: string): (k: nat)
    ensures k <= |commands|
    ensures k < |commands| ==> commands[k].id == id
    ensures forall j :: 0 <= j < k ==> commands[j].id != id
  {
    if commands == [] || commands[0].id == id then 0 else 1 + FirstWith(commands[1..], id)
  }

  /** The first entry with the id gets the status, and the resolution if there is one. */
  function Resolved(commands: seq<Command>, id: string, status: Status, resolution: Option<string>): seq<Command> {
    var k := FirstWith(commands, id);
    if k == |commands| then commands
    else
      var c := commands[k];
      commands[k := c.(status := status, resolution := if resolution.Some? then resolution else c.resolution)]
  }

  predicate Idle(h: Host) { FirstReady(h.commands, h.processed) == |h.commands| }

  function Picked(h: Host): Command
    requires !Idle(h)
  {
    h.commands[FirstReady(h.commands, h.processed)]
  }

  function Judged(h: Host, now: int): Verdict
    requires !Idle(h)
  {
    Evaluate(Picked(h), h.processed, now, h.commands, h.messages)
  }

  /** One pass of the loop, the execution included. */
  function Attend(h: Host, now: int, world: Command -> Outcome): Host
    requires !Idle(h)
  {
    var c := Picked(h);
    var marked := h.(processed := h.processed + {c.id});
    match Judged(h, now)
    case Skip => marked
    case Expire => marked.(commands := Resolved(h.commands, c.id, Expired, None))
    case Supersede => marked.(commands := Resolved(h.commands, c.id, Superseded, None))
    case Execute =>
      var o := world(c);
      marked.(commands := Resolved(h.commands, c.id, o.status, o.resolution),
              messages := h.messages + o.said, executed := h.executed + [c])
  }

  function ReadyCount(commands: seq<Command>, processed: set<string>): nat {
    if commands == [] then 0
    else (if Ready(commands[0], processed) then 1 else 0) + ReadyCount(commands[1..], processed)
  }

  lemma {:induction false} MarkingLessens(commands: seq<Command>, processed: set<string>, id: string)
    ensures ReadyCount(commands, processed + {id}) <= ReadyCount(commands, processed)
    ensures (exists c :: c in commands && c.id == id && Ready(c, processed)) ==>
      ReadyCount(commands, processed + {id}) < ReadyCount(commands, processed)
  {
    if commands != [] { MarkingLessens(commands[1..], processed, id); }
  }

  lemma {:induction false} RewritingMarked(commands: seq<Command>, processed: set<string>, k: nat, c: Command)
    requires k < |commands| && commands[k].id in processed && c.id == commands[k].id
    ensures ReadyCount(commands[k := c], processed) == ReadyCount(commands, processed)
  {
    var next := commands[k := c];
    if k == 0 {
      assert next[1..] == commands[1..];
    } else {
      assert next[1..] == commands[1..][k - 1 := c];
      RewritingMarked(commands[1..], processed, k - 1, c);
    }
  }

  /** Every pass uses up one ready entry, whatever the verdict and the outcome. */
  lemma AttendLessens(h: Host, now: int, world: Command -> Outcome)
    requires !Idle(h)
    ensures var n := Attend(h, now, world);
      ReadyCount(n.commands, n.processed) < ReadyCount(h.commands, h.processed)
  {
    var c, n := Picked(h), Attend(h, now, world);
    MarkingLessens(h.commands, h.processed, c.id);
    var k := FirstWith(h.commands, c.id);
    if n.commands != h.commands { RewritingMarked(h.commands, n.processed, k, n.commands[k]); }
  }

  /** The whole drain, the clock read once a pass. */
  function Drained(h: Host, clock: nat -> int, i: nat, world: Command -> Outcome): Host
    decreases ReadyCount(h.commands, h.processed)
  {
    if Idle(h) then h
    else
      AttendLessens(h, clock(i), world);
      Drained(Attend(h, clock(i), world), clock, i + 1, world)
  }

  /** The branch that skips a processed entry is never reached: such an entry is not picked. */
  lemma NothingIsSkipped(h: Host, now: int)
    requires !Idle(h)
    ensures !Judged(h, now).Skip?
  {
  }

  class DocHost {
    var commands: seq<Command>
    var messages: seq<string>
    var processed: set<string>
    ghost var executed: seq<Command>

    ghost function State(): Host reads this { Host(commands, messages, processed, executed) }

    method FindReady(skipped: set<string>) returns (k: nat)
      ensures skipped == {} ==> k == FirstReady(commands, processed)
    {
      k := 0;
      assert commands[0..] == commands;
      while k < |commands| && !(Ready(commands[k], processed) && commands[k].id !in skipped)
        invariant k <= |commands|
        invariant skipped == {} ==> FirstReady(commands, processed) == k + FirstReady(commands[k..], processed)
      {
        assert commands[k..][0] == commands[k] && commands[k..][1..] == commands[k + 1..];
        k := k + 1;
      }
    }

    method ResolveCommand(id: string, status: Status, resolution: Option<string>)
      modifies `commands
      ensures commands == Resolved(old(commands), id, status, resolution)
    {
      var k := 0;
      while k < |commands|
        invariant k <= |commands| && commands == old(commands)
        invariant forall j :: 0 <= j < k ==> commands[j].id != id
      {
        var c := commands[k];
        if c.id == id {
          commands := commands[k := c.(status := status, resolution := if resolution.Some? then resolution else c.resolution)];
          return;
        }
        k := k + 1;
      }
    }

    /** The loop: it terminates, and does what `Drained` says. */
    method DrainCommands(clock: nat -> int, world: Command -> Outcome)
      modifies this
      ensures State() == Drained(old(State()), clock, 0, world)
    {
      var skipped: set<string> := {};
      var i := 0;
      while true
        invariant skipped == {}
        invariant Drained(State(), clock, i, world) == Drained(old(State()), clock, 0, world)
        decreases ReadyCount(commands, processed)
      {
        ghost var before := State();
        var k := FindReady(skipped);
        if k == |commands| { return; }
        var entry := commands[k];
        var verdict := Evaluate(entry, processed, clock(i), commands, messages);
        AttendLessens(before, clock(i), world);
        processed := processed + {entry.id};
        match verdict {
          case Skip => skipped := skipped + {entry.id};
          case Expire => ResolveCommand(entry.id, Expired, None);
          case Supersede => ResolveCommand(entry.id, Superseded, None);
          case Execute =>
            executed := executed + [entry];
            var o := world(entry);
            messages := messages + o.said;
            ResolveCommand(entry.id, o.status, o.resolution);
        }
        assert State() == Attend(before, clock(i), world);
        i := i + 1;
      }
    }
  }
}
