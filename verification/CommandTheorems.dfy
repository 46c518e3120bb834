/** What a drain does to the commands it finds, and what no run of drains and crashes can do. */
module CommandTheorems {
  import opened Common
  import opened Commands
  import opened CommandDrain

  // ----- one drain -----

  /** A drain leaves nothing ready, and has marked everything that was. */
  lemma {:induction false} DrainUsesUpTheReady(h: Host, clock: nat -> int, i: nat, world: Command -> Outcome)
    ensures var n := Drained(h, clock, i, world);
      Idle(n) && h.processed <= n.processed && forall c :: c in h.commands && Ready(c, h.processed) ==> c.id in n.processed
    decreases ReadyCount(h.commands, h.processed)
  {
    if Idle(h) {
      NoneReady(h);
    } else {
      AttendLessens(h, clock(i), world);
      OthersStayReady(h, clock(i), world);
      DrainUsesUpTheReady(Attend(h, clock(i), world), clock, i + 1, world);
    }
  }

  lemma NoneReady(h: Host)
    requires Idle(h)
    ensures forall c :: c in h.commands ==> !Ready(c, h.processed)
  {
    forall c | c in h.commands ensures !Ready(c, h.processed) {
      var j :| 0 <= j < |h.commands| && h.commands[j] == c;
    }
  }

  /** A pass marks the command it picked, and leaves every other ready one ready. */
  lemma OthersStayReady(h: Host, now: int, world: Command -> Outcome)
    requires !Idle(h)
    ensures var n := Attend(h, now, world);
      && n.processed == h.processed + {Picked(h).id}
      && forall c :: c in h.commands && Ready(c, h.processed) && c.id != Picked(h).id ==>
           c in n.commands && Ready(c, n.processed)
  {
    var n := Attend(h, now, world);
    forall c | c in h.commands && Ready(c, h.processed) && c.id != Picked(h).id
      ensures c in n.commands && Ready(c, n.processed)
    {
      var j :| 0 <= j < |h.commands| && h.commands[j] == c;
      assert n.commands[j] == c;
    }
  }

  /** How a command came to be executed: it stood ready, before the time it states or else within
      a day, unreplaced, and if it is an interrupt that names a turn, that turn was not over. */
  ghost predicate Justified(c: Command, h: Host, now: int) {
    && c in h.commands && Ready(c, h.processed) && !Late(c, now)
    && (c.kind.Steer? || c.kind.Interrupt? ==>
          forall o :: o in h.commands && Waiting(o, c.kind) && o.id != c.id ==> o.issuedAt <= c.issuedAt)
    && (c.kind.Interrupt? && c.aimedAt.Some? && c.aimedAt.value in h.messages ==>
          h.messages[|h.messages| - 1] == c.aimedAt.value)
  }

  /** Every execution of a drain is justified in the state and at the time of some pass. */
  lemma {:induction false} DrainExecutesOnlyTheJustified(h: Host, clock: nat -> int, i: nat, world: Command -> Outcome, c: Command)
      returns (at: Host, n: nat)
    requires c in Drained(h, clock, i, world).executed && c !in h.executed
    ensures n >= i && Justified(c, at, clock(n)) && h.processed <= at.processed && h.messages <= at.messages
    decreases ReadyCount(h.commands, h.processed)
  {
    AttendLessens(h, clock(i), world);
    var next := Attend(h, clock(i), world);
    if c in next.executed {
      at, n := h, i;
      LateExactly(c, clock(i));
    } else {
      at, n := DrainExecutesOnlyTheJustified(next, clock, i + 1, world, c);
    }
  }

  ghost predicate UniqueIds(commands: seq<Command>) {
    forall i, j :: 0 <= i < j < |commands| ==> commands[i].id != commands[j].id
  }

  predicate PendingSteer(c: Command) { c.kind.Steer? && c.status.Pending? }

  predicate NoPendingSteer(commands: seq<Command>) { forall c :: c in commands ==> !PendingSteer(c) }

  ghost predicate SteersInOrder(commands: seq<Command>) {
    forall a, b :: 0 <= a < b < |commands| && PendingSteer(commands[a]) && PendingSteer(commands[b]) ==>
      commands[a].issuedAt < commands[b].issuedAt
  }

  /** The pending steers stand in the order they were issued, none of them is left over from a
      crash, and nothing expires while the drain runs. */
  ghost predicate Settled(h: Host, clock: nat -> int, i: nat) {
    && UniqueIds(h.commands)
    && SteersInOrder(h.commands)
    && (forall c :: c in h.commands && PendingSteer(c) ==> c.id !in h.processed)
    && (forall c, n :: c in h.commands && Ready(c, h.processed) && n >= i ==> clock(n) < EffectiveExpiry(c))
  }

  ghost predicate Decides(world: Command -> Outcome) { forall c :: !world(c).status.Pending? }

  /** The entries a drain should execute, interrupts aside: every run and answer, and the last
      steer. */
  function Winners(commands: seq<Command>, processed: set<string>): seq<Command> {
    if commands == [] then []
    else
      var c, rest := commands[0], commands[1..];
      (if Ready(c, processed) && !c.kind.Interrupt? && (c.kind.Steer? ==> NoPendingSteer(rest)) then [c] else [])
      + Winners(rest, processed)
  }

  function NonInterrupts(commands: seq<Command>): seq<Command> {
    if commands == [] then []
    else
      var last := commands[|commands| - 1];
      NonInterrupts(commands[..|commands| - 1]) + if last.kind.Interrupt? then [] else [last]
  }

  lemma {:induction false} WinnersFrom(commands: seq<Command>, processed: set<string>, k: nat)
    requires k <= |commands| && forall j :: 0 <= j < k ==> !Ready(commands[j], processed)
    ensures Winners(commands, processed) == Winners(commands[k..], processed)
  {
    if k == 0 {
      assert commands[0..] == commands;
    } else {
      assert commands[1..][k - 1..] == commands[k..];
      WinnersFrom(commands[1..], processed, k - 1);
    }
  }

  lemma {:induction false} WinnersIgnore(commands: seq<Command>, processed: set<string>, id: string)
    requires forall c :: c in commands ==> c.id != id
    ensures Winners(commands, processed + {id}) == Winners(commands, processed)
  {
    if commands != [] { WinnersIgnore(commands[1..], processed, id); }
  }

  /** The entry a verdict leaves: a new status, the outcome's resolution if it has one, and nothing
      else. */
  function FateOf(v: Verdict, c: Command, world: Command -> Outcome): Command {
    match v
    case Skip => c
    case Expire => c.(status := Expired)
    case Supersede => c.(status := Superseded)
    case Execute => Settle(c, world(c))
  }

  function Settle(c: Command, o: Outcome): Command {
    if o.resolution.Some? then c.(status := o.status, resolution := o.resolution) else c.(status := o.status)
  }

  /** The one entry a pass changes is the one it picked. */
  lemma AttendInPlace(h: Host, now: int, world: Command -> Outcome)
    requires !Idle(h) && UniqueIds(h.commands)
    ensures var n, k := Attend(h, now, world), FirstReady(h.commands, h.processed);
      && |n.commands| == |h.commands| && n.processed == h.processed + {h.commands[k].id}
      && (forall j :: 0 <= j < |h.commands| && j != k ==> n.commands[j] == h.commands[j])
      && n.commands[k] == FateOf(Judged(h, now), h.commands[k], world)
      && n.executed == h.executed + if Judged(h, now).Execute? then [h.commands[k]] else []
  {
    var k := FirstReady(h.commands, h.processed);
    assert FirstWith(h.commands, h.commands[k].id) == k;
  }

  lemma AttendKeepsSettled(h: Host, clock: nat -> int, i: nat, world: Command -> Outcome)
    requires !Idle(h) && Settled(h, clock, i) && Decides(world)
    ensures Settled(Attend(h, clock(i), world), clock, i + 1)
  {
    var n, k := Attend(h, clock(i), world), FirstReady(h.commands, h.processed);
    AttendInPlace(h, clock(i), world);
    assert !n.commands[k].status.Pending?;
    forall c | c in n.commands && c.status.Pending?
      ensures c in h.commands && c.id != h.commands[k].id
    {
      var j :| 0 <= j < |n.commands| && n.commands[j] == c;
      assert j != k && h.commands[j] == c;
    }
  }

  /** For the first pending steer, a newer one is one further down. */
  lemma NewerIsLater(commands: seq<Command>, k: nat)
    requires UniqueIds(commands) && SteersInOrder(commands) && k < |commands| && PendingSteer(commands[k])
    requires forall j :: 0 <= j < k ==> !PendingSteer(commands[j])
    ensures HasNewer(commands, commands[k]) ==> !NoPendingSteer(commands[k + 1..])
    ensures !NoPendingSteer(commands[k + 1..]) ==> HasNewer(commands, commands[k])
  {
    var c, rest := commands[k], commands[k + 1..];
    if HasNewer(commands, c) {
      var o :| o in commands && o.id != c.id && o.kind == c.kind && o.status.Pending? && o.issuedAt > c.issuedAt;
      var j :| 0 <= j < |commands| && commands[j] == o;
      assert PendingSteer(commands[j]) && j != k;
      assert rest[j - k - 1] == o;
      assert o in rest && PendingSteer(o);
    }
    if !NoPendingSteer(rest) {
      var o :| o in rest && PendingSteer(o);
      var j :| 0 <= j < |rest| && rest[j] == o;
      assert commands[k + 1 + j] == o;
      assert o in commands;
    }
  }

  /** The verdict on the first ready entry. */
  lemma FirstVerdict(h: Host, clock: nat -> int, i: nat)
    requires !Idle(h) && Settled(h, clock, i)
    ensures var k := FirstReady(h.commands, h.processed);
      var c, v := h.commands[k], Judged(h, clock(i));
      && (c.kind.Run? || c.kind.RespondInput? ==> v.Execute?)
      && (c.kind.Steer? ==> v == if NoPendingSteer(h.commands[k + 1..]) then Execute else Supersede)
  {
    var k := FirstReady(h.commands, h.processed);
    assert h.commands[k] in h.commands;
    if h.commands[k].kind.Steer? {
      forall j | 0 <= j < k ensures !PendingSteer(h.commands[j]) {
        assert h.commands[j] in h.commands;
      }
      NewerIsLater(h.commands, k);
    }
  }

  lemma WinnersAfter(h: Host, now: int, world: Command -> Outcome)
    requires !Idle(h) && UniqueIds(h.commands) && Decides(world) && !Judged(h, now).Skip?
    ensures var n, k := Attend(h, now, world), FirstReady(h.commands, h.processed);
      Winners(n.commands, n.processed) == Winners(h.commands[k + 1..], h.processed)
  {
    var n, k := Attend(h, now, world), FirstReady(h.commands, h.processed);
    var c, rest := h.commands[k], h.commands[k + 1..];
    AttendInPlace(h, now, world);
    WinnersFrom(n.commands, n.processed, k + 1);
    assert n.commands[k + 1..] == rest;
    forall o | o in rest ensures o.id != c.id {
      var j :| 0 <= j < |rest| && rest[j] == o;
      assert h.commands[k + 1 + j] == o;
    }
    WinnersIgnore(rest, h.processed, c.id);
  }

  predicate Wins(c: Command, rest: seq<Command>) { !c.kind.Interrupt? && (c.kind.Steer? ==> NoPendingSteer(rest)) }

  lemma WinnersBefore(commands: seq<Command>, processed: set<string>)
    requires FirstReady(commands, processed) < |commands|
    ensures var k := FirstReady(commands, processed);
      Winners(commands, processed) ==
      (if Wins(commands[k], commands[k + 1..]) then [commands[k]] else []) + Winners(commands[k + 1..], processed)
  {
    var k := FirstReady(commands, processed);
    WinnersFrom(commands, processed, k);
    assert commands[k..][1..] == commands[k + 1..];
  }

  lemma NonInterruptsSnoc(executed: seq<Command>, c: Command)
    ensures NonInterrupts(executed + [c]) == NonInterrupts(executed) + if c.kind.Interrupt? then [] else [c]
  {
    assert (executed + [c])[..|executed|] == executed;
  }

  /** What one pass executes is the head of what the drain should execute. */
  lemma AttendTakesTheWinner(h: Host, clock: nat -> int, i: nat, world: Command -> Outcome)
    requires !Idle(h) && Settled(h, clock, i) && Decides(world)
    ensures var n := Attend(h, clock(i), world);
      NonInterrupts(h.executed) + Winners(h.commands, h.processed) ==
      NonInterrupts(n.executed) + Winners(n.commands, n.processed)
  {
    var n, k := Attend(h, clock(i), world), FirstReady(h.commands, h.processed);
    var c, rest := h.commands[k], h.commands[k + 1..];
    AttendInPlace(h, clock(i), world);
    FirstVerdict(h, clock, i);
    WinnersBefore(h.commands, h.processed);
    WinnersAfter(h, clock(i), world);
    var won := if Wins(c, rest) then [c] else [];
    OneMoreExecuted(h.executed, c, n.executed, won);
    Reassociated(NonInterrupts(h.executed), won, Winners(rest, h.processed));
  }

  lemma OneMoreExecuted(before: seq<Command>, c: Command, after: seq<Command>, won: seq<Command>)
    requires after == before + [c] || after == before + []
    requires won == if after == before + [c] && !c.kind.Interrupt? then [c] else []
    ensures NonInterrupts(after) == NonInterrupts(before) + won
  {
    NonInterruptsSnoc(before, c);
    assert before + [] == before;
  }

  /** Latest steer wins: a drain executes, in document order, every run, every answer and of the
      steers only the last, besides any interrupts. */
  lemma {:induction false} DrainExecutesTheWinners(h: Host, clock: nat -> int, i: nat, world: Command -> Outcome)
    requires Settled(h, clock, i) && Decides(world)
    ensures NonInterrupts(Drained(h, clock, i, world).executed) ==
      NonInterrupts(h.executed) + Winners(h.commands, h.processed)
    decreases ReadyCount(h.commands, h.processed)
  {
    if Idle(h) {
      WinnersFrom(h.commands, h.processed, |h.commands|);
    } else {
      AttendLessens(h, clock(i), world);
      AttendKeepsSettled(h, clock, i, world);
      AttendTakesTheWinner(h, clock, i, world);
      DrainExecutesTheWinners(Attend(h, clock(i), world), clock, i + 1, world);
    }
  }

  /** A drain does not touch what is not ready. */
  lemma {:induction false} DrainKeepsTheRest(h: Host, clock: nat -> int, i: nat, world: Command -> Outcome, k: nat)
    requires UniqueIds(h.commands) && k < |h.commands| && !Ready(h.commands[k], h.processed)
    ensures var n := Drained(h, clock, i, world);
      |n.commands| == |h.commands| && n.commands[k] == h.commands[k]
    decreases ReadyCount(h.commands, h.processed)
  {
    if !Idle(h) {
      AttendLessens(h, clock(i), world);
      AttendInPlace(h, clock(i), world);
      DrainKeepsTheRest(Attend(h, clock(i), world), clock, i + 1, world, k);
    }
  }

  /** What the entries after k make of the entry at k. */
  ghost predicate Fated(c: Command, rest: seq<Command>, now: Command, world: Command -> Outcome) {
    && (c.kind.Run? || c.kind.RespondInput? ==> now == Settle(c, world(c)))
    && (c.kind.Steer? ==> now == if NoPendingSteer(rest) then Settle(c, world(c)) else c.(status := Superseded))
  }

  lemma FateOfTheFirst(h: Host, clock: nat -> int, i: nat, world: Command -> Outcome)
    requires !Idle(h) && Settled(h, clock, i)
    ensures var n, k := Attend(h, clock(i), world), FirstReady(h.commands, h.processed);
      k < |n.commands| && Fated(h.commands[k], h.commands[k + 1..], n.commands[k], world)
  {
    AttendInPlace(h, clock(i), world);
    FirstVerdict(h, clock, i);
  }

  /** The fate of every ready entry: runs and answers get their outcome, the last steer its own,
      and all earlier steers end superseded. */
  lemma {:induction false} DrainDecidesEveryFate(h: Host, clock: nat -> int, i: nat, world: Command -> Outcome, k: nat)
    requires Settled(h, clock, i) && Decides(world) && k < |h.commands| && Ready(h.commands[k], h.processed)
    ensures var n, c := Drained(h, clock, i, world), h.commands[k];
      |n.commands| == |h.commands| && Fated(c, h.commands[k + 1..], n.commands[k], world)
    decreases ReadyCount(h.commands, h.processed)
  {
    var n, f := Attend(h, clock(i), world), FirstReady(h.commands, h.processed);
    AttendLessens(h, clock(i), world);
    AttendInPlace(h, clock(i), world);
    AttendKeepsSettled(h, clock, i, world);
    if f == k {
      FateOfTheFirst(h, clock, i, world);
      DrainKeepsTheRest(n, clock, i + 1, world, k);
    } else {
      assert n.commands[k + 1..] == h.commands[k + 1..];
      DrainDecidesEveryFate(n, clock, i + 1, world, k);
    }
  }

  /** What executing the commands one after the other says. */
  function SaidBy(executed: seq<Command>, world: Command -> Outcome): seq<string> {
    if executed == [] then []
    else SaidBy(executed[..|executed| - 1], world) + world(executed[|executed| - 1]).said
  }

  lemma {:induction false} SaidByConcat(a: seq<Command>, b: seq<Command>, world: Command -> Outcome)
    ensures SaidBy(a + b, world) == SaidBy(a, world) + SaidBy(b, world)
  {
    if b == [] {
      assert a + b == a;
    } else {
      var n := |b| - 1;
      assert (a + b)[..|a + b| - 1] == a + b[..n];
      SaidByConcat(a, b[..n], world);
      Reassociated(SaidBy(a, world), SaidBy(b[..n], world), world(b[n]).said);
    }
  }

  /** A drain adds to the transcript exactly what its executions say, in their order. */
  lemma {:induction false} DrainSaysWhatItExecutes(h: Host, clock: nat -> int, i: nat, world: Command -> Outcome)
      returns (more: seq<Command>)
    ensures var n := Drained(h, clock, i, world);
      n.executed == h.executed + more && n.messages == h.messages + SaidBy(more, world)
    decreases ReadyCount(h.commands, h.processed)
  {
    if Idle(h) {
      more := [];
    } else {
      AttendLessens(h, clock(i), world);
      var first := AttendSays(h, clock(i), world);
      var rest := DrainSaysWhatItExecutes(Attend(h, clock(i), world), clock, i + 1, world);
      SaidByConcat(first, rest, world);
      more := first + rest;
      Reassociated(h.executed, first, rest);
      Reassociated(h.messages, SaidBy(first, world), SaidBy(rest, world));
    }
  }

  lemma AttendSays(h: Host, now: int, world: Command -> Outcome) returns (first: seq<Command>)
    requires !Idle(h)
    ensures var n := Attend(h, now, world);
      n.executed == h.executed + first && n.messages == h.messages + SaidBy(first, world)
  {
    if Judged(h, now).Execute? {
      first := [Picked(h)];
      assert first[..0] == [] && SaidBy(first, world) == [] + world(Picked(h)).said;
    } else {
      first := [];
    }
  }

  lemma LateExpires(h: Host, now: int, world: Command -> Outcome)
    requires !Idle(h) && Late(Picked(h), now)
    ensures var c, n := Picked(h), Attend(h, now, world);
      && Judged(h, now).Expire? && c.id in n.processed && n.executed == h.executed
      && FateOf(Judged(h, now), c, world) == c.(status := Expired)
  {
    LateExactly(Picked(h), now);
  }

  /** A ready command whose time is over in every pass never acts: it ends expired, even if it
      would also have been superseded. */
  lemma {:induction false} LateNeverActs(h: Host, clock: nat -> int, i: nat, world: Command -> Outcome, k: nat)
    requires UniqueIds(h.commands) && k < |h.commands| && Ready(h.commands[k], h.processed)
    requires forall n :: n >= i ==> Late(h.commands[k], clock(n))
    requires forall c :: c in h.executed ==> c.id != h.commands[k].id
    ensures var n := Drained(h, clock, i, world);
      && |n.commands| == |h.commands| && n.commands[k] == h.commands[k].(status := Expired)
      && forall c :: c in n.executed ==> c.id != h.commands[k].id
    decreases ReadyCount(h.commands, h.processed)
  {
    var n, f := Attend(h, clock(i), world), FirstReady(h.commands, h.processed);
    AttendLessens(h, clock(i), world);
    AttendInPlace(h, clock(i), world);
    if f == k {
      LateExpires(h, clock(i), world);
      DrainKeepsTheRest(n, clock, i + 1, world, k);
      DrainSparesMarked(n, clock, i + 1, world, h.commands[k].id);
    } else {
      assert h.commands[f].id != h.commands[k].id;
      LateNeverActs(n, clock, i + 1, world, k);
    }
  }

  lemma SaidKeepsMoot(turn: string, messages: seq<string>, said: seq<string>)
    requires Moot(turn, messages) && turn !in said
    ensures Moot(turn, messages + said)
  {
    var all := messages + said;
    var i :| 0 <= i < |messages| && messages[i] == turn;
    assert all[i] == turn;
    if said != [] { assert all[|all| - 1] == said[|said| - 1] && said[|said| - 1] in said; } else { assert all == messages; }
  }

  lemma AttendKeepsMoot(h: Host, now: int, world: Command -> Outcome, turn: string)
    requires !Idle(h) && Moot(turn, h.messages) && forall c :: turn !in world(c).said
    ensures Moot(turn, Attend(h, now, world).messages)
  {
    SaidKeepsMoot(turn, h.messages, world(Picked(h)).said);
  }

  lemma MootIsNotExecuted(h: Host, now: int, turn: string)
    requires !Idle(h) && Picked(h).kind.Interrupt? && Picked(h).aimedAt == Some(turn) && Moot(turn, h.messages)
    ensures Judged(h, now).Expire? || Judged(h, now).Supersede?
  {
    NothingIsSkipped(h, now);
  }

  /** A ready interrupt that names a turn which is over, and which nothing executed brings back,
      never acts, whatever else the drain finds: it ends superseded, or expired. */
  lemma {:induction false} StaleInterruptNeverActs(h: Host, clock: nat -> int, i: nat, world: Command -> Outcome, k: nat,
                                                   turn: string)
    requires UniqueIds(h.commands) && k < |h.commands| && Ready(h.commands[k], h.processed)
    requires h.commands[k].kind.Interrupt? && h.commands[k].aimedAt == Some(turn)
    requires Moot(turn, h.messages) && forall c :: turn !in world(c).said
    requires forall c :: c in h.executed ==> c.id != h.commands[k].id
    ensures var n, id := Drained(h, clock, i, world), h.commands[k].id;
      && |n.commands| == |h.commands| && (n.commands[k].status.Superseded? || n.commands[k].status.Expired?)
      && forall c :: c in n.executed ==> c.id != id
    decreases ReadyCount(h.commands, h.processed)
  {
    var n, f := Attend(h, clock(i), world), FirstReady(h.commands, h.processed);
    AttendLessens(h, clock(i), world);
    AttendInPlace(h, clock(i), world);
    AttendKeepsMoot(h, clock(i), world, turn);
    if f == k {
      MootIsNotExecuted(h, clock(i), turn);
      DrainKeepsTheRest(n, clock, i + 1, world, k);
      DrainSparesMarked(n, clock, i + 1, world, h.commands[k].id);
    } else {
      assert h.commands[f].id != h.commands[k].id;
      StaleInterruptNeverActs(n, clock, i + 1, world, k, turn);
    }
  }

  /** What is marked is not executed any more. */
  lemma {:induction false} DrainSparesMarked(h: Host, clock: nat -> int, i: nat, world: Command -> Outcome, id: string)
    requires id in h.processed && forall c :: c in h.executed ==> c.id != id
    ensures forall c :: c in Drained(h, clock, i, world).executed ==> c.id != id
    decreases ReadyCount(h.commands, h.processed)
  {
    if !Idle(h) {
      AttendLessens(h, clock(i), world);
      DrainSparesMarked(Attend(h, clock(i), world), clock, i + 1, world, id);
    }
  }

  // ----- runs of drains, changes and crashes -----

  /** How far a drain is with the command it picked. `first` is the answer of the ledger write,
      which the drain ignores. */
  datatype Phase = Chosen(c: Command, verdict: Verdict) | Marked(c: Command, verdict: Verdict, first: bool) | Running(c: Command)

  datatype Engine = Engine(
    commands: seq<Command>,
    messages: seq<string>,
    processed: set<string>,
    executed: seq<string>,
    drains: map<nat, Phase>)

  datatype Action =
    | Choose(drain: nat, now: int)
    | Mark(drain: nat)
    | Proceed(drain: nat)
    | Finish(drain: nat, outcome: Outcome)
    | Halt(drain: nat)
    | Change(commands: seq<Command>, messages: seq<string>)
    | Crash(commands: seq<Command>, messages: seq<string>)

  /** `Change` is anything that happens to the document meanwhile; `Crash` ends all drains and
      rolls the document back to any older state, but not the ledger. */
  function Step(e: Engine, a: Action): Engine {
    match a
    case Choose(d, now) =>
      var k := FirstReady(e.commands, e.processed);
      if d in e.drains || k == |e.commands| then e
      else
        var c := e.commands[k];
        e.(drains := e.drains[d := Chosen(c, Evaluate(c, e.processed, now, e.commands, e.messages))])
    case Mark(d) =>
      if d in e.drains && e.drains[d].Chosen? then
        var p := e.drains[d];
        e.(processed := e.processed + {p.c.id}, drains := e.drains[d := Marked(p.c, p.verdict, p.c.id !in e.processed)])
      else e
    case Proceed(d) =>
      if d in e.drains && e.drains[d].Marked? then
        var p := e.drains[d];
        match p.verdict
        case Execute => e.(executed := e.executed + [p.c.id], drains := e.drains[d := Running(p.c)])
        case Expire => e.(commands := Resolved(e.commands, p.c.id, Expired, None), drains := e.drains - {d})
        case Supersede => e.(commands := Resolved(e.commands, p.c.id, Superseded, None), drains := e.drains - {d})
        case Skip => e.(drains := e.drains - {d})
      else e
    case Finish(d, o) =>
      if d in e.drains && e.drains[d].Running? then
        e.(commands := Resolved(e.commands, e.drains[d].c.id, o.status, o.resolution), messages := e.messages + o.said,
           drains := e.drains - {d})
      else e
    case Halt(d) => e.(drains := e.drains - {d})
    case Change(commands, messages) => e.(commands := commands, messages := messages)
    case Crash(commands, messages) => e.(commands := commands, messages := messages, drains := map[])
  }

  function Runs(e: Engine, actions: seq<Action>): Engine {
    if actions == [] then e else Step(Runs(e, actions[..|actions| - 1]), actions[|actions| - 1])
  }

  ghost predicate Once(executed: seq<string>) { forall i, j :: 0 <= i < j < |executed| ==> executed[i] != executed[j] }

  /** A fresh mark that has not led to an execution yet. */
  predicate Holds(p: Phase) { p.Marked? && p.first }

  ghost predicate Exclusive(e: Engine) {
    && Once(e.executed) && (forall id :: id in e.executed ==> id in e.processed)
    && (forall d :: d in e.drains && Holds(e.drains[d]) ==>
          e.drains[d].c.id in e.processed && e.drains[d].c.id !in e.executed)
    && forall d, f :: d in e.drains && f in e.drains && d != f && Holds(e.drains[d]) && Holds(e.drains[f]) ==>
         e.drains[d].c.id != e.drains[f].c.id
  }

  /** Whether a step executes on a mark that was fresh, if it executes at all. */
  predicate FreshStep(e: Engine, a: Action) {
    a.Proceed? && a.drain in e.drains && e.drains[a.drain].Marked? && e.drains[a.drain].verdict.Execute? ==> e.drains[a.drain].first
  }

  predicate FreshRun(e: Engine, actions: seq<Action>) {
    actions == [] ||
    (FreshRun(e, actions[..|actions| - 1]) && FreshStep(Runs(e, actions[..|actions| - 1]), actions[|actions| - 1]))
  }

  lemma StepExclusive(e: Engine, a: Action)
    requires Exclusive(e) && FreshStep(e, a)
    ensures Exclusive(Step(e, a))
  {
  }

  /** However many drains run at once, whatever happens to the document, and however often the
      engine crashes: while every execution follows a fresh mark, no command executes twice. */
  lemma {:induction false} FreshMarksExecuteOnce(e: Engine, actions: seq<Action>)
    requires Exclusive(e) && FreshRun(e, actions)
    ensures Exclusive(Runs(e, actions)) && Once(Runs(e, actions).executed)
  {
    if actions != [] {
      FreshMarksExecuteOnce(e, actions[..|actions| - 1]);
      StepExclusive(Runs(e, actions[..|actions| - 1]), actions[|actions| - 1]);
    }
  }

  predicate OneAtATime(e: Engine, actions: seq<Action>) {
    actions == [] ||
    (OneAtATime(e, actions[..|actions| - 1])
     && (actions[|actions| - 1].Choose? ==> Runs(e, actions[..|actions| - 1]).drains == map[]))
  }

  ghost predicate Alone(e: Engine) {
    && (forall d, f :: d in e.drains && f in e.drains ==> d == f)
    && forall d :: d in e.drains ==>
         (e.drains[d].Chosen? ==> e.drains[d].c.id !in e.processed) && (e.drains[d].Marked? ==> e.drains[d].first)
  }

  lemma StepAlone(e: Engine, a: Action)
    requires Alone(e) && (a.Choose? ==> e.drains == map[])
    ensures Alone(Step(e, a)) && FreshStep(e, a)
  {
  }

  /** With one drain at a time, picking and marking might as well be one step: no command
      executes twice, over any run of arrivals, drains and crashes. */
  lemma {:induction false} OneDrainExecutesOnce(e: Engine, actions: seq<Action>)
    requires Exclusive(e) && Alone(e) && OneAtATime(e, actions)
    ensures Alone(Runs(e, actions)) && FreshRun(e, actions) && Once(Runs(e, actions).executed)
  {
    if actions != [] {
      var before := actions[..|actions| - 1];
      OneDrainExecutesOnce(e, before);
      StepAlone(Runs(e, before), actions[|actions| - 1]);
    }
    FreshMarksExecuteOnce(e, actions);
  }

  // ----- exactly when nothing can execute twice -----

  /** A drain that will execute its command unless it is stopped. */
  predicate Owing(p: Phase) { (p.Chosen? || p.Marked?) && p.verdict.Execute? }

  predicate OwesIn(e: Engine, d: nat) { d in e.drains && Owing(e.drains[d]) }

  /** No drain owes a command that was executed, and no two owe the same one. */
  ghost predicate OwedOnce(e: Engine) {
    && (forall d :: OwesIn(e, d) ==> e.drains[d].c.id !in e.executed)
    && forall d, f :: OwesIn(e, d) && OwesIn(e, f) && d != f ==> e.drains[d].c.id != e.drains[f].c.id
  }

  predicate NoChoices(actions: seq<Action>) { forall a :: a in actions ==> !a.Choose? }

  lemma StepOwedOnce(e: Engine, a: Action)
    requires Once(e.executed) && OwedOnce(e) && !a.Choose?
    ensures Once(Step(e, a).executed) && OwedOnce(Step(e, a))
  {
    var n := Step(e, a);
    forall d | OwesIn(n, d) ensures OwesIn(e, d) && e.drains[d].c == n.drains[d].c {
    }
  }

  lemma {:induction false} RunOwedOnce(e: Engine, actions: seq<Action>)
    requires Once(e.executed) && OwedOnce(e) && NoChoices(actions)
    ensures Once(Runs(e, actions).executed) && OwedOnce(Runs(e, actions))
  {
    if actions != [] {
      assert actions[|actions| - 1] in actions;
      RunOwedOnce(e, actions[..|actions| - 1]);
      StepOwedOnce(Runs(e, actions[..|actions| - 1]), actions[|actions| - 1]);
    }
  }

  /** Marking and proceeding on a drain that owes executes its command, marked or not. */
  lemma OwingExecutes(e: Engine, d: nat)
    requires OwesIn(e, d)
    ensures var n := Runs(e, [Mark(d), Proceed(d)]);
      n.executed == e.executed + [e.drains[d].c.id] && n.drains == e.drains[d := Running(e.drains[d].c)]
  {
    var m := Step(e, Mark(d));
    RunsOne(e, Mark(d));
    RunsOne(m, Proceed(d));
    RunsConcat(e, [Mark(d)], [Proceed(d)]);
    assert [Mark(d)] + [Proceed(d)] == [Mark(d), Proceed(d)];
  }

  lemma RepeatsAtTheEnd(executed: seq<string>, id: string)
    requires id in executed
    ensures !Once(executed + [id])
  {
    var all := executed + [id];
    var i :| 0 <= i < |executed| && executed[i] == id;
    assert all[i] == all[|executed|];
  }

  /** What is already executed, or owed by two drains, can be executed again. */
  lemma OwedTwiceRepeats(e: Engine) returns (actions: seq<Action>)
    requires !OwedOnce(e)
    ensures NoChoices(actions) && !Once(Runs(e, actions).executed)
  {
    if d :| OwesIn(e, d) && e.drains[d].c.id in e.executed {
      actions := [Mark(d), Proceed(d)];
      OwingExecutes(e, d);
      RepeatsAtTheEnd(e.executed, e.drains[d].c.id);
    } else {
      var d, f :| OwesIn(e, d) && OwesIn(e, f) && d != f && e.drains[d].c.id == e.drains[f].c.id;
      actions := TwoOwersRepeat(e, d, f);
    }
  }

  /** Two drains that owe the same command both execute it. */
  lemma TwoOwersRepeat(e: Engine, d: nat, f: nat) returns (actions: seq<Action>)
    requires OwesIn(e, d) && OwesIn(e, f) && d != f && e.drains[d].c.id == e.drains[f].c.id
    ensures actions == [Mark(d), Proceed(d)] + [Mark(f), Proceed(f)] && NoChoices(actions)
    ensures Runs(e, actions).executed == e.executed + [e.drains[d].c.id] + [e.drains[d].c.id]
    ensures !Once(Runs(e, actions).executed)
  {
    actions := [Mark(d), Proceed(d)] + [Mark(f), Proceed(f)];
    var n := Runs(e, [Mark(d), Proceed(d)]);
    OwingExecutes(e, d);
    OwingExecutes(n, f);
    RunsConcat(e, [Mark(d), Proceed(d)], [Mark(f), Proceed(f)]);
    RepeatsAtTheEnd(n.executed, e.drains[d].c.id);
  }

  /** MAIN RESULT on concurrent drains. Whatever marks, executions, halts, changes and crashes
      follow, nothing executes twice, if and only if no drain owes a command that was executed and
      no two owe the same one. */
  lemma OwedOnceExactly(e: Engine)
    requires Once(e.executed)
    ensures OwedOnce(e) <==> forall actions :: NoChoices(actions) ==> Once(Runs(e, actions).executed)
  {
    if OwedOnce(e) {
      forall actions | NoChoices(actions) ensures Once(Runs(e, actions).executed) {
        RunOwedOnce(e, actions);
      }
    } else {
      var actions := OwedTwiceRepeats(e);
    }
  }

  /** What was executed or is about to be is in the ledger, so it is not picked again. */
  ghost predicate LedgerKnows(e: Engine) {
    && (forall id :: id in e.executed ==> id in e.processed)
    && forall d :: d in e.drains && e.drains[d].Marked? ==> e.drains[d].c.id in e.processed
  }

  /** The drain picks a command that another drain still owes: marked by neither. */
  ghost predicate PicksOwed(e: Engine, a: Action) {
    && a.Choose? && a.drain !in e.drains && OwesIn(Step(e, a), a.drain)
    && exists f :: OwesIn(e, f) && e.drains[f].c.id == Step(e, a).drains[a.drain].c.id
  }

  /** A pick keeps executions single exactly if it does not pick what another drain owes. */
  lemma ChooseExactly(e: Engine, a: Action)
    requires LedgerKnows(e) && OwedOnce(e) && a.Choose?
    ensures OwedOnce(Step(e, a)) <==> !PicksOwed(e, a)
    ensures LedgerKnows(Step(e, a))
  {
    var n := Step(e, a);
    forall d | d != a.drain ensures OwesIn(n, d) == OwesIn(e, d) && (OwesIn(n, d) ==> n.drains[d] == e.drains[d]) {
    }
    if n != e && OwesIn(n, a.drain) {
      assert n.drains[a.drain].c.id !in e.processed;
    }
  }

  lemma StepLedgerKnows(e: Engine, a: Action)
    requires LedgerKnows(e)
    ensures LedgerKnows(Step(e, a))
  {
  }

  ghost predicate PicksFree(e: Engine, actions: seq<Action>) {
    forall k :: 0 <= k < |actions| ==> !PicksOwed(Runs(e, actions[..k]), actions[k])
  }

  /** So any number of drains, with changes and crashes between, execute nothing twice while each
      pick is of a command that no other drain owes. */
  lemma {:induction false} FreePicksExecuteOnce(e: Engine, actions: seq<Action>)
    requires LedgerKnows(e) && Once(e.executed) && OwedOnce(e) && PicksFree(e, actions)
    ensures var n := Runs(e, actions); LedgerKnows(n) && Once(n.executed) && OwedOnce(n)
  {
    if actions != [] {
      var last := |actions| - 1;
      var before, a := actions[..last], actions[last];
      forall k | 0 <= k < last ensures !PicksOwed(Runs(e, before[..k]), before[k]) {
        assert before[..k] == actions[..k];
      }
      FreePicksExecuteOnce(e, before);
      assert !PicksOwed(Runs(e, actions[..last]), actions[last]);
      OneMoreStep(Runs(e, before), a);
    }
  }

  lemma OneMoreStep(e: Engine, a: Action)
    requires LedgerKnows(e) && Once(e.executed) && OwedOnce(e) && !PicksOwed(e, a)
    ensures var n := Step(e, a); LedgerKnows(n) && Once(n.executed) && OwedOnce(n)
  {
    StepLedgerKnows(e, a);
    if a.Choose? { ChooseExactly(e, a); } else { StepOwedOnce(e, a); }
  }

  // ----- the loop as verified is one of these drains -----

  function IdsOf(executed: seq<Command>): seq<string> {
    seq(|executed|, i requires 0 <= i < |executed| => executed[i].id)
  }

  /** A host between drains. */
  function EngineOf(h: Host): Engine { Engine(h.commands, h.messages, h.processed, IdsOf(h.executed), map[]) }

  /** One pass of the loop, taken apart. */
  function Pass(h: Host, d: nat, now: int, world: Command -> Outcome): seq<Action>
    requires !Idle(h)
  {
    [Choose(d, now), Mark(d), Proceed(d), Finish(d, world(Picked(h)))]
  }

  lemma {:induction false} RunsConcat(e: Engine, a: seq<Action>, b: seq<Action>)
    ensures Runs(e, a + b) == Runs(Runs(e, a), b)
    ensures OneAtATime(e, a) && OneAtATime(Runs(e, a), b) ==> OneAtATime(e, a + b)
  {
    if b == [] {
      assert a + b == a;
    } else {
      assert (a + b)[..|a + b| - 1] == a + b[..|b| - 1];
      RunsConcat(e, a, b[..|b| - 1]);
    }
  }

  lemma RunsOne(e: Engine, a: Action)
    ensures Runs(e, [a]) == Step(e, a) && (OneAtATime(e, [a]) <==> (a.Choose? ==> e.drains == map[]))
  {
    assert [a][..0] == [];
    assert Runs(e, []) == e;
  }

  /** Choosing, marking, proceeding and finishing on one drain is one pass of the loop. */
  lemma PassIsAttend(h: Host, d: nat, now: int, world: Command -> Outcome)
    requires !Idle(h)
    ensures Runs(EngineOf(h), Pass(h, d, now, world)) == EngineOf(Attend(h, now, world))
    ensures OneAtATime(EngineOf(h), Pass(h, d, now, world))
  {
    var c, v, o := Picked(h), Judged(h, now), world(Picked(h));
    var e0 := EngineOf(h);
    var e1 := e0.(drains := map[d := Chosen(c, v)]);
    var e2 := e0.(processed := e0.processed + {c.id}, drains := map[d := Marked(c, v, true)]);
    RunsOne(e0, Choose(d, now));
    RunsOne(e1, Mark(d));
    RunsConcat(e0, [Choose(d, now)], [Mark(d)]);
    assert Runs(e0, [Choose(d, now)] + [Mark(d)]) == e2;
    var e3 := Step(e2, Proceed(d));
    RunsOne(e2, Proceed(d));
    RunsOne(e3, Finish(d, o));
    RunsConcat(e2, [Proceed(d)], [Finish(d, o)]);
    RunsConcat(e0, [Choose(d, now)] + [Mark(d)], [Proceed(d)] + [Finish(d, o)]);
    assert Pass(h, d, now, world) == ([Choose(d, now)] + [Mark(d)]) + ([Proceed(d)] + [Finish(d, o)]);
    ProceedAndFinish(h, d, now, world, e2);
  }

  lemma ProceedAndFinish(h: Host, d: nat, now: int, world: Command -> Outcome, e: Engine)
    requires !Idle(h)
    requires var c := Picked(h);
      e == EngineOf(h).(processed := h.processed + {c.id}, drains := map[d := Marked(c, Judged(h, now), true)])
    ensures Step(Step(e, Proceed(d)), Finish(d, world(Picked(h)))) == EngineOf(Attend(h, now, world))
  {
    var n := Step(Step(e, Proceed(d)), Finish(d, world(Picked(h))));
    assert e.drains - {d} == map[];
    assert n.drains == map[];
    assert IdsOf(h.executed + [Picked(h)]) == IdsOf(h.executed) + [Picked(h).id];
  }

  /** The passes of a whole drain. */
  function Passes(h: Host, d: nat, clock: nat -> int, i: nat, world: Command -> Outcome): seq<Action>
    decreases ReadyCount(h.commands, h.processed)
  {
    if Idle(h) then []
    else
      AttendLessens(h, clock(i), world);
      Pass(h, d, clock(i), world) + Passes(Attend(h, clock(i), world), d, clock, i + 1, world)
  }

  /** A whole drain is a run of the engine with one drain at a time. */
  lemma {:induction false} DrainIsARun(h: Host, d: nat, clock: nat -> int, i: nat, world: Command -> Outcome)
    ensures Runs(EngineOf(h), Passes(h, d, clock, i, world)) == EngineOf(Drained(h, clock, i, world))
    ensures OneAtATime(EngineOf(h), Passes(h, d, clock, i, world))
    decreases ReadyCount(h.commands, h.processed)
  {
    if !Idle(h) {
      AttendLessens(h, clock(i), world);
      var n := Attend(h, clock(i), world);
      PassIsAttend(h, d, clock(i), world);
      DrainIsARun(n, d, clock, i + 1, world);
      RunsConcat(EngineOf(h), Pass(h, d, clock(i), world), Passes(n, d, clock, i + 1, world));
    }
  }

  /** What may happen to a host: a drain, or anything at all to its document, crashes included. */
  datatype Happening = Drains(clock: nat -> int, world: Command -> Outcome) | Arrives(commands: seq<Command>, messages: seq<string>)

  function Lived(h: Host, life: seq<Happening>): Host {
    if life == [] then h
    else
      var before, last := Lived(h, life[..|life| - 1]), life[|life| - 1];
      match last
      case Drains(clock, world) => Drained(before, clock, 0, world)
      case Arrives(commands, messages) => before.(commands := commands, messages := messages)
  }

  ghost predicate Remembers(h: Host) {
    Once(IdsOf(h.executed)) && forall c :: c in h.executed ==> c.id in h.processed
  }

  lemma RemembersExclusive(h: Host)
    ensures Remembers(h) <==> Exclusive(EngineOf(h))
    ensures Alone(EngineOf(h))
  {
    var ids := IdsOf(h.executed);
    if Remembers(h) {
      forall id | id in ids ensures id in h.processed {
        var i :| 0 <= i < |ids| && ids[i] == id;
        assert h.executed[i] in h.executed;
      }
    }
    if forall id :: id in ids ==> id in h.processed {
      forall c | c in h.executed ensures c.id in h.processed {
        var i :| 0 <= i < |h.executed| && h.executed[i] == c;
        assert ids[i] in ids;
      }
    }
  }

  /** The verified drain executes no command twice, however often it runs, whatever arrives in
      between, and whatever state of the document a crash brings back. */
  lemma {:induction false} DrainsExecuteOnce(h: Host, life: seq<Happening>)
    requires Remembers(h)
    ensures Remembers(Lived(h, life)) && Once(IdsOf(Lived(h, life).executed))
  {
    if life != [] {
      var before, last := Lived(h, life[..|life| - 1]), life[|life| - 1];
      DrainsExecuteOnce(h, life[..|life| - 1]);
      if last.Drains? {
        RemembersExclusive(before);
        RemembersExclusive(Drained(before, last.clock, 0, last.world));
        DrainIsARun(before, 0, last.clock, 0, last.world);
        OneDrainExecutesOnce(EngineOf(before), Passes(before, 0, last.clock, 0, last.world));
        FreshMarksExecuteOnce(EngineOf(before), Passes(before, 0, last.clock, 0, last.world));
      }
    }
  }

  /** Once marked, a command is never picked again, even if a crash restores it as pending. The
      price: one marked but not yet executed is lost to a crash. */
  lemma MarkedIsNeverPicked(e: Engine, a: Action, commands: seq<Command>, messages: seq<string>, d: nat, now: int)
    requires Step(e, a).processed != e.processed
    ensures a.Mark? && a.drain in e.drains
    ensures var n := Step(Step(Step(e, a), Crash(commands, messages)), Choose(d, now));
      n.executed == e.executed && forall f :: f in n.drains ==> n.drains[f].c.id != e.drains[a.drain].c.id
  {
  }

  /** The ledger's answer matters: from an engine at rest, two drains that pick the same run
      before either marks it both execute it. */
  lemma TwoDrainsExecuteTwice(c: Command, now: int)
    requires c.status.Pending? && c.kind.Run? && now < EffectiveExpiry(c)
    ensures var e := Engine([c], [], {}, [], map[]);
      var n := Runs(e, [Choose(0, now), Choose(1, now)] + ([Mark(0), Proceed(0)] + [Mark(1), Proceed(1)]));
      n.executed == [c.id, c.id]
  {
    var e, p := Engine([c], [], {}, [], map[]), Chosen(c, Execute);
    var e1 := e.(drains := map[0 := p]);
    RunsOne(e, Choose(0, now));
    RunsOne(e1, Choose(1, now));
    RunsConcat(e, [Choose(0, now)], [Choose(1, now)]);
    assert [Choose(0, now)] + [Choose(1, now)] == [Choose(0, now), Choose(1, now)];
    var e2 := Runs(e, [Choose(0, now), Choose(1, now)]);
    assert e2 == e.(drains := map[0 := p, 1 := p]);
    var rest := TwoOwersRepeat(e2, 0, 1);
    RunsConcat(e, [Choose(0, now), Choose(1, now)], rest);
    assert [] + [c.id] + [c.id] == [c.id, c.id];
  }

  /** A resolution is written into the first entry of that id and nowhere else. */
  lemma ResolvesTheFirst(commands: seq<Command>, id: string, o: Outcome)
    ensures var n := Resolved(commands, id, o.status, o.resolution);
      && |n| == |commands|
      && forall k :: 0 <= k < |commands| ==>
           n[k] == if commands[k].id == id && (forall j :: 0 <= j < k ==> commands[j].id != id) then Settle(commands[k], o)
                   else commands[k]
  {
  }
}
