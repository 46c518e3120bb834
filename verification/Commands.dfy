/** The durable command ledger: entries, and the host's verdict on one pending entry
    (crates/doc/src/commands.rs). */
module Commands {
  import opened Common

  datatype Kind = Run | Steer | Interrupt | RespondInput

  datatype Status = Pending | Applied | Rejected | Expired | Superseded | Cancelled

  /** `aimedAt` is the turn a command was issued against, if it names one. */
  datatype Command = Command(
    id: string,
    kind: Kind,
    issuedAt: int,
    aimedAt: Option<string>,
    expiresAt: Option<int>,
    status: Status,
    resolution: Option<string>)

  datatype Verdict = Skip | Expire | Supersede | Execute

  const COMMAND_DEFAULT_TTL_MS: int := 24 * 60 * 60 * 1000

  const TWO_63: int := 0x8000_0000_0000_0000

  /** Two's complement wrap-around of a 64-bit sum. */
  function Wrap64(x: int): int { (x + TWO_63) % (2 * TWO_63) - TWO_63 }

  function EffectiveExpiry(c: Command): int {
    if c.expiresAt.Some? then c.expiresAt.value else Wrap64(c.issuedAt + COMMAND_DEFAULT_TTL_MS)
  }

  predicate Replaceable(k: Kind) { k.Steer? || k.Interrupt? }

  predicate HasNewer(commands: seq<Command>, c: Command) {
    exists o :: o in commands && o.id != c.id && o.kind == c.kind && o.status.Pending? && o.issuedAt > c.issuedAt
  }

  function Evaluate(c: Command, processed: set<string>, now: int, commands: seq<Command>, messages: seq<string>): Verdict {
    if c.id in processed then Skip
    else if now >= EffectiveExpiry(c) then Expire
    else if Replaceable(c.kind) && HasNewer(commands, c) then Supersede
    else if c.kind.Interrupt? && c.aimedAt.Some? && Moot(c.aimedAt.value, messages) then Supersede
    else Execute
  }

  /** The current turn is the last message; a turn with any message is past. */
  predicate Moot(turn: string, messages: seq<string>) {
    !(messages != [] && messages[|messages| - 1] == turn) && turn in messages
  }

  predicate Waiting(c: Command, kind: Kind) { c.kind == kind && c.status.Pending? }

  /** No two waiting commands of the kind share an id or an issue time. */
  ghost predicate Ranked(commands: seq<Command>, kind: Kind) {
    forall a, b :: a in commands && b in commands && Waiting(a, kind) && Waiting(b, kind) && a != b ==>
      a.id != b.id && a.issuedAt != b.issuedAt
  }

  lemma {:induction false} LatestOf(commands: seq<Command>, kind: Kind) returns (latest: Command)
    requires exists c :: c in commands && Waiting(c, kind)
    ensures latest in commands && Waiting(latest, kind)
    ensures forall c :: c in commands && Waiting(c, kind) ==> c.issuedAt <= latest.issuedAt
  {
    var rest := commands[1..];
    if exists c :: c in rest && Waiting(c, kind) {
      latest := LatestOf(rest, kind);
      if Waiting(commands[0], kind) && commands[0].issuedAt > latest.issuedAt { latest := commands[0]; }
    } else {
      latest := commands[0];
    }
    forall c | c in commands && Waiting(c, kind) ensures c.issuedAt <= latest.issuedAt {
      assert c == commands[0] || c in rest;
    }
  }

  /** Of the waiting steers, and of the waiting interrupts, exactly one is not superseded by
      another: the latest. */
  lemma OneOfAKindSurvives(commands: seq<Command>, kind: Kind) returns (latest: Command)
    requires Ranked(commands, kind) && exists c :: c in commands && Waiting(c, kind)
    ensures latest in commands && Waiting(latest, kind)
    ensures forall c :: c in commands && Waiting(c, kind) ==> (HasNewer(commands, c) <==> c != latest)
    ensures forall c :: c in commands && Waiting(c, kind) ==> c.issuedAt <= latest.issuedAt
  {
    latest := LatestOf(commands, kind);
  }

  /** The latest interrupt executes exactly if the turn it names is still the last, or unknown. */
  lemma InterruptNeedsItsTurn(c: Command, turn: string, processed: set<string>, now: int, commands: seq<Command>,
                              messages: seq<string>)
    requires c.kind.Interrupt? && c.aimedAt == Some(turn) && c.id !in processed && now < EffectiveExpiry(c)
    requires !HasNewer(commands, c)
    ensures Evaluate(c, processed, now, commands, messages).Execute? <==>
      forall i :: 0 <= i < |messages| && messages[i] == turn ==> messages[|messages| - 1] == turn
    ensures Evaluate(c, processed, now, commands, messages).Execute? || Evaluate(c, processed, now, commands, messages).Supersede?
  {
  }

  /** Past the time it states, or without one a day after it was issued, as far as 64 bits can say. */
  predicate Late(c: Command, now: int) {
    match c.expiresAt
    case Some(t) => now >= t
    case None =>
      var day := c.issuedAt + COMMAND_DEFAULT_TTL_MS;
      -TWO_63 <= c.issuedAt && day < TWO_63 && now >= day
  }

  /** A late command never passes, and one with a time of its own passes until then. */
  lemma LateExactly(c: Command, now: int)
    ensures Late(c, now) ==> now >= EffectiveExpiry(c)
    ensures c.expiresAt.Some? ==> (now >= EffectiveExpiry(c) <==> Late(c, now))
    ensures -TWO_63 <= c.issuedAt && c.issuedAt + COMMAND_DEFAULT_TTL_MS < TWO_63 ==>
      (now >= EffectiveExpiry(c) <==> Late(c, now))
  {
    var day := c.issuedAt + COMMAND_DEFAULT_TTL_MS;
    if -TWO_63 <= day < TWO_63 { assert (day + TWO_63) % (2 * TWO_63) == day + TWO_63; }
  }

  /** An entry without a stated expiry lives a day, unless the sum leaves 64 bits: then it has
      expired at birth. */
  lemma DefaultLifetime(c: Command)
    requires c.expiresAt.None? && -TWO_63 <= c.issuedAt < TWO_63
    ensures EffectiveExpiry(c) == c.issuedAt + COMMAND_DEFAULT_TTL_MS <==> c.issuedAt + COMMAND_DEFAULT_TTL_MS < TWO_63
    ensures EffectiveExpiry(c) > c.issuedAt <==> c.issuedAt + COMMAND_DEFAULT_TTL_MS < TWO_63
  {
    var sum := c.issuedAt + COMMAND_DEFAULT_TTL_MS;
    if sum < TWO_63 {
      assert (sum + TWO_63) % (2 * TWO_63) == sum + TWO_63;
    } else {
      assert (sum + TWO_63) % (2 * TWO_63) == sum - TWO_63;
    }
  }

  /** Commands issued at the same time do not replace each other. */
  lemma EqualTimesCoexist(commands: seq<Command>, c: Command)
    requires forall o :: o in commands && o.kind == c.kind && o.status.Pending? ==> o.issuedAt <= c.issuedAt
    ensures !HasNewer(commands, c)
  {
  }

  /** The verdict on a command that is not late: a run or an answer passes; a steer or an interrupt
      gives way to a newer one that waits. */
  lemma VerdictExactly(c: Command, processed: set<string>, now: int, commands: seq<Command>, messages: seq<string>)
    ensures var v := Evaluate(c, processed, now, commands, messages);
      && (v.Skip? <==> c.id in processed)
      && (c.id !in processed && Late(c, now) ==> v.Expire?)
      && (c.id !in processed && now < EffectiveExpiry(c) ==>
            match c.kind
            case Run => v.Execute?
            case RespondInput => v.Execute?
            case Steer =>
              v.Supersede? <==> exists o :: o in commands && Waiting(o, Steer) && o.id != c.id && o.issuedAt > c.issuedAt
            case Interrupt =>
              (exists o :: o in commands && Waiting(o, Interrupt) && o.id != c.id && o.issuedAt > c.issuedAt) ==> v.Supersede?)
  {
    LateExactly(c, now);
    if o :| o in commands && Waiting(o, c.kind) && o.id != c.id && o.issuedAt > c.issuedAt {
      assert HasNewer(commands, c);
    }
  }
}
