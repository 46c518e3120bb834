/** A document room as a state machine (edge/src/session-room.ts): volatile caches over a
    storage that a kill rolls back to its last committed state, and a backup outside it.

    A document is the set of operations it has absorbed; importing an update is a union.
    `dec` says which operations an update's bytes carry. */
module Room {
  import opened Common
  import Codec = RoomCodec

  datatype Op = Op(peer: nat, counter: nat)

  type Ops = set<Op>

  type Decode = Bytes -> Ops

  /** Version-vector order: a has seen at least as much of every peer as b. */
  predicate Includes(a: Ops, b: Ops) {
    forall o :: o in b ==> exists p :: p in a && p.peer == o.peer && p.counter >= o.counter
  }

  lemma SupersetIncludes(a: Ops, b: Ops)
    requires b <= a
    ensures Includes(a, b)
  {
  }

  lemma IncludesTransitive(a: Ops, b: Ops, c: Ops)
    requires Includes(a, b) && Includes(b, c)
    ensures Includes(a, c)
  {
    forall o | o in c ensures exists p :: p in a && p.peer == o.peer && p.counter >= o.counter {
      var q :| q in b && q.peer == o.peer && q.counter >= o.counter;
      var p :| p in a && p.peer == q.peer && p.counter >= q.counter;
    }
  }

  // ----- state -----

  /** Consecutive deaths of a cold replay after which the room drops its log. */
  const REPLAY_CRASH_LIMIT: nat := 3

  const COMPACT_LOG_BYTES: nat := 2 * 1024 * 1024

  const COMPACT_LOG_ROWS: nat := 400

  datatype MetaKey = ReplayAttempts | PostReset | BackupDirty | TailDirty | BackupVV | UpdateBytes | Checkpoints | ChatId

  datatype MetaValue = Num(n: nat) | Flag(on: bool) | Version(ops: Ops) | Name(name: string)

  type Meta = map<MetaKey, MetaValue>

  datatype Store = Store(snapshot: Option<Ops>, rows: seq<Bytes>, meta: Meta)

  /** `live` is what storage reads return, `durable` what a kill rolls back to, `backup` the
      last disaster copy. The fields after `dirty` are history, read by no step: whether nothing
      was recorded since the last drop, what the cached document absorbed of batches that then
      failed, and how many backups were put. */
  datatype Room = Room(
    live: Store,
    durable: Store,
    backup: Option<Ops>,
    doc: Option<Ops>,
    pending: seq<Bytes>,
    pendingBytes: nat,
    logBytes: nat,
    cache: Option<Meta>,
    dirty: set<MetaKey>,
    hollow: bool,
    extra: Ops,
    puts: nat)

  const EMPTY_STORE := Store(None, [], map[])

  const NEW_ROOM := Room(EMPTY_STORE, EMPTY_STORE, None, None, [], 0, 0, None, {}, false, {}, 0)

  // ----- what the log says -----

  function OpsOf(updates: seq<Bytes>, dec: Decode): Ops {
    if updates == [] then {} else dec(updates[0]) + OpsOf(updates[1..], dec)
  }

  function RowsOps(rows: seq<Bytes>, dec: Decode): Ops {
    if rows == [] then {} else OpsOf(Codec.Split(rows[0]), dec) + RowsOps(rows[1..], dec)
  }

  function StoredOps(s: Store, dec: Decode): Ops {
    (if s.snapshot.Some? then s.snapshot.value else {}) + RowsOps(s.rows, dec)
  }

  function LogOps(r: Room, dec: Decode): Ops {
    StoredOps(r.live, dec) + OpsOf(r.pending, dec)
  }

  /** The document a client would see now. */
  function Content(r: Room, dec: Decode): Ops {
    if r.doc.Some? then r.doc.value else LogOps(r, dec)
  }

  lemma {:induction false} OpsOfConcat(a: seq<Bytes>, b: seq<Bytes>, dec: Decode)
    ensures OpsOf(a + b, dec) == OpsOf(a, dec) + OpsOf(b, dec)
  {
    if a == [] {
      assert a + b == b;
    } else {
      assert (a + b)[0] == a[0] && (a + b)[1..] == a[1..] + b;
      OpsOfConcat(a[1..], b, dec);
    }
  }

  lemma {:induction false} RowsOpsSnoc(rows: seq<Bytes>, row: Bytes, dec: Decode)
    ensures RowsOps(rows + [row], dec) == RowsOps(rows, dec) + OpsOf(Codec.Split(row), dec)
  {
    if rows == [] {
      assert [] + [row] == [row] && [row][1..] == [];
    } else {
      assert (rows + [row])[0] == rows[0] && (rows + [row])[1..] == rows[1..] + [row];
      RowsOpsSnoc(rows[1..], row, dec);
    }
  }

  function Payload(updates: seq<Bytes>): nat {
    if updates == [] then 0 else |updates[0]| + Payload(updates[1..])
  }

  function RowsPayload(rows: seq<Bytes>): nat {
    if rows == [] then 0 else RowsPayload(rows[..|rows| - 1]) + Payload(Codec.Split(rows[|rows| - 1]))
  }

  lemma {:induction false} PayloadSnoc(updates: seq<Bytes>, u: Bytes)
    ensures Payload(updates + [u]) == Payload(updates) + |u|
  {
    if updates == [] {
      assert [] + [u] == [u] && [u][1..] == [];
    } else {
      assert (updates + [u])[0] == updates[0] && (updates + [u])[1..] == updates[1..] + [u];
      PayloadSnoc(updates[1..], u);
    }
  }

  // ----- the meta cache -----

  function MetaOf(r: Room): Meta { if r.cache.Some? then r.cache.value else r.live.meta }

  function Get(r: Room, k: MetaKey): Option<MetaValue> {
    if k in MetaOf(r) then Some(MetaOf(r)[k]) else None
  }

  function NumOf(m: Meta, k: MetaKey): nat {
    if k in m && m[k].Num? then m[k].n else 0
  }

  function GetNum(r: Room, k: MetaKey): nat { NumOf(MetaOf(r), k) }

  predicate IsSet(r: Room, k: MetaKey) { Get(r, k) == Some(Flag(true)) }

  function Load(r: Room): Room { r.(cache := Some(MetaOf(r))) }

  /** Cached only; an unchanged value is not written at all. */
  function Put(r: Room, k: MetaKey, v: MetaValue): Room {
    if Get(r, k) == Some(v) then Load(r)
    else r.(cache := Some(MetaOf(r)[k := v]), dirty := r.dirty + {k})
  }

  function Sync(r: Room): Room { r.(durable := r.live) }

  /** One upsert per changed key, whatever the others hold. */
  function Upserted(r: Room): Meta {
    r.live.meta + map k | k in r.dirty && k in MetaOf(r) :: MetaOf(r)[k]
  }

  function FlushMeta(r: Room): Room {
    if r.dirty == {} then r
    else Sync(r.(live := r.live.(meta := Upserted(r)), dirty := {}))
  }

  /** Write a number and everything else that waits, and make it durable. */
  function Commit(r: Room, k: MetaKey, n: nat): Room { Sync(FlushMeta(Put(r, k, Num(n)))) }

  // ----- handlers -----

  function Cleared(r: Room): Room {
    r.(live := Store(None, [], r.live.meta), logBytes := 0, pending := [], pendingBytes := 0, hollow := true)
  }

  function MarkDropped(r: Room): Room {
    Put(Put(Put(r, UpdateBytes, Num(0)), Checkpoints, Num(0)), PostReset, Flag(true))
  }

  function DropLog(r: Room): Room { MarkDropped(Cleared(r)) }

  predicate DropsOnColdStart(r: Room) { GetNum(r, ReplayAttempts) >= REPLAY_CRASH_LIMIT }

  /** The room after it read its count of attempts: without its log if too many have died. */
  function Unwedged(r: Room): Room { if DropsOnColdStart(r) then DropLog(Load(r)) else Load(r) }

  /** Up to the first sync: count the attempt. */
  function BeginReplay(r: Room): Room {
    Commit(Unwedged(r), ReplayAttempts, GetNum(r, ReplayAttempts) + 1)
  }

  /** From the replay to the second sync. */
  function EndReplay(r: Room, dec: Decode): Room {
    var replayed := r.(logBytes := GetNum(r, UpdateBytes));
    Commit(replayed, ReplayAttempts, 0).(doc := Some(LogOps(r, dec)), extra := {})
  }

  function EnsureDoc(r: Room, dec: Decode): Room {
    if r.doc.Some? then r else EndReplay(BeginReplay(r), dec)
  }

  /** A kill: storage falls back to what was committed, memory is gone. */
  function Crash(r: Room): Room {
    Room(r.durable, r.durable, r.backup, None, [], 0, 0, None, {}, r.hollow, {}, r.puts)
  }

  function Buffered(r: Room, carried: seq<Bytes>): Room {
    r.(pending := r.pending + carried, pendingBytes := r.pendingBytes + Payload(carried), hollow := false)
  }

  function MarkRecorded(r: Room): Room {
    Put(Put(Put(r, TailDirty, Flag(true)), BackupDirty, Flag(true)), PostReset, Flag(false))
  }

  /** Buffer the non-empty updates; a batch without any changes nothing. */
  function Record(r: Room, updates: seq<Bytes>): Room {
    if NonEmpty(updates) == [] then r else MarkRecorded(Buffered(r, NonEmpty(updates)))
  }

  function NonEmpty(updates: seq<Bytes>): seq<Bytes> {
    if updates == [] then []
    else NonEmpty(updates[..|updates| - 1]) + if updates[|updates| - 1] == [] then [] else [updates[|updates| - 1]]
  }

  /** What a batch leaves in the document, remembering it if the rest of the batch fails. */
  function Absorb(r: Room, updates: seq<Bytes>, rejects: bool, dec: Decode): Room
    requires r.doc.Some?
  {
    var carried := OpsOf(NonEmpty(updates), dec);
    var imported := r.(doc := Some(r.doc.value + carried));
    if rejects then imported.(extra := r.extra + carried) else imported
  }

  /** Import a batch; the document rejects it at index `accepted` if that is not its length. */
  function Deliver(r: Room, updates: seq<Bytes>, accepted: nat, dec: Decode): Room
    requires accepted <= |updates|
  {
    var ready := EnsureDoc(r, dec);
    var imported := Absorb(ready, updates[..accepted], accepted < |updates|, dec);
    if accepted < |updates| then imported else Record(imported, updates)
  }

  function FoldLog(r: Room, dec: Decode): Room {
    FlushMeta(Put(Folded(EnsureDoc(r, dec)), UpdateBytes, Num(0))).(extra := {})
  }

  function Folded(r: Room): Room
    requires r.doc.Some?
  {
    r.(live := r.live.(snapshot := Some(r.doc.value), rows := []), logBytes := 0)
  }

  /** Write the buffered updates as one row and move the byte gauge. */
  function AppendRow(r: Room): Room {
    FlushMeta(Put(WithRow(r), UpdateBytes, Num(r.logBytes + r.pendingBytes)))
  }

  function WithRow(r: Room): Room {
    r.(live := r.live.(rows := r.live.rows + [Codec.Combine(r.pending)]),
       logBytes := r.logBytes + r.pendingBytes, pending := [], pendingBytes := 0)
  }

  predicate OverBudget(r: Room) { r.logBytes > COMPACT_LOG_BYTES || |r.live.rows| > COMPACT_LOG_ROWS }

  /** Persist meta, then the buffered updates, then fold if the log is over either budget. */
  function Flush(r: Room, dec: Decode): Room {
    var a := FlushMeta(r);
    if a.pending == [] then a
    else
      var c := AppendRow(a);
      if OverBudget(c) then FoldLog(c, dec) else c
  }

  /** A kill after the flushed row is synced and before the fold that may follow is. */
  function FlushKilled(r: Room): Room {
    var a := FlushMeta(r);
    Crash(if a.pending == [] then a else AppendRow(a))
  }

  /** Replace the log by a shallow snapshot of the document. */
  function Trim(r: Room): Room
    requires r.doc.Some?
  {
    Put(Folded(r), UpdateBytes, Num(0)).(extra := {})
  }

  function BackedUp(r: Room): Option<Ops> {
    match Get(r, BackupVV)
    case Some(Version(ops)) => Some(ops)
    case _ => None
  }

  predicate MayPut(r: Room)
    requires r.doc.Some?
  {
    && Get(r, ChatId).Some? && !IsSet(r, PostReset)
    && (BackedUp(r).Some? ==> Includes(r.doc.value, BackedUp(r).value))
  }

  /** Record today's checkpoint. The list grows or shifts with every alarm, so its stored form
      always changes; a number that goes up stands for it, and zero for the empty list. */
  function Stamp(r: Room): Room { Put(r, Checkpoints, Num(GetNum(r, Checkpoints) + 1)) }

  /** Trim history if a checkpoint is old enough, and record today's. */
  function Stamped(r: Room, trim: bool): Room
    requires r.doc.Some?
  {
    Stamp(if trim then Trim(r) else r)
  }

  /** The backup itself, which lies outside the room's storage. */
  function BackUp(r: Room): Room
    requires r.doc.Some?
  {
    r.(backup := r.doc, puts := r.puts + 1)
  }

  function MarkBackedUp(r: Room): Room
    requires r.doc.Some?
  {
    Put(Put(r, BackupVV, Version(r.doc.value)), BackupDirty, Flag(false))
  }

  function AlarmBody(r: Room, trim: bool, dec: Decode): Room {
    var s := Stamped(EnsureDoc(r, dec), trim);
    FlushMeta(if MayPut(s) then MarkBackedUp(BackUp(s)) else s)
  }

  function Alarm(r: Room, trim: bool, dec: Decode): Room {
    var flushed := Flush(r, dec);
    if IsSet(flushed, BackupDirty) then AlarmBody(flushed, trim, dec) else flushed
  }

  /** A kill after the backup and before its bookkeeping is synced. */
  function AlarmBodyDies(r: Room, trim: bool, dec: Decode): Room {
    var s := Stamped(EnsureDoc(r, dec), trim);
    Crash(if MayPut(s) then BackUp(s) else s)
  }

  function AlarmKilled(r: Room, trim: bool, dec: Decode): Room {
    var flushed := Flush(r, dec);
    if IsSet(flushed, BackupDirty) then AlarmBodyDies(flushed, trim, dec) else Crash(flushed)
  }

  function ColdStartKilled(r: Room): Room { Crash(BeginReplay(r)) }

  function ResetLog(r: Room): Room { FlushMeta(DropLog(r).(doc := None, extra := {})) }

  function Join(r: Room, chat: string, dec: Decode): Room {
    EnsureDoc(if Get(r, ChatId).None? && chat != "" then Put(r, ChatId, Name(chat)) else Load(r), dec)
  }

  // ----- steps -----

  datatype Action =
    | DoJoin(chat: string)
    | DoDeliver(updates: seq<Bytes>, accepted: nat)
    | DoFlush
    | DoPersistMeta
    | DoAlarm(trim: bool)
    | DoResetLog
    | DoCrash
    | ColdStartDies
    | FlushDies
    | AlarmDies(trim: bool)

  predicate Enabled(r: Room, a: Action) {
    match a
    case DoDeliver(updates, accepted) => accepted <= |updates| && forall u :: u in updates ==> |u| < Codec.U32
    case ColdStartDies => r.doc.None?
    case _ => true
  }

  /** One step; `ColdStartDies` is a kill between the two syncs of a cold start, `FlushDies` one
      between the syncs of a flush and of its fold, `AlarmDies` one after the backup and before
      its bookkeeping is synced, `DoCrash` one between handlers. */
  function Step(r: Room, a: Action, dec: Decode): Room {
    if !Enabled(r, a) then r
    else
      match a
      case DoJoin(chat) => Join(r, chat, dec)
      case DoDeliver(updates, accepted) => Deliver(r, updates, accepted, dec)
      case DoFlush => Flush(r, dec)
      case DoPersistMeta => FlushMeta(r)
      case DoAlarm(trim) => Alarm(r, trim, dec)
      case DoResetLog => ResetLog(r)
      case DoCrash => Crash(r)
      case ColdStartDies => ColdStartKilled(r)
      case FlushDies => FlushKilled(r)
      case AlarmDies(trim) => AlarmKilled(r, trim, dec)
  }

  function Run(r: Room, actions: seq<Action>, dec: Decode): Room {
    if actions == [] then r
    else Step(Run(r, actions[..|actions| - 1], dec), actions[|actions| - 1], dec)
  }
}
