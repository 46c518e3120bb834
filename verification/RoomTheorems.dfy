/** The guarantees of a document room over all its runs: what it stores, when it may drop it, and
    how its disaster copy may move. */
module RoomTheorems {
  import opened Common
  import Codec = RoomCodec
  import opened Room
  import opened RoomSafety

  // ----- every step keeps the invariant -----

  lemma NewRoomHolds(dec: Decode)
    ensures Inv(NEW_ROOM, dec)
  {
  }

  /** An emptied room, down to what a kill would leave. */
  ghost predicate EmptiedFrom(r: Room, n: Room) {
    n == r.(live := Store(None, [], Dropped(MetaOf(r))), durable := n.live, doc := None, pending := [],
            pendingBytes := 0, logBytes := 0, cache := Some(Dropped(MetaOf(r))), dirty := {}, hollow := true,
            extra := {})
  }

  lemma ResetFacts(r: Room, dec: Decode)
    requires Inv(r, dec)
    ensures EmptiedFrom(r, ResetLog(r))
  {
    DropLogFacts(r);
    var d := DropLog(r).(doc := None, extra := {});
    assert CacheAgrees(d) && MetaOf(d) == MetaOf(DropLog(r));
    FlushMetaFacts(d);
    UpsertsSuffice(d);
    if d.dirty == {} { NothingLeftToDrop(r, d, dec); }
  }

  /** A drop that writes no meta repeats one that is already in storage. */
  lemma NothingLeftToDrop(r: Room, d: Room, dec: Decode)
    requires Inv(r, dec) && d.dirty == {} && CacheAgrees(d) && MetaOf(d) == Dropped(MetaOf(r))
    requires d.live == Store(None, [], r.live.meta) && d.durable == r.durable
    ensures d.durable == d.live
  {
    assert Marked(r.live.meta);
  }

  lemma EmptiedKeeps(r: Room, n: Room, dec: Decode)
    requires Inv(r, dec) && EmptiedFrom(r, n)
    ensures Inv(n, dec) && BackedUp(n) == BackedUp(r) && Attempts(n) == Attempts(r)
  {
    Settled(r, UpdateBytes);
    Settled(r, ReplayAttempts);
    Settled(r, BackupVV);
    assert BackedUp(n) == BackedUp(r);
    assert Committed(n);
    assert GaugeExact(n);
    assert HollowPaused(n);
  }

  lemma ResetLogKeeps(r: Room, dec: Decode)
    requires Inv(r, dec)
    ensures var n := ResetLog(r);
      && Inv(n, dec) && n.doc.None? && n.live.rows == [] && n.live.snapshot.None? && n.hollow && n.extra == {}
      && n.puts == r.puts && n.backup == r.backup && BackedUp(n) == BackedUp(r) && Attempts(n) == Attempts(r)
  {
    ResetFacts(r, dec);
    EmptiedKeeps(r, ResetLog(r), dec);
  }

  function Named(r: Room, chat: string): Room {
    if Get(r, ChatId).None? && chat != "" then Put(r, ChatId, Name(chat)) else Load(r)
  }

  /** A room that only cached more, and marked nothing but the chat id. */
  ghost predicate Recached(r: Room, n: Room) {
    && n == r.(cache := n.cache, dirty := n.dirty) && n.dirty <= r.dirty + {ChatId}
    && forall k :: k != ChatId ==> Get(n, k) == Get(r, k)
  }

  lemma RecachedHolds(r: Room, n: Room, dec: Decode)
    requires Inv(r, dec) && CacheAgrees(n) && Recached(r, n)
    ensures Inv(n, dec) && LogOps(n, dec) == LogOps(r, dec) && BackedUp(n) == BackedUp(r)
  {
    assert LogOps(n, dec) == LogOps(r, dec);
    assert BackedUp(n) == BackedUp(r);
  }

  lemma NamedHolds(r: Room, chat: string, dec: Decode)
    requires Inv(r, dec)
    ensures var n := Named(r, chat);
      Inv(n, dec) && Recached(r, n) && LogOps(n, dec) == LogOps(r, dec) && BackedUp(n) == BackedUp(r)
  {
    PutFacts(r, ChatId, Name(chat));
    RecachedHolds(r, Named(r, chat), dec);
  }

  /** A join is a cold start of a room that may have learned its name. */
  lemma JoinKeeps(r: Room, chat: string, dec: Decode)
    requires Inv(r, dec)
    ensures Woken(r, Join(r, chat, dec), dec)
  {
    NamedHolds(r, chat, dec);
    EnsureDocKeeps(Named(r, chat), dec);
    WokenByName(r, Named(r, chat), Join(r, chat, dec), dec);
  }

  lemma WokenByName(r: Room, m: Room, n: Room, dec: Decode)
    requires Woken(m, n, dec) && Recached(r, m) && LogOps(m, dec) == LogOps(r, dec) && BackedUp(m) == BackedUp(r)
    ensures Woken(r, n, dec)
  {
  }

  /** What a step may do to a room: keep the invariant, move the disaster copy only as allowed,
      and leave it ahead of its bookkeeping only if `tears`. */
  ghost predicate Kept(r: Room, n: Room, tears: bool, dec: Decode) {
    Inv(n, dec) && BackupMoves(r, n) && (!tears && Covers(r) ==> Covers(n))
  }

  lemma KeptQuietly(r: Room, n: Room, dec: Decode)
    requires Inv(n, dec) && n.puts == r.puts && n.backup == r.backup && BackedUp(n) == BackedUp(r)
    ensures Kept(r, n, false, dec)
  {
    BackupStays(r, n);
  }

  lemma CrashQuietly(r: Room, dec: Decode)
    requires Inv(r, dec)
    ensures Kept(r, Crash(r), false, dec)
  {
    CrashedAfter(r, r, dec);
    KeptQuietly(r, Crash(r), dec);
  }

  lemma PersistQuietly(r: Room, dec: Decode)
    requires Inv(r, dec)
    ensures Kept(r, FlushMeta(r), false, dec)
  {
    PersistKeeps(r, dec);
    FlushMetaFacts(r);
    KeptQuietly(r, FlushMeta(r), dec);
  }

  lemma FlushQuietly(r: Room, dec: Decode)
    requires Inv(r, dec)
    ensures Kept(r, Flush(r, dec), false, dec)
  {
    FlushKeeps(r, dec);
    FlushedQuietly(r, Flush(r, dec), dec);
  }

  lemma FlushedQuietly(r: Room, f: Room, dec: Decode)
    requires Flushed(r, f, dec)
    ensures Kept(r, f, false, dec)
  {
    assert Get(f, BackupVV) == Get(r, BackupVV);
    KeptQuietly(r, f, dec);
  }

  /** Every step keeps the invariant, moves the disaster copy only as allowed, and leaves it
      ahead of its bookkeeping only when the alarm is killed after a put. */
  lemma StepKeeps(r: Room, a: Action, dec: Decode)
    requires Inv(r, dec)
    ensures Kept(r, Step(r, a, dec), a.AlarmDies?, dec)
  {
    if !Enabled(r, a) {
      KeptQuietly(r, r, dec);
    } else {
      match a
      case DoJoin(chat) => JoinKeeps(r, chat, dec); KeptQuietly(r, Join(r, chat, dec), dec);
      case DoDeliver(updates, accepted) =>
        DeliverKeeps(r, updates, accepted, dec);
        KeptQuietly(r, Deliver(r, updates, accepted, dec), dec);
      case DoFlush => FlushQuietly(r, dec);
      case DoPersistMeta => PersistQuietly(r, dec);
      case DoAlarm(trim) => AlarmKeeps(r, trim, dec);
      case DoResetLog => ResetLogKeeps(r, dec); KeptQuietly(r, ResetLog(r), dec);
      case DoCrash => CrashQuietly(r, dec);
      case ColdStartDies => ColdStartDiesKeeps(r, dec); KeptQuietly(r, ColdStartKilled(r), dec);
      case FlushDies => FlushDiesKeeps(r, dec); KeptQuietly(r, FlushKilled(r), dec);
      case AlarmDies(trim) => AlarmDiesKeeps(r, trim, dec);
    }
  }

  lemma {:induction false} RunKeeps(r: Room, actions: seq<Action>, dec: Decode)
    requires Inv(r, dec)
    ensures Inv(Run(r, actions, dec), dec)
  {
    if actions != [] {
      RunKeeps(r, actions[..|actions| - 1], dec);
      StepKeeps(Run(r, actions[..|actions| - 1], dec), actions[|actions| - 1], dec);
    }
  }

  lemma RunNext(r: Room, actions: seq<Action>, a: Action, dec: Decode)
    ensures Run(r, actions + [a], dec) == Step(Run(r, actions, dec), a, dec)
  {
    assert (actions + [a])[..|actions|] == actions;
  }

  ghost function Reached(actions: seq<Action>, dec: Decode): Room { Run(NEW_ROOM, actions, dec) }

  lemma ReachedHolds(actions: seq<Action>, dec: Decode)
    ensures Inv(Reached(actions, dec), dec)
  {
    NewRoomHolds(dec);
    RunKeeps(NEW_ROOM, actions, dec);
  }

  // ----- what each step does to the log -----

  /** The steps that start the document when it is not in memory. */
  predicate Starts(r: Room, a: Action) {
    && r.doc.None? && Enabled(r, a)
    && (a.DoJoin? || a.DoDeliver? || ((a.DoAlarm? || a.AlarmDies?) && IsSet(r, BackupDirty)))
  }

  /** The cold starts that break a wedge, whether or not they then die. */
  predicate Breaks(r: Room, a: Action) { BreaksWedge(r) && (Starts(r, a) || a.ColdStartDies?) }

  predicate Drops(r: Room, a: Action) { a.DoResetLog? || Breaks(r, a) }

  predicate TrimsLog(r: Room, a: Action) { a.DoAlarm? && a.trim && IsSet(r, BackupDirty) }

  /** What a step leaves of earlier failed batches in the document, and adds to it. */
  ghost function StillRejected(r: Room, a: Action, had: Ops, dec: Decode): Ops {
    if !Enabled(r, a) then had
    else
      match a
      case DoDeliver(updates, accepted) =>
        had + if accepted < |updates| then OpsOf(NonEmpty(updates[..accepted]), dec) else {}
      case DoJoin(_) => had
      case DoPersistMeta => had
      case DoFlush => if FoldsOnFlush(r) then {} else had
      case DoAlarm(_) => if FoldsOnFlush(r) || TrimsLog(r, a) then {} else had
      case _ => {}
  }

  /** The steps that begin with a flush. */
  predicate Flushes(a: Action) { a.DoFlush? || a.FlushDies? || a.DoAlarm? || a.AlarmDies? }

  /** The rows of the log after a step. */
  function RowsAfter(r: Room, a: Action): seq<Bytes> {
    if Drops(r, a) || TrimsLog(r, a) then []
    else if !Flushes(a) || r.pending == [] then r.live.rows
    else if FoldsOnFlush(r) && !a.FlushDies? then []
    else r.live.rows + [Codec.Combine(r.pending)]
  }

  function AttemptsAfter(r: Room, a: Action): nat {
    if Starts(r, a) then 0 else if a.ColdStartDies? && r.doc.None? then Attempts(r) + 1 else Attempts(r)
  }

  /** What a step does to the rows, to the counted attempts, to what failed batches left in the
      document, and to what storage holds. */
  ghost predicate Stepped(r: Room, a: Action, n: Room, dec: Decode) {
    && n.live.rows == RowsAfter(r, a)
    && Attempts(n) == AttemptsAfter(r, a)
    && n.extra == StillRejected(r, a, r.extra, dec)
    && (if Drops(r, a) then StoredOps(n.live, dec) == {} else StoredOps(r.live, dec) <= StoredOps(n.live, dec))
  }

  lemma WokenStored(r: Room, e: Room, dec: Decode)
    requires Inv(r, dec) && Woken(r, e, dec)
    ensures StoredOps(e.live, dec) == if BreaksWedge(r) then {} else StoredOps(r.live, dec)
  {
  }

  lemma SleepingStored(r: Room, dec: Decode)
    requires Inv(r, dec) && r.doc.None?
    ensures r.pending == [] && r.extra == {} && LogOps(r, dec) == StoredOps(r.live, dec) == Content(r, dec)
  {
    assert LogOps(r, dec) == StoredOps(r.live, dec) + {};
  }

  lemma JoinStepped(r: Room, chat: string, dec: Decode)
    requires Inv(r, dec)
    ensures Stepped(r, DoJoin(chat), Join(r, chat, dec), dec)
  {
    JoinKeeps(r, chat, dec);
    WokenStored(r, Join(r, chat, dec), dec);
    ReplayedAwake(r, dec);
  }

  lemma ReplayedAwake(r: Room, dec: Decode)
    requires Inv(r, dec)
    ensures r.doc.Some? ==> Attempts(r) == 0
  {
  }

  lemma DeliverStepped(r: Room, updates: seq<Bytes>, accepted: nat, dec: Decode)
    requires Inv(r, dec) && Enabled(r, DoDeliver(updates, accepted))
    ensures Stepped(r, DoDeliver(updates, accepted), Deliver(r, updates, accepted, dec), dec)
  {
    EnsureDocKeeps(r, dec);
    WokenStored(r, EnsureDoc(r, dec), dec);
    DeliverKeeps(r, updates, accepted, dec);
    ReplayedAwake(r, dec);
    DeliveredStepped(r, EnsureDoc(r, dec), Deliver(r, updates, accepted, dec), updates, accepted, dec);
  }

  lemma DeliveredStepped(r: Room, e: Room, n: Room, updates: seq<Bytes>, accepted: nat, dec: Decode)
    requires Enabled(r, DoDeliver(updates, accepted)) && Woken(r, e, dec) && (r.doc.Some? ==> Attempts(r) == 0)
    requires StoredOps(e.live, dec) == if BreaksWedge(r) then {} else StoredOps(r.live, dec)
    requires n.extra == r.extra + (if accepted < |updates| then OpsOf(NonEmpty(updates[..accepted]), dec) else {})
    requires n.live == e.live
    ensures Stepped(r, DoDeliver(updates, accepted), n, dec)
  {
  }

  lemma FlushStepped(r: Room, dec: Decode)
    requires Inv(r, dec)
    ensures Stepped(r, DoFlush, Flush(r, dec), dec)
  {
    FlushKeeps(r, dec);
    FlushedStepped(r, Flush(r, dec), dec);
  }

  lemma FlushedStepped(r: Room, f: Room, dec: Decode)
    requires Flushed(r, f, dec)
    ensures Stepped(r, DoFlush, f, dec)
  {
  }

  lemma PersistStepped(r: Room, dec: Decode)
    requires Inv(r, dec)
    ensures Stepped(r, DoPersistMeta, FlushMeta(r), dec)
  {
    PersistKeeps(r, dec);
    Settled(r, ReplayAttempts);
  }

  lemma CrashStepped(r: Room, dec: Decode)
    requires Inv(r, dec)
    ensures Stepped(r, DoCrash, Crash(r), dec)
  {
  }

  lemma FlushDiesStepped(r: Room, dec: Decode)
    requires Inv(r, dec)
    ensures Stepped(r, FlushDies, FlushKilled(r), dec)
  {
    FlushDiesKeeps(r, dec);
    FlushDiedStepped(r, FlushKilled(r), dec);
  }

  lemma FlushDiedStepped(r: Room, n: Room, dec: Decode)
    requires Inv(r, dec) && Inv(n, dec) && n.doc.None? && StoredOps(n.live, dec) == LogOps(r, dec)
    requires Attempts(n) == Attempts(r)
    requires n.live.rows == (if r.pending == [] then r.live.rows else r.live.rows + [Codec.Combine(r.pending)])
    ensures Stepped(r, FlushDies, n, dec)
  {
  }

  lemma ColdStartDiesStepped(r: Room, dec: Decode)
    requires Inv(r, dec) && r.doc.None?
    ensures Stepped(r, ColdStartDies, ColdStartKilled(r), dec)
  {
    ColdStartDiesKeeps(r, dec);
    SleepingStored(r, dec);
    SleepingExtra(ColdStartKilled(r), dec);
  }

  lemma SleepingExtra(n: Room, dec: Decode)
    requires Inv(n, dec)
    ensures n.doc.None? ==> n.extra == {}
  {
  }

  lemma ResetStepped(r: Room, dec: Decode)
    requires Inv(r, dec)
    ensures Stepped(r, DoResetLog, ResetLog(r), dec)
  {
    ResetLogKeeps(r, dec);
  }

  /** A flush puts nothing into a sleeping room, and does not change whether one will start. */
  lemma FlushedStarts(r: Room, f: Room, dec: Decode)
    requires Inv(r, dec) && Flushed(r, f, dec)
    ensures IsSet(f, BackupDirty) == IsSet(r, BackupDirty) && BreaksWedge(f) == BreaksWedge(r)
    ensures r.doc.None? ==> f.live.rows == r.live.rows && f.extra == {} && r.extra == {} && r.pending == []
    ensures StoredOps(r.live, dec) <= StoredOps(f.live, dec)
    ensures r.doc.Some? ==> Attempts(r) == 0
  {
    assert Get(f, BackupDirty) == Get(r, BackupDirty);
  }

  /** What storage holds after an alarm that woke the document. */
  lemma TrimmedStored(r: Room, e: Room, n: Room, trim: bool, dec: Decode)
    requires Inv(r, dec) && Woken(r, e, dec) && Inv(n, dec) && Trimmed(e, n, trim, dec)
    ensures if BreaksWedge(r) then StoredOps(n.live, dec) == {} else StoredOps(r.live, dec) <= StoredOps(n.live, dec)
  {
    WokenStored(r, e, dec);
  }

  lemma AlarmedStepped(r: Room, f: Room, e: Room, n: Room, trim: bool, dec: Decode)
    requires Inv(r, dec) && Flushed(r, f, dec) && IsSet(f, BackupDirty)
    requires Woken(f, e, dec) && Inv(n, dec) && Trimmed(e, n, trim, dec)
    ensures Stepped(r, DoAlarm(trim), n, dec)
  {
    FlushedStarts(r, f, dec);
    TrimmedStored(f, e, n, trim, dec);
    AlarmedLog(r, f, e, n, trim, dec);
  }

  /** Rows and rejected operations after an alarm that woke the document. */
  lemma AlarmedLog(r: Room, f: Room, e: Room, n: Room, trim: bool, dec: Decode)
    requires IsSet(r, BackupDirty) && BreaksWedge(f) == BreaksWedge(r)
    requires f.doc == r.doc && (r.doc.None? ==> f.live.rows == r.live.rows && r.pending == [])
    requires f.live.rows == (if r.pending == [] then r.live.rows
                             else if FoldsOnFlush(r) then [] else r.live.rows + [Codec.Combine(r.pending)])
    requires f.extra == (if FoldsOnFlush(r) then {} else r.extra)
    requires e.extra == f.extra && e.live.rows == if BreaksWedge(f) then [] else f.live.rows
    requires Trimmed(e, n, trim, dec)
    ensures n.live.rows == RowsAfter(r, DoAlarm(trim)) && n.extra == StillRejected(r, DoAlarm(trim), r.extra, dec)
  {
  }

  lemma AlarmStepped(r: Room, trim: bool, dec: Decode)
    requires Inv(r, dec)
    ensures Stepped(r, DoAlarm(trim), Alarm(r, trim, dec), dec)
  {
    FlushKeeps(r, dec);
    AlarmSteppedFrom(r, Flush(r, dec), Alarm(r, trim, dec), trim, dec);
  }

  lemma AlarmSteppedFrom(r: Room, f: Room, n: Room, trim: bool, dec: Decode)
    requires Inv(r, dec) && Flushed(r, f, dec) && n == if IsSet(f, BackupDirty) then AlarmBody(f, trim, dec) else f
    ensures Stepped(r, DoAlarm(trim), n, dec)
  {
    if IsSet(f, BackupDirty) { AlarmBodyStepped(r, f, trim, dec); } else { IdleAlarmStepped(r, f, trim, dec); }
  }

  lemma AlarmBodyStepped(r: Room, f: Room, trim: bool, dec: Decode)
    requires Inv(r, dec) && Flushed(r, f, dec) && IsSet(f, BackupDirty)
    ensures Stepped(r, DoAlarm(trim), AlarmBody(f, trim, dec), dec)
  {
    EnsureDocKeeps(f, dec);
    AlarmBodyKeeps(f, trim, dec);
    AlarmedStepped(r, f, EnsureDoc(f, dec), AlarmBody(f, trim, dec), trim, dec);
  }

  lemma IdleAlarmStepped(r: Room, f: Room, trim: bool, dec: Decode)
    requires Inv(r, dec) && Flushed(r, f, dec) && !IsSet(f, BackupDirty)
    ensures Stepped(r, DoAlarm(trim), f, dec)
  {
    FlushedStarts(r, f, dec);
  }

  lemma AlarmDiedStepped(r: Room, f: Room, e: Room, n: Room, trim: bool, dec: Decode)
    requires Inv(r, dec) && Flushed(r, f, dec) && IsSet(f, BackupDirty)
    requires Woken(f, e, dec) && Inv(n, dec) && n.doc.None? && n.live == e.live
    ensures Stepped(r, AlarmDies(trim), n, dec)
  {
    FlushedStarts(r, f, dec);
    WokenStored(f, e, dec);
    AlarmDiedLog(r, f, e, trim);
    AlarmWakes(r, trim, dec);
    AlarmDiedShape(r, f, e, n, trim, dec);
  }

  lemma AlarmWakes(r: Room, trim: bool, dec: Decode)
    requires Inv(r, dec) && IsSet(r, BackupDirty)
    ensures AttemptsAfter(r, AlarmDies(trim)) == 0 && Drops(r, AlarmDies(trim)) == BreaksWedge(r)
  {
    ReplayedAwake(r, dec);
  }

  lemma AlarmDiedShape(r: Room, f: Room, e: Room, n: Room, trim: bool, dec: Decode)
    requires AttemptsAfter(r, AlarmDies(trim)) == 0 && Drops(r, AlarmDies(trim)) == BreaksWedge(r)
    requires BreaksWedge(f) == BreaksWedge(r) && StoredOps(r.live, dec) <= StoredOps(f.live, dec)
    requires StoredOps(e.live, dec) == if BreaksWedge(f) then {} else StoredOps(f.live, dec)
    requires e.live.rows == RowsAfter(r, AlarmDies(trim)) && Attempts(e) == 0
    requires n.live == e.live && n.extra == {}
    ensures Stepped(r, AlarmDies(trim), n, dec)
  {
  }

  lemma AlarmDiedLog(r: Room, f: Room, e: Room, trim: bool)
    requires BreaksWedge(f) == BreaksWedge(r) && IsSet(r, BackupDirty)
    requires f.doc == r.doc && (r.doc.None? ==> f.live.rows == r.live.rows && r.pending == [])
    requires f.live.rows == (if r.pending == [] then r.live.rows
                             else if FoldsOnFlush(r) then [] else r.live.rows + [Codec.Combine(r.pending)])
    requires e.live.rows == if BreaksWedge(f) then [] else f.live.rows
    ensures e.live.rows == RowsAfter(r, AlarmDies(trim))
  {
  }

  lemma AlarmDiesStepped(r: Room, trim: bool, dec: Decode)
    requires Inv(r, dec)
    ensures Stepped(r, AlarmDies(trim), AlarmKilled(r, trim, dec), dec)
  {
    FlushKeeps(r, dec);
    AlarmDiesSteppedFrom(r, Flush(r, dec), AlarmKilled(r, trim, dec), trim, dec);
  }

  lemma AlarmDiesSteppedFrom(r: Room, f: Room, n: Room, trim: bool, dec: Decode)
    requires Inv(r, dec) && Flushed(r, f, dec)
    requires n == if IsSet(f, BackupDirty) then AlarmBodyDies(f, trim, dec) else Crash(f)
    ensures Stepped(r, AlarmDies(trim), n, dec)
  {
    if IsSet(f, BackupDirty) { BodyDiesStepped(r, f, trim, dec); } else { IdleDiesStepped(r, f, trim, dec); }
  }

  lemma BodyDiesStepped(r: Room, f: Room, trim: bool, dec: Decode)
    requires Inv(r, dec) && Flushed(r, f, dec) && IsSet(f, BackupDirty)
    ensures Stepped(r, AlarmDies(trim), AlarmBodyDies(f, trim, dec), dec)
  {
    EnsureDocKeeps(f, dec);
    AlarmBodyDiesKeeps(f, trim, dec);
    AlarmDiedStepped(r, f, EnsureDoc(f, dec), AlarmBodyDies(f, trim, dec), trim, dec);
  }

  lemma IdleDiesStepped(r: Room, f: Room, trim: bool, dec: Decode)
    requires Inv(r, dec) && Flushed(r, f, dec) && !IsSet(f, BackupDirty)
    ensures Stepped(r, AlarmDies(trim), Crash(f), dec)
  {
    FlushedStarts(r, f, dec);
    assert !Starts(r, AlarmDies(trim));
    CrashedStepped(r, f, Crash(f), trim, dec);
  }

  lemma CrashedStepped(r: Room, f: Room, n: Room, trim: bool, dec: Decode)
    requires Flushed(r, f, dec) && !Starts(r, AlarmDies(trim)) && StoredOps(r.live, dec) <= StoredOps(f.live, dec)
    requires n.live == f.durable && n.extra == {}
    ensures Stepped(r, AlarmDies(trim), n, dec)
  {
  }

  lemma StepIsStepped(r: Room, a: Action, dec: Decode)
    requires Inv(r, dec)
    ensures Stepped(r, a, Step(r, a, dec), dec)
  {
    if Enabled(r, a) {
      match a
      case DoJoin(chat) => JoinStepped(r, chat, dec);
      case DoDeliver(updates, accepted) => DeliverStepped(r, updates, accepted, dec);
      case DoFlush => FlushStepped(r, dec);
      case DoPersistMeta => PersistStepped(r, dec);
      case DoAlarm(trim) => AlarmStepped(r, trim, dec);
      case DoResetLog => ResetStepped(r, dec);
      case DoCrash => CrashStepped(r, dec);
      case ColdStartDies => ColdStartDiesStepped(r, dec);
      case FlushDies => FlushDiesStepped(r, dec);
      case AlarmDies(trim) => AlarmDiesStepped(r, trim, dec);
    } else {
      NotEnabledStepped(r, a, dec);
    }
  }

  lemma NotEnabledStepped(r: Room, a: Action, dec: Decode)
    requires Inv(r, dec) && !Enabled(r, a)
    ensures Stepped(r, a, r, dec)
  {
  }

  // ----- the document is the log -----

  /** What failed batches left in the cached document, told from the run: operations their
      accepted prefixes imported since a kill, a reset or a fold last took over. */
  ghost function Rejected(actions: seq<Action>, dec: Decode): Ops {
    if actions == [] then {}
    else
      var before := actions[..|actions| - 1];
      StillRejected(Reached(before, dec), actions[|actions| - 1], Rejected(before, dec), dec)
  }

  lemma {:induction false} ExtraIsRejected(actions: seq<Action>, dec: Decode)
    ensures Reached(actions, dec).extra == Rejected(actions, dec)
  {
    if actions != [] {
      var before := actions[..|actions| - 1];
      ExtraIsRejected(before, dec);
      ReachedHolds(before, dec);
      StepIsStepped(Reached(before, dec), actions[|actions| - 1], dec);
    }
  }

  /** In every reachable room the cached document is snapshot, log and buffer together with what
      failed batches left in it; so it is exactly the log just when the log covers that. */
  lemma DocumentIsLog(actions: seq<Action>, dec: Decode)
    ensures var r := Reached(actions, dec);
      var log := StoredOps(r.live, dec) + OpsOf(r.pending, dec);
      && (r.doc.None? ==> r.pending == [] && Rejected(actions, dec) == {})
      && (r.doc.Some? ==> r.doc.value == log + Rejected(actions, dec))
      && (r.doc.Some? ==> (r.doc.value == log <==> Rejected(actions, dec) <= log))
  {
    ReachedHolds(actions, dec);
    ExtraIsRejected(actions, dec);
  }

  predicate Whole(a: Action) { a.DoDeliver? ==> a.accepted >= |a.updates| }

  lemma {:induction false} NothingRejected(actions: seq<Action>, dec: Decode)
    requires forall a :: a in actions ==> Whole(a)
    ensures Rejected(actions, dec) == {}
  {
    if actions != [] {
      NothingRejected(actions[..|actions| - 1], dec);
      assert actions[|actions| - 1] in actions;
    }
  }

  /** While every batch is accepted whole, the document is the log. */
  lemma WholeBatchesAreTheLog(actions: seq<Action>, dec: Decode)
    requires forall a :: a in actions ==> Whole(a)
    ensures var r := Reached(actions, dec);
      r.doc.Some? ==> r.doc.value == StoredOps(r.live, dec) + OpsOf(r.pending, dec)
  {
    DocumentIsLog(actions, dec);
    NothingRejected(actions, dec);
  }

  /** The first batch that fails leaves the document equal to the log exactly when the operations
      of its accepted prefix are already there. */
  lemma RejectionShows(actions: seq<Action>, updates: seq<Bytes>, accepted: nat, dec: Decode)
    requires forall a :: a in actions ==> Whole(a)
    requires accepted < |updates| && forall u :: u in updates ==> |u| < Codec.U32
    ensures var r := Reached(actions + [DoDeliver(updates, accepted)], dec);
      var log := StoredOps(r.live, dec) + OpsOf(r.pending, dec);
      r.doc.Some? && (r.doc.value == log <==> OpsOf(NonEmpty(updates[..accepted]), dec) <= log)
  {
    var a := DoDeliver(updates, accepted);
    NothingRejected(actions, dec);
    RejectedNext(actions, updates, accepted, dec);
    DocumentIsLog(actions + [a], dec);
    ReachedHolds(actions, dec);
    RunNext(NEW_ROOM, actions, a, dec);
    DeliveredAwake(Reached(actions, dec), updates, accepted, dec);
  }

  lemma DeliveredAwake(r: Room, updates: seq<Bytes>, accepted: nat, dec: Decode)
    requires Inv(r, dec) && Enabled(r, DoDeliver(updates, accepted))
    ensures Step(r, DoDeliver(updates, accepted), dec).doc.Some?
  {
    DeliverKeeps(r, updates, accepted, dec);
  }

  lemma RejectedNext(actions: seq<Action>, updates: seq<Bytes>, accepted: nat, dec: Decode)
    requires Rejected(actions, dec) == {}
    requires accepted < |updates| && forall u :: u in updates ==> |u| < Codec.U32
    ensures Rejected(actions + [DoDeliver(updates, accepted)], dec) == OpsOf(NonEmpty(updates[..accepted]), dec)
  {
    var a := DoDeliver(updates, accepted);
    assert (actions + [a])[..|actions|] == actions;
  }

  // ----- storage never changes the document -----

  /** Steps that only move state between memory and storage. */
  predicate Housekeeping(a: Action) { a.DoFlush? || a.DoPersistMeta? || a.DoAlarm? || a.DoJoin? }

  /** Flush, log fold, history trim, backup and cold replay all leave the document a client sees
      unchanged, unless the cold start is the one that breaks a wedge. */
  lemma HousekeepingKeepsDocument(r: Room, a: Action, dec: Decode)
    requires Inv(r, dec) && Housekeeping(a) && !Breaks(r, a)
    ensures Content(Step(r, a, dec), dec) == Content(r, dec)
  {
    match a
    case DoJoin(chat) => JoinKeeps(r, chat, dec);
    case DoFlush => FlushKeepsDocument(r, dec);
    case DoPersistMeta => PersistKeeps(r, dec);
    case DoAlarm(trim) =>
      FlushKeeps(r, dec);
      AlarmKeepsDocument(r, Flush(r, dec), Alarm(r, trim, dec), trim, dec);
  }

  lemma FlushKeepsDocument(r: Room, dec: Decode)
    requires Inv(r, dec)
    ensures Content(Flush(r, dec), dec) == Content(r, dec)
  {
    FlushKeeps(r, dec);
    FlushedDocument(r, Flush(r, dec), dec);
  }

  lemma FlushedDocument(r: Room, f: Room, dec: Decode)
    requires Inv(r, dec) && Flushed(r, f, dec)
    ensures Content(f, dec) == Content(r, dec)
  {
    if r.doc.None? {
      SleepingStored(r, dec);
      SleepingStored(f, dec);
    }
  }

  lemma AlarmKeepsDocument(r: Room, f: Room, n: Room, trim: bool, dec: Decode)
    requires Inv(r, dec) && Flushed(r, f, dec) && !Breaks(r, DoAlarm(trim))
    requires n == if IsSet(f, BackupDirty) then AlarmBody(f, trim, dec) else f
    ensures Content(n, dec) == Content(r, dec)
  {
    FlushedDocument(r, f, dec);
    if IsSet(f, BackupDirty) {
      FlushedStarts(r, f, dec);
      EnsureDocKeeps(f, dec);
      AlarmBodyKeeps(f, trim, dec);
      TrimmedDocument(f, EnsureDoc(f, dec), n, trim, dec);
    }
  }

  lemma TrimmedDocument(f: Room, e: Room, n: Room, trim: bool, dec: Decode)
    requires Woken(f, e, dec) && !BreaksWedge(f) && Trimmed(e, n, trim, dec)
    ensures Content(n, dec) == Content(f, dec)
  {
  }

  /** Going to sleep after a flush and waking up again is invisible, exactly when what failed
      batches left in the document is in the log or was folded into the snapshot. */
  lemma HibernationIsInvisible(r: Room, chat: string, dec: Decode)
    requires Inv(r, dec) && r.doc.Some?
    ensures var woken := Join(Crash(Flush(r, dec)), chat, dec);
      Inv(woken, dec) && (woken.doc == r.doc <==> FoldsOnFlush(r) || r.extra <= LogOps(r, dec))
  {
    FlushKeeps(r, dec);
    HibernationFrom(r, Flush(r, dec), chat, dec);
  }

  lemma HibernationFrom(r: Room, f: Room, chat: string, dec: Decode)
    requires Inv(r, dec) && r.doc.Some? && Flushed(r, f, dec)
    ensures var woken := Join(Crash(f), chat, dec);
      Inv(woken, dec) && (woken.doc == r.doc <==> FoldsOnFlush(r) || r.extra <= LogOps(r, dec))
  {
    CrashedAfter(f, f, dec);
    SleepingStored(Crash(f), dec);
    JoinKeeps(Crash(f), chat, dec);
    WokenDocument(r, f, Crash(f), Join(Crash(f), chat, dec), dec);
  }

  lemma WokenDocument(r: Room, f: Room, c: Room, n: Room, dec: Decode)
    requires Inv(r, dec) && r.doc.Some? && Flushed(r, f, dec) && Woken(c, n, dec)
    requires Attempts(c) == Attempts(f) && Content(c, dec) == StoredOps(c.live, dec) && c.live == f.live
    ensures n.doc == r.doc <==> FoldsOnFlush(r) || r.extra <= LogOps(r, dec)
  {
    ReplayedAwake(r, dec);
    SameWithRejected(r, n, LogOps(r, dec));
  }

  lemma SameWithRejected(r: Room, n: Room, log: Ops)
    requires r.doc == Some(log + r.extra) && n.doc == Some(log + if FoldsOnFlush(r) then r.extra else {})
    ensures n.doc == r.doc <==> FoldsOnFlush(r) || r.extra <= log
  {
    assert n.doc == Some(log + if FoldsOnFlush(r) then r.extra else {});
    assert log + {} == log;
    assert log + r.extra == log <==> r.extra <= log;
  }

  // ----- nothing flushed is lost -----

  ghost predicate NeverDrops(r: Room, actions: seq<Action>, dec: Decode) {
    forall k :: 0 <= k < |actions| ==> !Drops(Run(r, actions[..k], dec), actions[k])
  }

  /** Storage only gains operations over a run that does not drop the log. */
  lemma {:induction false} StorageGrows(r: Room, actions: seq<Action>, dec: Decode)
    requires Inv(r, dec) && NeverDrops(r, actions, dec)
    ensures StoredOps(r.live, dec) <= StoredOps(Run(r, actions, dec).live, dec)
  {
    if actions != [] {
      var last := |actions| - 1;
      var before := actions[..last];
      forall k | 0 <= k < |before| ensures !Drops(Run(r, before[..k], dec), before[k]) {
        assert before[..k] == actions[..k];
      }
      StorageGrows(r, before, dec);
      RunKeeps(r, before, dec);
      assert !Drops(Run(r, actions[..last], dec), actions[last]);
      StepIsStepped(Run(r, before, dec), actions[last], dec);
    }
  }

  /** Once flushed, an update survives every later run of steps and kills that does not drop the
      log, and even one more kill at its end. */
  lemma FlushedUpdatesSurvive(r: Room, actions: seq<Action>, dec: Decode)
    requires Inv(r, dec) && NeverDrops(Flush(r, dec), actions, dec)
    ensures var n := Run(Flush(r, dec), actions, dec);
      OpsOf(r.pending, dec) <= Content(n, dec) && OpsOf(r.pending, dec) <= Content(Crash(n), dec)
  {
    var f := Flush(r, dec);
    FlushKeeps(r, dec);
    FlushedStored(r, f, dec);
    StorageGrows(f, actions, dec);
    RunKeeps(f, actions, dec);
    StoredIsShown(Run(f, actions, dec), dec);
  }

  lemma FlushedStored(r: Room, f: Room, dec: Decode)
    requires Flushed(r, f, dec)
    ensures Inv(f, dec) && OpsOf(r.pending, dec) <= StoredOps(f.live, dec)
  {
  }

  lemma StoredIsShown(n: Room, dec: Decode)
    requires Inv(n, dec)
    ensures StoredOps(n.live, dec) <= Content(n, dec) && StoredOps(n.live, dec) <= Content(Crash(n), dec)
  {
    CrashKeeps(n, dec);
    SleepingStored(Crash(n), dec);
  }

  // ----- the log stays small -----

  ghost predicate WithinBudget(r: Room) {
    RowsPayload(r.live.rows) <= COMPACT_LOG_BYTES && |r.live.rows| <= COMPACT_LOG_ROWS
  }

  /** The folds that were due and died, since the log last came back within its budgets: how many,
      and how many bytes they left. */
  ghost function DeadFolds(actions: seq<Action>, dec: Decode): (nat, nat) {
    if actions == [] then (0, 0)
    else
      var before, a := actions[..|actions| - 1], actions[|actions| - 1];
      FoldsOwed(Reached(before, dec), a, DeadFolds(before, dec))
  }

  function FoldsOwed(r: Room, a: Action, owed: (nat, nat)): (nat, nat) {
    if Drops(r, a) || TrimsLog(r, a) then (0, 0)
    else if !Flushes(a) || r.pending == [] then owed
    else if a.FlushDies? && FoldsOnFlush(r) then (owed.0 + 1, owed.1 + r.pendingBytes)
    else (0, 0)
  }

  /** Over its budgets just by the folds it owes. */
  ghost predicate OverBy(r: Room, owed: (nat, nat)) {
    && |r.live.rows| <= COMPACT_LOG_ROWS + owed.0 && RowsPayload(r.live.rows) <= COMPACT_LOG_BYTES + owed.1
    && (owed.0 == 0 ==> owed.1 == 0) && (WithinBudget(r) <==> owed.0 == 0)
  }

  lemma RowAdded(r: Room, dec: Decode)
    requires Inv(r, dec)
    ensures var rows := r.live.rows + [Codec.Combine(r.pending)];
      && RowsPayload(rows) == RowsPayload(r.live.rows) + r.pendingBytes
      && (r.doc.Some? ==> r.logBytes == RowsPayload(r.live.rows))
  {
    Codec.SplitCombine(r.pending);
    RowsPayloadSnoc(r.live.rows, Codec.Combine(r.pending));
  }

  lemma StepOwes(r: Room, a: Action, n: Room, owed: (nat, nat), dec: Decode)
    requires Inv(r, dec) && OverBy(r, owed) && n.live.rows == RowsAfter(r, a)
    ensures OverBy(n, FoldsOwed(r, a, owed))
  {
    RowAdded(r, dec);
    NoRows(n);
  }

  lemma NoRows(n: Room)
    ensures n.live.rows == [] ==> WithinBudget(n)
  {
  }

  /** Folding on either budget bounds what a cold start has to replay: a reachable log is within
      its budgets exactly when no fold that came due has died since, and over them by no more
      than the rows whose folds died. */
  lemma LogStaysWithinBudget(actions: seq<Action>, dec: Decode)
    ensures var r, owed := Reached(actions, dec), DeadFolds(actions, dec);
      && (WithinBudget(r) <==> owed.0 == 0)
      && |r.live.rows| <= COMPACT_LOG_ROWS + owed.0
      && RowsPayload(r.live.rows) <= COMPACT_LOG_BYTES + owed.1
  {
    ReachedOwes(actions, dec);
  }

  lemma {:induction false} ReachedOwes(actions: seq<Action>, dec: Decode)
    ensures OverBy(Reached(actions, dec), DeadFolds(actions, dec))
  {
    if actions != [] {
      var before, a := actions[..|actions| - 1], actions[|actions| - 1];
      ReachedOwes(before, dec);
      ReachedHolds(before, dec);
      StepIsStepped(Reached(before, dec), a, dec);
      StepOwes(Reached(before, dec), a, Reached(actions, dec), DeadFolds(before, dec), dec);
    }
  }

  lemma {:induction false} NoDeadFolds(actions: seq<Action>, dec: Decode)
    requires forall a :: a in actions ==> !a.FlushDies?
    ensures DeadFolds(actions, dec) == (0, 0)
  {
    if actions != [] {
      NoDeadFolds(actions[..|actions| - 1], dec);
      assert actions[|actions| - 1] in actions;
    }
  }

  /** Without a kill inside a flush both budgets hold in every reachable room. */
  lemma FinishedFoldsKeepBudget(actions: seq<Action>, dec: Decode)
    requires forall a :: a in actions ==> !a.FlushDies?
    ensures WithinBudget(Reached(actions, dec))
  {
    NoDeadFolds(actions, dec);
    LogStaysWithinBudget(actions, dec);
  }

  // ----- breaking a wedge -----

  /** Deaths of a cold replay since one last completed, counted over the run itself. */
  ghost function Deaths(actions: seq<Action>, dec: Decode): nat {
    if actions == [] then 0
    else
      var before, a := actions[..|actions| - 1], actions[|actions| - 1];
      var r := Reached(before, dec);
      if r.doc.Some? then Deaths(before, dec)
      else if a.ColdStartDies? then Deaths(before, dec) + 1
      else if Starts(r, a) then 0
      else Deaths(before, dec)
  }

  /** The number in storage is the number of deaths, though each was a kill that rolled storage
      back. */
  lemma {:induction false} DeathsAreCounted(actions: seq<Action>, dec: Decode)
    ensures NumOf(Reached(actions, dec).live.meta, ReplayAttempts) == Deaths(actions, dec)
    ensures NumOf(Reached(actions, dec).durable.meta, ReplayAttempts) == Deaths(actions, dec)
  {
    ReachedHolds(actions, dec);
    if actions != [] {
      var before := actions[..|actions| - 1];
      DeathsAreCounted(before, dec);
      ReachedHolds(before, dec);
      StepIsStepped(Reached(before, dec), actions[|actions| - 1], dec);
    }
  }

  /** Left alone, the room loses its log when a cold start follows at least REPLAY_CRASH_LIMIT
      deaths of a replay with none completed in between, and at no other step. */
  lemma WedgeBreakIsSafe(actions: seq<Action>, a: Action, dec: Decode)
    requires !a.DoResetLog?
    ensures var r, n := Reached(actions, dec), Reached(actions + [a], dec);
      if r.doc.None? && (a.ColdStartDies? || Starts(r, a)) && Deaths(actions, dec) >= REPLAY_CRASH_LIMIT
      then n.live.rows == [] && StoredOps(n.live, dec) == {}
      else StoredOps(r.live, dec) <= StoredOps(n.live, dec)
  {
    DeathsAreCounted(actions, dec);
    ReachedHolds(actions, dec);
    RunNext(NEW_ROOM, actions, a, dec);
    StepIsStepped(Reached(actions, dec), a, dec);
  }

  function Dying(n: nat): seq<Action> { seq(n, _ => ColdStartDies) }

  /** Where a sleeping room is after n more deaths of its replay. */
  ghost predicate Wedged(r: Room, n: nat, d: Room, dec: Decode) {
    && Inv(d, dec) && d.doc.None? && Attempts(d) == Attempts(r) + n
    && (n > 0 && Attempts(r) + n > REPLAY_CRASH_LIMIT ==> Content(d, dec) == {} && d.hollow)
    && (Attempts(r) + n <= REPLAY_CRASH_LIMIT ==> Content(d, dec) == Content(r, dec))
  }

  lemma DiesOnceMore(r: Room, n: nat, d: Room, dec: Decode)
    requires Wedged(r, n, d, dec)
    ensures Wedged(r, n + 1, ColdStartKilled(d), dec)
  {
    ColdStartDiesKeeps(d, dec);
    SleepingStored(d, dec);
    SleepingStored(ColdStartKilled(d), dec);
    SameLog(d.live, ColdStartKilled(d).live, dec);
  }

  lemma SameLog(a: Store, b: Store, dec: Decode)
    ensures a.rows == b.rows && a.snapshot == b.snapshot ==> StoredOps(a, dec) == StoredOps(b, dec)
  {
  }

  /** If every replay dies, a sleeping room is emptied by the first cold start past the limit,
      and keeps its document until then. */
  lemma {:induction false} WedgeBreakIsLive(r: Room, n: nat, dec: Decode)
    requires Inv(r, dec) && r.doc.None?
    ensures Wedged(r, n, Run(r, Dying(n), dec), dec)
  {
    if n == 0 {
      assert Dying(n) == [];
    } else {
      WedgeBreakIsLive(r, n - 1, dec);
      OneMoreDeath(r, n - 1, dec);
      DiesOnceMore(r, n - 1, Run(r, Dying(n - 1), dec), dec);
    }
  }

  lemma OneMoreDeath(r: Room, n: nat, dec: Decode)
    requires Run(r, Dying(n), dec).doc.None?
    ensures Run(r, Dying(n + 1), dec) == ColdStartKilled(Run(r, Dying(n), dec))
  {
    assert Dying(n + 1)[..n] == Dying(n);
  }

  predicate ReplaySurvives(actions: seq<Action>) { forall a :: a in actions ==> !a.ColdStartDies? && !a.DoResetLog? }

  lemma {:induction false} AttemptsOnlyFall(r: Room, actions: seq<Action>, dec: Decode)
    requires Inv(r, dec) && ReplaySurvives(actions)
    ensures Attempts(Run(r, actions, dec)) <= Attempts(r)
  {
    if actions != [] {
      var before, a := actions[..|actions| - 1], actions[|actions| - 1];
      assert a in actions;
      AttemptsOnlyFall(r, before, dec);
      RunKeeps(r, before, dec);
      StepIsStepped(Run(r, before, dec), a, dec);
    }
  }

  /** Deaths anywhere else never count: while no cold replay dies and nobody resets the log, a run
      with any other kills loses nothing from storage. */
  lemma OtherDeathsAreHarmless(r: Room, actions: seq<Action>, dec: Decode)
    requires Inv(r, dec) && NumOf(r.live.meta, ReplayAttempts) < REPLAY_CRASH_LIMIT && ReplaySurvives(actions)
    ensures StoredOps(r.live, dec) <= StoredOps(Run(r, actions, dec).live, dec)
    ensures StoredOps(r.live, dec) <= Content(Run(r, actions, dec), dec)
  {
    forall k | 0 <= k < |actions| ensures !Drops(Run(r, actions[..k], dec), actions[k]) {
      AttemptsOnlyFall(r, actions[..k], dec);
      assert actions[k] in actions;
    }
    StorageGrows(r, actions, dec);
    RunKeeps(r, actions, dec);
    StoredIsShown(Run(r, actions, dec), dec);
  }

  // ----- the disaster copy -----

  lemma AdvancesTransitive(a: Option<Ops>, b: Option<Ops>, c: Option<Ops>)
    requires Advances(a, b) && Advances(b, c)
    ensures Advances(a, c)
  {
    if a.Some? { IncludesTransitive(c.value, b.value, a.value); }
  }

  /** While the bookkeeping covers the copy before every step, the copy only moves forward. */
  lemma {:induction false} CoveredRunAdvances(r: Room, actions: seq<Action>, dec: Decode)
    requires Inv(r, dec) && forall j :: 0 <= j < |actions| ==> Covers(Run(r, actions[..j], dec))
    ensures Advances(r.backup, Run(r, actions, dec).backup)
  {
    if actions == [] {
      AdvancesSelf(r.backup);
    } else {
      var last := |actions| - 1;
      var before := actions[..last];
      forall j | 0 <= j < last ensures Covers(Run(r, before[..j], dec)) {
        assert before[..j] == actions[..j];
      }
      CoveredRunAdvances(r, before, dec);
      RunKeeps(r, before, dec);
      assert Covers(Run(r, actions[..last], dec));
      StepKeeps(Run(r, before, dec), actions[last], dec);
      AdvancesTransitive(r.backup, Run(r, before, dec).backup, Run(r, actions, dec).backup);
    }
  }

  lemma {:induction false} RunConcat(r: Room, a: seq<Action>, b: seq<Action>, dec: Decode)
    ensures Run(r, a + b, dec) == Run(Run(r, a, dec), b, dec)
  {
    if b == [] {
      assert a + b == a;
    } else {
      assert (a + b)[..|a + b| - 1] == a + b[..|b| - 1];
      RunConcat(r, a, b[..|b| - 1], dec);
    }
  }

  /** Each copy has seen everything any earlier copy had, across drops, resets and kills, as long
      as the bookkeeping covers the copy; a kill that tore the two apart does no harm once the
      bookkeeping has caught up. */
  lemma BackupNeverRegresses(actions: seq<Action>, k: nat, dec: Decode)
    requires k <= |actions| && forall j :: k <= j < |actions| ==> Covers(Reached(actions[..j], dec))
    ensures Advances(Reached(actions[..k], dec).backup, Reached(actions, dec).backup)
  {
    var r, rest := Reached(actions[..k], dec), actions[k..];
    ReachedHolds(actions[..k], dec);
    forall j | 0 <= j < |rest| ensures Covers(Run(r, rest[..j], dec)) {
      assert actions[..k] + rest[..j] == actions[..k + j];
      RunConcat(NEW_ROOM, actions[..k], rest[..j], dec);
      assert Covers(Reached(actions[..k + j], dec));
    }
    CoveredRunAdvances(r, rest, dec);
    RunConcat(NEW_ROOM, actions[..k], rest, dec);
    assert actions[..k] + rest == actions;
  }

  predicate AlarmsFinish(actions: seq<Action>) { forall a :: a in actions ==> !a.AlarmDies? }

  /** Only a kill between a backup and its bookkeeping can put the copy ahead. */
  lemma {:induction false} FinishedAlarmsCover(r: Room, actions: seq<Action>, dec: Decode)
    requires Inv(r, dec) && Covers(r) && AlarmsFinish(actions)
    ensures Covers(Run(r, actions, dec))
  {
    if actions != [] {
      var before := actions[..|actions| - 1];
      assert actions[|actions| - 1] in actions;
      FinishedAlarmsCover(r, before, dec);
      RunKeeps(r, before, dec);
      StepKeeps(Run(r, before, dec), actions[|actions| - 1], dec);
    }
  }

  lemma CoveredNeverRegresses(r: Room, actions: seq<Action>, dec: Decode)
    requires Inv(r, dec) && Covers(r) && AlarmsFinish(actions)
    ensures Advances(r.backup, Run(r, actions, dec).backup)
  {
    forall j | 0 <= j < |actions| ensures Covers(Run(r, actions[..j], dec)) {
      FinishedAlarmsCover(r, actions[..j], dec);
    }
    CoveredRunAdvances(r, actions, dec);
  }

  /** So over runs in which no kill separates the two, no copy ever goes backwards. */
  lemma FinishedAlarmsNeverRegress(actions: seq<Action>, k: nat, dec: Decode)
    requires AlarmsFinish(actions) && k <= |actions|
    ensures Covers(Reached(actions[..k], dec))
    ensures Advances(Reached(actions[..k], dec).backup, Reached(actions, dec).backup)
  {
    NewRoomHolds(dec);
    FinishedAlarmsCover(NEW_ROOM, actions[..k], dec);
    ReachedHolds(actions[..k], dec);
    CoveredNeverRegresses(Reached(actions[..k], dec), actions[k..], dec);
    RunConcat(NEW_ROOM, actions[..k], actions[k..], dec);
    assert actions[..k] + actions[k..] == actions;
  }

  /** Over all runs the copy includes what committed storage says was backed up. */
  lemma BackupCoversBookkeeping(actions: seq<Action>, dec: Decode)
    ensures var r := Reached(actions, dec);
      Advances(BackedUp(Crash(r)), r.backup)
  {
    ReachedHolds(actions, dec);
    CrashKeeps(Reached(actions, dec), dec);
  }

  /** No copy is put between a drop of the log and the next update recorded. */
  lemma NoPutWhileHollow(actions: seq<Action>, a: Action, dec: Decode)
    ensures var r, n := Reached(actions, dec), Reached(actions + [a], dec);
      r.hollow || n.hollow ==> n.puts == r.puts && n.backup == r.backup
  {
    ReachedHolds(actions, dec);
    RunNext(NEW_ROOM, actions, a, dec);
    StepKeeps(Reached(actions, dec), a, dec);
  }

  // ----- the two windows that are left open -----

  /** Operations of a batch that failed midway are shown to clients but never stored: the next
      kill takes them back. */
  lemma RejectedBatchIsForgotten(r: Room, updates: seq<Bytes>, accepted: nat, chat: string, dec: Decode)
    requires Inv(r, dec) && r.doc.Some? && r.extra == {} && r.pending == []
    requires accepted < |updates| && forall u :: u in updates ==> |u| < Codec.U32
    ensures var n := Deliver(r, updates, accepted, dec);
      && n.doc.value == Content(r, dec) + OpsOf(NonEmpty(updates[..accepted]), dec)
      && Join(Crash(n), chat, dec).doc == r.doc
  {
    var n := Deliver(r, updates, accepted, dec);
    DeliverKeeps(r, updates, accepted, dec);
    CrashedAfter(n, n, dec);
    SleepingStored(Crash(n), dec);
    JoinKeeps(Crash(n), chat, dec);
    ForgottenFrom(r, n, Join(Crash(n), chat, dec), dec);
  }

  lemma ForgottenFrom(r: Room, n: Room, w: Room, dec: Decode)
    requires Inv(r, dec) && r.doc.Some? && r.extra == {} && r.pending == []
    requires Inv(n, dec) && n.doc.Some? && n.live == r.live && Woken(Crash(n), w, dec)
    requires Content(Crash(n), dec) == StoredOps(Crash(n).live, dec)
    ensures w.doc == r.doc
  {
    ReplayedAwake(r, dec);
    var stored := StoredOps(r.live, dec);
    assert r.doc.value == stored + {} + {};
  }

  /** What the alarm leaves for the next one to decide on. */
  ghost predicate Decided(f: Room, n: Room)
    requires f.doc.Some?
  {
    if MayPut(f) then n.backup == f.doc && BackedUp(n) == f.doc && !IsSet(n, BackupDirty) && Covers(n)
    else n.backup == f.backup && BackedUp(n) == BackedUp(f) && Get(n, BackupDirty) == Get(f, BackupDirty)
  }

  lemma PersistedAfterPut(s: Room)
    requires CacheAgrees(s) && s.doc.Some?
    ensures var n := FlushMeta(MarkBackedUp(BackUp(s)));
      n.backup == s.doc && BackedUp(n) == s.doc && !IsSet(n, BackupDirty) && Covers(n)
  {
    assert CacheAgrees(BackUp(s));
    MarkBackedUpFacts(BackUp(s));
    FlushMetaFacts(MarkBackedUp(BackUp(s)));
    SupersetIncludes(s.doc.value, s.doc.value);
  }

  lemma PersistedAsIs(s: Room)
    requires CacheAgrees(s)
    ensures var n := FlushMeta(s);
      n.backup == s.backup && BackedUp(n) == BackedUp(s) && Get(n, BackupDirty) == Get(s, BackupDirty)
  {
    FlushMetaFacts(s);
  }

  lemma AlarmBodyDecides(f: Room, trim: bool, dec: Decode)
    requires Inv(f, dec) && f.doc.Some? && f.pending == []
    ensures Decided(f, AlarmBody(f, trim, dec))
  {
    StampedFacts(f, trim, dec);
    var s := Stamped(f, trim);
    assert MayPut(s) <==> MayPut(f);
    if MayPut(s) { PersistedAfterPut(s); } else { PersistedAsIs(s); }
  }

  /** What a backup decision reads besides the document. */
  ghost predicate SameBookkeeping(r: Room, n: Room) {
    Get(n, ChatId) == Get(r, ChatId) && BackedUp(n) == BackedUp(r)
  }

  lemma FlushedBookkeeping(r: Room, f: Room, dec: Decode)
    requires Flushed(r, f, dec) && r.doc.Some?
    ensures f.doc == r.doc && f.backup == r.backup && SameBookkeeping(r, f)
    ensures (MayPut(f) <==> MayPut(r)) && Get(f, BackupDirty) == Get(r, BackupDirty)
  {
    forall k | k != UpdateBytes ensures Get(f, k) == Get(r, k) {
    }
  }

  /** An alarm with something to back up either puts the document, remembers its version, has
      nothing left to do and covers the copy again, or changes neither copy nor version and will
      try again. */
  lemma AlarmPutsOrTriesAgain(r: Room, trim: bool, dec: Decode)
    requires Inv(r, dec) && r.doc.Some? && IsSet(r, BackupDirty)
    ensures Decided(r, Alarm(r, trim, dec))
  {
    FlushKeeps(r, dec);
    var f := Flush(r, dec);
    FlushedBookkeeping(r, f, dec);
    AlarmBodyDecides(f, trim, dec);
    DecidedFrom(r, f, Alarm(r, trim, dec), dec);
  }

  lemma DecidedFrom(r: Room, f: Room, n: Room, dec: Decode)
    requires r.doc.Some? && f.doc == r.doc && f.backup == r.backup && SameBookkeeping(r, f)
    requires (MayPut(f) <==> MayPut(r)) && Get(f, BackupDirty) == Get(r, BackupDirty)
    requires Decided(f, n)
    ensures Decided(r, n)
  {
  }

  /** A room asleep after its alarm was killed behind the put. */
  ghost predicate DiedAfterPut(r: Room, t: Room, dec: Decode) {
    Inv(t, dec) && t.doc.None? && t.backup == r.doc && Attempts(t) == 0 && SameBookkeeping(r, t)
  }

  lemma BodyDiesAfterPut(f: Room, dec: Decode)
    requires Inv(f, dec) && f.doc.Some? && f.pending == [] && f.dirty == {} && MayPut(f)
    ensures DiedAfterPut(f, AlarmBodyDies(f, false, dec), dec)
  {
    StampedFacts(f, false, dec);
    AlarmBodyDiesKeeps(f, false, dec);
    ReplayedAwake(f, dec);
    DiedBookkeeping(f, AlarmBodyDies(f, false, dec));
  }

  lemma DiedBookkeeping(f: Room, t: Room)
    requires CacheAgrees(f) && f.dirty == {} && t.live == f.live && t.cache == None
    ensures SameBookkeeping(f, t)
  {
  }

  lemma FlushedClean(r: Room, dec: Decode)
    requires Inv(r, dec)
    ensures Flush(r, dec).dirty == {}
  {
    FlushFacts(r, dec);
    FlushMetaFacts(r);
    if r.pending != [] && OverBudget(FlushRow(r)) {
      FlushRowKeeps(r, dec);
      FoldFacts(FlushRow(r), dec);
    }
  }

  lemma DiesAfterPut(r: Room, dec: Decode)
    requires Inv(r, dec) && r.doc.Some? && IsSet(r, BackupDirty) && MayPut(r)
    ensures DiedAfterPut(r, AlarmKilled(r, false, dec), dec)
  {
    FlushKeeps(r, dec);
    FlushedClean(r, dec);
    var f := Flush(r, dec);
    FlushedBookkeeping(r, f, dec);
    BodyDiesAfterPut(f, dec);
    DiedFrom(r, f, AlarmKilled(r, false, dec), dec);
  }

  lemma DiedFrom(r: Room, f: Room, t: Room, dec: Decode)
    requires f.doc == r.doc && SameBookkeeping(r, f) && DiedAfterPut(f, t, dec)
    ensures DiedAfterPut(r, t, dec)
  {
  }

  lemma ResetBookkeeping(r: Room, dec: Decode)
    requires Inv(r, dec)
    ensures SameBookkeeping(r, ResetLog(r))
  {
    ResetFacts(r, dec);
    EmptiedBookkeeping(r, ResetLog(r));
  }

  lemma EmptiedBookkeeping(r: Room, n: Room)
    requires EmptiedFrom(r, n)
    ensures SameBookkeeping(r, n)
  {
  }

  lemma ColdBookkeeping(q: Room, dec: Decode)
    requires Inv(q, dec) && q.doc.None?
    ensures SameBookkeeping(q, EnsureDoc(q, dec))
  {
    ColdStartFacts(q, dec);
    CountedBookkeeping(q);
    assert MetaOf(EnsureDoc(q, dec)) == Cleansed(Counted(q)).meta;
  }

  lemma CountedBookkeeping(q: Room)
    ensures var m, n := MetaOf(q), Cleansed(Counted(q)).meta;
      forall k :: k == ChatId || k == BackupVV ==> (k in n <==> k in m) && (k in m ==> n[k] == m[k])
  {
  }

  lemma OneUpdate(u: Bytes, dec: Decode)
    requires u != []
    ensures NonEmpty([u]) == [u] && OpsOf([u], dec) == dec(u) && [u][..1] == [u]
  {
    assert NonEmpty([u][..0]) == [];
    assert OpsOf([u][1..], dec) == {};
  }

  lemma MarkedBookkeeping(e: Room, b: Room)
    requires CacheAgrees(b) && MetaOf(b) == MetaOf(e)
    ensures var d := MarkRecorded(b);
      d.doc == b.doc && IsSet(d, BackupDirty) && !IsSet(d, PostReset) && SameBookkeeping(e, d)
  {
    RecordFacts(b);
    RecordedBookkeeping(e, MarkRecorded(b));
  }

  lemma RecordedBookkeeping(e: Room, d: Room)
    requires MetaOf(d) == Recorded(MetaOf(e))
    ensures IsSet(d, BackupDirty) && !IsSet(d, PostReset) && SameBookkeeping(e, d)
  {
  }

  /** A room that holds one update and has it to back up. */
  ghost predicate HoldsOne(e: Room, d: Room, u: Bytes, dec: Decode) {
    && Inv(d, dec) && d.doc == Some(dec(u))
    && IsSet(d, BackupDirty) && !IsSet(d, PostReset) && SameBookkeeping(e, d)
  }

  /** Delivering one update to a room that holds nothing. */
  lemma DeliveredWhenEmpty(e: Room, u: Bytes, dec: Decode)
    requires Inv(e, dec) && e.doc == Some({}) && 0 < |u| < Codec.U32
    ensures HoldsOne(e, Deliver(e, [u], 1, dec), u, dec)
  {
    DeliverKeeps(e, [u], 1, dec);
    OneUpdate(u, dec);
    var b := Buffered(e.(doc := Some(e.doc.value + OpsOf(NonEmpty([u][..1]), dec))), NonEmpty([u]));
    assert b.doc == Some(dec(u)) by { assert e.doc.value + dec(u) == dec(u); }
    assert CacheAgrees(b) && MetaOf(b) == MetaOf(e);
    MarkedBookkeeping(e, b);
  }

  lemma StartedOnce(q: Room, updates: seq<Bytes>, accepted: nat, dec: Decode)
    requires accepted <= |updates| && EnsureDoc(q, dec).doc.Some?
    ensures Deliver(EnsureDoc(q, dec), updates, accepted, dec) == Deliver(q, updates, accepted, dec)
  {
  }

  lemma DeliveredAfterReset(q: Room, u: Bytes, dec: Decode)
    requires Inv(q, dec) && q.doc.None? && Content(q, dec) == {} && 0 < |u| < Codec.U32
    ensures HoldsOne(q, Deliver(q, [u], 1, dec), u, dec)
  {
    EnsureDocKeeps(q, dec);
    ColdBookkeeping(q, dec);
    StartedOnce(q, [u], 1, dec);
    WokenEmpty(q, EnsureDoc(q, dec), dec);
    DeliveredWhenEmpty(EnsureDoc(q, dec), u, dec);
    HoldsOneFrom(q, EnsureDoc(q, dec), Deliver(q, [u], 1, dec), u, dec);
  }

  lemma WokenEmpty(q: Room, e: Room, dec: Decode)
    requires Woken(q, e, dec) && q.doc.None? && Content(q, dec) == {}
    ensures Inv(e, dec) && e.doc == Some({})
  {
  }

  lemma HoldsOneFrom(q: Room, e: Room, d: Room, u: Bytes, dec: Decode)
    requires SameBookkeeping(q, e) && HoldsOne(e, d, u, dec)
    ensures HoldsOne(q, d, u, dec)
  {
  }

  /** The monotone gate compares with the bookkeeping, not with the copy. A kill between the two,
      then a reset, and an update that covers the old bookkeeping but not the newer copy: the
      copy goes backwards. */
  lemma TornBackupRegresses(r: Room, u: Bytes, dec: Decode)
    requires Inv(r, dec) && r.doc.Some? && IsSet(r, BackupDirty) && MayPut(r)
    requires 0 < |u| < Codec.U32 && (BackedUp(r).Some? ==> Includes(dec(u), BackedUp(r).value))
    requires !Includes(dec(u), r.doc.value)
    ensures var t := AlarmKilled(r, false, dec);
      var n := Alarm(Deliver(ResetLog(t), [u], 1, dec), false, dec);
      t.backup == r.doc && n.backup == Some(dec(u)) && !Advances(t.backup, n.backup)
  {
    DiesAfterPut(r, dec);
    RegressesFrom(r, AlarmKilled(r, false, dec), u, dec);
  }

  lemma RegressesFrom(r: Room, t: Room, u: Bytes, dec: Decode)
    requires r.doc.Some? && MayPut(r) && DiedAfterPut(r, t, dec)
    requires 0 < |u| < Codec.U32 && (BackedUp(r).Some? ==> Includes(dec(u), BackedUp(r).value))
    ensures Alarm(Deliver(ResetLog(t), [u], 1, dec), false, dec).backup == Some(dec(u))
  {
    ResetThenPut(t, u, dec);
  }

  /** After a reset the gate asks only for what the bookkeeping knows. */
  lemma ResetThenPut(t: Room, u: Bytes, dec: Decode)
    requires Inv(t, dec) && Get(t, ChatId).Some?
    requires 0 < |u| < Codec.U32 && (BackedUp(t).Some? ==> Includes(dec(u), BackedUp(t).value))
    ensures Alarm(Deliver(ResetLog(t), [u], 1, dec), false, dec).backup == Some(dec(u))
  {
    ResetLogKeeps(t, dec);
    ResetBookkeeping(t, dec);
    var q := ResetLog(t);
    EmptyContent(q, dec);
    DeliveredAfterReset(q, u, dec);
    GatePasses(t, q, Deliver(q, [u], 1, dec), u, dec);
    AlarmPutsOrTriesAgain(Deliver(q, [u], 1, dec), false, dec);
  }

  lemma EmptyContent(q: Room, dec: Decode)
    requires Inv(q, dec) && q.doc.None? && q.live.rows == [] && q.live.snapshot.None?
    ensures Content(q, dec) == {}
  {
  }

  lemma GatePasses(t: Room, q: Room, d: Room, u: Bytes, dec: Decode)
    requires Get(t, ChatId).Some? && SameBookkeeping(t, q) && HoldsOne(q, d, u, dec)
    requires BackedUp(t).Some? ==> Includes(dec(u), BackedUp(t).value)
    ensures MayPut(d)
  {
  }

  /** The run that shows it: a named room takes one update, its alarm is killed behind the put, the
      log is reset, and another update arrives before the next alarm. */
  function TornRun(u: Bytes, v: Bytes): seq<Action> {
    [DoJoin("c"), DoDeliver([u], 1), AlarmDies(false), DoResetLog, DoDeliver([v], 1), DoAlarm(false)]
  }

  lemma JoinedNew(dec: Decode)
    ensures var e := Join(NEW_ROOM, "c", dec);
      Inv(e, dec) && e.doc == Some({}) && Get(e, ChatId).Some? && BackedUp(e) == None
  {
    NewRoomHolds(dec);
    JoinKeeps(NEW_ROOM, "c", dec);
    NamedHolds(NEW_ROOM, "c", dec);
    PutFacts(NEW_ROOM, ChatId, Name("c"));
    ColdBookkeeping(Named(NEW_ROOM, "c"), dec);
    EmptyContent(NEW_ROOM, dec);
    WokenEmpty(NEW_ROOM, Join(NEW_ROOM, "c", dec), dec);
  }

  /** A reachable copy can go backwards: after the killed alarm it is the first update, at the end
      the second, whatever the two are. */
  lemma TornRunRegresses(u: Bytes, v: Bytes, dec: Decode)
    requires 0 < |u| < Codec.U32 && 0 < |v| < Codec.U32
    ensures Reached(TornRun(u, v)[..3], dec).backup == Some(dec(u))
    ensures Reached(TornRun(u, v), dec).backup == Some(dec(v))
  {
    JoinedNew(dec);
    var e := Join(NEW_ROOM, "c", dec);
    DeliveredWhenEmpty(e, u, dec);
    var r := Deliver(e, [u], 1, dec);
    DiesAfterPut(r, dec);
    RegressesFrom(r, AlarmKilled(r, false, dec), v, dec);
    TornRunIs(u, v, dec);
  }

  lemma TornRunIs(u: Bytes, v: Bytes, dec: Decode)
    requires |u| < Codec.U32 && |v| < Codec.U32
    ensures var t := AlarmKilled(Deliver(Join(NEW_ROOM, "c", dec), [u], 1, dec), false, dec);
      && Reached(TornRun(u, v)[..3], dec) == t
      && Reached(TornRun(u, v), dec) == Alarm(Deliver(ResetLog(t), [v], 1, dec), false, dec)
  {
    var run := TornRun(u, v);
    RunTakes(NEW_ROOM, run, 0, dec);
    StepJoins(NEW_ROOM, "c", dec);
    RunTakes(NEW_ROOM, run, 1, dec);
    StepDelivers(Reached(run[..1], dec), u, dec);
    RunTakes(NEW_ROOM, run, 2, dec);
    StepAlarmDies(Reached(run[..2], dec), dec);
    RunTakes(NEW_ROOM, run, 3, dec);
    StepResets(Reached(run[..3], dec), dec);
    RunTakes(NEW_ROOM, run, 4, dec);
    StepDelivers(Reached(run[..4], dec), v, dec);
    RunTakes(NEW_ROOM, run, 5, dec);
    StepAlarms(Reached(run[..5], dec), dec);
    assert run[..6] == run;
  }

  lemma RunTakes(r: Room, run: seq<Action>, k: nat, dec: Decode)
    requires k < |run|
    ensures Run(r, run[..k + 1], dec) == Step(Run(r, run[..k], dec), run[k], dec)
    ensures k == 0 ==> Run(r, run[..k], dec) == r
  {
    assert run[..k + 1] == run[..k] + [run[k]];
    RunNext(r, run[..k], run[k], dec);
  }

  lemma StepJoins(r: Room, chat: string, dec: Decode)
    ensures Step(r, DoJoin(chat), dec) == Join(r, chat, dec)
  {
  }

  lemma StepDelivers(r: Room, u: Bytes, dec: Decode)
    requires |u| < Codec.U32
    ensures Step(r, DoDeliver([u], 1), dec) == Deliver(r, [u], 1, dec)
  {
  }

  lemma StepAlarmDies(r: Room, dec: Decode)
    ensures Step(r, AlarmDies(false), dec) == AlarmKilled(r, false, dec)
  {
  }

  lemma StepResets(r: Room, dec: Decode)
    ensures Step(r, DoResetLog, dec) == ResetLog(r)
  {
  }

  lemma StepAlarms(r: Room, dec: Decode)
    ensures Step(r, DoAlarm(false), dec) == Alarm(r, false, dec)
  {
  }

  // ----- exactly when the copy is safe -----

  /** A join, a reset, one update and an alarm. */
  function ResetRun(u: Bytes): seq<Action> { [DoJoin("c"), DoResetLog, DoDeliver([u], 1), DoAlarm(false)] }

  /** A join leaves a room with a name, and its bookkeeping as it was. */
  lemma JoinNames(r: Room, dec: Decode)
    requires Inv(r, dec)
    ensures var e := Join(r, "c", dec);
      Inv(e, dec) && Get(e, ChatId).Some? && BackedUp(e) == BackedUp(r)
  {
    JoinKeeps(r, "c", dec);
    NamedHolds(r, "c", dec);
    PutFacts(r, ChatId, Name("c"));
    if r.doc.None? { ColdBookkeeping(Named(r, "c"), dec); }
  }

  lemma StepNames(r: Room, dec: Decode)
    requires Inv(r, dec)
    ensures var e := Step(r, DoJoin("c"), dec);
      Inv(e, dec) && Get(e, ChatId).Some? && BackedUp(e) == BackedUp(r)
  {
    StepJoins(r, "c", dec);
    JoinNames(r, dec);
  }

  lemma StepEmpties(t: Room, dec: Decode)
    requires Inv(t, dec)
    ensures var q := Step(t, DoResetLog, dec);
      Inv(q, dec) && q.doc.None? && Content(q, dec) == {} && SameBookkeeping(t, q)
  {
    StepResets(t, dec);
    ResetLogKeeps(t, dec);
    ResetBookkeeping(t, dec);
    EmptyContent(ResetLog(t), dec);
  }

  lemma StepHolds(q: Room, u: Bytes, dec: Decode)
    requires Inv(q, dec) && q.doc.None? && Content(q, dec) == {} && 0 < |u| < Codec.U32
    ensures HoldsOne(q, Step(q, DoDeliver([u], 1), dec), u, dec)
  {
    StepDelivers(q, u, dec);
    DeliveredAfterReset(q, u, dec);
  }

  lemma StepPuts(d: Room, dec: Decode)
    requires Inv(d, dec) && d.doc.Some? && IsSet(d, BackupDirty) && MayPut(d)
    ensures Step(d, DoAlarm(false), dec).backup == d.doc
  {
    StepAlarms(d, dec);
    AlarmPutsOrTriesAgain(d, false, dec);
  }

  /** A named room that holds nothing, with the bookkeeping of r. */
  ghost predicate EmptyLike(r: Room, q: Room, dec: Decode) {
    && Inv(q, dec) && q.doc.None? && Content(q, dec) == {} && Get(q, ChatId).Some? && BackedUp(q) == BackedUp(r)
  }

  lemma JoinedAndReset(r: Room, e: Room, q: Room, dec: Decode)
    requires Inv(r, dec) && e == Step(r, DoJoin("c"), dec) && q == Step(e, DoResetLog, dec)
    ensures EmptyLike(r, q, dec)
  {
    StepNames(r, dec);
    StepEmpties(e, dec);
  }

  lemma DeliveredAndPut(r: Room, q: Room, d: Room, u: Bytes, dec: Decode)
    requires EmptyLike(r, q, dec) && 0 < |u| < Codec.U32 && Includes(dec(u), Known(r))
    requires d == Step(q, DoDeliver([u], 1), dec)
    ensures Step(d, DoAlarm(false), dec).backup == Some(dec(u))
  {
    StepHolds(q, u, dec);
    GatePasses(q, q, d, u, dec);
    StepPuts(d, dec);
  }

  lemma ResetRunPuts(r: Room, u: Bytes, dec: Decode)
    requires Inv(r, dec) && 0 < |u| < Codec.U32 && Includes(dec(u), Known(r))
    ensures Run(r, ResetRun(u), dec).backup == Some(dec(u))
  {
    var e := Step(r, DoJoin("c"), dec);
    var q := Step(e, DoResetLog, dec);
    var d := Step(q, DoDeliver([u], 1), dec);
    JoinedAndReset(r, e, q, dec);
    DeliveredAndPut(r, q, d, u, dec);
    RunOfFour(r, ResetRun(u), e, q, d, dec);
  }

  lemma RunOfFour(r: Room, run: seq<Action>, r1: Room, r2: Room, r3: Room, dec: Decode)
    requires |run| == 4
    requires Step(r, run[0], dec) == r1 && Step(r1, run[1], dec) == r2 && Step(r2, run[2], dec) == r3
    ensures Run(r, run, dec) == Step(r3, run[3], dec)
  {
    RunTakes(r, run, 0, dec);
    RunTakes(r, run, 1, dec);
    RunTakes(r, run, 2, dec);
    RunTakes(r, run, 3, dec);
    assert run[..4] == run;
  }

  /** MAIN RESULT on the disaster copy. Suppose some update carries just what the bookkeeping knows
      to be backed up. From a room as it is now, no run with finished alarms ever takes the copy
      back if and only if the bookkeeping covers the copy. */
  lemma CoversExactly(r: Room, u: Bytes, dec: Decode)
    requires Inv(r, dec) && 0 < |u| < Codec.U32 && Includes(dec(u), Known(r)) && Includes(Known(r), dec(u))
    ensures Covers(r) <==> forall actions :: AlarmsFinish(actions) ==> Advances(r.backup, Run(r, actions, dec).backup)
  {
    if Covers(r) {
      forall actions | AlarmsFinish(actions) ensures Advances(r.backup, Run(r, actions, dec).backup) {
        CoveredNeverRegresses(r, actions, dec);
      }
    }
    if forall actions :: AlarmsFinish(actions) ==> Advances(r.backup, Run(r, actions, dec).backup) {
      assert AlarmsFinish(ResetRun(u));
      ResetRunPuts(r, u, dec);
      if r.backup.Some? { IncludesTransitive(Known(r), dec(u), r.backup.value); }
    }
  }

  // ----- names and marks -----

  lemma ColdName(q: Room, dec: Decode)
    requires Inv(q, dec) && q.doc.None?
    ensures Get(EnsureDoc(q, dec), ChatId) == Get(q, ChatId)
  {
    ColdBookkeeping(q, dec);
  }

  /** A room takes the first name it is joined under and keeps it. */
  lemma JoinTakesTheFirstName(r: Room, chat: string, dec: Decode)
    requires Inv(r, dec)
    ensures Get(Join(r, chat, dec), ChatId) ==
      if Get(r, ChatId).Some? then Get(r, ChatId) else if chat != "" then Some(Name(chat)) else None
  {
    NamedHolds(r, chat, dec);
    PutFacts(r, ChatId, Name(chat));
    if r.doc.None? { ColdName(Named(r, chat), dec); }
  }

  /** A batch with anything in it marks the tail and the backup as out of date and lifts the pause;
      an empty one marks nothing. */
  lemma DeliveryMarks(r: Room, updates: seq<Bytes>, dec: Decode)
    requires Inv(r, dec) && r.doc.Some?
    ensures MarkedFor(r, Deliver(r, updates, |updates|, dec), NonEmpty(updates) != [])
  {
    var i := Absorb(r, updates[..|updates|], false, dec);
    var b := Buffered(i, NonEmpty(updates));
    assert CacheAgrees(b) && MetaOf(b) == MetaOf(r);
    RecordFacts(b);
    if NonEmpty(updates) == [] { SameMarks(r, i); } else { NewMarks(r, MarkRecorded(b)); }
  }

  ghost predicate MarkedFor(r: Room, n: Room, recorded: bool) {
    if !recorded then forall k :: Get(n, k) == Get(r, k)
    else
      && IsSet(n, TailDirty) && IsSet(n, BackupDirty) && !IsSet(n, PostReset)
      && forall k :: k != TailDirty && k != BackupDirty && k != PostReset ==> Get(n, k) == Get(r, k)
  }

  lemma SameMarks(r: Room, n: Room)
    requires MetaOf(n) == MetaOf(r)
    ensures MarkedFor(r, n, false)
  {
  }

  lemma NewMarks(r: Room, n: Room)
    requires MetaOf(n) == Recorded(MetaOf(r))
    ensures MarkedFor(r, n, true)
  {
  }

  // ----- versions and the gate of the backup -----

  /** One operation counts as seen exactly if a later or equal one of the same peer is. */
  lemma IncludesExactly(a: Ops, o: Op)
    ensures Includes(a, {o}) <==> exists p :: p in a && p.peer == o.peer && p.counter >= o.counter
  {
    assert o in {o};
  }

  /** What the gate of the nightly backup asks of a room. */
  ghost predicate MayBackUp(r: Room)
    requires r.doc.Some?
  {
    && Get(r, ChatId).Some?
    && Get(r, PostReset) != Some(Flag(true))
    && forall o :: o in Known(r) ==> exists p :: p in r.doc.value && p.peer == o.peer && p.counter >= o.counter
  }

  lemma GateExactly(r: Room)
    requires r.doc.Some?
    ensures MayPut(r) <==> MayBackUp(r)
  {
    var d := r.doc.value;
    assert Includes(d, Known(r)) <==>
      forall o :: o in Known(r) ==> exists p :: p in d && p.peer == o.peer && p.counter >= o.counter;
    if BackedUp(r).None? { assert Known(r) == {}; }
  }

  lemma AlarmBodyPuts(f: Room, trim: bool, dec: Decode)
    requires Inv(f, dec) && f.doc.Some? && f.pending == []
    ensures AlarmBody(f, trim, dec).puts == if MayPut(f) then f.puts + 1 else f.puts
  {
    StampedFacts(f, trim, dec);
    var s := Stamped(f, trim);
    assert MayPut(s) <==> MayPut(f);
    if MayPut(s) {
      assert CacheAgrees(BackUp(s));
      MarkBackedUpFacts(BackUp(s));
      FlushMetaFacts(MarkBackedUp(BackUp(s)));
    } else {
      FlushMetaFacts(s);
    }
  }

  /** An alarm on an awake room puts a backup exactly if there is something new to back up, the room
      has a name, no drop is waiting for its first update, and the document has seen what the
      bookkeeping knows. */
  lemma AlarmPutsExactly(r: Room, trim: bool, dec: Decode)
    requires Inv(r, dec) && r.doc.Some?
    ensures Alarm(r, trim, dec).puts == if IsSet(r, BackupDirty) && MayBackUp(r) then r.puts + 1 else r.puts
  {
    FlushKeeps(r, dec);
    var f := Flush(r, dec);
    FlushedBookkeeping(r, f, dec);
    GateExactly(r);
    if IsSet(f, BackupDirty) { AlarmBodyPuts(f, trim, dec); }
  }
}
