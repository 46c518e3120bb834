/** What every reachable room keeps, and what its recovery paths guarantee. */
module RoomSafety {
  import opened Common
  import Codec = RoomCodec
  import opened Room

  // ----- the invariant, clause by clause -----

  /** The cache differs from storage only in keys marked dirty. */
  ghost predicate CacheAgrees(r: Room) {
    && r.dirty <= MetaOf(r).Keys
    && (r.cache.None? ==> r.dirty == {})
    && forall k :: k !in r.dirty ==>
         (k in MetaOf(r) <==> k in r.live.meta) && (k in MetaOf(r) ==> MetaOf(r)[k] == r.live.meta[k])
  }

  /** Between handlers, everything in storage is committed, and the keys recovery rests on are
      never waiting to be written. */
  ghost predicate Committed(r: Room) {
    && CacheAgrees(r)
    && r.live == r.durable
    && BackupVV !in r.dirty && ReplayAttempts !in r.dirty && UpdateBytes !in r.dirty && Checkpoints !in r.dirty
  }

  ghost predicate ShortUpdates(updates: seq<Bytes>) {
    forall u :: u in updates ==> 0 < |u| < Codec.U32
  }

  /** The cached document holds snapshot, log and buffer, what failed batches left in it, and
      nothing else. */
  ghost predicate LogAgrees(r: Room, dec: Decode) {
    && ShortUpdates(r.pending)
    && r.pendingBytes == Payload(r.pending)
    && (r.doc.None? ==> r.pending == [] && r.extra == {})
    && (r.doc.Some? ==> r.doc.value == LogOps(r, dec) + r.extra)
  }

  /** The byte gauge is exact, so the budgets it guards are real. */
  ghost predicate GaugeExact(r: Room) {
    && RowsPayload(r.live.rows) == NumOf(r.live.meta, UpdateBytes)
    && (r.doc.Some? ==> r.logBytes == NumOf(r.live.meta, UpdateBytes))
    && (RowsPayload(r.live.rows) == 0 ==> r.live.rows == [])
  }

  /** A room that is awake has no attempts to show. */
  ghost predicate Replayed(r: Room) {
    r.doc.Some? ==> NumOf(r.live.meta, ReplayAttempts) == 0
  }

  /** The disaster copy has seen everything the bookkeeping says was backed up. */
  ghost predicate BackupCovers(r: Room) {
    && (BackedUp(r).Some? ==> r.backup.Some? && Includes(r.backup.value, BackedUp(r).value))
    && (BackupVV in r.live.meta ==> r.live.meta[BackupVV].Version?)
  }

  /** Nothing recorded since a drop: the backup is paused, and a kill cannot lift the pause. */
  ghost predicate HollowPaused(r: Room) {
    r.hollow ==> IsSet(r, PostReset) && PostReset in r.live.meta && r.live.meta[PostReset] == Flag(true)
  }

  /** A meta table as a drop of the log leaves it. */
  predicate Marked(m: Meta) {
    && UpdateBytes in m && m[UpdateBytes] == Num(0) && Checkpoints in m && m[Checkpoints] == Num(0)
    && PostReset in m && m[PostReset] == Flag(true)
  }

  /** A table that says dropped tells the truth, so a second drop that writes no meta has nothing
      left to delete; and the pause is never waiting to be written, nor outlasts a recorded
      update. */
  ghost predicate DropVisible(r: Room) {
    && (Marked(r.live.meta) ==> r.live.snapshot.None?)
    && (PostReset in r.dirty || r.pending != [] ==> !IsSet(r, PostReset))
  }

  ghost predicate Inv(r: Room, dec: Decode) {
    && Committed(r) && LogAgrees(r, dec) && GaugeExact(r)
    && Replayed(r) && BackupCovers(r) && HollowPaused(r) && DropVisible(r)
  }

  // ----- meta -----

  lemma PutFacts(r: Room, k: MetaKey, v: MetaValue)
    requires CacheAgrees(r)
    ensures CacheAgrees(Put(r, k, v))
    ensures MetaOf(Put(r, k, v)) == MetaOf(r)[k := v]
    ensures Put(r, k, v).dirty == if Get(r, k) == Some(v) then r.dirty else r.dirty + {k}
    ensures Put(r, k, v) == r.(cache := Put(r, k, v).cache, dirty := Put(r, k, v).dirty)
  {
    assert Get(r, k) == Some(v) ==> MetaOf(r)[k := v] == MetaOf(r);
  }

  /** Three writes in a row. */
  lemma PutThree(r: Room, a: MetaKey, x: MetaValue, b: MetaKey, y: MetaValue, c: MetaKey, z: MetaValue)
    requires CacheAgrees(r)
    ensures var n := Put(Put(Put(r, a, x), b, y), c, z);
      && CacheAgrees(n) && MetaOf(n) == MetaOf(r)[a := x][b := y][c := z]
      && r.dirty <= n.dirty <= r.dirty + {a, b, c}
      && (a != b && a != c && a !in n.dirty ==> Get(r, a) == Some(x))
      && (c !in n.dirty ==> Get(Put(Put(r, a, x), b, y), c) == Some(z))
      && n == r.(cache := n.cache, dirty := n.dirty)
  {
    PutFacts(r, a, x);
    var s := Put(r, a, x);
    PutFacts(s, b, y);
    var t := Put(s, b, y);
    PutFacts(t, c, z);
  }

  lemma FlushMetaFacts(r: Room)
    requires CacheAgrees(r)
    ensures var f, store := FlushMeta(r), r.live.(meta := MetaOf(r));
      && f == r.(live := store, durable := if r.dirty == {} then r.durable else store, dirty := {})
      && CacheAgrees(f) && MetaOf(f) == MetaOf(r)
  {
    UpsertsSuffice(r);
  }

  /** Upserting only the changed keys leaves the table equal to the whole cache. */
  lemma UpsertsSuffice(r: Room)
    requires CacheAgrees(r)
    ensures Upserted(r) == MetaOf(r)
    ensures r.dirty == {} ==> r.live.meta == MetaOf(r)
  {
    var u, m := Upserted(r), MetaOf(r);
    forall k ensures (k in u <==> k in m) && (k in m ==> u[k] == m[k]) {
    }
  }

  /** Writing one key and syncing commits the whole cache with it. */
  lemma PutSync(r: Room, k: MetaKey, n: nat)
    requires CacheAgrees(r)
    ensures var meta := MetaOf(r)[k := Num(n)];
      Commit(r, k, n) ==
        r.(live := r.live.(meta := meta), durable := r.live.(meta := meta), cache := Some(meta), dirty := {})
  {
    PutFacts(r, k, Num(n));
    FlushMetaFacts(Put(r, k, Num(n)));
  }

  /** The same without the extra sync, when the key really changes. */
  lemma PutFlush(r: Room, k: MetaKey, v: MetaValue)
    requires CacheAgrees(r) && Get(r, k) != Some(v)
    ensures var meta := MetaOf(r)[k := v];
      FlushMeta(Put(r, k, v)) ==
        r.(live := r.live.(meta := meta), durable := r.live.(meta := meta), cache := Some(meta), dirty := {})
  {
    PutFacts(r, k, v);
    FlushMetaFacts(Put(r, k, v));
  }

  lemma Settled(r: Room, k: MetaKey)
    requires CacheAgrees(r) && k !in r.dirty
    ensures Get(r, k) == if k in r.live.meta then Some(r.live.meta[k]) else None
    ensures GetNum(r, k) == NumOf(r.live.meta, k)
  {
  }

  // ----- cold start -----

  function Dropped(m: Meta): Meta { m[UpdateBytes := Num(0)][Checkpoints := Num(0)][PostReset := Flag(true)] }

  /** A dropped log is empty, and the pause of the backup is in force. */
  lemma DropLogFacts(r: Room)
    requires CacheAgrees(r)
    ensures var d := DropLog(r);
      && CacheAgrees(d) && MetaOf(d) == Dropped(MetaOf(r))
      && d == Cleared(r).(cache := d.cache, dirty := d.dirty)
      && d.dirty <= r.dirty + {UpdateBytes, Checkpoints, PostReset}
      && (UpdateBytes !in d.dirty ==> Get(r, UpdateBytes) == Some(Num(0)))
      && (PostReset !in d.dirty ==> IsSet(r, PostReset))
  {
    assert CacheAgrees(Cleared(r));
    PutThree(Cleared(r), UpdateBytes, Num(0), Checkpoints, Num(0), PostReset, Flag(true));
  }

  /** Storage at the first sync of a cold start: the counted attempt, together with the drop it
      may have made. */
  function Counted(r: Room): Store {
    var n := GetNum(r, ReplayAttempts);
    if DropsOnColdStart(r) then Store(None, [], Dropped(MetaOf(r))[ReplayAttempts := Num(n + 1)])
    else r.live.(meta := MetaOf(r)[ReplayAttempts := Num(n + 1)])
  }

  lemma BeginReplayFacts(r: Room)
    requires CacheAgrees(r) && r.doc.None? && r.pending == [] && r.pendingBytes == 0
    ensures var b, s := BeginReplay(r), Counted(r);
      b == r.(live := s, durable := s, cache := Some(s.meta), dirty := {},
              logBytes := b.logBytes, hollow := r.hollow || DropsOnColdStart(r))
  {
    if DropsOnColdStart(r) { BeginReplayDrops(r); } else { BeginReplayKeeps(r); }
  }

  lemma BeginReplayDrops(r: Room)
    requires CacheAgrees(r) && DropsOnColdStart(r) && r.pending == [] && r.pendingBytes == 0
    ensures var s := Counted(r);
      BeginReplay(r) == r.(live := s, durable := s, cache := Some(s.meta), dirty := {}, logBytes := 0, hollow := true)
  {
    DropLogLoaded(r);
    DroppedAttempt(r, DropLog(Load(r)), BeginReplay(r));
  }

  lemma DroppedAttempt(r: Room, d: Room, b: Room)
    requires DropsOnColdStart(r) && r.pending == [] && r.pendingBytes == 0
    requires CacheAgrees(d) && MetaOf(d) == Dropped(MetaOf(r)) && d == Cleared(Load(r)).(cache := d.cache, dirty := d.dirty)
    requires b == Commit(d, ReplayAttempts, GetNum(r, ReplayAttempts) + 1)
    ensures var s := Counted(r);
      b == r.(live := s, durable := s, cache := Some(s.meta), dirty := {}, logBytes := 0, hollow := true)
  {
    DroppedSync(d, GetNum(r, ReplayAttempts) + 1);
    DroppedShape(r, d, Counted(r));
  }

  lemma DropLogLoaded(r: Room)
    requires CacheAgrees(r)
    ensures var d := DropLog(Load(r));
      && CacheAgrees(d) && MetaOf(d) == Dropped(MetaOf(r)) && d == Cleared(Load(r)).(cache := d.cache, dirty := d.dirty)
  {
    assert CacheAgrees(Load(r)) && MetaOf(Load(r)) == MetaOf(r);
    DropLogFacts(Load(r));
  }

  lemma DroppedShape(r: Room, d: Room, s: Store)
    requires d == Cleared(Load(r)).(cache := d.cache, dirty := d.dirty) && r.pending == [] && r.pendingBytes == 0
    ensures d.(live := s, durable := s, cache := Some(s.meta), dirty := {}) ==
      r.(live := s, durable := s, cache := Some(s.meta), dirty := {}, logBytes := 0, hollow := true)
  {
  }

  lemma DroppedSync(d: Room, n: nat)
    requires CacheAgrees(d) && d.live.snapshot == None && d.live.rows == []
    ensures var s := Store(None, [], MetaOf(d)[ReplayAttempts := Num(n)]);
      Commit(d, ReplayAttempts, n) == d.(live := s, durable := s, cache := Some(s.meta), dirty := {})
  {
    PutSync(d, ReplayAttempts, n);
  }

  lemma BeginReplayKeeps(r: Room)
    requires CacheAgrees(r) && !DropsOnColdStart(r)
    ensures var s := Counted(r);
      BeginReplay(r) == r.(live := s, durable := s, cache := Some(s.meta), dirty := {})
  {
    assert CacheAgrees(Load(r)) && MetaOf(Load(r)) == MetaOf(r);
    PutSync(Load(r), ReplayAttempts, GetNum(r, ReplayAttempts) + 1);
  }

  /** Storage at the second sync. */
  function Cleansed(s: Store): Store { s.(meta := s.meta[ReplayAttempts := Num(0)]) }

  lemma ColdStartFacts(r: Room, dec: Decode)
    requires CacheAgrees(r) && r.doc.None? && r.pending == [] && r.pendingBytes == 0
    ensures var e, s := EnsureDoc(r, dec), Cleansed(Counted(r));
      e == r.(live := s, durable := s, cache := Some(s.meta), dirty := {}, doc := Some(StoredOps(s, dec)),
              logBytes := NumOf(s.meta, UpdateBytes), hollow := r.hollow || DropsOnColdStart(r),
              extra := {})
  {
    BeginReplayFacts(r);
    var b := BeginReplay(r);
    EndReplayFacts(b, dec);
    assert b.live.(meta := MetaOf(b)) == Counted(r);
    assert GetNum(b, UpdateBytes) == NumOf(Cleansed(Counted(r)).meta, UpdateBytes);
    assert LogOps(b, dec) == StoredOps(Counted(r), dec);
    assert StoredOps(Cleansed(Counted(r)), dec) == StoredOps(Counted(r), dec);
  }

  lemma EndReplayFacts(b: Room, dec: Decode)
    requires CacheAgrees(b)
    ensures var s := Cleansed(b.live.(meta := MetaOf(b)));
      EndReplay(b, dec) == b.(live := s, durable := s, cache := Some(s.meta), dirty := {}, doc := Some(LogOps(b, dec)),
                              logBytes := GetNum(b, UpdateBytes), extra := {})
  {
    var replayed := b.(logBytes := GetNum(b, UpdateBytes));
    assert CacheAgrees(replayed);
    PutSync(replayed, ReplayAttempts, 0);
  }

  /** Replay attempts that storage remembers. */
  function Attempts(r: Room): nat { NumOf(r.live.meta, ReplayAttempts) }

  /** The wedge breaker decides by what storage remembers. */
  lemma DropsAfterAttempts(r: Room, dec: Decode)
    requires Inv(r, dec)
    ensures DropsOnColdStart(r) <==> Attempts(r) >= REPLAY_CRASH_LIMIT
  {
    Settled(r, ReplayAttempts);
  }

  /** Whether the next cold start is the one that breaks a wedge. */
  predicate BreaksWedge(r: Room) { r.doc.None? && Attempts(r) >= REPLAY_CRASH_LIMIT }

  /** What a cold start makes of a room: the document it stored, or nothing if it breaks the
      wedge. */
  ghost predicate Woken(r: Room, e: Room, dec: Decode) {
    && Inv(e, dec) && e.doc.Some? && Attempts(e) == 0
    && e.puts == r.puts && e.backup == r.backup && BackedUp(e) == BackedUp(r) && (r.hollow ==> e.hollow)
    && e.pending == r.pending && e.extra == r.extra
    && (if BreaksWedge(r) then e.doc == Some({}) && e.hollow && e.live.rows == [] && e.live.snapshot == None
        else (e.doc == Some(Content(r, dec)) && e.live.rows == r.live.rows && e.live.snapshot == r.live.snapshot
              && e.hollow == r.hollow))
  }

  /** A cold start keeps the invariant and materialises exactly the stored log, or nothing when
      it breaks the wedge. */
  lemma EnsureDocKeeps(r: Room, dec: Decode)
    requires Inv(r, dec)
    ensures Woken(r, EnsureDoc(r, dec), dec)
  {
    if r.doc.None? {
      ColdStartFacts(r, dec);
      DropsAfterAttempts(r, dec);
      CleansedMeta(r);
      WokenFrom(r, EnsureDoc(r, dec), Cleansed(Counted(r)), dec);
    }
  }

  lemma WokenFrom(r: Room, e: Room, s: Store, dec: Decode)
    requires Inv(r, dec) && r.doc.None? && (DropsOnColdStart(r) <==> Attempts(r) >= REPLAY_CRASH_LIMIT)
    requires s == Cleansed(Counted(r)) && CleanMeta(r, s.meta)
    requires e == r.(live := s, durable := s, cache := Some(s.meta), dirty := {}, doc := Some(StoredOps(s, dec)),
                     logBytes := NumOf(s.meta, UpdateBytes), hollow := r.hollow || DropsOnColdStart(r), extra := {})
    ensures Woken(r, e, dec)
  {
    FreshlyStarted(e, s, dec);
    assert StoredOps(s, dec) == if DropsOnColdStart(r) then {} else StoredOps(r.live, dec);
    assert Content(r, dec) == StoredOps(r.live, dec) + {};
    assert BackedUp(e) == BackedUp(r) by { Settled(r, BackupVV); }
  }

  /** What a cold start leaves in the meta table. */
  ghost predicate CleanMeta(r: Room, m: Meta) {
    && NumOf(m, ReplayAttempts) == 0
    && (BackupVV in m <==> BackupVV in r.live.meta) && (BackupVV in m ==> m[BackupVV] == r.live.meta[BackupVV])
    && (DropsOnColdStart(r) ==> NumOf(m, UpdateBytes) == 0 && PostReset in m && m[PostReset] == Flag(true))
    && (!DropsOnColdStart(r) ==> NumOf(m, UpdateBytes) == NumOf(r.live.meta, UpdateBytes))
    && (!DropsOnColdStart(r) && IsSet(r, PostReset) ==> PostReset in m && m[PostReset] == Flag(true))
    && (!DropsOnColdStart(r) && Marked(m) && DropVisible(r) ==> r.live.snapshot.None?)
  }

  lemma CleansedMeta(r: Room)
    requires Committed(r)
    ensures CleanMeta(r, Cleansed(Counted(r)).meta)
  {
    Settled(r, UpdateBytes);
    Settled(r, BackupVV);
  }

  /** Right after a cold start memory and storage coincide. */
  lemma FreshlyStarted(e: Room, s: Store, dec: Decode)
    requires e.live == e.durable == s && e.cache == Some(s.meta) && e.dirty == {}
    requires e.doc == Some(StoredOps(s, dec)) && e.pending == [] && e.pendingBytes == 0 && e.extra == {}
    requires e.logBytes == NumOf(s.meta, UpdateBytes)
    ensures Committed(e) && LogAgrees(e, dec)
    ensures DropVisible(e) <==> (Marked(s.meta) ==> s.snapshot.None?)
    ensures RowsPayload(s.rows) == NumOf(s.meta, UpdateBytes) && (RowsPayload(s.rows) == 0 ==> s.rows == [])
      ==> GaugeExact(e)
  {
    assert LogOps(e, dec) == StoredOps(s, dec) + {};
  }

  // ----- the other handlers -----

  lemma CrashKeeps(r: Room, dec: Decode)
    requires Inv(r, dec)
    ensures Inv(Crash(r), dec)
  {
    Settled(r, BackupVV);
    assert BackedUp(Crash(r)) == BackedUp(r);
  }

  lemma PersistKeeps(r: Room, dec: Decode)
    requires Inv(r, dec)
    ensures Inv(FlushMeta(r), dec)
    ensures var store := r.live.(meta := MetaOf(r)); FlushMeta(r) == r.(live := store, durable := store, dirty := {})
    ensures LogOps(FlushMeta(r), dec) == LogOps(r, dec)
  {
    FlushMetaFacts(r);
    Settled(r, UpdateBytes);
    Settled(r, ReplayAttempts);
    Settled(r, BackupVV);
    var f := FlushMeta(r);
    assert BackedUp(f) == BackedUp(r);
    assert Committed(f);
    assert StoredOps(f.live, dec) == StoredOps(r.live, dec);
  }

  /** What a kill between the two syncs leaves. */
  function Died(r: Room): Room {
    r.(live := Counted(r), durable := Counted(r), doc := None, pending := [], pendingBytes := 0, logBytes := 0,
       cache := None, dirty := {}, hollow := r.hollow || DropsOnColdStart(r), extra := {})
  }

  lemma DiedFacts(r: Room, dec: Decode)
    requires Inv(r, dec) && r.doc.None?
    ensures ColdStartKilled(r) == Died(r)
  {
    BeginReplayFacts(r);
  }

  lemma CountedMeta(r: Room, dec: Decode)
    requires Inv(r, dec) && r.doc.None?
    ensures var m := Counted(r).meta;
      && NumOf(m, ReplayAttempts) == Attempts(r) + 1
      && NumOf(m, UpdateBytes) == (if DropsOnColdStart(r) then 0 else NumOf(r.live.meta, UpdateBytes))
      && (BackupVV in m <==> BackupVV in r.live.meta) && (BackupVV in m ==> m[BackupVV] == r.live.meta[BackupVV])
      && (DropsOnColdStart(r) || IsSet(r, PostReset) ==> PostReset in m && m[PostReset] == Flag(true))
      && (!DropsOnColdStart(r) && Marked(m) ==> r.live.snapshot.None?)
  {
    Settled(r, ReplayAttempts);
    Settled(r, UpdateBytes);
    Settled(r, BackupVV);
  }

  lemma DiedKeeps(r: Room, d: Room, dec: Decode)
    requires Inv(r, dec) && r.doc.None? && d == Died(r)
    ensures Inv(d, dec) && BackedUp(d) == BackedUp(r)
    ensures StoredOps(d.live, dec) == if DropsOnColdStart(r) then {} else StoredOps(r.live, dec)
  {
    CountedMeta(r, dec);
    Settled(r, BackupVV);
    assert BackedUp(d) == BackedUp(r);
    assert StoredOps(d.live, dec) == if DropsOnColdStart(r) then {} else StoredOps(r.live, dec);
    assert HollowPaused(d);
  }

  /** A kill between the two syncs of a cold start costs one counted attempt and nothing else,
      unless it was the attempt that broke the wedge. */
  lemma ColdStartDiesKeeps(r: Room, dec: Decode)
    requires Inv(r, dec) && r.doc.None?
    ensures var d := ColdStartKilled(r);
      && Inv(d, dec) && Attempts(d) == Attempts(r) + 1 && d.puts == r.puts && d.backup == r.backup
      && BackedUp(d) == BackedUp(r)
      && (if Attempts(r) >= REPLAY_CRASH_LIMIT then d.live.rows == [] && d.live.snapshot.None? && d.hollow
          else d.live.rows == r.live.rows && d.live.snapshot == r.live.snapshot && d.hollow == r.hollow)
  {
    DropsAfterAttempts(r, dec);
    CountedMeta(r, dec);
    DiedFacts(r, dec);
    DiedKeeps(r, Died(r), dec);
  }

  // ----- receiving updates -----

  lemma {:induction false} NonEmptyFacts(updates: seq<Bytes>)
    requires forall u :: u in updates ==> |u| < Codec.U32
    ensures ShortUpdates(NonEmpty(updates))
  {
    if updates != [] {
      NonEmptyFacts(updates[..|updates| - 1]);
      assert updates[|updates| - 1] in updates;
    }
  }

  lemma {:induction false} PayloadConcat(a: seq<Bytes>, b: seq<Bytes>)
    ensures Payload(a + b) == Payload(a) + Payload(b)
  {
    if a == [] {
      assert a + b == b;
    } else {
      assert (a + b)[0] == a[0] && (a + b)[1..] == a[1..] + b;
      PayloadConcat(a[1..], b);
    }
  }

  function Recorded(m: Meta): Meta { m[TailDirty := Flag(true)][BackupDirty := Flag(true)][PostReset := Flag(false)] }

  lemma RecordFacts(r: Room)
    requires CacheAgrees(r)
    ensures var n := MarkRecorded(r);
      && CacheAgrees(n) && MetaOf(n) == Recorded(MetaOf(r))
      && n.dirty <= r.dirty + {TailDirty, BackupDirty, PostReset}
      && n == r.(cache := n.cache, dirty := n.dirty)
  {
    PutThree(r, TailDirty, Flag(true), BackupDirty, Flag(true), PostReset, Flag(false));
  }

  lemma BufferedLog(r: Room, updates: seq<Bytes>, dec: Decode)
    requires LogAgrees(r, dec) && r.doc.Some? && forall u :: u in updates ==> |u| < Codec.U32
    ensures LogAgrees(Buffered(Absorb(r, updates, false, dec), NonEmpty(updates)), dec)
  {
    var carried := NonEmpty(updates);
    var b := Buffered(Absorb(r, updates, false, dec), carried);
    NonEmptyFacts(updates);
    PayloadConcat(r.pending, carried);
    OpsOfConcat(r.pending, carried, dec);
    assert LogOps(b, dec) == LogOps(r, dec) + OpsOf(carried, dec);
  }

  lemma RecordKeeps(r: Room, updates: seq<Bytes>, dec: Decode)
    requires Inv(r, dec) && r.doc.Some? && forall u :: u in updates ==> |u| < Codec.U32
    ensures var n := Record(Absorb(r, updates, false, dec), updates);
      && Inv(n, dec) && n.doc == Absorb(r, updates, false, dec).doc && n.live == r.live && n.extra == r.extra
      && n.puts == r.puts && n.backup == r.backup && BackedUp(n) == BackedUp(r)
  {
    var i := Absorb(r, updates, false, dec);
    if NonEmpty(updates) == [] {
      assert i.doc.value == r.doc.value;
      assert i == r;
    } else {
      var b := Buffered(i, NonEmpty(updates));
      BufferedLog(r, updates, dec);
      RecordedKeeps(r, b, dec);
    }
  }

  /** Marking a recorded batch touches no key that recovery rests on and lifts the pause. */
  lemma RecordedKeeps(r: Room, b: Room, dec: Decode)
    requires Inv(r, dec) && LogAgrees(b, dec) && r.doc.Some?
    requires b == r.(doc := b.doc, pending := b.pending, pendingBytes := b.pendingBytes, hollow := false) && b.doc.Some?
    ensures Inv(MarkRecorded(b), dec)
    ensures MarkRecorded(b).doc == b.doc && MarkRecorded(b).live == r.live && MarkRecorded(b).extra == r.extra
    ensures MarkRecorded(b).puts == r.puts
    ensures MarkRecorded(b).backup == r.backup && BackedUp(MarkRecorded(b)) == BackedUp(r)
  {
    assert CacheAgrees(b);
    RecordFacts(b);
    var n := MarkRecorded(b);
    assert BackedUp(n) == BackedUp(r);
    assert LogOps(n, dec) == LogOps(b, dec);
  }

  /** A batch rejected midway leaves the cached document ahead of the log by what it imported. */
  lemma RejectKeeps(r: Room, updates: seq<Bytes>, dec: Decode)
    requires Inv(r, dec) && r.doc.Some?
    ensures Inv(Absorb(r, updates, true, dec), dec) && BackedUp(Absorb(r, updates, true, dec)) == BackedUp(r)
  {
    var n := Absorb(r, updates, true, dec);
    assert LogOps(n, dec) == LogOps(r, dec);
    assert BackedUp(n) == BackedUp(r);
    assert Committed(n);
  }

  /** A batch accepted whole is buffered whole; one rejected midway records nothing. */
  lemma DeliverKeeps(r: Room, updates: seq<Bytes>, accepted: nat, dec: Decode)
    requires Inv(r, dec) && Enabled(r, DoDeliver(updates, accepted))
    ensures var n := Deliver(r, updates, accepted, dec);
      && Inv(n, dec) && n.puts == r.puts && n.backup == r.backup && BackedUp(n) == BackedUp(r)
      && n.doc == Some(EnsureDoc(r, dec).doc.value + OpsOf(NonEmpty(updates[..accepted]), dec))
      && n.extra == r.extra + (if accepted < |updates| then OpsOf(NonEmpty(updates[..accepted]), dec) else {})
      && n.live == EnsureDoc(r, dec).live
  {
    EnsureDocKeeps(r, dec);
    var ready := EnsureDoc(r, dec);
    if accepted < |updates| {
      RejectKeeps(ready, updates[..accepted], dec);
    } else {
      assert updates[..accepted] == updates;
      RecordKeeps(ready, updates, dec);
    }
  }

  // ----- flushing and folding -----

  lemma {:induction false} PayloadPositive(updates: seq<Bytes>)
    requires ShortUpdates(updates) && updates != []
    ensures Payload(updates) > 0
  {
    assert updates[0] in updates;
  }

  lemma RowsPayloadSnoc(rows: seq<Bytes>, row: Bytes)
    ensures RowsPayload(rows + [row]) == RowsPayload(rows) + Payload(Codec.Split(row))
  {
    assert (rows + [row])[..|rows|] == rows;
  }

  /** Storage after the buffered updates went into one new row. */
  function Appended(r: Room): Store {
    r.live.(rows := r.live.rows + [Codec.Combine(r.pending)],
            meta := MetaOf(r)[UpdateBytes := Num(r.logBytes + r.pendingBytes)])
  }

  /** The part of a flush before any fold. */
  function FlushRow(r: Room): Room {
    r.(live := Appended(r), durable := Appended(r), cache := Some(Appended(r).meta), dirty := {},
       logBytes := r.logBytes + r.pendingBytes, pending := [], pendingBytes := 0)
  }

  lemma AppendRowFacts(r: Room)
    requires CacheAgrees(r) && GetNum(r, UpdateBytes) == r.logBytes && r.pendingBytes > 0
    ensures AppendRow(r) == FlushRow(r)
  {
    var b := WithRow(r);
    assert CacheAgrees(b) && MetaOf(b) == MetaOf(r);
    PutFlush(b, UpdateBytes, Num(b.logBytes));
    assert b.live.(meta := MetaOf(b)[UpdateBytes := Num(b.logBytes)]) == Appended(r);
  }

  lemma FlushFacts(r: Room, dec: Decode)
    requires Inv(r, dec)
    ensures FlushKilled(r) == Crash(if r.pending == [] then FlushMeta(r) else FlushRow(r))
    ensures Flush(r, dec) ==
      if r.pending == [] then FlushMeta(r)
      else
        var c := FlushRow(r);
        if OverBudget(c) then FoldLog(c, dec) else c
  {
    if r.pending != [] {
      PersistKeeps(r, dec);
      PayloadPositive(r.pending);
      Settled(r, UpdateBytes);
      AppendRowFacts(FlushMeta(r));
      SameRow(r, FlushMeta(r).durable);
    }
  }

  lemma SameRow(r: Room, durable: Store)
    requires CacheAgrees(r)
    ensures FlushRow(r.(live := r.live.(meta := MetaOf(r)), durable := durable, dirty := {})) == FlushRow(r)
  {
    var f := r.(live := r.live.(meta := MetaOf(r)), durable := durable, dirty := {});
    assert Appended(f) == Appended(r);
  }

  /** The row of a flush carries exactly the buffered updates, and is committed. */
  lemma FlushRowKeeps(r: Room, dec: Decode)
    requires Inv(r, dec) && r.pending != []
    ensures Inv(FlushRow(r), dec) && StoredOps(FlushRow(r).live, dec) == LogOps(FlushRow(r), dec) == LogOps(r, dec)
    ensures !IsSet(FlushRow(r), PostReset) && GetNum(FlushRow(r), UpdateBytes) > 0
  {
    var c := FlushRow(r);
    var row := Codec.Combine(r.pending);
    Codec.SplitCombine(r.pending);
    RowsOpsSnoc(r.live.rows, row, dec);
    RowsPayloadSnoc(r.live.rows, row);
    PayloadPositive(r.pending);
    Settled(r, ReplayAttempts);
    Settled(r, BackupVV);
    assert StoredOps(c.live, dec) == LogOps(r, dec);
    assert LogOps(c, dec) == StoredOps(c.live, dec) + {};
    assert BackedUp(c) == BackedUp(r);
    assert GaugeExact(c);
    assert HollowPaused(c);
  }

  /** A room whose log was folded into the snapshot and whose meta was written out. */
  ghost predicate FoldedFrom(r: Room, f: Room) {
    && r.doc.Some?
    && f == r.(live := Store(r.doc, [], MetaOf(r)[UpdateBytes := Num(0)]), durable := f.live, logBytes := 0,
               cache := f.cache, dirty := {}, extra := {})
    && MetaOf(f) == f.live.meta
  }

  lemma FoldFacts(r: Room, dec: Decode)
    requires CacheAgrees(r) && r.doc.Some? && GetNum(r, UpdateBytes) > 0
    ensures FoldedFrom(r, FoldLog(r, dec))
  {
    var folded := Folded(r);
    assert CacheAgrees(folded);
    PutFacts(folded, UpdateBytes, Num(0));
    FlushMetaFacts(Put(folded, UpdateBytes, Num(0)));
  }

  lemma FoldedKeeps(r: Room, f: Room, dec: Decode)
    requires Inv(r, dec) && r.pending == [] && !IsSet(r, PostReset) && FoldedFrom(r, f)
    ensures Inv(f, dec) && StoredOps(f.live, dec) == r.doc.value
  {
    Settled(r, UpdateBytes);
    Settled(r, ReplayAttempts);
    Settled(r, BackupVV);
    assert StoredOps(f.live, dec) == r.doc.value + {};
    assert LogOps(f, dec) == StoredOps(f.live, dec) + {};
    assert BackedUp(f) == BackedUp(r);
    assert Committed(f);
    assert GaugeExact(f);
    assert HollowPaused(f);
  }

  /** Folding loses nothing: the snapshot is the document, and the log is gone. */
  lemma FoldKeeps(r: Room, dec: Decode)
    requires Inv(r, dec) && r.doc.Some? && r.pending == [] && !IsSet(r, PostReset) && GetNum(r, UpdateBytes) > 0
    ensures var f := FoldLog(r, dec);
      && Inv(f, dec) && f.doc == r.doc && f.live.rows == [] && StoredOps(f.live, dec) == r.doc.value
      && f.puts == r.puts && f.backup == r.backup && f.hollow == r.hollow && f.pending == [] && f.extra == {}
      && (forall k :: k != UpdateBytes ==> Get(f, k) == Get(r, k))
  {
    FoldFacts(r, dec);
    FoldedKeeps(r, FoldLog(r, dec), dec);
  }

  /** Whether flushing will put the log over a budget. */
  predicate FoldsOnFlush(r: Room) {
    && r.pending != []
    && (r.logBytes + r.pendingBytes > COMPACT_LOG_BYTES || |r.live.rows| >= COMPACT_LOG_ROWS)
  }

  /** What a flush does: the buffer moves into storage, and with it what failed batches left, if
      the log is folded. */
  ghost predicate Flushed(r: Room, f: Room, dec: Decode) {
    && Inv(f, dec) && f.pending == [] && f.doc == r.doc
    && f.puts == r.puts && f.backup == r.backup && f.hollow == r.hollow
    && StoredOps(f.live, dec) == LogOps(r, dec) + (if FoldsOnFlush(r) then r.extra else {})
    && f.extra == (if FoldsOnFlush(r) then {} else r.extra)
    && f.live.rows == (if r.pending == [] then r.live.rows
                       else if FoldsOnFlush(r) then [] else r.live.rows + [Codec.Combine(r.pending)])
    && Attempts(f) == Attempts(r)
    && forall k :: k != UpdateBytes ==> Get(f, k) == Get(r, k)
  }

  lemma FlushKeeps(r: Room, dec: Decode)
    requires Inv(r, dec)
    ensures Flushed(r, Flush(r, dec), dec)
  {
    FlushFacts(r, dec);
    if r.pending == [] {
      FlushedMeta(r, dec);
    } else {
      FlushRowKeeps(r, dec);
      FlushedRow(r, FlushRow(r), dec);
    }
  }

  /** A kill between the row and the fold keeps the row and puts the fold off. */
  lemma FlushDiesKeeps(r: Room, dec: Decode)
    requires Inv(r, dec)
    ensures var n := FlushKilled(r);
      && Inv(n, dec) && n.doc.None? && StoredOps(n.live, dec) == LogOps(r, dec) && Attempts(n) == Attempts(r)
      && n.live.rows == (if r.pending == [] then r.live.rows else r.live.rows + [Codec.Combine(r.pending)])
      && n.puts == r.puts && n.backup == r.backup && BackedUp(n) == BackedUp(r)
  {
    FlushFacts(r, dec);
    if r.pending == [] {
      FlushedMeta(r, dec);
      CrashedAfter(r, FlushMeta(r), dec);
    } else {
      FlushRowKeeps(r, dec);
      CrashedAfter(r, FlushRow(r), dec);
    }
  }

  lemma CrashedAfter(r: Room, f: Room, dec: Decode)
    requires Inv(r, dec) && Inv(f, dec) && Get(f, BackupVV) == Get(r, BackupVV) && f.backup == r.backup && f.puts == r.puts
    requires Get(f, ReplayAttempts) == Get(r, ReplayAttempts)
    ensures var n := Crash(f);
      && Inv(n, dec) && n.live == f.live && n.puts == r.puts && n.backup == r.backup && BackedUp(n) == BackedUp(r)
      && Attempts(n) == Attempts(r)
  {
    CrashKeeps(f, dec);
    Settled(f, BackupVV);
    Settled(f, ReplayAttempts);
    Settled(r, ReplayAttempts);
    assert Get(Crash(f), BackupVV) == Get(r, BackupVV);
  }

  lemma FlushedMeta(r: Room, dec: Decode)
    requires Inv(r, dec) && r.pending == []
    ensures Flushed(r, FlushMeta(r), dec)
  {
    PersistKeeps(r, dec);
    FlushMetaFacts(r);
    assert LogOps(r, dec) == StoredOps(r.live, dec) + {};
  }

  lemma FlushedRow(r: Room, c: Room, dec: Decode)
    requires Inv(r, dec) && r.pending != [] && c == FlushRow(r) && Inv(c, dec) && StoredOps(c.live, dec) == LogOps(r, dec)
    requires !IsSet(c, PostReset) && GetNum(c, UpdateBytes) > 0
    ensures Flushed(r, if OverBudget(c) then FoldLog(c, dec) else c, dec)
  {
    assert OverBudget(c) <==> FoldsOnFlush(r);
    assert forall k :: k != UpdateBytes ==> Get(c, k) == Get(r, k);
    if OverBudget(c) {
      FoldKeeps(c, dec);
      assert c.doc.value == LogOps(c, dec) + c.extra;
      assert LogOps(c, dec) == StoredOps(c.live, dec) + {};
    }
  }

  // ----- the alarm -----

  /** A trim changes how the state is stored, not the state. */
  lemma TrimFacts(r: Room, dec: Decode)
    requires Inv(r, dec) && r.doc.Some? && r.pending == []
    ensures var t := Trim(r);
      && CacheAgrees(t) && MetaOf(t) == MetaOf(r)[UpdateBytes := Num(0)]
      && t == r.(live := Store(r.doc, [], r.live.meta), logBytes := 0, extra := {}, cache := t.cache, dirty := t.dirty)
      && r.dirty <= t.dirty <= r.dirty + {UpdateBytes}
      && (UpdateBytes !in t.dirty ==> r.live.rows == [])
  {
    var x := Folded(r);
    assert CacheAgrees(x);
    PutFacts(x, UpdateBytes, Num(0));
    Settled(r, UpdateBytes);
  }

  /** What the alarm holds just before it decides about the backup: everything is settled but
      the meta written since. */
  ghost predicate Unsynced(s: Room, r: Room, dec: Decode) {
    && CacheAgrees(s) && r.live.meta == s.live.meta
    && s.durable == r.durable && s.pending == [] && s.pendingBytes == 0 && s.doc == r.doc && s.doc.Some?
    && LogAgrees(s, dec) && StoredOps(r.live, dec) <= StoredOps(s.live, dec)
    && s.logBytes == GetNum(s, UpdateBytes) == RowsPayload(s.live.rows)
    && (RowsPayload(s.live.rows) == 0 ==> s.live.rows == [])
    && (UpdateBytes !in s.dirty ==> s.live.rows == r.live.rows)
    && Get(s, BackupVV) == Get(r, BackupVV) && Get(s, ReplayAttempts) == Get(r, ReplayAttempts)
    && Get(s, PostReset) == Get(r, PostReset) && Get(s, BackupDirty) == Get(r, BackupDirty)
    && Get(s, ChatId) == Get(r, ChatId)
    && s.backup == r.backup && s.puts == r.puts && s.hollow == r.hollow
  }

  /** The list of checkpoints is not empty and waits to be written. */
  ghost predicate Restamped(s: Room) { Checkpoints in s.dirty && GetNum(s, Checkpoints) > 0 }

  lemma UnsyncedSelf(r: Room, dec: Decode)
    requires Inv(r, dec) && r.doc.Some? && r.pending == []
    ensures Unsynced(r, r, dec)
  {
    Settled(r, UpdateBytes);
  }

  lemma UnsyncedTrim(r: Room, dec: Decode)
    requires Inv(r, dec) && r.doc.Some? && r.pending == []
    ensures Unsynced(Trim(r), r, dec)
  {
    TrimFacts(r, dec);
    var t := Trim(r);
    assert StoredOps(t.live, dec) == r.doc.value + {};
    assert LogOps(t, dec) == r.doc.value + {} + {};
  }

  lemma UnsyncedStamp(s: Room, r: Room, dec: Decode)
    requires Unsynced(s, r, dec)
    ensures Unsynced(Stamp(s), r, dec) && Restamped(Stamp(s))
  {
    PutFacts(s, Checkpoints, Num(GetNum(s, Checkpoints) + 1));
    var p := Stamp(s);
    assert LogOps(p, dec) == LogOps(s, dec);
  }

  lemma StampOnly(s: Room)
    ensures Stamp(s) == s.(cache := Stamp(s).cache, dirty := Stamp(s).dirty)
  {
  }

  lemma StampedFacts(r: Room, trim: bool, dec: Decode)
    requires Inv(r, dec) && r.doc.Some? && r.pending == []
    ensures Unsynced(Stamped(r, trim), r, dec) && Restamped(Stamped(r, trim))
    ensures Stamped(r, trim).extra == if trim then {} else r.extra
    ensures Stamped(r, trim).live.rows == if trim then [] else r.live.rows
  {
    if trim {
      UnsyncedTrim(r, dec);
      TrimFacts(r, dec);
      UnsyncedStamp(Trim(r), r, dec);
      StampOnly(Trim(r));
    } else {
      UnsyncedSelf(r, dec);
      UnsyncedStamp(r, r, dec);
      StampOnly(r);
    }
  }

  /** The alarm's last meta writes touch only the bookkeeping of the backup. */
  ghost predicate Closing(s: Room, b: Room) {
    && CacheAgrees(b) && s.dirty <= b.dirty
    && b == s.(cache := b.cache, dirty := b.dirty, backup := b.backup, puts := b.puts)
    && Get(b, UpdateBytes) == Get(s, UpdateBytes) && Get(b, ReplayAttempts) == Get(s, ReplayAttempts)
    && Get(b, PostReset) == Get(s, PostReset) && Get(b, Checkpoints) == Get(s, Checkpoints)
    && BackupCovers(b.(live := b.live.(meta := MetaOf(b))))
  }

  /** A room whose meta was written out. */
  ghost predicate PersistedFrom(b: Room, f: Room) {
    && f == b.(live := b.live.(meta := MetaOf(b)), durable := f.live, dirty := {})
    && MetaOf(f) == MetaOf(b)
  }

  lemma ClosedKeeps(s: Room, r: Room, b: Room, f: Room, dec: Decode)
    requires Inv(r, dec) && Unsynced(s, r, dec) && Restamped(s) && Closing(s, b) && PersistedFrom(b, f)
    ensures Inv(f, dec)
  {
    Settled(r, ReplayAttempts);
    ClosedLog(s, r, b, f, dec);
    ClosedBackup(s, b, f);
    assert HollowPaused(f);
  }

  lemma ClosedLog(s: Room, r: Room, b: Room, f: Room, dec: Decode)
    requires Unsynced(s, r, dec) && Closing(s, b) && PersistedFrom(b, f)
    ensures LogAgrees(f, dec) && GaugeExact(f)
  {
    assert StoredOps(f.live, dec) == StoredOps(s.live, dec);
    assert LogOps(f, dec) == LogOps(s, dec);
  }

  lemma ClosedBackup(s: Room, b: Room, f: Room)
    requires Closing(s, b) && PersistedFrom(b, f)
    ensures Committed(f) && BackupCovers(f)
  {
    assert BackedUp(f) == BackedUp(b);
  }

  /** Persisting what the alarm left restores the invariant. */
  lemma AlarmSettles(s: Room, r: Room, b: Room, dec: Decode)
    requires Inv(r, dec) && Unsynced(s, r, dec) && Restamped(s) && Closing(s, b)
    ensures Inv(FlushMeta(b), dec) && PersistedFrom(b, FlushMeta(b))
  {
    FlushMetaFacts(b);
    ClosedKeeps(s, r, b, FlushMeta(b), dec);
  }

  lemma MarkBackedUpFacts(s: Room)
    requires CacheAgrees(s) && s.doc.Some?
    ensures var m := MarkBackedUp(s);
      && CacheAgrees(m) && MetaOf(m) == MetaOf(s)[BackupVV := Version(s.doc.value)][BackupDirty := Flag(false)]
      && m == s.(cache := m.cache, dirty := m.dirty) && s.dirty <= m.dirty
  {
    PutFacts(s, BackupVV, Version(s.doc.value));
    var t := Put(s, BackupVV, Version(s.doc.value));
    PutFacts(t, BackupDirty, Flag(false));
  }

  ghost predicate Advances(before: Option<Ops>, after: Option<Ops>) {
    before.Some? ==> after.Some? && Includes(after.value, before.value)
  }

  /** What the bookkeeping knows to be backed up. */
  function Known(r: Room): Ops { if BackedUp(r).Some? then BackedUp(r).value else {} }

  /** The bookkeeping knows of everything the disaster copy has seen. */
  ghost predicate Covers(r: Room) { r.backup.Some? ==> Includes(Known(r), r.backup.value) }

  /** How a step may move the disaster copy: not while hollow, and never backwards while the
      bookkeeping covers it. */
  ghost predicate BackupMoves(r: Room, n: Room) {
    && (n.hollow || r.hollow ==> n.puts == r.puts)
    && (n.puts == r.puts ==> n.backup == r.backup)
    && (Covers(r) ==> Advances(r.backup, n.backup))
  }

  lemma AdvancesSelf(a: Option<Ops>)
    ensures Advances(a, a)
  {
    if a.Some? { SupersetIncludes(a.value, a.value); }
  }

  lemma SameCovers(r: Room, n: Room)
    requires n.backup == r.backup && Known(n) == Known(r)
    ensures Covers(n) <==> Covers(r)
  {
  }

  lemma BackupStays(r: Room, n: Room)
    requires n.puts == r.puts && n.backup == r.backup
    ensures BackupMoves(r, n)
    ensures BackedUp(n) == BackedUp(r) ==> (Covers(n) <==> Covers(r))
  {
    AdvancesSelf(r.backup);
    if BackedUp(n) == BackedUp(r) { SameCovers(r, n); }
  }

  /** The gate of the backup compares the document with the bookkeeping, and through it with the
      copy. */
  lemma AlarmPuts(r: Room, ready: Room, s: Room, dec: Decode)
    requires Inv(ready, dec) && Unsynced(s, ready, dec) && MayPut(s)
    requires ready.backup == r.backup && ready.puts == r.puts && (r.hollow ==> ready.hollow)
    requires BackedUp(ready) == BackedUp(r)
    ensures BackupMoves(r, BackUp(s))
    ensures !ready.hollow
  {
    assert BackedUp(s) == BackedUp(r);
    if Covers(r) && r.backup.Some? {
      IncludesTransitive(s.doc.value, Known(r), r.backup.value);
    }
  }

  /** What the alarm does to the document and the log, given the room after any cold start. */
  ghost predicate Trimmed(e: Room, n: Room, trim: bool, dec: Decode) {
    && n.doc == e.doc && n.pending == e.pending && Attempts(n) == 0
    && n.extra == (if trim then {} else e.extra) && n.live.rows == (if trim then [] else e.live.rows)
    && StoredOps(e.live, dec) <= StoredOps(n.live, dec)
  }

  lemma AlarmBodyKeeps(r: Room, trim: bool, dec: Decode)
    requires Inv(r, dec) && r.pending == []
    ensures var n := AlarmBody(r, trim, dec);
      Alarmed(r, EnsureDoc(r, dec), n, trim, dec)
  {
    EnsureDocKeeps(r, dec);
    EnsureDocPending(r, dec);
    var ready := EnsureDoc(r, dec);
    StampedFacts(ready, trim, dec);
    var s := Stamped(ready, trim);
    if MayPut(s) { BodyPuts(r, ready, s, trim, dec); } else { BodyHolds(r, ready, s, trim, dec); }
  }

  /** What the alarm may rely on after a cold start. */
  ghost predicate Ready(r: Room, e: Room, s: Room, trim: bool, dec: Decode) {
    && Inv(e, dec) && e.pending == [] && Unsynced(s, e, dec) && Restamped(s)
    && e.backup == r.backup && e.puts == r.puts && (r.hollow ==> e.hollow) && BackedUp(e) == BackedUp(r)
    && s.extra == (if trim then {} else e.extra) && s.live.rows == (if trim then [] else e.live.rows)
  }

  /** What an alarm body does to a room. */
  ghost predicate Alarmed(r: Room, e: Room, n: Room, trim: bool, dec: Decode) {
    Inv(n, dec) && BackupMoves(r, n) && (Covers(r) ==> Covers(n)) && Trimmed(e, n, trim, dec)
  }

  lemma BodyPuts(r: Room, e: Room, s: Room, trim: bool, dec: Decode)
    requires Ready(r, e, s, trim, dec) && MayPut(s)
    ensures Alarmed(r, e, FlushMeta(MarkBackedUp(BackUp(s))), trim, dec)
  {
    AlarmPuts(r, e, s, dec);
    ClosingPut(s);
    var b := MarkBackedUp(BackUp(s));
    AlarmSettles(s, e, b, dec);
    PutAndClosed(r, e, s, b, FlushMeta(b), trim, dec);
  }

  lemma PutAndClosed(r: Room, e: Room, s: Room, b: Room, n: Room, trim: bool, dec: Decode)
    requires Ready(r, e, s, trim, dec) && MayPut(s) && BackupMoves(r, BackUp(s)) && !e.hollow
    requires Closing(s, b) && b.backup == s.doc && b.puts == s.puts + 1
    requires PersistedFrom(b, n) && Inv(n, dec) && Covers(n)
    ensures Alarmed(r, e, n, trim, dec)
  {
    TrimmedBy(e, s, b, n, trim, dec);
  }

  lemma BodyHolds(r: Room, e: Room, s: Room, trim: bool, dec: Decode)
    requires Ready(r, e, s, trim, dec)
    ensures Alarmed(r, e, FlushMeta(s), trim, dec)
  {
    ClosingNothing(s, e, dec);
    AlarmSettles(s, e, s, dec);
    HeldAndClosed(r, e, s, FlushMeta(s), trim, dec);
  }

  lemma HeldAndClosed(r: Room, e: Room, s: Room, n: Room, trim: bool, dec: Decode)
    requires Ready(r, e, s, trim, dec) && Closing(s, s) && PersistedFrom(s, n) && Inv(n, dec)
    requires BackedUp(s) == BackedUp(e)
    ensures Alarmed(r, e, n, trim, dec)
  {
    assert BackedUp(n) == BackedUp(r);
    BackupStays(r, n);
    TrimmedBy(e, s, s, n, trim, dec);
  }

  lemma TrimmedBy(e: Room, s: Room, b: Room, n: Room, trim: bool, dec: Decode)
    requires Inv(n, dec) && Unsynced(s, e, dec) && Closing(s, b) && PersistedFrom(b, n) && e.pending == []
    requires s.extra == (if trim then {} else e.extra) && s.live.rows == (if trim then [] else e.live.rows)
    ensures Trimmed(e, n, trim, dec)
  {
    assert StoredOps(n.live, dec) == StoredOps(s.live, dec);
  }

  lemma ClosingPut(s: Room)
    requires CacheAgrees(s) && s.doc.Some?
    ensures var b := MarkBackedUp(BackUp(s));
      Closing(s, b) && b.backup == s.doc && b.puts == s.puts + 1 && BackedUp(b) == s.doc
    ensures forall f :: PersistedFrom(MarkBackedUp(BackUp(s)), f) ==> Covers(f)
  {
    var p := BackUp(s);
    assert CacheAgrees(p);
    MarkBackedUpFacts(p);
    SupersetIncludes(s.doc.value, s.doc.value);
    var b := MarkBackedUp(p);
    assert BackedUp(b.(live := b.live.(meta := MetaOf(b)))) == s.doc;
    assert forall f :: PersistedFrom(b, f) ==> BackedUp(f) == s.doc;
  }

  lemma ClosingNothing(s: Room, r: Room, dec: Decode)
    requires Inv(r, dec) && Unsynced(s, r, dec)
    ensures Closing(s, s) && BackedUp(s) == BackedUp(r)
  {
    Settled(r, BackupVV);
    assert BackedUp(s) == BackedUp(r);
  }

  /** A flush moves neither the copy nor its bookkeeping, so what follows may be judged from
      before it. */
  lemma MovesFrom(r: Room, f: Room, n: Room, dec: Decode)
    requires Flushed(r, f, dec) && BackupMoves(f, n)
    ensures BackupMoves(r, n) && (Covers(f) <==> Covers(r))
  {
    assert Get(f, BackupVV) == Get(r, BackupVV);
    MovesAlike(r, f, n);
  }

  lemma MovesAlike(r: Room, f: Room, n: Room)
    requires f.backup == r.backup && f.puts == r.puts && f.hollow == r.hollow && Get(f, BackupVV) == Get(r, BackupVV)
    requires BackupMoves(f, n)
    ensures BackupMoves(r, n) && (Covers(f) <==> Covers(r))
  {
    SameCovers(r, f);
  }

  lemma AlarmFrom(r: Room, f: Room, n: Room, trim: bool, dec: Decode)
    requires Flushed(r, f, dec) && n == if IsSet(f, BackupDirty) then AlarmBody(f, trim, dec) else f
    ensures Inv(n, dec) && BackupMoves(r, n) && (Covers(r) ==> Covers(n))
  {
    if IsSet(f, BackupDirty) { AlarmBodyKeeps(f, trim, dec); } else { BackupStays(f, f); }
    MovesFrom(r, f, n, dec);
  }

  /** The alarm keeps the invariant. It puts a backup only while nothing is hollow, and the new
      copy has seen everything the last one had. */
  lemma AlarmKeeps(r: Room, trim: bool, dec: Decode)
    requires Inv(r, dec)
    ensures var n := Alarm(r, trim, dec);
      Inv(n, dec) && BackupMoves(r, n) && (Covers(r) ==> Covers(n))
  {
    FlushKeeps(r, dec);
    AlarmFrom(r, Flush(r, dec), Alarm(r, trim, dec), trim, dec);
  }

  lemma EnsureDocPending(r: Room, dec: Decode)
    requires Inv(r, dec) && r.pending == []
    ensures EnsureDoc(r, dec).pending == [] && EnsureDoc(r, dec).pendingBytes == 0
  {
    if r.doc.None? { ColdStartFacts(r, dec); }
  }

  lemma AlarmBodyDiesKeeps(r: Room, trim: bool, dec: Decode)
    requires Inv(r, dec) && r.pending == []
    ensures var e, n := EnsureDoc(r, dec), AlarmBodyDies(r, trim, dec);
      Inv(n, dec) && BackupMoves(r, n) && n.doc.None? && n.live == e.live
  {
    EnsureDocKeeps(r, dec);
    EnsureDocPending(r, dec);
    var ready := EnsureDoc(r, dec);
    StampedFacts(ready, trim, dec);
    var s := Stamped(ready, trim);
    if MayPut(s) {
      AlarmPuts(r, ready, s, dec);
      TornKeeps(ready, s, dec);
    } else {
      CrashKeeps(ready, dec);
      assert Crash(s) == Crash(ready);
      BackupStays(r, AlarmBodyDies(r, trim, dec));
    }
  }

  lemma AlarmDiesFrom(r: Room, f: Room, n: Room, trim: bool, dec: Decode)
    requires Flushed(r, f, dec) && n == if IsSet(f, BackupDirty) then AlarmBodyDies(f, trim, dec) else Crash(f)
    ensures Inv(n, dec) && BackupMoves(r, n)
  {
    if IsSet(f, BackupDirty) {
      AlarmBodyDiesKeeps(f, trim, dec);
    } else {
      CrashKeeps(f, dec);
      BackupStays(f, n);
    }
    MovesFrom(r, f, n, dec);
  }

  /** A kill between the backup and its bookkeeping leaves the copy ahead of the bookkeeping. */
  lemma AlarmDiesKeeps(r: Room, trim: bool, dec: Decode)
    requires Inv(r, dec)
    ensures var n := AlarmKilled(r, trim, dec);
      Inv(n, dec) && BackupMoves(r, n)
  {
    FlushKeeps(r, dec);
    AlarmDiesFrom(r, Flush(r, dec), AlarmKilled(r, trim, dec), trim, dec);
  }

  lemma TornKeeps(r: Room, s: Room, dec: Decode)
    requires Inv(r, dec) && Unsynced(s, r, dec) && MayPut(s)
    ensures Inv(Crash(BackUp(s)), dec)
  {
    CrashKeeps(r, dec);
    Settled(r, BackupVV);
    var c, n := Crash(r), Crash(BackUp(s));
    assert BackedUp(s) == BackedUp(r) == BackedUp(c) == BackedUp(n);
    assert n == c.(backup := s.doc, puts := s.puts + 1);
  }
}
