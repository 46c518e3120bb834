/** The durable object itself (edge/src/session-room.ts): its fields, its loops, and the proof
    that each method does to them what `Room` says its handler does. */
module SessionRoom {
  import opened Common
  import Codec = RoomCodec
  import opened Room
  import Spec = Room
  import opened RoomSafety

  class SessionRoom {
    const dec: Decode

    // storage, and the disaster copy outside it
    var snapshot: Option<Ops>
    var rows: seq<Bytes>
    var metaTable: Meta
    var backup: Option<Ops>

    // memory
    var doc: Option<Ops>
    var pending: seq<Bytes>
    var pendingBytes: nat
    var logBytesCached: nat
    var metaCache: Meta
    var metaLoaded: bool
    var metaDirty: bool
    var metaDirtyKeys: set<MetaKey>

    /** The room this object stands for; what storage would roll back to and the history exist
        only here. */
    ghost var room: Room

    ghost predicate Valid() reads this {
      && room.live == Store(snapshot, rows, metaTable) && room.backup == backup
      && room.doc == doc && room.pending == pending && room.pendingBytes == pendingBytes
      && room.logBytes == logBytesCached
      && room.cache == (if metaLoaded then Some(metaCache) else None) && room.dirty == metaDirtyKeys
      && metaDirty == (metaDirtyKeys != {})
      && (!metaLoaded ==> metaCache == map[] && metaDirtyKeys == {})
    }

    /** Waking up after a kill, on the storage that survived it. */
    constructor (dec: Decode, snapshot: Option<Ops>, rows: seq<Bytes>, metaTable: Meta, backup: Option<Ops>,
                 ghost killed: Room)
      requires killed.durable == Store(snapshot, rows, metaTable) && killed.backup == backup
      ensures Valid() && room == Crash(killed) && this.dec == dec
    {
      this.dec := dec;
      this.snapshot, this.rows, this.metaTable, this.backup := snapshot, rows, metaTable, backup;
      doc, pending, pendingBytes, logBytesCached := None, [], 0, 0;
      metaCache, metaLoaded, metaDirty, metaDirtyKeys := map[], false, false, {};
      room := Crash(killed);
    }

    // ----- meta -----

    method LoadMeta()
      requires Valid()
      modifies `metaLoaded, `metaCache, `room
      ensures Valid() && metaLoaded && room == Load(old(room))
    {
      if metaLoaded { return; }
      metaLoaded := true;
      var keys := metaTable.Keys;
      while keys != {}
        invariant metaLoaded && keys <= metaTable.Keys && room == old(room)
        invariant metaCache == map k | k in metaTable.Keys - keys :: metaTable[k]
        decreases |keys|
      {
        var k :| k in keys;
        metaCache := metaCache[k := metaTable[k]];
        keys := keys - {k};
      }
      assert metaCache == metaTable;
      room := Load(room);
    }

    method GetMeta(k: MetaKey) returns (v: Option<MetaValue>)
      requires Valid()
      modifies `metaLoaded, `metaCache, `room
      ensures Valid() && room == Load(old(room)) && v == Get(old(room), k)
    {
      LoadMeta();
      v := if k in metaCache then Some(metaCache[k]) else None;
    }

    method GetNumber(k: MetaKey) returns (n: nat)
      requires Valid()
      modifies `metaLoaded, `metaCache, `room
      ensures Valid() && room == Load(old(room)) && n == GetNum(old(room), k)
    {
      var v := GetMeta(k);
      n := if v.Some? && v.value.Num? then v.value.n else 0;
    }

    method StoreMeta(k: MetaKey, v: MetaValue)
      requires Valid() && metaLoaded
      modifies `metaCache, `metaDirty, `metaDirtyKeys, `room
      ensures Valid() && metaLoaded
      ensures room == old(room).(cache := Some(old(metaCache)[k := v]), dirty := old(metaDirtyKeys) + {k})
    {
      metaCache := metaCache[k := v];
      metaDirty := true;
      metaDirtyKeys := metaDirtyKeys + {k};
      room := room.(cache := Some(metaCache), dirty := metaDirtyKeys);
    }

    method SetMeta(k: MetaKey, v: MetaValue)
      requires Valid()
      modifies `metaLoaded, `metaCache, `metaDirty, `metaDirtyKeys, `room
      ensures Valid() && metaLoaded && room == Put(old(room), k, v)
    {
      LoadMeta();
      if k in metaCache && metaCache[k] == v { return; }
      PutLoaded(old(room), k, v);
      StoreMeta(k, v);
    }

    /** Three settings in a row. */
    method Mark(a: MetaKey, x: MetaValue, b: MetaKey, y: MetaValue, c: MetaKey, z: MetaValue)
      requires Valid()
      modifies `metaLoaded, `metaCache, `metaDirty, `metaDirtyKeys, `room
      ensures Valid() && room == Put(Put(Put(old(room), a, x), b, y), c, z)
    {
      SetMeta(a, x);
      SetMeta(b, y);
      SetMeta(c, z);
    }

    /** Everything written so far survives a kill. */
    ghost method SyncStorage()
      requires Valid()
      modifies `room
      ensures Valid() && room == Sync(old(room))
    {
      room := Sync(room);
    }

    /** One upsert per changed key. */
    method UpsertChanged()
      modifies `metaTable
      ensures metaTable == old(metaTable) + map k | k in metaDirtyKeys && k in metaCache :: metaCache[k]
    {
      var keys := metaDirtyKeys;
      while keys != {}
        invariant keys <= metaDirtyKeys
        invariant metaTable ==
          old(metaTable) + map k | k in metaDirtyKeys - keys && k in metaCache :: metaCache[k]
        decreases |keys|
      {
        var k :| k in keys;
        if k in metaCache { metaTable := metaTable[k := metaCache[k]]; }
        keys := keys - {k};
      }
    }

    method FlushMeta()
      requires Valid()
      modifies `metaTable, `metaDirty, `metaDirtyKeys, `room
      ensures Valid() && room == Spec.FlushMeta(old(room))
    {
      if !metaDirty { return; }
      metaDirty := false;
      UpsertChanged();
      metaDirtyKeys := {};
      room := Spec.FlushMeta(room);
    }

    // ----- materialization -----

    method ClearLog()
      requires Valid()
      modifies `rows, `snapshot, `logBytesCached, `pending, `pendingBytes, `room
      ensures Valid() && room == Cleared(old(room))
    {
      rows := [];
      snapshot := None;
      logBytesCached := 0;
      pending := [];
      pendingBytes := 0;
      room := Cleared(room);
    }

    method DropLog()
      requires Valid()
      modifies this
      ensures Valid() && room == Spec.DropLog(old(room))
    {
      ClearLog();
      Mark(UpdateBytes, Num(0), Checkpoints, Num(0), PostReset, Flag(true));
    }

    method ImportAll(updates: seq<Bytes>, start: Ops) returns (imported: Ops)
      ensures imported == start + OpsOf(updates, dec)
    {
      imported := start;
      for i := 0 to |updates|
        invariant imported == start + OpsOf(updates[..i], dec)
      {
        imported := imported + dec(updates[i]);
        assert updates[..i + 1] == updates[..i] + [updates[i]];
        OpsOfConcat(updates[..i], [updates[i]], dec);
        OpsOfOne(updates[i], dec);
      }
      assert updates[..|updates|] == updates;
    }

    /** The replay loops: snapshot, then every update of every row, then the buffer. */
    method Replay() returns (imported: Ops)
      requires Valid()
      ensures imported == LogOps(room, dec)
    {
      imported := if snapshot.Some? then snapshot.value else {};
      ghost var start := imported;
      for i := 0 to |rows|
        invariant imported == start + RowsOps(rows[..i], dec)
      {
        var updates := Codec.SplitCombinedUpdates(rows[i]);
        imported := ImportAll(updates, imported);
        assert rows[..i + 1] == rows[..i] + [rows[i]];
        RowsOpsSnoc(rows[..i], rows[i], dec);
      }
      assert rows[..|rows|] == rows;
      imported := ImportAll(pending, imported);
    }

    method DropIfWedged() returns (attempts: nat)
      requires Valid()
      modifies this
      ensures Valid() && attempts == GetNum(old(room), ReplayAttempts)
      ensures room == Unwedged(old(room))
    {
      attempts := GetNumber(ReplayAttempts);
      if attempts >= REPLAY_CRASH_LIMIT { DropLog(); }
    }

    method CommitNumber(k: MetaKey, n: nat)
      requires Valid()
      modifies this
      ensures Valid() && room == Commit(old(room), k, n)
    {
      SetMeta(k, Num(n));
      FlushMeta();
      SyncStorage();
    }

    method CountAttempt()
      requires Valid()
      modifies this
      ensures Valid() && room == BeginReplay(old(room))
    {
      var attempts := DropIfWedged();
      CommitNumber(ReplayAttempts, attempts + 1);
    }

    method SetLogBytes(n: nat)
      requires Valid()
      modifies `logBytesCached, `room
      ensures Valid() && room == old(room).(logBytes := n)
    {
      logBytesCached := n;
      room := room.(logBytes := n);
    }

    method SetDoc(ops: Ops)
      requires Valid()
      modifies `doc, `room
      ensures Valid() && room == old(room).(doc := Some(ops), extra := {})
    {
      doc := Some(ops);
      room := room.(doc := Some(ops), extra := {});
    }

    method FinishReplay()
      requires Valid()
      modifies this
      ensures Valid() && room == EndReplay(old(room), dec)
    {
      ghost var r := room;
      var imported := Replay();
      var bytes := GetNumber(UpdateBytes);
      SetLogBytes(bytes);
      LoadedFirst(r.(logBytes := bytes), ReplayAttempts, Num(0));
      CommitNumber(ReplayAttempts, 0);
      SetDoc(imported);
    }

    method EnsureDoc()
      requires Valid()
      modifies this
      ensures Valid() && room == Spec.EnsureDoc(old(room), dec) && doc.Some?
    {
      if doc.Some? { return; }
      CountAttempt();
      FinishReplay();
    }

    // ----- receiving updates -----

    method Buffer(updates: seq<Bytes>)
      modifies `pending, `pendingBytes
      ensures pending == old(pending) + NonEmpty(updates)
      ensures pendingBytes == old(pendingBytes) + Payload(NonEmpty(updates))
    {
      for i := 0 to |updates|
        invariant pending == old(pending) + NonEmpty(updates[..i])
        invariant pendingBytes == old(pendingBytes) + Payload(NonEmpty(updates[..i]))
      {
        NonEmptySnoc(updates, i, dec);
        if |updates[i]| != 0 {
          pending := pending + [updates[i]];
          pendingBytes := pendingBytes + |updates[i]|;
        }
      }
      assert updates[..|updates|] == updates;
    }

    /** Whether anything real was buffered. */
    method BufferReal(updates: seq<Bytes>) returns (recorded: bool)
      requires Valid()
      modifies `pending, `pendingBytes, `room
      ensures Valid() && recorded == (NonEmpty(updates) != [])
      ensures room == if recorded then Buffered(old(room), NonEmpty(updates)) else old(room)
    {
      var before := |pending|;
      Buffer(updates);
      recorded := |pending| > before;
      if recorded { room := Buffered(room, NonEmpty(updates)); }
    }

    method RecordLoroUpdates(updates: seq<Bytes>)
      requires Valid()
      modifies this
      ensures Valid() && room == Record(old(room), updates)
    {
      var recorded := BufferReal(updates);
      if !recorded { return; }
      Mark(TailDirty, Flag(true), BackupDirty, Flag(true), PostReset, Flag(false));
    }

    /** Import a batch; the document rejects the update at `accepted`, if there is one. */
    method ApplyUpdates(updates: seq<Bytes>, accepted: nat) returns (ok: bool)
      requires Valid() && accepted <= |updates|
      modifies this
      ensures Valid() && room == Deliver(old(room), updates, accepted, dec) && ok == (accepted == |updates|)
    {
      EnsureDoc();
      Import(updates[..accepted], accepted < |updates|);
      if accepted < |updates| { return false; }
      RecordLoroUpdates(updates);
      ok := true;
    }

    method Import(updates: seq<Bytes>, ghost rejects: bool)
      requires Valid() && doc.Some?
      modifies `doc, `room
      ensures Valid() && doc.Some?
      ensures room == Absorb(old(room), updates, rejects, dec)
    {
      assert doc.value + {} == doc.value;
      for i := 0 to |updates|
        invariant doc == Some(old(doc).value + OpsOf(NonEmpty(updates[..i]), dec)) && room == old(room)
      {
        NonEmptySnoc(updates, i, dec);
        if |updates[i]| > 0 {
          assert doc.value + dec(updates[i]) == old(doc).value + (OpsOf(NonEmpty(updates[..i]), dec) + dec(updates[i]));
          doc := Some(doc.value + dec(updates[i]));
        }
      }
      assert updates[..|updates|] == updates;
      room := Absorb(room, updates, rejects, dec);
    }

    // ----- flush, fold, alarm -----

    method InsertRow()
      requires Valid()
      modifies `rows, `logBytesCached, `pending, `pendingBytes, `room
      ensures Valid() && room == WithRow(old(room))
    {
      var combined := Codec.CombinePendingUpdates(pending);
      rows := rows + [combined];
      logBytesCached := logBytesCached + pendingBytes;
      pending := [];
      pendingBytes := 0;
      room := WithRow(room);
    }

    method Flush()
      requires Valid()
      modifies this
      ensures Valid() && room == Spec.Flush(old(room), dec)
    {
      FlushMeta();
      if |pending| == 0 { return; }
      InsertRow();
      SetMeta(UpdateBytes, Num(logBytesCached));
      FlushMeta();
      FoldIfOver();
    }

    /** The document becomes the snapshot and the log goes. */
    method StoreSnapshot()
      requires Valid() && doc.Some?
      modifies `snapshot, `rows, `logBytesCached, `room
      ensures Valid() && room == Folded(old(room))
    {
      snapshot := doc;
      rows := [];
      logBytesCached := 0;
      room := Folded(room);
    }

    method FoldIfOver()
      requires Valid()
      modifies this
      ensures Valid()
      ensures room == if OverBudget(old(room)) then Spec.FoldLog(old(room), dec) else old(room)
    {
      if logBytesCached > COMPACT_LOG_BYTES {
        FoldLog();
        return;
      }
      var n := |rows|;
      if n > COMPACT_LOG_ROWS { FoldLog(); }
    }

    method FoldLog()
      requires Valid()
      modifies this
      ensures Valid() && room == Spec.FoldLog(old(room), dec)
    {
      EnsureDoc();
      StoreSnapshot();
      SetMeta(UpdateBytes, Num(0));
      FlushMeta();
      room := room.(extra := {});
    }

    method Checkpoint(trim: bool)
      requires Valid() && doc.Some?
      modifies this
      ensures Valid() && metaLoaded && room == Stamped(old(room), trim)
    {
      if trim {
        StoreSnapshot();
        SetMeta(UpdateBytes, Num(0));
        room := room.(extra := {});
      }
      var stamp := GetNumber(Checkpoints);
      SetMeta(Checkpoints, Num(stamp + 1));
    }

    method MarkBackedUp()
      requires Valid() && doc.Some?
      modifies `metaLoaded, `metaCache, `metaDirty, `metaDirtyKeys, `room
      ensures Valid() && room == Spec.MarkBackedUp(old(room))
    {
      SetMeta(BackupVV, Version(doc.value));
      SetMeta(BackupDirty, Flag(false));
    }

    /** The two gates of the nightly backup: the pause after a drop, and version inclusion. */
    method Advances() returns (put: bool)
      requires Valid() && doc.Some?
      modifies `metaLoaded, `metaCache, `room
      ensures Valid() && room == Load(old(room)) && put == MayPut(old(room))
    {
      var chat := GetMeta(ChatId);
      var paused := GetMeta(PostReset);
      var last := GetMeta(BackupVV);
      if chat.None? || paused == Some(Flag(true)) { return false; }
      if last.Some? && last.value.Version? {
        put := Includes(doc.value, last.value.ops);
      } else {
        put := true;
      }
    }

    method BackUpIfAdvancing()
      requires Valid() && doc.Some? && metaLoaded
      modifies this
      ensures Valid() && room == if MayPut(old(room)) then Spec.MarkBackedUp(BackUp(old(room))) else old(room)
    {
      var put := Advances();
      if put {
        PutBackup();
        MarkBackedUp();
      }
    }

    method CheckpointAndBackUp(trim: bool)
      requires Valid()
      modifies this
      ensures Valid() && room == AlarmBody(old(room), trim, dec)
    {
      EnsureDoc();
      Checkpoint(trim);
      BackUpIfAdvancing();
      FlushMeta();
    }

    method Alarm(trim: bool)
      requires Valid()
      modifies this
      ensures Valid() && Load(room) == Load(Spec.Alarm(old(room), trim, dec))
    {
      Flush();
      ghost var flushed := room;
      var backupDirty := GetMeta(BackupDirty);
      if backupDirty != Some(Flag(true)) { return; }
      LoadedAlarm(flushed, trim, dec);
      CheckpointAndBackUp(trim);
    }

    // ----- the rest of the surface -----

    method ResetLog()
      requires Valid()
      modifies this
      ensures Valid() && room == Spec.ResetLog(old(room))
    {
      DropLog();
      doc := None;
      room := room.(doc := None, extra := {});
      FlushMeta();
    }

    method HandleJoin(roomId: string)
      requires Valid()
      modifies this
      ensures Valid() && room == Join(old(room), roomId, dec)
    {
      var chat := GetMeta(ChatId);
      if chat.None? && roomId != "" { SetMeta(ChatId, Name(roomId)); }
      EnsureDoc();
    }

    method PutBackup()
      requires Valid() && doc.Some?
      modifies `backup, `room
      ensures Valid() && room == BackUp(old(room))
    {
      backup := doc;
      room := BackUp(room);
    }
  }

  /** Reading before writing changes nothing. */
  lemma LoadedFirst(r: Room, k: MetaKey, v: MetaValue)
    ensures Put(Load(r), k, v) == Put(r, k, v)
  {
  }

  lemma LoadedAttempt(r: Room)
    ensures BeginReplay(Load(r)) == BeginReplay(r)
  {
    LoadedUnwedged(r);
    SameAttempt(r, Load(r), Unwedged(r));
  }

  lemma LoadedUnwedged(r: Room)
    ensures Unwedged(Load(r)) == Unwedged(r) && GetNum(Load(r), ReplayAttempts) == GetNum(r, ReplayAttempts)
  {
    assert Load(Load(r)) == Load(r) && MetaOf(Load(r)) == MetaOf(r);
  }

  lemma SameAttempt(r: Room, l: Room, u: Room)
    requires Unwedged(r) == u && Unwedged(l) == u && GetNum(l, ReplayAttempts) == GetNum(r, ReplayAttempts)
    ensures BeginReplay(l) == BeginReplay(r)
  {
  }

  lemma LoadedStart(r: Room, dec: Decode)
    ensures EnsureDoc(Load(r), dec) == if r.doc.Some? then Load(r) else EnsureDoc(r, dec)
  {
    LoadedAttempt(r);
    var b := BeginReplay(r);
    assert r.doc.None? ==> EnsureDoc(Load(r), dec) == EndReplay(b, dec);
  }

  lemma LoadedStamp(r: Room, trim: bool)
    requires r.doc.Some?
    ensures Stamped(Load(r), trim) == Stamped(r, trim)
  {
    LoadedFirst(r, Checkpoints, Num(GetNum(r, Checkpoints) + 1));
    LoadedFirst(Folded(r), UpdateBytes, Num(0));
    assert Folded(Load(r)) == Load(Folded(r));
  }

  lemma LoadedAlarm(r: Room, trim: bool, dec: Decode)
    ensures AlarmBody(Load(r), trim, dec) == AlarmBody(r, trim, dec)
  {
    LoadedStart(r, dec);
    if r.doc.Some? { LoadedStamp(r, trim); }
  }

  lemma PutLoaded(r: Room, k: MetaKey, v: MetaValue)
    requires Get(r, k) != Some(v)
    ensures Load(r).(cache := Some(MetaOf(r)[k := v]), dirty := r.dirty + {k}) == Put(r, k, v)
  {
  }

  lemma NonEmptySnoc(updates: seq<Bytes>, i: nat, dec: Decode)
    requires i < |updates|
    ensures var a, b, u := NonEmpty(updates[..i]), NonEmpty(updates[..i + 1]), updates[i];
      if u == [] then b == a
      else b == a + [u] && Payload(b) == Payload(a) + |u| && OpsOf(b, dec) == OpsOf(a, dec) + dec(u)
  {
    var a, u := NonEmpty(updates[..i]), updates[i];
    assert updates[..i + 1][..i] == updates[..i] && updates[..i + 1][i] == u;
    assert a + [] == a;
    PayloadSnoc(a, u);
    OpsOfConcat(a, [u], dec);
    OpsOfOne(u, dec);
  }

  lemma OpsOfOne(u: Bytes, dec: Decode)
    ensures OpsOf([u], dec) == dec(u)
  {
    assert OpsOf([u][1..], dec) == {};
  }
}
