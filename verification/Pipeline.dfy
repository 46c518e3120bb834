/** From agent events to a viewer's screen: the fold, the segment writer, remote merges, the
    continuation join and the delta frames, run together under any schedule over any number of
    turns. */
module Pipeline {
  import opened Common
  import opened Parts
  import opened Schema
  import opened Continuations
  import opened TranscriptDelta
  import opened DeltaRoundTrip
  import opened DeltaTheorems
  import opened Evolution

  /** The entry a turn will be written to. */
  datatype Turn = Turn(id: string, deviceId: string, createdAt: int)

  /** `messages` is the document's list; the writer, once begun, follows the index `live`.
      `published` is what the sender last read from the document, unjoined, and `viewer` the copy
      at the other end of the stream. */
  datatype World = World(
    acc: seq<MessagePart>,
    turn: Turn,
    live: Option<nat>,
    messages: seq<DocEntry>,
    written: seq<MessagePart>,
    inserted: nat,
    published: seq<Entry>,
    viewer: seq<Entry>)

  /** `Steer` ends a turn at a steer boundary and `Finish` at the end of a run, which also closes
      its questions; both name the entry of the turn after. */
  datatype Action =
    | OnEvent(event: Event)
    | Tick
    | Steer(next: Turn)
    | Finish(error: Option<Bytes>, status: Status, next: Turn)
    | Merge(position: nat, entry: DocEntry)
    | Publish
    | Resubscribe

  datatype Failure = WriteFailed(reason: WriteError) | Desynced(cause: Desync)

  predicate Fresh(w: World, id: string) {
    id != w.turn.id && forall m :: m in w.messages ==> m.id != id
  }

  /** What the environment may do: events that end a turn come as such, ids are fresh, and entries
      are merged behind a live one. */
  predicate Enabled(w: World, a: Action) {
    match a
    case OnEvent(event) => !event.Steered? && !event.Done?
    case Steer(next) => Fresh(w, next.id)
    case Finish(_, _, next) => Fresh(w, next.id)
    case Merge(position, entry) =>
      position <= |w.messages| && (w.live.Some? ==> w.live.value < position) && Fresh(w, entry.id)
    case _ => true
  }

  // ----- the steps -----

  function LiveOf(turn: Turn): DocEntry { LiveEntry(turn.id, turn.deviceId, turn.createdAt) }

  /** The writer begins when there is something to write. */
  function Begun(w: World): World {
    if w.live.Some? then w
    else w.(messages := w.messages + [LiveOf(w.turn)], live := Some(|w.messages|), written := [], inserted := 0)
  }

  function WriteLive(w: World, parts: seq<MessagePart>, status: Option<Status>): Result<World, Failure>
    requires w.live.Some?
  {
    var at := w.live.value;
    if at >= |w.messages| then Err(WriteFailed(EntryMissing))
    else
      var entry := w.messages[at];
      match SyncSegment(Segment(entry.parts, w.written, w.inserted), parts)
      case Err(e) => Err(WriteFailed(e))
      case Ok(s) =>
        var stamped := entry.(parts := s.parts, status := if status.Some? then status else entry.status);
        Ok(w.(messages := w.messages[at := stamped], written := s.written, inserted := s.inserted))
  }

  /** A turn that said nothing writes nothing. */
  function Write(w: World, status: Option<Status>): Result<World, Failure> {
    if w.live.None? && w.acc == [] then Ok(w) else WriteLive(Begun(w), RenderParts(w.acc), status)
  }

  function End(w: World, status: Status, next: Turn): Result<World, Failure> {
    match Write(w, Some(status))
    case Err(e) => Err(e)
    case Ok(r) => Ok(r.(acc := [], turn := next, live := None, written := [], inserted := 0))
  }

  /** A repeated session start does not wipe the turn. */
  function Heard(acc: seq<MessagePart>, event: Event): seq<MessagePart> {
    if event.SessionStarted? then acc else Fold(acc, event)
  }

  function Closed(acc: seq<MessagePart>, error: Option<Bytes>): seq<MessagePart> {
    CloseInputs(Fold(acc, Event.Done(error)))
  }

  /** One step; an action the environment may not take changes nothing. */
  function Step(w: World, a: Action): Result<World, Failure> {
    if !Enabled(w, a) then Ok(w)
    else
      match a
      case OnEvent(event) => Ok(w.(acc := Heard(w.acc, event)))
      case Tick => Write(w, None)
      case Steer(next) => End(w, Complete, next)
      case Finish(error, status, next) => End(w.(acc := Closed(w.acc, error)), status, next)
      case Merge(position, entry) =>
        Ok(w.(messages := w.messages[..position] + [entry] + w.messages[position..]))
      case Publish =>
        var next := ReadEntries(w.messages);
        (match Apply(w.viewer, Diff(Join(w.published), Join(next)))
         case Err(e) => Err(Desynced(e))
         case Ok(v) => Ok(w.(published := next, viewer := v)))
      case Resubscribe =>
        var next := ReadEntries(w.messages);
        Ok(w.(published := next, viewer := Join(next)))
  }

  function Run(w: World, actions: seq<Action>): Result<World, Failure> {
    if actions == [] then Ok(w)
    else
      var r := Run(w, actions[..|actions| - 1]);
      if r.Err? then r else Step(r.value, actions[|actions| - 1])
  }

  /** Before the first turn, with a viewer that has received the initial reset. */
  ghost predicate Initial(w: World) {
    && w.acc == [] && w.live.None? && w.written == [] && w.inserted == 0
    && Unique(ReadEntries(w.messages)) && (forall m :: m in w.messages ==> m.id != w.turn.id)
    && w.published == ReadEntries(w.messages)
    && w.viewer == Join(w.published)
  }

  // ----- the invariant of every reachable world -----

  /** The writer's entry is the turn's, holds what was written, and only has to grow. */
  ghost predicate Writing(w: World) {
    && w.live.Some? && w.live.value < |w.messages| && w.acc != []
    && w.messages[w.live.value] == LiveOf(w.turn).(parts := ToDocParts(w.written))
    && w.inserted == TextTotal(w.written)
    && WellFolded(w.written) && Grows(w.written, RenderParts(w.acc))
  }

  ghost predicate NotBegun(w: World) {
    w.live.None? && w.written == [] && w.inserted == 0 && forall m :: m in w.messages ==> m.id != w.turn.id
  }

  ghost predicate Inv(w: World) {
    && (if w.live.Some? then Writing(w) else NotBegun(w))
    && WellFolded(w.acc)
    && Unique(ReadEntries(w.messages))
    && w.viewer == Join(w.published)
    && Evolved(w.published, ReadEntries(w.messages))
  }

  lemma InitialInv(w: World)
    requires Initial(w)
    ensures Inv(w)
  {
    EvolvedSelf(ReadEntries(w.messages));
  }

  lemma WrittenIsNamed(parts: seq<MessagePart>)
    requires WellFolded(parts)
    ensures TextNamed(FromDocParts(ToDocParts(parts)))
  {
  }

  lemma AbsentFromRead(messages: seq<DocEntry>, id: string)
    requires forall m :: m in messages ==> m.id != id
    ensures !Has(ReadEntries(messages), id)
  {
    forall k | 0 <= k < |messages| ensures ReadEntries(messages)[k].id != id {
      assert messages[k] in messages;
    }
  }

  /** Merging or pushing an entry with a new id. */
  lemma InsertKeeps(published: seq<Entry>, messages: seq<DocEntry>, p: nat, entry: DocEntry)
    requires p <= |messages| && Unique(ReadEntries(messages)) && Evolved(published, ReadEntries(messages))
    requires forall m :: m in messages ==> m.id != entry.id
    ensures var next := messages[..p] + [entry] + messages[p..];
      Unique(ReadEntries(next)) && Evolved(published, ReadEntries(next))
  {
    var b, e := ReadEntries(messages), ReadEntry(entry);
    assert ReadEntries(messages[..p] + [entry] + messages[p..]) == b[..p] + [e] + b[p..];
    AbsentFromRead(messages, entry.id);
    InsertUnique(b, p, e);
    EvolvedMerge(published, b, p, e);
  }

  lemma BegunKeeps(w: World)
    requires Inv(w) && w.acc != []
    ensures Inv(Begun(w)) && Begun(w).live.Some?
    ensures Begun(w) == w.(messages := Begun(w).messages, live := Begun(w).live)
  {
    if w.live.None? {
      var p := |w.messages|;
      assert w.messages[..p] + [LiveOf(w.turn)] + w.messages[p..] == w.messages + [LiveOf(w.turn)];
      InsertKeeps(w.published, w.messages, p, LiveOf(w.turn));
      assert ToDocParts([]) == [];
    }
  }

  /** The document after the parts of the turn were written directly. */
  function Direct(w: World, parts: seq<MessagePart>, status: Option<Status>): seq<DocEntry>
    requires w.live.Some? && w.live.value < |w.messages|
  {
    var entry := w.messages[w.live.value];
    w.messages[w.live.value :=
      entry.(parts := ToDocParts(parts), status := if status.Some? then status else entry.status)]
  }

  lemma WriteLiveFacts(w: World, status: Option<Status>)
    requires Writing(w)
    ensures var parts := RenderParts(w.acc);
      WriteLive(w, parts, status) ==
        Ok(w.(messages := Direct(w, parts, status), written := parts, inserted := TextTotal(parts)))
  {
    SyncIsDirectWrite(Segment(ToDocParts(w.written), w.written, w.inserted), RenderParts(w.acc));
  }

  lemma DirectKeeps(w: World, status: Option<Status>)
    requires Inv(w) && Writing(w)
    ensures var next := ReadEntries(Direct(w, RenderParts(w.acc), status));
      Unique(next) && Evolved(w.published, next)
  {
    var b, parts, at := ReadEntries(w.messages), RenderParts(w.acc), w.live.value;
    var f := ReadEntry(Direct(w, parts, status)[at]);
    assert ReadEntries(Direct(w, parts, status)) == b[at := f];
    WrittenIsNamed(w.written);
    EvolvedWrite(w.published, b, at, f);
  }

  /** A write never fails. Until it is stamped the entry goes on as the turn's. */
  lemma WriteKeepsInv(w: World)
    requires Inv(w)
    ensures Write(w, None).Ok? && Inv(Write(w, None).value)
  {
    if w.acc != [] {
      BegunKeeps(w);
      WriteLiveFacts(Begun(w), None);
      DirectKeeps(Begun(w), None);
      RenderKeeps(w.acc, w.acc);
      var parts := RenderParts(w.acc);
      assert forall i :: 0 <= i < |parts| ==> PartGrows(parts[i], parts[i]);
    }
  }

  /** The document once the turn is written, whether its entry was begun before or not. */
  function Caught(w: World, status: Option<Status>): seq<DocEntry>
    requires w.live.Some? ==> w.live.value < |w.messages|
  {
    if w.live.None? && w.acc == [] then w.messages else Direct(Begun(w), RenderParts(w.acc), status)
  }

  lemma WriteFacts(w: World, status: Option<Status>)
    requires Inv(w)
    ensures Write(w, status).Ok?
    ensures Write(w, status).value.messages == Caught(w, status)
    ensures Write(w, status).value.inserted == TextTotal(RenderParts(w.acc))
    ensures Write(w, status).value == w.(messages := Caught(w, status), live := Write(w, status).value.live,
      written := Write(w, status).value.written, inserted := Write(w, status).value.inserted)
  {
    if w.acc != [] {
      BegunKeeps(w);
      WriteLiveFacts(Begun(w), status);
    }
  }

  lemma EndKeepsInv(w: World, status: Status, next: Turn)
    requires Inv(w) && Fresh(w, next.id)
    ensures End(w, status, next).Ok? && Inv(End(w, status, next).value)
    ensures End(w, status, next).value ==
      w.(acc := [], turn := next, live := None, messages := Caught(w, Some(status)), written := [], inserted := 0)
  {
    WriteFacts(w, Some(status));
    if w.acc != [] {
      BegunKeeps(w);
      DirectKeeps(Begun(w), Some(status));
    }
    StampedAvoids(w, status, next.id);
  }

  lemma StampedAvoids(w: World, status: Status, id: string)
    requires Inv(w) && Fresh(w, id)
    ensures forall m :: m in Caught(w, Some(status)) ==> m.id != id
  {
    var b := Begun(w);
    assert forall m :: m in b.messages ==> m in w.messages || m == LiveOf(w.turn);
    if w.live.Some? { assert w.messages[w.live.value] in w.messages; }
    forall m | m in Caught(w, Some(status)) ensures m.id != id {
      var i :| 0 <= i < |Caught(w, Some(status))| && Caught(w, Some(status))[i] == m;
      if w.live.Some? || w.acc != [] {
        assert b.messages[i] in b.messages && m.id == b.messages[i].id;
      }
    }
  }

  lemma HeardKeeps(w: World, acc: seq<MessagePart>)
    requires Inv(w) && WellFolded(acc) && Grows(w.acc, acc)
    ensures Inv(w.(acc := acc))
  {
    RenderKeeps(w.acc, acc);
    if w.live.Some? { GrowsTransitive(w.written, RenderParts(w.acc), RenderParts(acc)); }
  }

  lemma GrowsSelf(parts: seq<MessagePart>)
    ensures Grows(parts, parts)
  {
  }

  lemma EventKeepsInv(w: World, event: Event)
    requires Inv(w) && !event.Steered?
    ensures Inv(w.(acc := Heard(w.acc, event)))
  {
    if event.SessionStarted? {
      GrowsSelf(w.acc);
    } else {
      FoldKeepsWellFolded(w.acc, event);
      FoldGrows(w.acc, event);
    }
    HeardKeeps(w, Heard(w.acc, event));
  }

  lemma ClosedKeepsInv(w: World, error: Option<Bytes>)
    requires Inv(w)
    ensures Inv(w.(acc := Closed(w.acc, error)))
  {
    var folded := Fold(w.acc, Event.Done(error));
    FoldKeepsWellFolded(w.acc, Event.Done(error));
    FoldGrows(w.acc, Event.Done(error));
    CloseInputsGrows(folded);
    GrowsTransitive(w.acc, folded, CloseInputs(folded));
    HeardKeeps(w, Closed(w.acc, error));
  }

  lemma MergeKeepsInv(w: World, position: nat, entry: DocEntry)
    requires Inv(w) && Enabled(w, Merge(position, entry))
    ensures Inv(Step(w, Merge(position, entry)).value)
  {
    InsertKeeps(w.published, w.messages, position, entry);
    var next := w.messages[..position] + [entry] + w.messages[position..];
    assert forall m :: m in next ==> m in w.messages || m == entry;
    if w.live.Some? { assert next[w.live.value] == w.messages[w.live.value]; }
  }

  lemma StepKeepsInv(w: World, a: Action)
    requires Inv(w)
    ensures Step(w, a).Ok? && Inv(Step(w, a).value)
    ensures a.Publish? || a.Resubscribe? ==>
      Step(w, a).value == w.(published := ReadEntries(w.messages), viewer := Join(ReadEntries(w.messages)))
  {
    if Enabled(w, a) {
      match a
      case OnEvent(event) => EventKeepsInv(w, event);
      case Tick => WriteKeepsInv(w);
      case Steer(next) => EndKeepsInv(w, Complete, next);
      case Finish(error, status, next) =>
        ClosedKeepsInv(w, error);
        EndKeepsInv(w.(acc := Closed(w.acc, error)), status, next);
      case Merge(position, entry) => MergeKeepsInv(w, position, entry);
      case Publish =>
        FrameDelivers(w.published, ReadEntries(w.messages));
        EvolvedSelf(ReadEntries(w.messages));
      case Resubscribe => EvolvedSelf(ReadEntries(w.messages));
    }
  }

  /** No run of the pipeline fails: no write error, no desync. In every reachable world the viewer
      holds the transcript as last published, and the document holds a direct write of the turn as
      last ticked, each of its text bytes inserted once. */
  lemma {:induction false} RunKeepsInv(w: World, actions: seq<Action>)
    requires Inv(w)
    ensures Run(w, actions).Ok? && Inv(Run(w, actions).value)
  {
    if actions != [] {
      RunKeepsInv(w, actions[..|actions| - 1]);
      StepKeepsInv(Run(w, actions[..|actions| - 1]).value, actions[|actions| - 1]);
    }
  }

  // ----- the story of a run, told without writer, timer or frames -----

  /** The entries of the document but for the current turn's, that turn, and what it heard. */
  datatype Tale = Tale(entries: seq<DocEntry>, turn: Turn, events: seq<Event>)

  /** A turn's entry, written in one go. */
  function TurnEntry(turn: Turn, parts: seq<MessagePart>, status: Status): DocEntry {
    LiveOf(turn).(parts := ToDocParts(RenderParts(parts)), status := Some(status))
  }

  /** A turn that said anything leaves its entry behind. */
  function Ended(t: Tale, parts: seq<MessagePart>, status: Status, next: Turn): Tale {
    Tale(t.entries + if parts == [] then [] else [TurnEntry(t.turn, parts, status)], next, [])
  }

  function Said(t: Tale): seq<MessagePart> { FoldAll([], t.events) }

  function Telling(t: Tale, a: Action): Tale {
    match a
    case OnEvent(event) => if event.SessionStarted? then t else t.(events := t.events + [event])
    case Steer(next) => Ended(t, Said(t), Complete, next)
    case Finish(error, status, next) => Ended(t, CloseInputs(FoldAll([], t.events + [Event.Done(error)])), status, next)
    case Merge(_, entry) => t.(entries := t.entries + [entry])
    case _ => t
  }

  ghost function Told(w: World, actions: seq<Action>): Tale {
    if actions == [] then Tale(w.messages, w.turn, [])
    else
      var before, a := actions[..|actions| - 1], actions[|actions| - 1];
      var r := Run(w, before);
      if r.Ok? && Enabled(r.value, a) then Telling(Told(w, before), a) else Told(w, before)
  }

  /** All entries but the writer's. */
  ghost function Others(w: World): multiset<DocEntry>
    requires w.live.Some? ==> w.live.value < |w.messages|
  {
    if w.live.Some? then multiset(w.messages) - multiset{w.messages[w.live.value]} else multiset(w.messages)
  }

  ghost predicate Tells(w: World, t: Tale) {
    && (w.live.Some? ==> w.live.value < |w.messages|)
    && w.turn == t.turn && w.acc == Said(t) && Others(w) == multiset(t.entries)
  }

  lemma Replaced(s: seq<DocEntry>, i: nat, x: DocEntry)
    requires i < |s|
    ensures multiset(s[i := x]) == multiset(s) - multiset{s[i]} + multiset{x}
    ensures multiset{s[i]} <= multiset(s)
  {
    assert s[i] in multiset(s);
  }

  lemma InsertedOnce(s: seq<DocEntry>, p: nat, x: DocEntry)
    requires p <= |s|
    ensures multiset(s[..p] + [x] + s[p..]) == multiset(s) + multiset{x}
  {
    assert s == s[..p] + s[p..];
  }

  /** What a written turn adds to the others. */
  lemma CaughtAdds(w: World, status: Option<Status>)
    requires Inv(w)
    ensures multiset(Caught(w, status)) == Others(w) +
      if w.acc == [] then multiset{}
      else multiset{TurnEntry(w.turn, w.acc, if status.Some? then status.value else Streaming)}
  {
    if w.acc != [] {
      var b := Begun(w);
      BegunKeeps(w);
      BegunOthers(w);
      var entry := TurnEntry(w.turn, w.acc, if status.Some? then status.value else Streaming);
      assert Direct(b, RenderParts(w.acc), status) == b.messages[b.live.value := entry];
      Replaced(b.messages, b.live.value, entry);
    }
  }

  lemma BegunOthers(w: World)
    requires Inv(w) && w.acc != []
    ensures Begun(w).live.Some? && Begun(w).live.value < |Begun(w).messages| && Others(Begun(w)) == Others(w)
  {
    if w.live.None? {
      assert multiset(w.messages + [LiveOf(w.turn)]) == multiset(w.messages) + multiset{LiveOf(w.turn)};
    }
  }

  lemma TickTells(w: World, t: Tale)
    requires Inv(w) && Tells(w, t)
    ensures Write(w, None).Ok? && Tells(Write(w, None).value, t)
  {
    if w.acc != [] {
      var b := Begun(w);
      BegunKeeps(w);
      BegunOthers(w);
      WriteLiveFacts(b, None);
      WrittenOthers(b, Write(w, None).value, Direct(b, RenderParts(w.acc), None)[b.live.value]);
    }
  }

  /** Writing the live entry leaves the others as they were. */
  lemma WrittenOthers(b: World, n: World, x: DocEntry)
    requires b.live.Some? && b.live.value < |b.messages|
    requires n.live == b.live && n.messages == b.messages[b.live.value := x]
    ensures Others(n) == Others(b)
  {
    Replaced(b.messages, b.live.value, x);
  }

  lemma EndTells(w: World, t: Tale, status: Status, next: Turn)
    requires Inv(w) && Fresh(w, next.id) && w.turn == t.turn && Others(w) == multiset(t.entries)
    ensures End(w, status, next).Ok? && Tells(End(w, status, next).value, Ended(t, w.acc, status, next))
  {
    EndKeepsInv(w, status, next);
    CaughtAdds(w, Some(status));
    var more := if w.acc == [] then [] else [TurnEntry(t.turn, w.acc, status)];
    assert multiset(t.entries + more) == multiset(t.entries) + multiset(more);
  }

  lemma MergeTells(w: World, t: Tale, position: nat, entry: DocEntry)
    requires Inv(w) && Tells(w, t) && Enabled(w, Merge(position, entry))
    ensures Tells(Step(w, Merge(position, entry)).value, t.(entries := t.entries + [entry]))
  {
    InsertedOnce(w.messages, position, entry);
    assert multiset(t.entries + [entry]) == multiset(t.entries) + multiset{entry};
    if w.live.Some? { assert w.messages[w.live.value] in multiset(w.messages); }
  }

  lemma HeardTells(w: World, t: Tale, event: Event)
    requires Tells(w, t) && !event.Steered?
    ensures Tells(w.(acc := Heard(w.acc, event)), Telling(t, OnEvent(event)))
  {
    FoldAllSnoc([], t.events, event);
  }

  lemma StepTells(w: World, t: Tale, a: Action)
    requires Inv(w) && Tells(w, t) && Enabled(w, a)
    ensures Step(w, a).Ok? && Tells(Step(w, a).value, Telling(t, a))
  {
    match a
    case OnEvent(event) => HeardTells(w, t, event);
    case Tick => TickTells(w, t);
    case Steer(next) => EndTells(w, t, Complete, next);
    case Finish(error, status, next) =>
      ClosedKeepsInv(w, error);
      FoldAllSnoc([], t.events, Event.Done(error));
      EndTells(w.(acc := Closed(w.acc, error)), t, status, next);
    case Merge(position, entry) => MergeTells(w, t, position, entry);
    case Publish => StepKeepsInv(w, a);
    case Resubscribe =>
  }

  lemma {:induction false} RunTells(w: World, actions: seq<Action>)
    requires Initial(w)
    ensures Run(w, actions).Ok? && Inv(Run(w, actions).value) && Tells(Run(w, actions).value, Told(w, actions))
  {
    InitialInv(w);
    RunKeepsInv(w, actions);
    if actions != [] {
      var before, a := actions[..|actions| - 1], actions[|actions| - 1];
      RunTells(w, before);
      var r := Run(w, before).value;
      if Enabled(r, a) { StepTells(r, Told(w, before), a); }
    }
  }

  // ----- end to end -----

  lemma RunSnoc(w: World, actions: seq<Action>, a: Action)
    requires Run(w, actions).Ok?
    ensures Run(w, actions + [a]) == Step(Run(w, actions).value, a)
  {
    assert (actions + [a])[..|actions|] == actions;
  }

  lemma RunSnocTwo(w: World, actions: seq<Action>, a: Action, b: Action)
    requires Run(w, actions).Ok? && Step(Run(w, actions).value, a).Ok?
    ensures Run(w, actions + [a, b]) == Step(Step(Run(w, actions).value, a).value, b)
  {
    RunSnoc(w, actions, a);
    RunSnoc(w, actions + [a], b);
    assert actions + [a, b] == actions + [a] + [b];
  }

  /** MAIN RESULT. Whatever the schedule of events, ticks, turns, merges, frames and
      resubscriptions: after a tick and a frame the viewer holds the joined transcript of the
      document, and the document holds what was there, what was merged, one entry for every turn
      that said anything, and the current turn's, each as if all its events were folded and written
      in one go. */
  lemma EndToEnd(w: World, actions: seq<Action>)
    requires Initial(w)
    ensures Run(w, actions).Ok? && Inv(Run(w, actions).value)
    ensures Run(w, actions + [Tick, Publish]).Ok?
    ensures var before, after, t := Run(w, actions).value, Run(w, actions + [Tick, Publish]).value, Told(w, actions);
      && after.viewer == Join(ReadEntries(after.messages)) && after.messages == Caught(before, None)
      && multiset(after.messages) == multiset(t.entries) +
           (if Said(t) == [] then multiset{} else multiset{TurnEntry(t.turn, Said(t), Streaming)})
      && after.inserted == TextTotal(RenderParts(Said(t)))
  {
    RunTells(w, actions);
    var before := Run(w, actions).value;
    WriteFacts(before, None);
    CaughtAdds(before, None);
    WriteKeepsInv(before);
    StepKeepsInv(Write(before, None).value, Publish);
    RunSnocTwo(w, actions, Tick, Publish);
  }

  /** The same when the turn ends instead: its entry joins the others with its status, questions
      closed if the run is over. */
  lemma EndToEndFinished(w: World, actions: seq<Action>, a: Action)
    requires Initial(w) && (a.Steer? || a.Finish?) && Run(w, actions).Ok? && Enabled(Run(w, actions).value, a)
    ensures Run(w, actions + [a, Publish]).Ok?
    ensures var after, t := Run(w, actions + [a, Publish]).value, Telling(Told(w, actions), a);
      && after.viewer == Join(ReadEntries(after.messages))
      && multiset(after.messages) == multiset(t.entries) && after.live.None?
  {
    RunTells(w, actions);
    var before := Run(w, actions).value;
    StepKeepsInv(before, a);
    StepTells(before, Told(w, actions), a);
    EndsBegun(before, a);
    StepKeepsInv(Step(before, a).value, Publish);
    RunSnocTwo(w, actions, a, Publish);
  }

  lemma EndsBegun(w: World, a: Action)
    requires Inv(w) && (a.Steer? || a.Finish?) && Enabled(w, a)
    ensures Step(w, a).Ok? ==> Step(w, a).value.live.None?
  {
  }

  // ----- merges in front of the live entry -----

  /** The world after a merge anywhere in the list; the writer keeps its captured index. */
  function Merged(w: World, p: nat, entry: DocEntry): World
    requires p <= |w.messages|
  {
    w.(messages := w.messages[..p] + [entry] + w.messages[p..])
  }

  /** Where the live entry stands after it. */
  function LiveAt(w: World, p: nat): nat
    requires w.live.Some?
  {
    if p <= w.live.value then w.live.value + 1 else w.live.value
  }

  lemma ToDocPartsInjective(a: seq<MessagePart>, b: seq<MessagePart>)
    requires WellFolded(a) && WellFolded(b) && ToDocParts(a) == ToDocParts(b)
    ensures a == b
  {
    assert |a| == |ToDocParts(a)| == |ToDocParts(b)| == |b|;
    forall i | 0 <= i < |a| ensures a[i] == b[i] {
      assert ToDocParts(a)[i] == ToDocParts(b)[i];
      assert ToDocPart(a[i]) == ToDocPart(b[i]);
    }
  }

  lemma {:induction false} NothingToSync(s: Segment, n: nat)
    requires n <= |s.written|
    ensures SyncUpTo(s, s.written, n) == Ok(s)
  {
    if n > 0 { NothingToSync(s, n - 1); }
  }

  /** A write that follows the captured index leaves every other entry as it was. */
  lemma WriteElsewhere(w: World, parts: seq<MessagePart>, k: nat)
    requires w.live.Some? && k < |w.messages| && k != w.live.value
    ensures var r := WriteLive(w, parts, None);
      && (r.Ok? ==> |r.value.messages| == |w.messages| && r.value.messages[k] == w.messages[k])
      && (w.live.value < |w.messages| && parts == w.written ==> r.Ok?)
  {
    if w.live.value < |w.messages| && parts == w.written {
      NothingToSync(Segment(w.messages[w.live.value].parts, w.written, w.inserted), |parts|);
    }
  }

  /** The captured index is right exactly for merges behind the live entry: after a merge at
      position p the tick brings the live entry up to date if and only if it stayed where it was
      or had nothing new. Otherwise the tick fails, or writes to its neighbour instead. */
  lemma TickAfterMerge(w: World, p: nat, entry: DocEntry)
    requires Inv(w) && w.live.Some? && p <= |w.messages|
    ensures var r, at, parts := Step(Merged(w, p, entry), Tick), LiveAt(w, p), RenderParts(w.acc);
      && (r.Ok? ==> at < |r.value.messages| && r.value.messages[at].id == w.turn.id)
      && (r.Ok? && r.value.messages[at].parts == ToDocParts(parts) <==> w.live.value < p || parts == w.written)
      && (r.Ok? && p <= w.live.value ==> r.value.messages[at] == w.messages[w.live.value])
  {
    var v, at, parts := Merged(w, p, entry), LiveAt(w, p), RenderParts(w.acc);
    RenderKeeps(w.acc, w.acc);
    assert v.messages[at] == w.messages[w.live.value];
    if w.live.value < p {
      SyncIsDirectWrite(Segment(v.messages[at].parts, w.written, w.inserted), parts);
    } else {
      WriteElsewhere(v, parts, at);
      if ToDocParts(parts) == ToDocParts(w.written) { ToDocPartsInjective(parts, w.written); }
    }
  }

  // ----- what nobody else may see -----

  predicate PrivateEntry(m: DocEntry) {
    forall d :: d in m.parts && d.call.Some? ==> PrivateCall(d.call.value)
  }

  /** An entry that came from elsewhere: there at the start, or merged in. */
  ghost predicate Given(w: World, actions: seq<Action>, m: DocEntry) {
    m in w.messages || exists k :: 0 <= k < |actions| && actions[k].Merge? && actions[k].entry == m
  }

  lemma WrittenIsPrivate(entry: DocEntry, parts: seq<MessagePart>)
    requires entry.parts == ToDocParts(RenderParts(parts))
    ensures PrivateEntry(entry)
  {
    RenderedParts(parts);
    forall d | d in entry.parts && d.call.Some? ensures PrivateCall(d.call.value) {
      var i :| 0 <= i < |entry.parts| && entry.parts[i] == d;
      assert d == ToDocPart(RenderParts(parts)[i]);
    }
  }

  lemma CaughtIsPrivate(w: World, status: Option<Status>, m: DocEntry)
    requires Inv(w) && m in Caught(w, status)
    ensures m in w.messages || PrivateEntry(m)
  {
    if w.live.Some? || w.acc != [] {
      var b := Begun(w);
      assert forall x :: x in b.messages ==> x in w.messages || x == LiveOf(w.turn);
      var i :| 0 <= i < |Caught(w, status)| && Caught(w, status)[i] == m;
      if i == b.live.value { WrittenIsPrivate(m, w.acc); } else { assert b.messages[i] == m && b.messages[i] in b.messages; }
    }
  }

  lemma StepIsPrivate(w: World, a: Action, m: DocEntry)
    requires Inv(w) && Step(w, a).Ok? && m in Step(w, a).value.messages
    ensures m in w.messages || PrivateEntry(m) || (a.Merge? && a.entry == m)
  {
    if Enabled(w, a) {
      match a
      case Tick =>
        WriteFacts(w, None);
        CaughtIsPrivate(w, None, m);
      case Steer(next) =>
        EndKeepsInv(w, Complete, next);
        CaughtIsPrivate(w, Some(Complete), m);
      case Finish(error, status, next) =>
        var closed := w.(acc := Closed(w.acc, error));
        ClosedKeepsInv(w, error);
        EndKeepsInv(closed, status, next);
        CaughtIsPrivate(closed, Some(status), m);
      case _ =>
    }
  }

  /** In every reachable world, whatever this pipeline itself wrote into the shared document is free
      of file contents, replaced text, prompts and tool inputs. */
  lemma {:induction false} DocumentIsPrivate(w: World, actions: seq<Action>, m: DocEntry)
    requires Initial(w)
    ensures Run(w, actions).Ok?
    ensures m in Run(w, actions).value.messages ==> Given(w, actions, m) || PrivateEntry(m)
  {
    InitialInv(w);
    RunKeepsInv(w, actions);
    if actions != [] && m in Run(w, actions).value.messages {
      var n := |actions| - 1;
      RunKeepsInv(w, actions[..n]);
      DocumentIsPrivate(w, actions[..n], m);
      StepIsPrivate(Run(w, actions[..n]).value, actions[n], m);
      if a :| 0 <= a < n && actions[..n][a].Merge? && actions[..n][a].entry == m { assert actions[a].entry == m; }
    }
  }

  // ----- what stands where -----

  /** A turn reads back as an assistant message of its own, under its id, with its rendered parts. */
  lemma TurnEntryReads(turn: Turn, parts: seq<MessagePart>, status: Status)
    requires WellFolded(parts)
    ensures ReadEntry(TurnEntry(turn, parts, status)) ==
      Entry(turn.id, Assistant, RenderedRead(parts), turn.createdAt, turn.deviceId, Some(status), None)
    ensures |RenderedRead(parts)| == |parts|
  {
  }

  /** The parts of a turn as a reader sees them. */
  function RenderedRead(parts: seq<MessagePart>): seq<MessagePart> { FromDocParts(ToDocParts(RenderParts(parts))) }

  /** A reader sees a turn as it was folded: only a call is rewritten, and a question goes by the
      name of its request. */
  lemma WellFoldedReads(parts: seq<MessagePart>, i: nat)
    requires WellFolded(parts) && i < |parts|
    ensures var (p, q) := (parts[i], RenderedRead(parts)[i]);
      match p
      case Text(_, _) => q == p
      case Tool(id, call, isError, resolved) =>
        q.Tool? && SamePublic(call, q.call) && PrivateCall(q.call) && q == Tool(id, q.call, isError, resolved)
      case Input(_, requestId, questions, resolved) => q == Input(requestId, requestId, questions, resolved)
      case Error(_, _) => q == p
  {
    RenderedParts(parts);
    ReadBackExactly(RenderParts(parts)[i]);
  }

  /** Every entry keeps its place under every step but a merge, and only the live one changes; a
      turn that begins to write does so behind all others. */
  ghost predicate PlacesKept(w: World, n: World) {
    && |w.messages| <= |n.messages| <= |w.messages| + 1
    && (forall i :: 0 <= i < |w.messages| ==>
          n.messages[i].id == w.messages[i].id && (w.live != Some(i) ==> n.messages[i] == w.messages[i]))
    && (|n.messages| > |w.messages| ==> w.live.None? && n.messages[|w.messages|].id == w.turn.id)
  }

  lemma CaughtKeepsPlaces(w: World, status: Option<Status>)
    requires Inv(w)
    ensures PlacesKept(w, w.(messages := Caught(w, status)))
  {
  }

  lemma StepKeepsPlaces(w: World, a: Action)
    requires Inv(w) && !a.Merge?
    ensures Step(w, a).Ok? && PlacesKept(w, Step(w, a).value)
  {
    StepKeepsInv(w, a);
    if Enabled(w, a) {
      match a
      case Tick =>
        WriteFacts(w, None);
        CaughtKeepsPlaces(w, None);
      case Steer(next) =>
        EndKeepsInv(w, Complete, next);
        CaughtKeepsPlaces(w, Some(Complete));
      case Finish(error, status, next) =>
        ClosedKeepsInv(w, error);
        EndKeepsInv(w.(acc := Closed(w.acc, error)), status, next);
        CaughtKeepsPlaces(w.(acc := Closed(w.acc, error)), Some(status));
      case _ =>
    }
  }

  /** A merge puts its entry where it says and moves no other past another. */
  lemma MergePlaces(w: World, position: nat, entry: DocEntry)
    requires Enabled(w, Merge(position, entry))
    ensures var n := Step(w, Merge(position, entry)).value.messages;
      && |n| == |w.messages| + 1 && n[position] == entry
      && (forall i :: 0 <= i < position ==> n[i] == w.messages[i])
      && forall i :: position <= i < |w.messages| ==> n[i + 1] == w.messages[i]
  {
  }
}
