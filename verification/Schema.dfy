/** The session document's message list and the incremental writer of one streaming entry
    (crates/doc/src/schema.rs). A text container is its bytes; appending to it is an insert at
    its end. */
module Schema {
  import opened Common
  import opened Parts

  datatype PartKind = TextKind | ToolKind | InputKind | ErrorKind

  /** One part map of the document. Absent fields are `None`. */
  datatype DocPart = DocPart(
    id: string,
    kind: PartKind,
    text: Option<Bytes>,
    call: Option<ToolCall>,
    isError: Option<bool>,
    questions: Option<seq<Question>>,
    resolved: Option<bool>,
    message: Option<Bytes>)

  datatype DocEntry = DocEntry(
    id: string,
    role: Role,
    createdAt: int,
    deviceId: string,
    status: Option<Status>,
    continuationOf: Option<string>,
    parts: seq<DocPart>)

  /** The presence of `isError` is the resolution marker of a tool part. */
  function ToDocPart(p: MessagePart): DocPart {
    match p
    case Text(id, text) => DocPart(id, TextKind, Some(text), None, None, None, None, None)
    case Tool(id, call, isError, resolved) =>
      DocPart(id, ToolKind, None, Some(call), if resolved then Some(isError) else None, None, None, None)
    case Input(_, requestId, questions, resolved) =>
      DocPart(requestId, InputKind, None, None, None, Some(questions), Some(resolved), None)
    case Error(id, message) => DocPart(id, ErrorKind, None, None, None, None, None, Some(message))
  }

  /** Reading a part map back; one that lacks what its kind needs degrades to empty text. */
  function FromDocPart(d: DocPart): MessagePart {
    match d.kind
    case TextKind => Text(d.id, if d.text.Some? then d.text.value else [])
    case ToolKind =>
      if d.call.None? then Text(d.id, [])
      else Tool(d.id, d.call.value, d.isError.Some? && d.isError.value, d.isError.Some?)
    case InputKind =>
      Input(d.id, d.id, if d.questions.Some? then d.questions.value else [], d.resolved.Some? && d.resolved.value)
    case ErrorKind => Error(d.id, if d.message.Some? then d.message.value else [])
  }

  function ToDocParts(parts: seq<MessagePart>): seq<DocPart> {
    seq(|parts|, i requires 0 <= i < |parts| => ToDocPart(parts[i]))
  }

  function FromDocParts(parts: seq<DocPart>): seq<MessagePart> {
    seq(|parts|, i requires 0 <= i < |parts| => FromDocPart(parts[i]))
  }

  function ReadEntry(e: DocEntry): Entry {
    Entry(e.id, e.role, FromDocParts(e.parts), e.createdAt, e.deviceId, e.status, e.continuationOf)
  }

  function WriteEntry(e: Entry): DocEntry {
    DocEntry(e.id, e.role, e.createdAt, e.deviceId, e.status, e.continuationOf, ToDocParts(e.parts))
  }

  function ReadEntries(es: seq<DocEntry>): seq<Entry> {
    seq(|es|, i requires 0 <= i < |es| => ReadEntry(es[i]))
  }

  /** What survives a write and a read: an input part is renamed after its request, and an
      unresolved tool part loses its error flag. */
  predicate Readable(p: MessagePart) {
    (p.Input? ==> p.id == p.requestId) && (p.Tool? && p.isError ==> p.resolved)
  }

  lemma ReadBackExactly(p: MessagePart)
    ensures FromDocPart(ToDocPart(p)) == p <==> Readable(p)
    ensures Readable(FromDocPart(ToDocPart(p)))
  {
  }

  /** A whole entry reads back as written exactly if each of its parts does. */
  lemma EntryReadsBackExactly(e: Entry)
    ensures ReadEntry(WriteEntry(e)) == e <==> forall p :: p in e.parts ==> Readable(p)
  {
    var r := ReadEntry(WriteEntry(e));
    forall i | 0 <= i < |e.parts| ensures r.parts[i] == e.parts[i] <==> Readable(e.parts[i]) {
      ReadBackExactly(e.parts[i]);
    }
    if r == e {
      forall p | p in e.parts ensures Readable(p) {
        var i :| 0 <= i < |e.parts| && e.parts[i] == p;
        assert r.parts[i] == e.parts[i];
      }
    }
    if forall p :: p in e.parts ==> Readable(p) {
      assert r.parts == e.parts;
    }
  }

  /** Reading keeps every field of an entry and the number and names of its parts. */
  lemma ReadKeepsFields(d: DocEntry)
    ensures var r := ReadEntry(d);
      && r.id == d.id && r.role == d.role && r.createdAt == d.createdAt && r.deviceId == d.deviceId
      && r.status == d.status && r.continuationOf == d.continuationOf
      && |r.parts| == |d.parts| && forall i :: 0 <= i < |d.parts| ==> r.parts[i].id == d.parts[i].id
  {
  }

  // ----- the writer's diff -----

  /** The document's parts of the live entry, the writer's mirror of them, and the number of
      text bytes inserted into the document so far. */
  datatype Segment = Segment(parts: seq<DocPart>, written: seq<MessagePart>, inserted: nat)

  datatype WriteError = EntryMissing | PartMissing(index: nat) | TextMissing(index: nat)

  /** Overwrite the fields the part has; a field it lacks is left as it was. */
  function UpdateFields(d: DocPart, p: MessagePart): DocPart {
    var n := ToDocPart(p);
    d.(call := if n.call.Some? then n.call else d.call,
       isError := if n.isError.Some? then n.isError else d.isError,
       questions := if n.questions.Some? then n.questions else d.questions,
       resolved := if n.resolved.Some? then n.resolved else d.resolved,
       message := if n.message.Some? then n.message else d.message,
       text := if n.text.Some? && d.text.Some? then n.text else d.text)
  }

  function TextSize(p: MessagePart): nat { if p.Text? then |p.text| else 0 }

  function TextTotal(parts: seq<MessagePart>): nat {
    if parts == [] then 0 else TextTotal(parts[..|parts| - 1]) + TextSize(parts[|parts| - 1])
  }

  /** Bring part i of the document up to date with p. A rewritten text counts as inserted
      anew. */
  function SyncPart(s: Segment, i: nat, p: MessagePart): Result<Segment, WriteError> {
    if i >= |s.written| then
      Ok(Segment(s.parts + [ToDocPart(p)], s.written + [p], s.inserted + TextSize(p)))
    else
      var prev := s.written[i];
      if prev == p then Ok(s)
      else if prev.Text? && p.Text? && prev.text <= p.text then
        var delta := p.text[|prev.text|..];
        if delta == [] then Ok(s.(written := s.written[i := p]))
        else if i >= |s.parts| then Err(PartMissing(i))
        else if s.parts[i].text.None? then Err(TextMissing(i))
        else
          var grown := s.parts[i].(text := Some(s.parts[i].text.value + delta));
          Ok(Segment(s.parts[i := grown], s.written[i := p], s.inserted + |delta|))
      else if i >= |s.parts| then Err(PartMissing(i))
      else Ok(Segment(s.parts[i := UpdateFields(s.parts[i], p)], s.written[i := p], s.inserted + TextSize(p)))
  }

  function SyncUpTo(s: Segment, folded: seq<MessagePart>, n: nat): Result<Segment, WriteError>
    requires n <= |folded|
  {
    if n == 0 then Ok(s)
    else
      var r := SyncUpTo(s, folded, n - 1);
      if r.Err? then r else SyncPart(r.value, n - 1, folded[n - 1])
  }

  function SyncSegment(s: Segment, folded: seq<MessagePart>): Result<Segment, WriteError> {
    SyncUpTo(s, folded, |folded|)
  }

  lemma {:induction false} SyncErrorSticks(s: Segment, folded: seq<MessagePart>, n: nat)
    requires n <= |folded| && SyncUpTo(s, folded, n).Err?
    ensures SyncSegment(s, folded) == SyncUpTo(s, folded, n)
    decreases |folded| - n
  {
    if n < |folded| { SyncErrorSticks(s, folded, n + 1); }
  }

  /** The document mirrors what was written, and every text byte in it was inserted once. */
  ghost predicate InStep(s: Segment) {
    s.parts == ToDocParts(s.written) && s.inserted == TextTotal(s.written)
  }

  /** A field update equals a fresh write exactly when it keeps the part's name and kind and
      does not take back a tool's resolution: fields are never deleted. */
  lemma UpdateFieldsExactly(prev: MessagePart, p: MessagePart)
    ensures UpdateFields(ToDocPart(prev), p) == ToDocPart(p) <==> Restorable(prev, p)
  {
  }

  /** Same stored name and kind, and no resolution taken back. */
  predicate Restorable(prev: MessagePart, p: MessagePart) {
    && ToDocPart(prev).id == ToDocPart(p).id
    && ToDocPart(prev).kind == ToDocPart(p).kind
    && (prev.Tool? && p.Tool? && prev.resolved ==> p.resolved)
  }

  lemma {:induction false} TextTotalUpdate(parts: seq<MessagePart>, i: nat, p: MessagePart)
    requires i < |parts|
    ensures TextTotal(parts[i := p]) == TextTotal(parts) - TextSize(parts[i]) + TextSize(p)
  {
    var last := |parts| - 1;
    if i < last {
      TextTotalUpdate(parts[..last], i, p);
      assert parts[i := p][..last] == parts[..last][i := p];
    } else {
      assert parts[i := p][..last] == parts[..last];
    }
  }

  /** The parts after the first n of `folded` have been synced. */
  function Mixed(written: seq<MessagePart>, folded: seq<MessagePart>, n: nat): seq<MessagePart>
    requires n <= |folded|
  {
    folded[..n] + if n < |written| then written[n..] else []
  }

  lemma SyncPartInStep(s: Segment, i: nat, p: MessagePart)
    requires InStep(s) && i <= |s.written|
    requires i < |s.written| ==> PartGrows(s.written[i], p)
    ensures SyncPart(s, i, p).Ok? && InStep(SyncPart(s, i, p).value)
    ensures SyncPart(s, i, p).value.written == if i < |s.written| then s.written[i := p] else s.written + [p]
  {
    var w := SyncPart(s, i, p);
    if i == |s.written| {
      assert (s.written + [p])[..|s.written|] == s.written;
      assert ToDocParts(s.written + [p]) == ToDocParts(s.written) + [ToDocPart(p)];
    } else {
      var prev := s.written[i];
      TextTotalUpdate(s.written, i, p);
      assert s.parts[i] == ToDocPart(prev);
      assert ToDocParts(s.written[i := p]) == s.parts[i := ToDocPart(p)];
      if prev == p {
        assert s.written[i := p] == s.written;
      } else if prev.Text? {
        assert p.text == prev.text + p.text[|prev.text|..];
      } else {
        UpdateFieldsExactly(prev, p);
      }
    }
  }

  lemma {:induction false} SyncUpToInStep(s: Segment, folded: seq<MessagePart>, n: nat)
    requires InStep(s) && Grows(s.written, folded) && n <= |folded|
    ensures SyncUpTo(s, folded, n).Ok? && InStep(SyncUpTo(s, folded, n).value)
    ensures SyncUpTo(s, folded, n).value.written == Mixed(s.written, folded, n)
  {
    if n == 0 {
      assert Mixed(s.written, folded, 0) == s.written;
    } else {
      SyncUpToInStep(s, folded, n - 1);
      MixedSync(s.written, SyncUpTo(s, folded, n - 1).value, folded, n);
    }
  }

  lemma MixedSync(written: seq<MessagePart>, r: Segment, folded: seq<MessagePart>, n: nat)
    requires 0 < n <= |folded| && Grows(written, folded) && InStep(r) && r.written == Mixed(written, folded, n - 1)
    ensures var next := SyncPart(r, n - 1, folded[n - 1]);
      next.Ok? && InStep(next.value) && next.value.written == Mixed(written, folded, n)
  {
    MixedStep(written, folded, n);
    SyncPartInStep(r, n - 1, folded[n - 1]);
  }

  lemma MixedStep(written: seq<MessagePart>, folded: seq<MessagePart>, n: nat)
    requires 0 < n <= |folded| && Grows(written, folded)
    ensures var m := Mixed(written, folded, n - 1);
      && n - 1 <= |m|
      && (n - 1 < |m| ==> PartGrows(m[n - 1], folded[n - 1]))
      && Mixed(written, folded, n) == if n - 1 < |m| then m[n - 1 := folded[n - 1]] else m + [folded[n - 1]]
  {
    assert folded[..n] == folded[..n - 1] + [folded[n - 1]];
    if n - 1 < |written| {
      assert written[n - 1..] == [written[n - 1]] + written[n..];
    }
  }

  /** One sync of a segment that has only grown leaves the document as a direct write of the
      whole segment would, having inserted only the new text. */
  lemma SyncIsDirectWrite(s: Segment, folded: seq<MessagePart>)
    requires InStep(s) && Grows(s.written, folded)
    ensures SyncSegment(s, folded) == Ok(Segment(ToDocParts(folded), folded, TextTotal(folded)))
  {
    SyncUpToInStep(s, folded, |folded|);
    assert Mixed(s.written, folded, |folded|) == folded;
  }

  function SyncAll(s: Segment, folds: seq<seq<MessagePart>>): Result<Segment, WriteError> {
    if folds == [] then Ok(s)
    else
      var r := SyncAll(s, folds[..|folds| - 1]);
      if r.Err? then r else SyncSegment(r.value, folds[|folds| - 1])
  }

  ghost predicate Growing(folds: seq<seq<MessagePart>>) {
    forall i :: 0 < i < |folds| ==> Grows(folds[i - 1], folds[i])
  }

  /** Over any run of syncs of successive folds, the document holds the direct write of the
      last fold and every text byte was inserted exactly once. */
  lemma {:induction false} WriterAgrees(folds: seq<seq<MessagePart>>)
    requires folds != [] && Growing(folds)
    ensures var last := folds[|folds| - 1];
      SyncAll(Segment([], [], 0), folds) == Ok(Segment(ToDocParts(last), last, TextTotal(last)))
  {
    var before, last := folds[..|folds| - 1], folds[|folds| - 1];
    if before == [] {
      assert SyncAll(Segment([], [], 0), before) == Ok(Segment([], [], 0));
      SyncIsDirectWrite(Segment([], [], 0), last);
    } else {
      WriterAgrees(before);
      var prev := before[|before| - 1];
      assert prev == folds[|folds| - 2];
      SyncIsDirectWrite(Segment(ToDocParts(prev), prev, TextTotal(prev)), last);
    }
  }

  // ----- exactly when a sync is a direct write -----

  /** The first n parts are synced: each came out as a direct write exactly if it may be restored
      from what was there; the others are untouched. */
  ghost predicate SyncedTo(s: Segment, folded: seq<MessagePart>, n: nat, r: Segment)
    requires n <= |folded| && |s.parts| == |s.written|
  {
    && |r.parts| == |r.written| == (if n < |s.written| then |s.written| else n)
    && (forall j :: 0 <= j < n ==> r.written[j] == folded[j])
    && (forall j :: 0 <= j < n ==>
          (r.parts[j] == ToDocPart(folded[j]) <==> (j < |s.written| ==> Restorable(s.written[j], folded[j]))))
    && forall j :: n <= j < |s.written| ==> r.written[j] == s.written[j] && r.parts[j] == s.parts[j]
  }

  /** One part, written before or new. */
  lemma SyncPartExactly(s: Segment, i: nat, p: MessagePart)
    requires |s.parts| == |s.written| && i <= |s.written|
    requires i < |s.written| ==> s.parts[i] == ToDocPart(s.written[i])
    ensures var r := SyncPart(s, i, p);
      && r.Ok?
      && r.value.written == (if i < |s.written| then s.written[i := p] else s.written + [p])
      && |r.value.parts| == |r.value.written| && (forall j :: 0 <= j < |s.parts| && j != i ==> r.value.parts[j] == s.parts[j])
      && (r.value.parts[i] == ToDocPart(p) <==> (i < |s.written| ==> Restorable(s.written[i], p)))
  {
    if i < |s.written| {
      var prev := s.written[i];
      if prev == p {
        assert s.written[i := p] == s.written;
      } else if prev.Text? && p.Text? && prev.text <= p.text {
        assert p.text == prev.text + p.text[|prev.text|..];
      } else {
        UpdateFieldsExactly(prev, p);
      }
    }
  }

  lemma {:induction false} SyncUpToExactly(s: Segment, folded: seq<MessagePart>, n: nat)
    requires s.parts == ToDocParts(s.written) && n <= |folded|
    ensures SyncUpTo(s, folded, n).Ok? && SyncedTo(s, folded, n, SyncUpTo(s, folded, n).value)
  {
    if n > 0 {
      SyncUpToExactly(s, folded, n - 1);
      SyncPartExactly(SyncUpTo(s, folded, n - 1).value, n - 1, folded[n - 1]);
    }
  }

  /** Every part written before has a successor that it may be restored to. */
  ghost predicate AllRestorable(written: seq<MessagePart>, folded: seq<MessagePart>) {
    |written| <= |folded| && forall j :: 0 <= j < |written| ==> Restorable(written[j], folded[j])
  }

  /** A sync of an entry that mirrors what was written never fails, and leaves what a direct write
      would if and only if no part is gone and each keeps its stored name and kind and its
      resolution. Text may change in any way. */
  lemma SyncExactly(s: Segment, folded: seq<MessagePart>)
    requires s.parts == ToDocParts(s.written)
    ensures SyncSegment(s, folded).Ok?
    ensures SyncSegment(s, folded).value.parts == ToDocParts(folded) <==> AllRestorable(s.written, folded)
    ensures AllRestorable(s.written, folded) ==> SyncSegment(s, folded).value.written == folded
  {
    SyncUpToExactly(s, folded, |folded|);
    var r := SyncSegment(s, folded).value;
    if r.parts == ToDocParts(folded) {
      forall j | 0 <= j < |s.written| ensures Restorable(s.written[j], folded[j]) {
        assert r.parts[j] == ToDocPart(folded[j]);
      }
    }
  }

  /** The document holds the direct write of the last fold. */
  ghost predicate Mirrors(folds: seq<seq<MessagePart>>) {
    var r := SyncAll(Segment([], [], 0), folds);
    r.Ok? && r.value.parts == ToDocParts(if folds == [] then [] else folds[|folds| - 1])
  }

  ghost predicate AllSuccessive(folds: seq<seq<MessagePart>>) {
    forall i :: 0 < i < |folds| ==> AllRestorable(folds[i - 1], folds[i])
  }

  lemma {:induction false} MirroredWritten(folds: seq<seq<MessagePart>>)
    requires AllSuccessive(folds)
    ensures Mirrors(folds)
    ensures SyncAll(Segment([], [], 0), folds).value.written == if folds == [] then [] else folds[|folds| - 1]
  {
    if folds != [] {
      var before, last := folds[..|folds| - 1], folds[|folds| - 1];
      MirroredWritten(before);
      SyncExactly(SyncAll(Segment([], [], 0), before).value, last);
      if before != [] { assert before[|before| - 1] == folds[|folds| - 2]; }
    }
  }

  /** Over any run of syncs: the document is the direct write of the fold after every sync if and
      only if each fold can be restored from the one before. */
  lemma {:induction false} WriterAgreesExactly(folds: seq<seq<MessagePart>>)
    ensures AllSuccessive(folds) <==> forall n :: 0 <= n <= |folds| ==> Mirrors(folds[..n])
  {
    if AllSuccessive(folds) {
      forall n | 0 <= n <= |folds| ensures Mirrors(folds[..n]) {
        MirroredWritten(folds[..n]);
      }
    }
    if folds != [] && forall n :: 0 <= n <= |folds| ==> Mirrors(folds[..n]) {
      var before := folds[..|folds| - 1];
      forall n | 0 <= n <= |before| ensures Mirrors(before[..n]) {
        assert before[..n] == folds[..n];
      }
      WriterAgreesExactly(before);
      assert folds[..|folds|] == folds && Mirrors(folds[..|folds|]);
      LastIsSuccessive(folds);
    }
  }

  lemma LastIsSuccessive(folds: seq<seq<MessagePart>>)
    requires folds != [] && AllSuccessive(folds[..|folds| - 1]) && Mirrors(folds)
    ensures AllSuccessive(folds)
  {
    var before := folds[..|folds| - 1];
    MirroredWritten(before);
    SyncExactly(SyncAll(Segment([], [], 0), before).value, folds[|folds| - 1]);
    if before != [] { SuccessiveSnoc(folds); }
  }

  lemma SuccessiveSnoc(folds: seq<seq<MessagePart>>)
    requires |folds| > 1 && AllSuccessive(folds[..|folds| - 1])
    requires AllRestorable(folds[|folds| - 2], folds[|folds| - 1])
    ensures AllSuccessive(folds)
  {
    var before := folds[..|folds| - 1];
    forall i | 0 < i < |folds| ensures AllRestorable(folds[i - 1], folds[i]) {
      if i < |before| { assert AllRestorable(before[i - 1], before[i]); }
    }
  }

  /** So without monotone resolution the guarantee fails: a tool that becomes unresolved keeps its
      resolution marker in the document. */
  lemma UnresolvingIsLost(id: string, call: ToolCall)
    ensures var done, again := [Tool(id, call, false, true)], [Tool(id, call, false, false)];
      SyncAll(Segment([], [], 0), [done, again]).Ok? &&
      SyncAll(Segment([], [], 0), [done, again]).value.parts == ToDocParts(done) != ToDocParts(again)
  {
    var done, again := [Tool(id, call, false, true)], [Tool(id, call, false, false)];
    MirroredWritten([done]);
    assert [done, again][..1] == [done];
    var s := SyncAll(Segment([], [], 0), [done]).value;
    SyncExactly(s, again);
    assert !Restorable(done[0], again[0]);
    assert SyncUpTo(s, again, 0) == Ok(s);
    assert UpdateFields(s.parts[0], again[0]) == s.parts[0];
    assert s.parts[0 := s.parts[0]] == s.parts;
  }

  // ----- the document and the writer as objects -----

  class SessionDoc {
    var messages: seq<DocEntry>

    constructor ()
      ensures messages == []
    {
      messages := [];
    }

    /** Insert a complete entry, part by part. */
    method PushMessage(entry: Entry)
      modifies this
      ensures messages == old(messages) + [WriteEntry(entry)]
    {
      var e := DocEntry(entry.id, entry.role, entry.createdAt, entry.deviceId, entry.status, entry.continuationOf, []);
      for i := 0 to |entry.parts|
        invariant e == WriteEntry(entry).(parts := ToDocParts(entry.parts[..i]))
      {
        e := e.(parts := e.parts + [ToDocPart(entry.parts[i])]);
        assert ToDocParts(entry.parts[..i + 1]) == ToDocParts(entry.parts[..i]) + [ToDocPart(entry.parts[i])];
      }
      assert entry.parts[..|entry.parts|] == entry.parts;
      messages := messages + [e];
    }
  }

  function LiveEntry(id: string, deviceId: string, createdAt: int): DocEntry {
    DocEntry(id, Assistant, createdAt, deviceId, Some(Streaming), None, [])
  }

  class SegmentWriter {
    const doc: SessionDoc
    /** Captured once, when the entry is pushed. */
    const entryIndex: nat
    var written: seq<MessagePart>
    var inserted: nat

    constructor Begin(doc: SessionDoc, id: string, deviceId: string, createdAt: int)
      modifies doc
      ensures this.doc == doc && entryIndex == |old(doc.messages)|
      ensures doc.messages == old(doc.messages) + [LiveEntry(id, deviceId, createdAt)]
      ensures written == [] && inserted == 0
    {
      this.doc := doc;
      entryIndex := |doc.messages|;
      written := [];
      inserted := 0;
      new;
      doc.messages := doc.messages + [DocEntry(id, Assistant, createdAt, deviceId, Some(Streaming), None, [])];
    }

    function Current(): Segment
      requires entryIndex < |doc.messages|
      reads this, doc
    {
      Segment(doc.messages[entryIndex].parts, written, inserted)
    }

    /** Diff the folded segment into the document. The writer follows its captured index,
        whatever entry stands there now. */
    method Sync(folded: seq<MessagePart>) returns (error: Option<WriteError>)
      modifies this, doc
      ensures entryIndex >= |old(doc.messages)| ==> error == Some(EntryMissing) && doc.messages == old(doc.messages)
      ensures entryIndex < |old(doc.messages)| ==>
        && |doc.messages| == |old(doc.messages)|
        && doc.messages == old(doc.messages)[entryIndex := old(doc.messages)[entryIndex].(parts := Current().parts)]
        && match SyncSegment(old(Current()), folded)
           case Ok(s) => error.None? && Current() == s
           case Err(e) => error == Some(e)
    {
      if entryIndex >= |doc.messages| {
        return Some(EntryMissing);
      }
      ghost var start := Current();
      ghost var before := doc.messages;
      for i := 0 to |folded|
        invariant |doc.messages| == |before|
        invariant doc.messages == before[entryIndex := before[entryIndex].(parts := doc.messages[entryIndex].parts)]
        invariant SyncUpTo(start, folded, i) == Ok(Current())
        invariant start == old(Current()) && before == old(doc.messages)
      {
        error := SyncOne(i, folded[i]);
        if error.Some? {
          SyncErrorSticks(start, folded, i + 1);
          return;
        }
      }
      return None;
    }

    method SyncOne(i: nat, part: MessagePart) returns (error: Option<WriteError>)
      requires entryIndex < |doc.messages|
      modifies this, doc
      ensures |doc.messages| == |old(doc.messages)|
      ensures doc.messages == old(doc.messages)[entryIndex := old(doc.messages)[entryIndex].(parts := Current().parts)]
      ensures match SyncPart(old(Current()), i, part)
        case Ok(s) => error.None? && Current() == s
        case Err(e) => error == Some(e)
    {
      var entry := doc.messages[entryIndex];
      if i >= |written| {
        doc.messages := doc.messages[entryIndex := entry.(parts := entry.parts + [ToDocPart(part)])];
        written := written + [part];
        inserted := inserted + TextSize(part);
        return None;
      }
      var prev := written[i];
      if prev == part {
        return None;
      }
      if prev.Text? && part.Text? && prev.text <= part.text {
        var delta := part.text[|prev.text|..];
        if delta != [] {
          if i >= |entry.parts| {
            return Some(PartMissing(i));
          }
          var map_ := entry.parts[i];
          if map_.text.None? {
            return Some(TextMissing(i));
          }
          map_ := map_.(text := Some(map_.text.value + delta));
          doc.messages := doc.messages[entryIndex := entry.(parts := entry.parts[i := map_])];
          inserted := inserted + |delta|;
        }
      } else {
        if i >= |entry.parts| {
          return Some(PartMissing(i));
        }
        doc.messages := doc.messages[entryIndex := entry.(parts := entry.parts[i := UpdateFields(entry.parts[i], part)])];
        inserted := inserted + TextSize(part);
      }
      written := written[i := part];
      return None;
    }

    /** Sync the last parts and stamp a terminal status. */
    method Finish(folded: seq<MessagePart>, status: Status) returns (error: Option<WriteError>)
      modifies this, doc
      ensures entryIndex >= |old(doc.messages)| ==> error == Some(EntryMissing) && doc.messages == old(doc.messages)
      ensures entryIndex < |old(doc.messages)| ==>
        match SyncSegment(old(Current()), folded)
        case Ok(s) =>
          && error.None?
          && doc.messages == old(doc.messages)[entryIndex :=
               old(doc.messages)[entryIndex].(parts := s.parts, status := Some(status))]
        case Err(e) => error == Some(e)
    {
      error := Sync(folded);
      if error.Some? { return; }
      doc.messages := doc.messages[entryIndex := doc.messages[entryIndex].(status := Some(status))];
    }
  }

  // ----- reading what others wrote, and failing to write -----

  /** A stored part that lacks something still reads: under its own name and as its own kind, with
      nothing in place of what is missing. Only a tool without its call becomes an empty text. */
  lemma IncompletePartsRead(d: DocPart)
    ensures var p := FromDocPart(d);
      && p.id == d.id
      && (p.Tool? <==> d.kind.ToolKind? && d.call.Some?) && (p.Input? <==> d.kind.InputKind?)
      && (p.Error? <==> d.kind.ErrorKind?)
      && (d.kind.TextKind? ==> p.text == match d.text case Some(t) => t case None => [])
      && (d.kind.ToolKind? && d.call.None? ==> p.text == [])
      && (d.kind.ErrorKind? ==> p.message == match d.message case Some(m) => m case None => [])
      && (p.Tool? ==>
            p.call == d.call.value && (p.resolved <==> d.isError.Some?) && (p.isError <==> d.isError == Some(true)))
      && (p.Input? ==> p.questions == match d.questions case Some(q) => q case None => [])
      && (p.Input? ==> (p.resolved <==> d.resolved == Some(true)))
  {
  }

  /** A change to a part written before that the document cannot take: the part is gone, or it is
      to grow as a text and has none. */
  predicate Blocked(parts: seq<DocPart>, i: nat, prev: MessagePart, p: MessagePart) {
    var grows := prev.Text? && p.Text? && prev.text <= p.text;
    && prev != p && !(grows && prev.text == p.text)
    && (i >= |parts| || (grows && parts[i].text.None?))
  }

  function Obstacle(parts: seq<DocPart>, i: nat): WriteError {
    if i >= |parts| then PartMissing(i) else TextMissing(i)
  }

  lemma SyncPartFailsExactly(s: Segment, i: nat, p: MessagePart)
    ensures SyncPart(s, i, p).Err? <==> i < |s.written| && Blocked(s.parts, i, s.written[i], p)
    ensures SyncPart(s, i, p).Err? ==> SyncPart(s, i, p).error == Obstacle(s.parts, i)
    ensures SyncPart(s, i, p).Ok? && i < |s.written| ==>
      var r := SyncPart(s, i, p).value;
      |r.parts| == |s.parts| && |r.written| == |s.written|
      && forall j :: 0 <= j && j != i ==>
           (j < |s.parts| ==> r.parts[j] == s.parts[j]) && (j < |s.written| ==> r.written[j] == s.written[j])
  {
    if i < |s.written| && s.written[i].Text? && p.Text? && s.written[i].text <= p.text {
      var delta := p.text[|s.written[i].text|..];
      assert p.text == s.written[i].text + delta;
    }
  }

  /** Parts behind n are as they were. */
  ghost predicate AheadUntouched(s: Segment, n: nat, r: Segment) {
    && |r.parts| == |s.parts| && |r.written| == |s.written|
    && forall j :: n <= j ==>
         (j < |s.parts| ==> r.parts[j] == s.parts[j]) && (j < |s.written| ==> r.written[j] == s.written[j])
  }

  lemma {:induction false} SyncsUntilBlocked(s: Segment, folded: seq<MessagePart>, n: nat)
    requires n <= |folded| && n <= |s.written|
    requires forall i :: 0 <= i < n ==> !Blocked(s.parts, i, s.written[i], folded[i])
    ensures SyncUpTo(s, folded, n).Ok? && AheadUntouched(s, n, SyncUpTo(s, folded, n).value)
  {
    if n > 0 {
      SyncsUntilBlocked(s, folded, n - 1);
      SyncPartFailsExactly(SyncUpTo(s, folded, n - 1).value, n - 1, folded[n - 1]);
    }
  }

  lemma {:induction false} NewPartsNeverFail(s: Segment, folded: seq<MessagePart>, n: nat)
    requires |s.written| <= n <= |folded| && SyncUpTo(s, folded, |s.written|).Ok?
    requires |SyncUpTo(s, folded, |s.written|).value.written| == |s.written|
    ensures SyncUpTo(s, folded, n).Ok? && |SyncUpTo(s, folded, n).value.written| == n
  {
    if n > |s.written| { NewPartsNeverFail(s, folded, n - 1); }
  }

  /** The first of the changes that the document cannot take. */
  ghost predicate FirstBlocked(s: Segment, folded: seq<MessagePart>, i: int) {
    && 0 <= i < |s.written| && i < |folded| && Blocked(s.parts, i, s.written[i], folded[i])
    && forall j :: 0 <= j < i ==> !Blocked(s.parts, j, s.written[j], folded[j])
  }

  /** Whatever others made of the entry, a sync fails exactly if the document cannot take one of
      the changes, and it fails at the first of these. */
  lemma SyncFailsExactly(s: Segment, folded: seq<MessagePart>)
    ensures SyncSegment(s, folded).Ok? <==>
      forall i :: 0 <= i < |s.written| && i < |folded| ==> !Blocked(s.parts, i, s.written[i], folded[i])
    ensures forall i :: FirstBlocked(s, folded, i) ==> SyncSegment(s, folded) == Err(Obstacle(s.parts, i))
  {
    var m := if |s.written| < |folded| then |s.written| else |folded|;
    forall i | FirstBlocked(s, folded, i) ensures SyncSegment(s, folded) == Err(Obstacle(s.parts, i)) {
      SyncsUntilBlocked(s, folded, i);
      SyncPartFailsExactly(SyncUpTo(s, folded, i).value, i, folded[i]);
      SyncErrorSticks(s, folded, i + 1);
    }
    if k :| 0 <= k < m && Blocked(s.parts, k, s.written[k], folded[k]) {
      var i := BlockedFirst(s, folded, k);
      assert FirstBlocked(s, folded, i);
    } else {
      SyncsUntilBlocked(s, folded, m);
      if m == |s.written| { NewPartsNeverFail(s, folded, |folded|); }
    }
  }

  lemma {:induction false} BlockedFirst(s: Segment, folded: seq<MessagePart>, k: nat) returns (i: nat)
    requires k < |s.written| && k < |folded| && Blocked(s.parts, k, s.written[k], folded[k])
    ensures FirstBlocked(s, folded, i)
    decreases k
  {
    i := k;
    if j :| 0 <= j < k && Blocked(s.parts, j, s.written[j], folded[j]) { i := BlockedFirst(s, folded, j); }
  }
}
