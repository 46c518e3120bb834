/** What the event fold means, event by event forgotten: the parts of a turn against the history
    of each tool, each question and the spoken text (crates/doc/src/parts.rs). */
module FoldMeaning {
  import opened Common
  import opened Parts

  // ----- text -----

  /** All text of a list of parts, in order. */
  function Spoken(parts: seq<MessagePart>): Bytes {
    if parts == [] then []
    else
      var last := parts[|parts| - 1];
      Spoken(parts[..|parts| - 1]) + if last.Text? then last.text else []
  }

  /** The deltas since the last turn boundary, joined. */
  function Deltas(events: seq<Event>): Bytes {
    if events == [] then []
    else
      var before, e := Deltas(events[..|events| - 1]), events[|events| - 1];
      if TurnBoundary(e) then [] else if e.TextDelta? then before + e.text else before
  }

  lemma SpokenSnoc(parts: seq<MessagePart>, p: MessagePart)
    ensures Spoken(parts + [p]) == Spoken(parts) + if p.Text? then p.text else []
  {
    assert (parts + [p])[..|parts|] == parts;
  }

  lemma {:induction false} SpokenSame(a: seq<MessagePart>, b: seq<MessagePart>)
    requires |a| == |b| && forall i :: 0 <= i < |a| ==> (if a[i].Text? || b[i].Text? then a[i] == b[i] else true)
    ensures Spoken(a) == Spoken(b)
  {
    if a != [] { SpokenSame(a[..|a| - 1], b[..|b| - 1]); }
  }

  lemma SpeaksOn(parts: seq<MessagePart>, text: Bytes)
    requires EndsInText(parts)
    ensures Spoken(Fold(parts, TextDelta(text))) == Spoken(parts) + text
  {
    var next := Fold(parts, TextDelta(text));
    assert next[..|parts| - 1] == parts[..|parts| - 1];
  }

  lemma FoldSpeaks(parts: seq<MessagePart>, e: Event)
    ensures Spoken(Fold(parts, e)) ==
      if TurnBoundary(e) then [] else if e.TextDelta? then Spoken(parts) + e.text else Spoken(parts)
  {
    var next := Fold(parts, e);
    if e.TextDelta? && EndsInText(parts) {
      SpeaksOn(parts, e.text);
    } else if |next| == |parts| + 1 {
      assert next == parts + [next[|parts|]];
      SpokenSnoc(parts, next[|parts|]);
    } else if !TurnBoundary(e) {
      SpokenSame(parts, next);
    }
  }

  /** No text is lost, repeated or moved: the text of the parts is the deltas since the last turn
      boundary, whatever came between them. */
  lemma {:induction false} TextIsTheDeltas(events: seq<Event>)
    ensures Spoken(FoldAll([], events)) == Deltas(events)
  {
    if events != [] {
      var before, e := events[..|events| - 1], events[|events| - 1];
      assert events == before + [e];
      TextIsTheDeltas(before);
      FoldAllSnoc([], before, e);
      FoldSpeaks(FoldAll([], before), e);
    }
  }

  // ----- the current turn -----

  /** Where the current turn begins: behind the last boundary. */
  function TurnStart(events: seq<Event>): (start: nat)
    ensures start <= |events|
    ensures start > 0 ==> TurnBoundary(events[start - 1])
    ensures forall i :: start <= i < |events| ==> !TurnBoundary(events[i])
  {
    if events == [] then 0
    else if TurnBoundary(events[|events| - 1]) then |events|
    else TurnStart(events[..|events| - 1])
  }

  function Turn(events: seq<Event>): seq<Event> { events[TurnStart(events)..] }

  ghost predicate OneTurn(turn: seq<Event>) { forall e :: e in turn ==> !TurnBoundary(e) }

  lemma {:induction false} FoldAllConcat(parts: seq<MessagePart>, a: seq<Event>, b: seq<Event>)
    ensures FoldAll(parts, a + b) == FoldAll(FoldAll(parts, a), b)
    decreases |a|
  {
    if a == [] {
      assert a + b == b;
    } else {
      assert (a + b)[0] == a[0] && (a + b)[1..] == a[1..] + b;
      FoldAllConcat(Fold(parts, a[0]), a[1..], b);
    }
  }

  /** Only the current turn is left in the parts. */
  lemma FoldsItsTurn(events: seq<Event>)
    ensures FoldAll([], events) == FoldAll([], Turn(events)) && OneTurn(Turn(events))
  {
    var start := TurnStart(events);
    assert events == events[..start] + events[start..];
    FoldAllConcat([], events[..start], events[start..]);
    BoundaryEmpties(events[..start]);
  }

  lemma BoundaryEmpties(events: seq<Event>)
    requires events != [] ==> TurnBoundary(events[|events| - 1])
    ensures FoldAll([], events) == []
  {
    if events != [] {
      var before, e := events[..|events| - 1], events[|events| - 1];
      assert events == before + [e];
      FoldAllSnoc([], before, e);
    }
  }

  /** Taking the last event off a turn. */
  lemma TurnSnoc(turn: seq<Event>)
    requires OneTurn(turn) && turn != []
    ensures var before, e := turn[..|turn| - 1], turn[|turn| - 1];
      && OneTurn(before) && !TurnBoundary(e)
      && FoldAll([], turn) == Fold(FoldAll([], before), e)
  {
    var before, e := turn[..|turn| - 1], turn[|turn| - 1];
    assert turn == before + [e];
    FoldAllSnoc([], before, e);
  }

  // ----- parts of one kind -----

  function Picked(parts: seq<MessagePart>, wanted: MessagePart -> bool): seq<MessagePart> {
    if parts == [] then []
    else
      var last := parts[|parts| - 1];
      Picked(parts[..|parts| - 1], wanted) + if wanted(last) then [last] else []
  }

  lemma PickedSnoc(parts: seq<MessagePart>, p: MessagePart, wanted: MessagePart -> bool)
    ensures Picked(parts + [p], wanted) == Picked(parts, wanted) + if wanted(p) then [p] else []
  {
    assert (parts + [p])[..|parts|] == parts;
  }

  lemma {:induction false} PickedSame(a: seq<MessagePart>, b: seq<MessagePart>, wanted: MessagePart -> bool)
    requires |a| == |b| && forall i :: 0 <= i < |a| ==> (if wanted(a[i]) || wanted(b[i]) then a[i] == b[i] else true)
    ensures Picked(a, wanted) == Picked(b, wanted)
  {
    if a != [] { PickedSame(a[..|a| - 1], b[..|b| - 1], wanted); }
  }

  lemma {:induction false} PickedNone(parts: seq<MessagePart>, wanted: MessagePart -> bool)
    ensures Picked(parts, wanted) == [] <==> forall p :: p in parts ==> !wanted(p)
  {
    if parts != [] {
      PickedNone(parts[..|parts| - 1], wanted);
      assert parts == parts[..|parts| - 1] + [parts[|parts| - 1]];
    }
  }

  lemma {:induction false} PickedWanted(parts: seq<MessagePart>, wanted: MessagePart -> bool)
    ensures forall p :: p in Picked(parts, wanted) ==> wanted(p) && p in parts
  {
    if parts != [] { PickedWanted(parts[..|parts| - 1], wanted); }
  }

  /** One wanted part, wherever it stands. */
  lemma {:induction false} PickedAt(parts: seq<MessagePart>, wanted: MessagePart -> bool, k: nat, q: MessagePart)
    requires k < |parts| && wanted(parts[k]) && |Picked(parts, wanted)| == 1 && wanted(q)
    ensures Picked(parts, wanted) == [parts[k]] && Picked(parts[k := q], wanted) == [q]
  {
    var front := parts[..|parts| - 1];
    if k == |parts| - 1 {
      assert parts[k := q][..k] == front;
    } else {
      PickedNone(front, wanted);
      assert front[k] in front;
      assert parts[k := q][..|parts| - 1] == front[k := q];
      PickedAt(front, wanted, k, q);
    }
  }

  /** Changed element by element, a single wanted part stays the single wanted part. */
  lemma {:induction false} PickedEach(parts: seq<MessagePart>, next: seq<MessagePart>, wanted: MessagePart -> bool)
    returns (k: nat)
    requires |next| == |parts| && forall i :: 0 <= i < |parts| ==> wanted(next[i]) == wanted(parts[i])
    requires |Picked(parts, wanted)| == 1
    ensures k < |parts| && Picked(parts, wanted) == [parts[k]] && Picked(next, wanted) == [next[k]]
  {
    var n := |parts| - 1;
    if wanted(parts[n]) {
      k := n;
      PickedNone(parts[..n], wanted);
      assert forall i :: 0 <= i < n ==> parts[i] in parts[..n];
      PickedNone(next[..n], wanted);
    } else {
      k := PickedEach(parts[..n], next[..n], wanted);
    }
  }

  // ----- tools -----

  predicate IsTool(p: MessagePart, id: string) { p.Tool? && p.id == id }

  function ToolTest(id: string): MessagePart -> bool { p => IsTool(p, id) }

  function ToolsOf(parts: seq<MessagePart>, id: string): seq<MessagePart> { Picked(parts, ToolTest(id)) }

  predicate IsCall(e: Event, id: string) { e.ToolCalled? && e.id == id }

  predicate IsResult(e: Event, id: string) { e.ToolResult? && e.id == id }

  /** How one event moves the one part a tool may have. */
  function Moved(t: seq<MessagePart>, e: Event, id: string): seq<MessagePart> {
    if IsCall(e, id) then
      if |t| == 1 && t[0].Tool? then [Tool(id, e.call, t[0].isError, t[0].resolved)] else [Tool(id, e.call, false, false)]
    else if IsResult(e, id) && |t| == 1 && t[0].Tool? then [Tool(id, t[0].call, e.isError, true)]
    else t
  }

  /** What a call does, with the tool's place named. */
  lemma CallPlaces(parts: seq<MessagePart>, id: string, call: ToolCall) returns (k: nat)
    ensures k <= |parts|
    ensures k < |parts| ==> IsTool(parts[k], id)
    ensures k == |parts| ==> forall p :: p in parts ==> !IsTool(p, id)
    ensures Fold(parts, ToolCalled(id, call)) ==
      if k < |parts| then parts[k := Tool(id, call, parts[k].isError, parts[k].resolved)]
      else parts + [Tool(id, call, false, false)]
  {
    k := ToolIndex(parts, id);
  }

  lemma FoldCalls(parts: seq<MessagePart>, next: seq<MessagePart>, id: string, call: ToolCall, k: nat)
    requires |ToolsOf(parts, id)| <= 1 && k <= |parts|
    requires k < |parts| ==> IsTool(parts[k], id) && next == parts[k := Tool(id, call, parts[k].isError, parts[k].resolved)]
    requires k == |parts| ==> (forall p :: p in parts ==> !IsTool(p, id)) && next == parts + [Tool(id, call, false, false)]
    ensures ToolsOf(next, id) == Moved(ToolsOf(parts, id), ToolCalled(id, call), id)
  {
    PickedNone(parts, ToolTest(id));
    if k < |parts| {
      assert parts[k] in parts && ToolTest(id)(parts[k]);
      PickedAt(parts, ToolTest(id), k, next[k]);
    } else {
      PickedSnoc(parts, next[k], ToolTest(id));
    }
  }

  lemma FoldResults(parts: seq<MessagePart>, e: Event, id: string)
    requires |ToolsOf(parts, id)| <= 1 && IsResult(e, id)
    ensures ToolsOf(Fold(parts, e), id) == Moved(ToolsOf(parts, id), e, id)
  {
    var next := Fold(parts, e);
    if |ToolsOf(parts, id)| == 1 {
      var k := PickedEach(parts, next, ToolTest(id));
      PickedWanted(parts, ToolTest(id));
      assert parts[k] in ToolsOf(parts, id) && IsTool(parts[k], id);
      assert next[k] == ResolveTool(parts[k], id, e.isError);
    } else {
      PickedNone(parts, ToolTest(id));
      PickedNone(next, ToolTest(id));
      assert forall i :: 0 <= i < |parts| ==> parts[i] in parts && !IsTool(parts[i], id);
    }
  }

  lemma FoldElsewhere(parts: seq<MessagePart>, e: Event, id: string)
    requires !TurnBoundary(e) && !IsCall(e, id) && !IsResult(e, id)
    ensures ToolsOf(Fold(parts, e), id) == ToolsOf(parts, id)
  {
    var next := Fold(parts, e);
    if |next| == |parts| + 1 {
      assert next == parts + [next[|parts|]];
      PickedSnoc(parts, next[|parts|], ToolTest(id));
    } else {
      PickedSame(parts, next, ToolTest(id));
    }
  }

  lemma FoldMoves(parts: seq<MessagePart>, e: Event, id: string)
    requires |ToolsOf(parts, id)| <= 1 && !TurnBoundary(e)
    ensures ToolsOf(Fold(parts, e), id) == Moved(ToolsOf(parts, id), e, id)
  {
    if IsCall(e, id) {
      var k := CallPlaces(parts, id, e.call);
      FoldCalls(parts, Fold(parts, e), id, e.call, k);
    } else if IsResult(e, id) {
      FoldResults(parts, e, id);
    } else {
      FoldElsewhere(parts, e, id);
    }
  }

  ghost predicate FirstCall(turn: seq<Event>, id: string, k: int) {
    0 <= k < |turn| && IsCall(turn[k], id) && forall j :: 0 <= j < k ==> !IsCall(turn[j], id)
  }

  ghost predicate LatestCall(turn: seq<Event>, id: string, k: int) {
    0 <= k < |turn| && IsCall(turn[k], id) && forall j :: k < j < |turn| ==> !IsCall(turn[j], id)
  }

  ghost predicate Returned(turn: seq<Event>, id: string, first: int) {
    exists j :: 0 <= first < j < |turn| && IsResult(turn[j], id)
  }

  ghost predicate LatestResult(turn: seq<Event>, id: string, first: int, k: int) {
    0 <= first < k < |turn| && IsResult(turn[k], id) && forall j :: k < j < |turn| ==> !IsResult(turn[j], id)
  }

  /** The part a tool has after the events of one turn. */
  function ToolFate(turn: seq<Event>, id: string): (t: seq<MessagePart>)
    ensures |t| <= 1 && (t != [] ==> IsTool(t[0], id))
  {
    if turn == [] then [] else Moved(ToolFate(turn[..|turn| - 1], id), turn[|turn| - 1], id)
  }

  lemma {:induction false} ToolsMeetTheirFate(turn: seq<Event>, id: string)
    requires OneTurn(turn)
    ensures ToolsOf(FoldAll([], turn), id) == ToolFate(turn, id)
  {
    if turn != [] {
      var before, e := turn[..|turn| - 1], turn[|turn| - 1];
      TurnSnoc(turn);
      ToolsMeetTheirFate(before, id);
      FoldMoves(FoldAll([], before), e, id);
    }
  }

  lemma {:induction false} ShowsIfCalled(turn: seq<Event>, id: string)
    ensures ToolFate(turn, id) == [] <==> forall i :: 0 <= i < |turn| ==> !IsCall(turn[i], id)
  {
    if turn != [] {
      var n := |turn| - 1;
      ShowsIfCalled(turn[..n], id);
      assert forall i :: 0 <= i < n ==> turn[i] == turn[..n][i];
    }
  }

  lemma {:induction false} ShowsLatestCall(turn: seq<Event>, id: string, last: nat)
    requires LatestCall(turn, id, last)
    ensures var tools := ToolFate(turn, id);
      tools != [] && tools[0].call == turn[last].call
  {
    var n := |turn| - 1;
    if last < n { ShowsLatestCall(turn[..n], id, last); }
  }

  /** A tool as its first call and the results after it make it. */
  ghost predicate AsReturned(turn: seq<Event>, id: string, first: int, p: MessagePart) {
    && IsTool(p, id)
    && (p.resolved <==> Returned(turn, id, first))
    && (p.isError ==> p.resolved)
    && forall k :: LatestResult(turn, id, first, k) ==> p.isError == turn[k].isError
  }

  lemma {:induction false} ShowsLatestResult(turn: seq<Event>, id: string, first: nat)
    requires FirstCall(turn, id, first)
    ensures ToolFate(turn, id) != [] && AsReturned(turn, id, first, ToolFate(turn, id)[0])
  {
    var n := |turn| - 1;
    if first < n {
      ShowsLatestResult(turn[..n], id, first);
      ReturnedOnce(turn, id, first, ToolFate(turn[..n], id)[0], ToolFate(turn, id)[0]);
    } else {
      ShowsIfCalled(turn[..n], id);
    }
  }

  lemma ReturnedOnce(turn: seq<Event>, id: string, first: nat, p: MessagePart, q: MessagePart)
    requires first < |turn| - 1 && AsReturned(turn[..|turn| - 1], id, first, p)
    requires [q] == Moved([p], turn[|turn| - 1], id)
    ensures AsReturned(turn, id, first, q)
  {
    var n := |turn| - 1;
    var before, e := turn[..n], turn[n];
    assert Returned(turn, id, first) <==> Returned(before, id, first) || IsResult(e, id) by {
      assert forall j :: 0 <= j < n ==> turn[j] == before[j];
    }
    forall k | LatestResult(turn, id, first, k) ensures q.isError == turn[k].isError {
      if k < n { assert LatestResult(before, id, first, k); }
    }
  }

  /** Since the last boundary: a tool shows if it was called, in one part, with its latest call,
      resolved if a result came after its first call, as the latest of these says. */
  lemma ToolsAreTheirHistory(events: seq<Event>, id: string)
    ensures var turn, tools := Turn(events), ToolsOf(FoldAll([], events), id);
      && |tools| <= 1 && (tools == [] <==> forall i :: 0 <= i < |turn| ==> !IsCall(turn[i], id))
      && (tools != [] ==> (tools[0].Tool?
            && (forall last :: LatestCall(turn, id, last) ==> tools[0].call == turn[last].call)
            && (forall first :: FirstCall(turn, id, first) ==> AsReturned(turn, id, first, tools[0]))))
  {
    FoldsItsTurn(events);
    var turn := Turn(events);
    ToolsMeetTheirFate(turn, id);
    ShowsIfCalled(turn, id);
    var tools := ToolFate(turn, id);
    forall last | tools != [] && LatestCall(turn, id, last) ensures tools[0].call == turn[last].call {
      ShowsLatestCall(turn, id, last);
    }
    forall first | tools != [] && FirstCall(turn, id, first) ensures AsReturned(turn, id, first, tools[0]) {
      ShowsLatestResult(turn, id, first);
    }
  }

  // ----- questions -----

  predicate Asks(p: MessagePart, requestId: string) { p.Input? && p.requestId == requestId }

  function AskTest(requestId: string): MessagePart -> bool { p => Asks(p, requestId) }

  /** The parts that ask a question. */
  function AsksOf(parts: seq<MessagePart>, requestId: string): seq<MessagePart> { Picked(parts, AskTest(requestId)) }

  predicate IsRequest(e: Event, requestId: string) { e.InputRequested? && e.requestId == requestId }

  predicate IsAnswer(e: Event, requestId: string) { e.InputResolved? && e.requestId == requestId }

  /** A tool call that bears the name of the question's part. */
  predicate IsBorrow(e: Event, requestId: string) { IsCall(e, InputId(requestId)) }

  /** The turn asks the question at event k, for the first time and before its name was borrowed. */
  ghost predicate Opens(turn: seq<Event>, requestId: string, k: int) {
    && 0 <= k < |turn| && IsRequest(turn[k], requestId)
    && forall j :: 0 <= j < k ==> !IsRequest(turn[j], requestId) && !IsBorrow(turn[j], requestId)
  }

  ghost predicate Answered(turn: seq<Event>, requestId: string, k: int) {
    exists j :: 0 <= k < j < |turn| && IsAnswer(turn[j], requestId)
  }

  lemma NamesDiffer(n: nat, requestId: string)
    ensures TextId(n) != InputId(requestId) && ErrorId(n) != InputId(requestId)
  {
    assert TextId(n)[0] == 't' && ErrorId(n)[0] == 'e' && InputId(requestId)[0] == 'i';
  }

  lemma InputIdInjective(a: string, b: string)
    requires InputId(a) == InputId(b)
    ensures a == b
  {
    assert InputId(a)[3..] == a && InputId(b)[3..] == b;
  }

  /** The name of the question's part is taken by a request or a borrow, and by nothing else. */
  lemma FoldTakes(parts: seq<MessagePart>, e: Event, requestId: string)
    requires !TurnBoundary(e)
    ensures var id := InputId(requestId);
      HasId(Fold(parts, e), id) <==> HasId(parts, id) || IsRequest(e, requestId) || IsBorrow(e, requestId)
  {
    var id, next := InputId(requestId), Fold(parts, e);
    NamesDiffer(|parts|, requestId);
    if |next| == |parts| + 1 {
      assert next == parts + [next[|parts|]];
      assert HasId(next, id) <==> HasId(parts, id) || next[|parts|].id == id;
      if e.InputRequested? && InputId(e.requestId) == id { InputIdInjective(e.requestId, requestId); }
    } else {
      SameNames(parts, next, id);
      if IsBorrow(e, requestId) {
        var k := CallPlaces(parts, id, e.call);
        assert parts[k] in parts;
      }
    }
  }

  lemma SameNames(parts: seq<MessagePart>, next: seq<MessagePart>, id: string)
    requires |next| == |parts| && forall i :: 0 <= i < |parts| ==> next[i].id == parts[i].id
    ensures HasId(next, id) <==> HasId(parts, id)
  {
    if HasId(next, id) {
      var i :| 0 <= i < |next| && next[i].id == id;
      assert parts[i] in parts;
    }
    if HasId(parts, id) {
      var i :| 0 <= i < |parts| && parts[i].id == id;
      assert next[i] in next;
    }
  }

  ghost predicate Taken(turn: seq<Event>, requestId: string) {
    exists j :: 0 <= j < |turn| && (IsRequest(turn[j], requestId) || IsBorrow(turn[j], requestId))
  }

  lemma {:induction false} TurnTakes(turn: seq<Event>, requestId: string)
    requires OneTurn(turn)
    ensures HasId(FoldAll([], turn), InputId(requestId)) <==> Taken(turn, requestId)
  {
    if turn != [] {
      TurnSnoc(turn);
      var n := |turn| - 1;
      TurnTakes(turn[..n], requestId);
      FoldTakes(FoldAll([], turn[..n]), turn[n], requestId);
      assert forall j :: 0 <= j < n ==> turn[j] == turn[..n][j];
    }
  }

  /** How one event moves the one part a question may have. */
  function AskMoved(q: seq<MessagePart>, taken: bool, e: Event, requestId: string): seq<MessagePart> {
    if IsRequest(e, requestId) then
      if taken then q else q + [Input(InputId(requestId), requestId, e.questions, false)]
    else if IsAnswer(e, requestId) && |q| == 1 && q[0].Input? then [Input(q[0].id, requestId, q[0].questions, true)]
    else q
  }

  lemma FoldAnswers(parts: seq<MessagePart>, e: Event, requestId: string)
    requires |AsksOf(parts, requestId)| <= 1 && IsAnswer(e, requestId)
    ensures AsksOf(Fold(parts, e), requestId) == AskMoved(AsksOf(parts, requestId), true, e, requestId)
  {
    var next := Fold(parts, e);
    if |AsksOf(parts, requestId)| == 1 {
      var k := PickedEach(parts, next, AskTest(requestId));
      PickedWanted(parts, AskTest(requestId));
      assert parts[k] in AsksOf(parts, requestId) && Asks(parts[k], requestId);
      assert next[k] == ResolveInput(parts[k], requestId);
    } else {
      PickedNone(parts, AskTest(requestId));
      PickedNone(next, AskTest(requestId));
      assert forall i :: 0 <= i < |parts| ==> parts[i] in parts && !Asks(parts[i], requestId);
    }
  }

  lemma FoldAsks(parts: seq<MessagePart>, e: Event, requestId: string)
    requires |AsksOf(parts, requestId)| <= 1 && !TurnBoundary(e)
    ensures AsksOf(Fold(parts, e), requestId) ==
      AskMoved(AsksOf(parts, requestId), HasId(parts, InputId(requestId)), e, requestId)
  {
    var next := Fold(parts, e);
    if IsAnswer(e, requestId) {
      FoldAnswers(parts, e, requestId);
    } else if |next| == |parts| + 1 {
      assert next == parts + [next[|parts|]];
      PickedSnoc(parts, next[|parts|], AskTest(requestId));
    } else {
      PickedSame(parts, next, AskTest(requestId));
    }
  }

  /** The part a question has after the events of one turn. */
  ghost function AskFate(turn: seq<Event>, requestId: string): seq<MessagePart> {
    if turn == [] then []
    else
      var before := turn[..|turn| - 1];
      AskMoved(AskFate(before, requestId), Taken(before, requestId), turn[|turn| - 1], requestId)
  }

  lemma {:induction false} AskedOnce(turn: seq<Event>, requestId: string)
    ensures |AskFate(turn, requestId)| <= 1
    ensures AskFate(turn, requestId) != [] ==> Taken(turn, requestId)
  {
    if turn != [] {
      var n := |turn| - 1;
      AskedOnce(turn[..n], requestId);
      assert forall j :: 0 <= j < n ==> turn[j] == turn[..n][j];
    }
  }

  lemma {:induction false} QuestionsMeetTheirFate(turn: seq<Event>, requestId: string)
    requires OneTurn(turn)
    ensures AsksOf(FoldAll([], turn), requestId) == AskFate(turn, requestId)
  {
    if turn != [] {
      var before, e := turn[..|turn| - 1], turn[|turn| - 1];
      TurnSnoc(turn);
      QuestionsMeetTheirFate(before, requestId);
      AskedOnce(before, requestId);
      TurnTakes(before, requestId);
      FoldAsks(FoldAll([], before), e, requestId);
    }
  }

  lemma {:induction false} QuestionHidden(turn: seq<Event>, requestId: string)
    requires forall k :: !Opens(turn, requestId, k)
    ensures AskFate(turn, requestId) == []
  {
    if turn != [] {
      var n := |turn| - 1;
      forall k ensures !Opens(turn[..n], requestId, k) {
        assert !Opens(turn, requestId, k);
      }
      QuestionHidden(turn[..n], requestId);
      assert !Opens(turn, requestId, n);
    }
  }

  lemma {:induction false} QuestionShown(turn: seq<Event>, requestId: string, k: nat)
    requires Opens(turn, requestId, k)
    ensures AskFate(turn, requestId) ==
      [Input(InputId(requestId), requestId, turn[k].questions, Answered(turn, requestId, k))]
  {
    var n := |turn| - 1;
    if k == n {
      NothingOpened(turn, requestId);
    } else {
      QuestionShown(turn[..n], requestId, k);
      AskedOnce(turn[..n], requestId);
      AnsweredOnce(turn, requestId, k);
    }
  }

  lemma NothingOpened(turn: seq<Event>, requestId: string)
    requires turn != [] && Opens(turn, requestId, |turn| - 1)
    ensures AskFate(turn[..|turn| - 1], requestId) == [] && !Taken(turn[..|turn| - 1], requestId)
  {
    var before := turn[..|turn| - 1];
    forall k ensures !Opens(before, requestId, k) {
    }
    QuestionHidden(before, requestId);
  }

  lemma AnsweredOnce(turn: seq<Event>, requestId: string, k: nat)
    requires k < |turn| - 1
    ensures var n := |turn| - 1;
      Answered(turn, requestId, k) <==> Answered(turn[..n], requestId, k) || IsAnswer(turn[n], requestId)
  {
    assert forall j :: 0 <= j < |turn| - 1 ==> turn[j] == turn[..|turn| - 1][j];
  }

  /** The first of the requests that come before any borrow. */
  lemma {:induction false} FirstRequest(turn: seq<Event>, requestId: string, k: nat) returns (first: nat)
    requires k < |turn| && IsRequest(turn[k], requestId) && forall j :: 0 <= j < k ==> !IsBorrow(turn[j], requestId)
    ensures Opens(turn, requestId, first)
  {
    if j :| 0 <= j < k && IsRequest(turn[j], requestId) {
      first := FirstRequest(turn, requestId, j);
    } else {
      first := k;
    }
  }

  /** Since the last boundary: a question shows exactly if it was requested with no earlier tool
      call of its part's name; then in one part, with the words of the first request, and as
      resolved exactly if it was answered after that. */
  lemma QuestionsTellTheirAnswer(events: seq<Event>, requestId: string)
    ensures var turn, asks := Turn(events), AsksOf(FoldAll([], events), requestId);
      && (asks != [] <==> exists k :: 0 <= k < |turn| && IsRequest(turn[k], requestId) &&
                            forall j :: 0 <= j < k ==> !IsBorrow(turn[j], requestId))
      && (forall k :: Opens(turn, requestId, k) ==>
            asks == [Input(InputId(requestId), requestId, turn[k].questions, Answered(turn, requestId, k))])
  {
    FoldsItsTurn(events);
    var turn := Turn(events);
    QuestionsMeetTheirFate(turn, requestId);
    forall k | Opens(turn, requestId, k)
      ensures AsksOf(FoldAll([], events), requestId) ==
        [Input(InputId(requestId), requestId, turn[k].questions, Answered(turn, requestId, k))]
    {
      QuestionShown(turn, requestId, k);
    }
    if k :| 0 <= k < |turn| && IsRequest(turn[k], requestId) && forall j :: 0 <= j < k ==> !IsBorrow(turn[j], requestId) {
      var first := FirstRequest(turn, requestId, k);
    } else {
      QuestionHidden(turn, requestId);
    }
  }

  /** Unless a tool call borrows its part's name, a question shows exactly if it was requested. */
  lemma UnborrowedQuestionsShow(events: seq<Event>, requestId: string)
    requires forall e :: e in Turn(events) ==> !IsBorrow(e, requestId)
    ensures AsksOf(FoldAll([], events), requestId) != [] <==> exists e :: e in Turn(events) && IsRequest(e, requestId)
  {
    QuestionsTellTheirAnswer(events, requestId);
    var turn := Turn(events);
    if e :| e in turn && IsRequest(e, requestId) {
      var k :| 0 <= k < |turn| && turn[k] == e;
      assert forall j :: 0 <= j < k ==> turn[j] in turn;
    }
  }

  /** A borrow that comes first hides the question it is named after. */
  lemma BorrowedNameHidesQuestion(requestId: string, call: ToolCall, questions: seq<Question>)
    ensures AsksOf(FoldAll([], [ToolCalled(InputId(requestId), call), InputRequested(requestId, questions)]), requestId) == []
  {
    var events := [ToolCalled(InputId(requestId), call), InputRequested(requestId, questions)];
    assert TurnStart(events) == 0 by { assert forall e :: e in events ==> !TurnBoundary(e); }
    assert Turn(events) == events;
    QuestionsTellTheirAnswer(events, requestId);
    assert IsBorrow(events[0], requestId);
  }

  // ----- errors -----

  /** The messages of the error parts, in order. */
  function ErrorTexts(parts: seq<MessagePart>): seq<Bytes> {
    if parts == [] then []
    else
      var last := parts[|parts| - 1];
      ErrorTexts(parts[..|parts| - 1]) + if last.Error? then [last.message] else []
  }

  /** The message an event fails with, if it does. */
  function Failure(e: Event): Option<Bytes> {
    match e
    case Failed(message) => Some(message)
    case Done(error) => error
    case _ => None
  }

  /** Event j of the turn put something at the end: text, an error, a tool called for the first
      time, or a question whose name was free. */
  ghost predicate Moves(turn: seq<Event>, j: int) {
    0 <= j < |turn| &&
    match turn[j]
    case TextDelta(_) => true
    case ToolCalled(id, _) => forall i :: 0 <= i < j ==> !IsCall(turn[i], id)
    case InputRequested(requestId, _) => !Taken(turn[..j], requestId)
    case _ => Failure(turn[j]).Some?
  }

  /** The last event of the turn that put something at the end. */
  ghost predicate MovesLast(turn: seq<Event>, k: int) {
    Moves(turn, k) && forall j :: k < j < |turn| ==> !Moves(turn, j)
  }

  /** The turn failed with the message, and nothing was put behind that. */
  ghost predicate EndsFailing(turn: seq<Event>, message: Bytes) {
    exists k :: MovesLast(turn, k) && Failure(turn[k]) == Some(message)
  }

  /** The turn was talking when it ended. */
  ghost predicate EndsTalking(turn: seq<Event>) {
    exists k :: MovesLast(turn, k) && turn[k].TextDelta?
  }

  /** Every failure shows, but one at the end of a run only if it is not the last thing said
      anyway. */
  ghost function Failures(turn: seq<Event>): seq<Bytes> {
    if turn == [] then []
    else
      var before, e := turn[..|turn| - 1], turn[|turn| - 1];
      Failures(before) +
      if e.Failed? then [e.message]
      else if e.Done? && e.error.Some? && !EndsFailing(before, e.error.value) then [e.error.value]
      else []
  }

  lemma MovesFront(turn: seq<Event>, j: int)
    requires turn != [] && j < |turn| - 1
    ensures Moves(turn[..|turn| - 1], j) == Moves(turn, j)
  {
    var before := turn[..|turn| - 1];
    if 0 <= j {
      assert before[j] == turn[j] && before[..j] == turn[..j];
      assert forall i :: 0 <= i < j ==> before[i] == turn[i];
    }
  }

  lemma MovesLastSnoc(turn: seq<Event>, k: int)
    requires turn != []
    ensures var n := |turn| - 1;
      MovesLast(turn, k) <==> (if Moves(turn, n) then k == n else MovesLast(turn[..n], k))
  {
    var n := |turn| - 1;
    forall j | j < n ensures Moves(turn[..n], j) == Moves(turn, j) {
      MovesFront(turn, j);
    }
    if MovesLast(turn, k) && k < n { assert !Moves(turn, n); }
  }

  /** What the last event does to the end of the turn. */
  lemma EndsFailingSnoc(turn: seq<Event>, message: Bytes)
    requires turn != []
    ensures var n := |turn| - 1;
      && (Failure(turn[n]).Some? ==> Moves(turn, n))
      && (EndsFailing(turn, message) <==>
          if Moves(turn, n) then Failure(turn[n]) == Some(message) else EndsFailing(turn[..n], message))
  {
    var n := |turn| - 1;
    forall k ensures MovesLast(turn, k) <==> (if Moves(turn, n) then k == n else MovesLast(turn[..n], k)) {
      MovesLastSnoc(turn, k);
    }
    if Moves(turn, n) { assert MovesLast(turn, n); }
    if !Moves(turn, n) && EndsFailing(turn[..n], message) {
      var k :| MovesLast(turn[..n], k) && Failure(turn[..n][k]) == Some(message);
      assert MovesLast(turn, k);
    }
  }

  lemma EndsTalkingSnoc(turn: seq<Event>)
    requires turn != []
    ensures var n := |turn| - 1;
      EndsTalking(turn) <==> (if Moves(turn, n) then turn[n].TextDelta? else EndsTalking(turn[..n]))
  {
    var n := |turn| - 1;
    forall k ensures MovesLast(turn, k) <==> (if Moves(turn, n) then k == n else MovesLast(turn[..n], k)) {
      MovesLastSnoc(turn, k);
    }
    if Moves(turn, n) { assert MovesLast(turn, n); }
    if !Moves(turn, n) && EndsTalking(turn[..n]) {
      var k :| MovesLast(turn[..n], k) && turn[..n][k].TextDelta?;
      assert MovesLast(turn, k);
    }
  }

  /** A call appends a part exactly if it is the first, a request if its name was free. */
  lemma FoldGrowsTheEnd(turn: seq<Event>)
    requires OneTurn(turn) && turn != []
    ensures var n := |turn| - 1;
      var parts, e := FoldAll([], turn[..n]), turn[n];
      && (e.ToolCalled? ==> (ToolIndex(parts, e.id) == |parts| <==> Moves(turn, n)))
      && (e.InputRequested? ==> (!HasId(parts, InputId(e.requestId)) <==> Moves(turn, n)))
  {
    TurnSnoc(turn);
    var n := |turn| - 1;
    var before, e := turn[..n], turn[n];
    if e.ToolCalled? { FirstCallAppends(before, e.id); }
    if e.InputRequested? { TurnTakes(before, e.requestId); }
  }

  lemma FirstCallAppends(turn: seq<Event>, id: string)
    requires OneTurn(turn)
    ensures var parts := FoldAll([], turn);
      ToolIndex(parts, id) == |parts| <==> forall i :: 0 <= i < |turn| ==> !IsCall(turn[i], id)
  {
    var parts := FoldAll([], turn);
    ToolsMeetTheirFate(turn, id);
    ShowsIfCalled(turn, id);
    PickedNone(parts, ToolTest(id));
    var k := ToolIndex(parts, id);
    if k < |parts| { assert parts[k] in parts && ToolTest(id)(parts[k]); }
  }

  /** The parts end in the error exactly if the turn ends failing with it. */
  lemma {:induction false} EndIsFailure(turn: seq<Event>, message: Bytes)
    requires OneTurn(turn)
    ensures EndsInError(FoldAll([], turn), message) <==> EndsFailing(turn, message)
  {
    if turn != [] {
      var n := |turn| - 1;
      TurnSnoc(turn);
      EndIsFailure(turn[..n], message);
      EndsFailingSnoc(turn, message);
      FoldGrowsTheEnd(turn);
      FoldEnds(FoldAll([], turn[..n]), turn[n], message, Moves(turn, n));
    }
  }

  lemma FoldEnds(parts: seq<MessagePart>, e: Event, message: Bytes, moves: bool)
    requires !TurnBoundary(e)
    requires e.ToolCalled? ==> (ToolIndex(parts, e.id) == |parts| <==> moves)
    requires e.InputRequested? ==> (!HasId(parts, InputId(e.requestId)) <==> moves)
    requires !e.ToolCalled? && !e.InputRequested? ==> (moves <==> e.TextDelta? || Failure(e).Some?)
    ensures EndsInError(Fold(parts, e), message) <==>
      Failure(e) == Some(message) || (!moves && EndsInError(parts, message))
  {
    match e
    case ToolCalled(id, call) => CallEnds(parts, id, call, message);
    case ToolResult(_, _) => EndKept(parts, Fold(parts, e), message);
    case InputResolved(_) => EndKept(parts, Fold(parts, e), message);
    case InputRequested(_, _) =>
    case _ => SpeechEnds(parts, e, message);
  }

  lemma EndKept(parts: seq<MessagePart>, next: seq<MessagePart>, message: Bytes)
    requires |parts| == |next|
    requires forall i :: 0 <= i < |parts| ==> (if parts[i].Error? || next[i].Error? then next[i] == parts[i] else true)
    ensures EndsInError(next, message) == EndsInError(parts, message)
  {
  }

  lemma CallEnds(parts: seq<MessagePart>, id: string, call: ToolCall, message: Bytes)
    ensures EndsInError(Fold(parts, ToolCalled(id, call)), message) <==>
      ToolIndex(parts, id) < |parts| && EndsInError(parts, message)
  {
    var next := Fold(parts, ToolCalled(id, call));
    if ToolIndex(parts, id) < |parts| { EndKept(parts, next, message); }
  }

  lemma SpeechEnds(parts: seq<MessagePart>, e: Event, message: Bytes)
    requires e.TextDelta? || e.ReasoningDelta? || e.Failed? || e.Done? || e.Bookkeeping?
    ensures EndsInError(Fold(parts, e), message) <==>
      Failure(e) == Some(message) || (!e.TextDelta? && Failure(e).None? && EndsInError(parts, message))
  {
  }

  lemma {:induction false} ErrorTextsSame(a: seq<MessagePart>, b: seq<MessagePart>)
    requires |a| == |b| && forall i :: 0 <= i < |a| ==> (if a[i].Error? || b[i].Error? then a[i] == b[i] else true)
    ensures ErrorTexts(a) == ErrorTexts(b)
  {
    if a != [] { ErrorTextsSame(a[..|a| - 1], b[..|b| - 1]); }
  }

  lemma FoldFails(parts: seq<MessagePart>, e: Event)
    requires !TurnBoundary(e)
    ensures ErrorTexts(Fold(parts, e)) == ErrorTexts(parts) +
      if e.Failed? then [e.message]
      else if e.Done? && e.error.Some? && !EndsInError(parts, e.error.value) then [e.error.value]
      else []
  {
    var next := Fold(parts, e);
    if |next| == |parts| + 1 {
      assert next[..|parts|] == parts;
    } else {
      ErrorTextsSame(parts, next);
      assert ErrorTexts(parts) + [] == ErrorTexts(parts);
    }
  }

  lemma {:induction false} TurnFails(turn: seq<Event>)
    requires OneTurn(turn)
    ensures ErrorTexts(FoldAll([], turn)) == Failures(turn)
  {
    if turn != [] {
      var before, e := turn[..|turn| - 1], turn[|turn| - 1];
      TurnSnoc(turn);
      TurnFails(before);
      if e.Done? && e.error.Some? { EndIsFailure(before, e.error.value); }
      FoldFails(FoldAll([], before), e);
    }
  }

  /** Since the last boundary: the error parts are the failures, in order and each with its
      message, except that the end of a run does not repeat the failure it comes right behind. */
  lemma ErrorsAreTheFailures(events: seq<Event>)
    ensures ErrorTexts(FoldAll([], events)) == Failures(Turn(events))
  {
    FoldsItsTurn(events);
    TurnFails(Turn(events));
  }

  // ----- where everything stands -----

  /** The parts end in text exactly if the turn was talking. */
  lemma {:induction false} EndIsTalk(turn: seq<Event>)
    requires OneTurn(turn)
    ensures EndsInText(FoldAll([], turn)) <==> EndsTalking(turn)
  {
    if turn != [] {
      var n := |turn| - 1;
      TurnSnoc(turn);
      EndIsTalk(turn[..n]);
      EndsTalkingSnoc(turn);
      FoldGrowsTheEnd(turn);
      FoldTalks(FoldAll([], turn[..n]), turn[n], Moves(turn, n));
    }
  }

  lemma FoldTalks(parts: seq<MessagePart>, e: Event, moves: bool)
    requires !TurnBoundary(e)
    requires e.ToolCalled? ==> (ToolIndex(parts, e.id) == |parts| <==> moves)
    requires e.InputRequested? ==> (!HasId(parts, InputId(e.requestId)) <==> moves)
    requires !e.ToolCalled? && !e.InputRequested? ==> (moves <==> e.TextDelta? || Failure(e).Some?)
    ensures EndsInText(Fold(parts, e)) <==> (if moves then e.TextDelta? else EndsInText(parts))
  {
    match e
    case ToolCalled(id, call) => CallTalks(parts, id, call);
    case ToolResult(_, _) => TalkKept(parts, Fold(parts, e));
    case InputResolved(_) => TalkKept(parts, Fold(parts, e));
    case InputRequested(_, _) =>
    case _ => SpeechTalks(parts, e);
  }

  lemma TalkKept(parts: seq<MessagePart>, next: seq<MessagePart>)
    requires |parts| == |next| && forall i :: 0 <= i < |parts| ==> next[i].Text? == parts[i].Text?
    ensures EndsInText(next) == EndsInText(parts)
  {
  }

  lemma CallTalks(parts: seq<MessagePart>, id: string, call: ToolCall)
    ensures EndsInText(Fold(parts, ToolCalled(id, call))) <==> ToolIndex(parts, id) < |parts| && EndsInText(parts)
  {
    if ToolIndex(parts, id) < |parts| { TalkKept(parts, Fold(parts, ToolCalled(id, call))); }
  }

  lemma SpeechTalks(parts: seq<MessagePart>, e: Event)
    requires e.TextDelta? || e.ReasoningDelta? || e.Failed? || e.Done? || e.Bookkeeping?
    ensures EndsInText(Fold(parts, e)) <==> e.TextDelta? || (Failure(e).None? && EndsInText(parts))
  {
    if e.Done? && e.error.Some? && EndsInError(parts, e.error.value) { assert Fold(parts, e) == parts; }
  }

  /** Event j of the turn put a part of its own: text that no text came right before, a first
      call, a question whose name was free, or a failure that shows. */
  ghost predicate Puts(turn: seq<Event>, j: int) {
    Moves(turn, j) &&
    match turn[j]
    case TextDelta(_) => !EndsTalking(turn[..j])
    case Done(error) => error.Some? && !EndsFailing(turn[..j], error.value)
    case _ => true
  }

  /** The events that put a part, in order. */
  ghost function Putters(turn: seq<Event>): seq<int> {
    if turn == [] then []
    else
      var n := |turn| - 1;
      Putters(turn[..n]) + if Puts(turn, n) then [n] else []
  }

  /** The part at index k as event e put it, whatever became of it since. */
  predicate MadeBy(p: MessagePart, e: Event, k: nat) {
    match e
    case TextDelta(_) => p.Text? && p.id == TextId(k)
    case ToolCalled(id, _) => p.Tool? && p.id == id
    case InputRequested(requestId, questions) =>
      p.Input? && p.id == InputId(requestId) && p.requestId == requestId && p.questions == questions
    case Failed(message) => p == Error(ErrorId(k), message)
    case Done(error) => error.Some? && p == Error(ErrorId(k), error.value)
    case _ => false
  }

  /** What an event does: put one part at the end, or change a part in place. Text goes to the end
      either way. */
  lemma FoldPuts(turn: seq<Event>)
    requires OneTurn(turn) && turn != []
    ensures var n := |turn| - 1;
      var parts, next := FoldAll([], turn[..n]), FoldAll([], turn);
      && |next| == |parts| + (if Puts(turn, n) then 1 else 0)
      && (Puts(turn, n) ==> next[..|parts|] == parts && MadeBy(next[|parts|], turn[n], |parts|))
      && (!Puts(turn, n) ==> Alike(parts, next))
  {
    var n := |turn| - 1;
    var parts, e := FoldAll([], turn[..n]), turn[n];
    TurnSnoc(turn);
    FoldGrowsTheEnd(turn);
    EndIsTalk(turn[..n]);
    if e.Done? && e.error.Some? { EndIsFailure(turn[..n], e.error.value); }
    FoldPutsOne(parts, e, Puts(turn, n));
  }

  /** The same parts but for fields that change in place; text changes at most at the end. */
  ghost predicate Alike(parts: seq<MessagePart>, next: seq<MessagePart>) {
    && |next| == |parts|
    && (forall i :: 0 <= i < |parts| ==> SamePart(parts[i], next[i]))
    && forall i :: 0 <= i < |parts| - 1 && (parts[i].Text? || next[i].Text?) ==> next[i] == parts[i]
  }

  predicate SamePart(p: MessagePart, q: MessagePart) {
    && q.id == p.id
    && match p
       case Text(_, _) => q.Text?
       case Tool(_, _, _, _) => q.Tool?
       case Input(_, requestId, questions, _) => q.Input? && q.requestId == requestId && q.questions == questions
       case Error(_, _) => q == p
  }

  lemma FoldPutsOne(parts: seq<MessagePart>, e: Event, puts: bool)
    requires !TurnBoundary(e)
    requires e.TextDelta? ==> (puts <==> !EndsInText(parts))
    requires e.ToolCalled? ==> (puts <==> ToolIndex(parts, e.id) == |parts|)
    requires e.InputRequested? ==> (puts <==> !HasId(parts, InputId(e.requestId)))
    requires e.Failed? ==> puts
    requires e.Done? ==> (puts <==> e.error.Some? && !EndsInError(parts, e.error.value))
    requires e.ToolResult? || e.InputResolved? || e.ReasoningDelta? || e.Bookkeeping? ==> !puts
    ensures var next := Fold(parts, e);
      && |next| == |parts| + (if puts then 1 else 0)
      && (puts ==> next[..|parts|] == parts && MadeBy(next[|parts|], e, |parts|))
      && (!puts ==> Alike(parts, next))
  {
  }

  lemma AlikeSpeaks(parts: seq<MessagePart>, next: seq<MessagePart>, k: nat)
    requires Alike(parts, next) && k < |parts|
    ensures Spoken(next[..k]) == Spoken(parts[..k])
  {
    SpokenSame(parts[..k], next[..k]);
  }

  /** Part k is the k-th putter's, and in front of it stands exactly what was said before. */
  ghost predicate StandsAt(turn: seq<Event>, parts: seq<MessagePart>, at: seq<int>, k: int) {
    && 0 <= k < |parts| == |at| && 0 <= at[k] < |turn| && Puts(turn, at[k])
    && MadeBy(parts[k], turn[at[k]], k)
    && Spoken(parts[..k]) == Deltas(turn[..at[k]])
  }

  lemma DeltasOfTurn(turn: seq<Event>)
    requires OneTurn(turn)
    ensures Spoken(FoldAll([], turn)) == Deltas(turn)
  {
    TextIsTheDeltas(turn);
  }

  lemma PutsFront(turn: seq<Event>, j: int)
    requires turn != [] && j < |turn| - 1
    ensures Puts(turn[..|turn| - 1], j) == Puts(turn, j)
  {
    MovesFront(turn, j);
    if 0 <= j { assert turn[..|turn| - 1][..j] == turn[..j]; }
  }

  lemma StandsOn(turn: seq<Event>, parts: seq<MessagePart>, next: seq<MessagePart>, at: seq<int>, later: seq<int>, k: int)
    requires turn != [] && StandsAt(turn[..|turn| - 1], parts, at, k)
    requires |parts| <= |next| == |later| && at <= later
    requires next[..|parts|] == parts || Alike(parts, next)
    ensures StandsAt(turn, next, later, k)
  {
    var before := turn[..|turn| - 1];
    PutsFront(turn, at[k]);
    assert before[..at[k]] == turn[..at[k]] && later[k] == at[k];
    if next[..|parts|] == parts {
      assert next[..k] == parts[..k] && next[k] == parts[k];
    } else {
      AlikeSpeaks(parts, next, k);
      assert SamePart(parts[k], next[k]);
    }
  }

  lemma {:induction false} TurnStands(turn: seq<Event>)
    requires OneTurn(turn)
    ensures var parts, at := FoldAll([], turn), Putters(turn);
      |parts| == |at| && forall k :: 0 <= k < |parts| ==> StandsAt(turn, parts, at, k)
  {
    if turn != [] {
      var n := |turn| - 1;
      var parts, next, at, later := FoldAll([], turn[..n]), FoldAll([], turn), Putters(turn[..n]), Putters(turn);
      TurnSnoc(turn);
      TurnStands(turn[..n]);
      FoldPuts(turn);
      DeltasOfTurn(turn[..n]);
      forall k | 0 <= k < |next| ensures StandsAt(turn, next, later, k) {
        if k < |parts| { StandsOn(turn, parts, next, at, later, k); }
      }
    }
  }

  /** MAIN RESULT on the fold. Since the last boundary: there is one part for each event that puts
      one, in the order of these events, of their kind and under their name; and the text in front
      of a part is exactly what was said before the event that put it. So text never moves across
      a tool, a question or an error. */
  lemma PartsInOrder(events: seq<Event>)
    ensures var turn, parts := Turn(events), FoldAll([], events);
      var at := Putters(turn);
      && |parts| == |at|
      && (forall k :: 0 <= k < |parts| ==> StandsAt(turn, parts, at, k))
      && Spoken(parts) == Deltas(turn)
  {
    FoldsItsTurn(events);
    TurnStands(Turn(events));
    DeltasOfTurn(Turn(events));
  }

  lemma {:induction false} PuttersAscend(turn: seq<Event>)
    ensures forall k :: 0 <= k < |Putters(turn)| ==> 0 <= Putters(turn)[k] < |turn| && Puts(turn, Putters(turn)[k])
    ensures forall k, l :: 0 <= k < l < |Putters(turn)| ==> Putters(turn)[k] < Putters(turn)[l]
    ensures forall j :: 0 <= j < |turn| && Puts(turn, j) ==> j in Putters(turn)
  {
    if turn != [] {
      var n := |turn| - 1;
      PuttersAscend(turn[..n]);
      forall j | j < n ensures Puts(turn[..n], j) == Puts(turn, j) {
        PutsFront(turn, j);
      }
      LastPutter(turn, Putters(turn[..n]));
    }
  }

  lemma LastPutter(turn: seq<Event>, front: seq<int>)
    requires turn != []
    requires forall k :: 0 <= k < |front| ==> 0 <= front[k] < |turn| - 1 && Puts(turn, front[k])
    requires forall k, l :: 0 <= k < l < |front| ==> front[k] < front[l]
    requires forall j :: 0 <= j < |turn| - 1 && Puts(turn, j) ==> j in front
    ensures var all := front + if Puts(turn, |turn| - 1) then [|turn| - 1] else [];
      && (forall k :: 0 <= k < |all| ==> 0 <= all[k] < |turn| && Puts(turn, all[k]))
      && (forall k, l :: 0 <= k < l < |all| ==> all[k] < all[l])
      && forall j :: 0 <= j < |turn| && Puts(turn, j) ==> j in all
  {
  }

  /** Text that follows text joins it: no two parts in a row are text. */
  lemma {:induction false} TextIsNeverSplit(turn: seq<Event>)
    requires OneTurn(turn)
    ensures var parts := FoldAll([], turn);
      forall k :: 0 < k < |parts| ==> !(parts[k - 1].Text? && parts[k].Text?)
  {
    if turn != [] {
      var n := |turn| - 1;
      TextIsNeverSplit(turn[..n]);
      FoldPuts(turn);
      EndIsTalk(turn[..n]);
      var parts, next := FoldAll([], turn[..n]), FoldAll([], turn);
      forall k | 0 < k < |next| ensures !(next[k - 1].Text? && next[k].Text?) {
        if k < |parts| {
          assert !(parts[k - 1].Text? && parts[k].Text?);
          if Puts(turn, n) { assert next[k - 1] == parts[k - 1] && next[k] == parts[k]; }
          else { assert SamePart(parts[k - 1], next[k - 1]) && SamePart(parts[k], next[k]); }
        }
      }
    }
  }

  lemma PartsAlternate(events: seq<Event>)
    ensures var parts := FoldAll([], events);
      forall k :: 0 < k < |parts| ==> !(parts[k - 1].Text? && parts[k].Text?)
  {
    FoldsItsTurn(events);
    TextIsNeverSplit(Turn(events));
  }

  // ----- names -----

  /** Tools go by their own ids; among themselves, and among all other parts, no two share a name. */
  ghost predicate NamesDistinct(parts: seq<MessagePart>) {
    forall i, j :: 0 <= i < j < |parts| && (parts[i].Tool? <==> parts[j].Tool?) ==> parts[i].id != parts[j].id
  }

  /** Every part but a tool is named after its kind, and texts and errors after their place. */
  ghost predicate NamedInPlace(parts: seq<MessagePart>) {
    forall i :: 0 <= i < |parts| ==>
      match parts[i]
      case Text(id, _) => id == TextId(i)
      case Error(id, _) => id == ErrorId(i)
      case Input(id, requestId, _, _) => id == InputId(requestId)
      case Tool(_, _, _, _) => true
  }

  lemma PlacedNamesDiffer(m: nat, n: nat)
    ensures TextId(m) != ErrorId(n)
    ensures m != n ==> TextId(m) != TextId(n) && ErrorId(m) != ErrorId(n)
  {
    assert TextId(m)[0] == 't' && ErrorId(n)[0] == 'e';
    assert ErrorId(m)[1..] == Decimal(m) && ErrorId(n)[1..] == Decimal(n);
    if TextId(m) == TextId(n) { TextIdInjective(m, n); }
    if ErrorId(m) == ErrorId(n) { DecimalInjective(m, n); }
  }

  lemma NewNameDiffers(parts: seq<MessagePart>, p: MessagePart, i: nat)
    requires NamedInPlace(parts + [p]) && i < |parts| && (parts[i].Tool? <==> p.Tool?)
    requires p.Tool? ==> ToolIndex(parts, p.id) == |parts|
    requires p.Input? ==> !HasId(parts, p.id)
    ensures parts[i].id != p.id
  {
    var all, n := parts + [p], |parts|;
    assert all[i] == parts[i] && all[n] == p && parts[i] in parts;
    PlacedNamesDiffer(i, n);
    PlacedNamesDiffer(n, i);
    if parts[i].Input? {
      NamesDiffer(n, parts[i].requestId);
    }
  }

  lemma PuttingNames(parts: seq<MessagePart>, p: MessagePart)
    requires NamesDistinct(parts) && NamedInPlace(parts + [p])
    requires p.Tool? ==> ToolIndex(parts, p.id) == |parts|
    requires p.Input? ==> !HasId(parts, p.id)
    ensures NamesDistinct(parts + [p])
  {
    var all := parts + [p];
    forall i, j | 0 <= i < j < |all| && (all[i].Tool? <==> all[j].Tool?) ensures all[i].id != all[j].id {
      if j == |parts| { NewNameDiffers(parts, p, i); }
    }
  }

  lemma FoldNames(parts: seq<MessagePart>, e: Event)
    requires NamedInPlace(parts)
    ensures NamedInPlace(Fold(parts, e))
  {
  }

  lemma FoldNamesDistinct(parts: seq<MessagePart>, e: Event)
    requires NamedInPlace(parts) && NamesDistinct(parts)
    ensures NamesDistinct(Fold(parts, e))
  {
    FoldNames(parts, e);
    var next := Fold(parts, e);
    if |next| == |parts| + 1 {
      assert next == parts + [next[|parts|]];
      PuttingNames(parts, next[|parts|]);
    }
  }

  lemma {:induction false} FoldAllNames(parts: seq<MessagePart>, events: seq<Event>)
    requires NamedInPlace(parts) && NamesDistinct(parts)
    ensures NamedInPlace(FoldAll(parts, events)) && NamesDistinct(FoldAll(parts, events))
    decreases |events|
  {
    if events != [] {
      FoldNames(parts, events[0]);
      FoldNamesDistinct(parts, events[0]);
      FoldAllNames(Fold(parts, events[0]), events[1..]);
    }
  }

  /** Whatever happened: no two tools share an id, and no two other parts share a name. */
  lemma PartNamesDiffer(events: seq<Event>)
    ensures var parts := FoldAll([], events);
      forall i, j :: 0 <= i < j < |parts| && (parts[i].Tool? <==> parts[j].Tool?) ==> parts[i].id != parts[j].id
  {
    FoldAllNames([], events);
  }
}
