/** Message parts and the event fold (crates/doc/src/parts.rs). */
module Parts {
  import opened Common

  datatype Status = Streaming | Complete | Aborted

  datatype Role = User | Assistant | System

  /** Tool calls. The variants the privacy policy rewrites are spelled out; the ones it
      passes through unchanged are `Plain`. */
  datatype ToolCall =
    | Plain(tool: string, argument: Bytes)
    | WriteFile(path: Bytes, content: Option<Bytes>)
    | EditFile(path: Bytes, oldString: Option<Bytes>, newString: Option<Bytes>)
    | WebFetch(url: Bytes, prompt: Option<Bytes>)
    | Mcp(server: Bytes, tool: string, input: Option<Bytes>)
    | Unknown(name: Bytes, input: Option<Bytes>)

  datatype Question = Question(id: string, question: Bytes)

  datatype MessagePart =
    | Text(id: string, text: Bytes)
    | Tool(id: string, call: ToolCall, isError: bool, resolved: bool)
    | Input(id: string, requestId: string, questions: seq<Question>, resolved: bool)
    | Error(id: string, message: Bytes)

  datatype Entry = Entry(
    id: string,
    role: Role,
    parts: seq<MessagePart>,
    createdAt: int,
    deviceId: string,
    status: Option<Status>,
    continuationOf: Option<string>)

  datatype Event =
    | SessionStarted
    | Steered
    | TextDelta(text: Bytes)
    | ReasoningDelta(text: Bytes)
    | ToolCalled(id: string, call: ToolCall)
    | ToolResult(id: string, isError: bool)
    | InputRequested(requestId: string, questions: seq<Question>)
    | InputResolved(requestId: string)
    | Failed(message: Bytes)
    | Done(error: Option<Bytes>)
    | Bookkeeping  // AssistantMessageCompleted, Usage, SessionTitle

  function TextId(n: nat): string { "t" + Decimal(n) }

  function ErrorId(n: nat): string { "e" + Decimal(n) }

  function InputId(requestId: string): string { "in-" + requestId }

  lemma TextIdInjective(m: nat, n: nat)
    requires TextId(m) == TextId(n)
    ensures m == n
  {
    assert TextId(m)[1..] == Decimal(m) && TextId(n)[1..] == Decimal(n);
    DecimalInjective(m, n);
  }

  // ----- the fold, as a function of the accumulator -----

  /** First tool part with the given id, or |parts|. */
  function ToolIndex(parts: seq<MessagePart>, id: string): (k: nat)
    ensures k <= |parts|
    ensures k < |parts| ==> parts[k].Tool? && parts[k].id == id
    ensures forall j :: 0 <= j < k ==> !(parts[j].Tool? && parts[j].id == id)
  {
    if parts == [] then 0
    else if parts[0].Tool? && parts[0].id == id then 0
    else
      var r := ToolIndex(parts[1..], id);
      assert forall j :: 0 < j < r + 1 ==> parts[j] == parts[1..][j - 1];
      r + 1
  }

  function ResolveTool(p: MessagePart, id: string, isError: bool): MessagePart {
    if p.Tool? && p.id == id then Tool(id, p.call, isError, true) else p
  }

  function ResolveInput(p: MessagePart, requestId: string): MessagePart {
    if p.Input? && p.requestId == requestId then Input(p.id, requestId, p.questions, true) else p
  }

  predicate HasId(parts: seq<MessagePart>, id: string) {
    exists p :: p in parts && p.id == id
  }

  predicate EndsInText(parts: seq<MessagePart>) {
    |parts| > 0 && parts[|parts| - 1].Text?
  }

  predicate EndsInError(parts: seq<MessagePart>, message: Bytes) {
    |parts| > 0 && parts[|parts| - 1].Error? && parts[|parts| - 1].message == message
  }

  function Fold(parts: seq<MessagePart>, event: Event): seq<MessagePart> {
    match event
    case SessionStarted => []
    case Steered => []
    case TextDelta(text) =>
      if EndsInText(parts) then
        var last := parts[|parts| - 1];
        parts[|parts| - 1 := last.(text := last.text + text)]
      else
        parts + [Text(TextId(|parts|), text)]
    case ReasoningDelta(_) => parts
    case ToolCalled(id, call) =>
      var k := ToolIndex(parts, id);
      if k < |parts| then parts[k := parts[k].(call := call)]
      else parts + [Tool(id, call, false, false)]
    case ToolResult(id, isError) =>
      seq(|parts|, i requires 0 <= i < |parts| => ResolveTool(parts[i], id, isError))
    case InputRequested(requestId, questions) =>
      if HasId(parts, InputId(requestId)) then parts
      else parts + [Input(InputId(requestId), requestId, questions, false)]
    case InputResolved(requestId) =>
      seq(|parts|, i requires 0 <= i < |parts| => ResolveInput(parts[i], requestId))
    case Failed(message) => parts + [Error(ErrorId(|parts|), message)]
    case Done(error) =>
      if error.Some? && !EndsInError(parts, error.value)
      then parts + [Error(ErrorId(|parts|), error.value)] else parts
    case Bookkeeping => parts
  }

  function FoldAll(parts: seq<MessagePart>, events: seq<Event>): seq<MessagePart>
    decreases |events|
  {
    if events == [] then parts else FoldAll(Fold(parts, events[0]), events[1..])
  }

  lemma {:induction false} FoldAllSnoc(parts: seq<MessagePart>, events: seq<Event>, e: Event)
    ensures FoldAll(parts, events + [e]) == Fold(FoldAll(parts, events), e)
    decreases |events|
  {
    if events == [] {
      assert [e][1..] == [];
      assert FoldAll(Fold(parts, e), []) == Fold(parts, e);
    } else {
      assert (events + [e])[0] == events[0] && (events + [e])[1..] == events[1..] + [e];
      FoldAllSnoc(Fold(parts, events[0]), events[1..], e);
    }
  }

  /** The accumulator the run loop owns; `fold_event_into_parts` edits it in place. */
  class Accumulator {
    var out: seq<MessagePart>

    constructor ()
      ensures out == []
    {
      out := [];
    }

    /** Where the tool with the id stands, or the length. */
    method FindTool(id: string) returns (k: nat)
      ensures k == ToolIndex(out, id)
    {
      k := 0;
      while k < |out| && !(out[k].Tool? && out[k].id == id)
        invariant 0 <= k <= |out|
        invariant forall j :: 0 <= j < k ==> !(out[j].Tool? && out[j].id == id)
      {
        k := k + 1;
      }
    }

    method FoldEvent(event: Event)
      modifies this
      ensures out == Fold(old(out), event)
    {
      match event
      case SessionStarted => out := [];
      case Steered => out := [];
      case TextDelta(text) =>
        if |out| > 0 && out[|out| - 1].Text? {
          var last := out[|out| - 1];
          out := out[|out| - 1 := Text(last.id, last.text + text)];
        } else {
          out := out + [Text(TextId(|out|), text)];
        }
      case ReasoningDelta(_) =>
      case ToolCalled(id, call) =>
        var k := FindTool(id);
        if k < |out| {
          out := out[k := out[k].(call := call)];
        } else {
          out := out + [Tool(id, call, false, false)];
        }
      case ToolResult(id, isError) =>
        for i := 0 to |out|
          invariant |out| == |old(out)|
          invariant forall j :: 0 <= j < i ==> out[j] == ResolveTool(old(out)[j], id, isError)
          invariant forall j :: i <= j < |out| ==> out[j] == old(out)[j]
        {
          if out[i].Tool? && out[i].id == id {
            out := out[i := Tool(id, out[i].call, isError, true)];
          }
        }
      case InputRequested(requestId, questions) =>
        var id := InputId(requestId);
        if !(exists p :: p in out && p.id == id) {
          out := out + [Input(id, requestId, questions, false)];
        }
      case InputResolved(requestId) =>
        for i := 0 to |out|
          invariant |out| == |old(out)|
          invariant forall j :: 0 <= j < i ==> out[j] == ResolveInput(old(out)[j], requestId)
          invariant forall j :: i <= j < |out| ==> out[j] == old(out)[j]
        {
          if out[i].Input? && out[i].requestId == requestId {
            out := out[i := Input(out[i].id, requestId, out[i].questions, true)];
          }
        }
      case Failed(message) =>
        out := out + [Error(ErrorId(|out|), message)];
      case Done(error) =>
        if error.Some? {
          var duplicate := |out| > 0 && out[|out| - 1].Error? && out[|out| - 1].message == error.value;
          if !duplicate {
            out := out + [Error(ErrorId(|out|), error.value)];
          }
        }
      case Bookkeeping =>
    }

    /** The end of a run resolves every question it left open (crates/engine/src/sessions.rs). */
    method ResolveOpenInputs()
      modifies this
      ensures out == CloseInputs(old(out))
    {
      for i := 0 to |out|
        invariant |out| == |old(out)|
        invariant forall j :: 0 <= j < i ==> out[j] == CloseInput(old(out)[j])
        invariant forall j :: i <= j < |out| ==> out[j] == old(out)[j]
      {
        if out[i].Input? {
          out := out[i := Input(out[i].id, out[i].requestId, out[i].questions, true)];
        }
      }
    }
  }

  function CloseInput(p: MessagePart): MessagePart {
    if p.Input? then Input(p.id, p.requestId, p.questions, true) else p
  }

  function CloseInputs(parts: seq<MessagePart>): seq<MessagePart> {
    seq(|parts|, i requires 0 <= i < |parts| => CloseInput(parts[i]))
  }

  // ----- what every fold keeps -----

  /** One part may become another without the segment writer losing track of it. */
  predicate PartGrows(p: MessagePart, q: MessagePart) {
    p.id == q.id &&
    match p
    case Text(_, text) => q.Text? && text <= q.text
    case Tool(_, _, _, resolved) => q.Tool? && (resolved ==> q.resolved)
    case Input(_, requestId, questions, resolved) =>
      q.Input? && q.requestId == requestId && q.questions == questions && (resolved ==> q.resolved)
    case Error(_, _) => q == p
  }

  predicate Grows(ps: seq<MessagePart>, qs: seq<MessagePart>) {
    |ps| <= |qs| && forall i :: 0 <= i < |ps| ==> PartGrows(ps[i], qs[i])
  }

  /** Text at index i is called t{i}; an unresolved tool carries no error; inputs are named
      after their request. */
  predicate WellFolded(parts: seq<MessagePart>) {
    forall i :: 0 <= i < |parts| ==>
      match parts[i]
      case Text(id, _) => id == TextId(i)
      case Tool(_, _, isError, resolved) => isError ==> resolved
      case Input(id, requestId, _, _) => id == InputId(requestId)
      case Error(_, _) => true
  }

  predicate TurnBoundary(e: Event) { e.SessionStarted? || e.Steered? }

  lemma GrowsTransitive(a: seq<MessagePart>, b: seq<MessagePart>, c: seq<MessagePart>)
    requires Grows(a, b) && Grows(b, c)
    ensures Grows(a, c)
  {
    forall i | 0 <= i < |a| ensures PartGrows(a[i], c[i]) {
      assert PartGrows(a[i], b[i]) && PartGrows(b[i], c[i]);
    }
  }

  lemma FoldKeepsWellFolded(parts: seq<MessagePart>, event: Event)
    requires WellFolded(parts)
    ensures WellFolded(Fold(parts, event))
  {
  }

  /** Between turn boundaries the fold only appends parts, lengthens text and sets
      `resolved`. */
  lemma FoldGrows(parts: seq<MessagePart>, event: Event)
    requires !TurnBoundary(event)
    ensures Grows(parts, Fold(parts, event))
  {
  }

  lemma CloseInputsGrows(parts: seq<MessagePart>)
    ensures Grows(parts, CloseInputs(parts))
    ensures WellFolded(parts) ==> WellFolded(CloseInputs(parts))
  {
  }

  lemma {:induction false} FoldAllKeeps(parts: seq<MessagePart>, events: seq<Event>)
    ensures WellFolded(parts) ==> WellFolded(FoldAll(parts, events))
    ensures (forall e :: e in events ==> !TurnBoundary(e)) ==> Grows(parts, FoldAll(parts, events))
    decreases |events|
  {
    if events != [] {
      var next := Fold(parts, events[0]);
      if WellFolded(parts) { FoldKeepsWellFolded(parts, events[0]); }
      FoldAllKeeps(next, events[1..]);
      if forall e :: e in events ==> !TurnBoundary(e) {
        FoldGrows(parts, events[0]);
        GrowsTransitive(parts, next, FoldAll(next, events[1..]));
      }
    }
  }

  /** Replay is safe: whatever the accumulator held, folding a run that contains a turn
      boundary gives what folding from that boundary on an empty accumulator gives. */
  lemma {:induction false} BoundaryResets(a: seq<MessagePart>, b: seq<MessagePart>, events: seq<Event>)
    requires exists e :: e in events && TurnBoundary(e)
    ensures FoldAll(a, events) == FoldAll(b, events)
    decreases |events|
  {
    if TurnBoundary(events[0]) {
      assert Fold(a, events[0]) == [] == Fold(b, events[0]);
    } else {
      var e :| e in events && TurnBoundary(e);
      assert e in events[1..];
      BoundaryResets(Fold(a, events[0]), Fold(b, events[0]), events[1..]);
    }
  }

  // ----- the privacy policy applied before parts reach the document -----

  function SanitizeToolCall(call: ToolCall): ToolCall {
    match call
    case Plain(_, _) => call
    case WriteFile(path, _) => WriteFile(path, None)
    case EditFile(path, _, _) => EditFile(path, None, None)
    case WebFetch(url, _) => WebFetch(url, None)
    case Mcp(server, tool, _) => Mcp(server, tool, None)
    case Unknown(name, _) => Unknown(name, None)
  }

  function RenderPart(p: MessagePart): MessagePart {
    if p.Tool? then p.(call := SanitizeToolCall(p.call)) else p
  }

  function RenderParts(parts: seq<MessagePart>): seq<MessagePart> {
    seq(|parts|, i requires 0 <= i < |parts| => RenderPart(parts[i]))
  }

  lemma RenderKeeps(ps: seq<MessagePart>, qs: seq<MessagePart>)
    ensures Grows(ps, qs) ==> Grows(RenderParts(ps), RenderParts(qs))
    ensures WellFolded(ps) ==> WellFolded(RenderParts(ps))
    ensures RenderParts(RenderParts(ps)) == RenderParts(ps)
  {
  }

  /** Nothing in the call but what everybody in the chat may see. */
  predicate PrivateCall(call: ToolCall) {
    match call
    case Plain(_, _) => true
    case WriteFile(_, content) => content.None?
    case EditFile(_, oldString, newString) => oldString.None? && newString.None?
    case WebFetch(_, prompt) => prompt.None?
    case Mcp(_, _, input) => input.None?
    case Unknown(_, input) => input.None?
  }

  /** The same call as far as everybody may see. */
  predicate SamePublic(a: ToolCall, b: ToolCall) {
    match a
    case Plain(_, _) => b == a
    case WriteFile(path, _) => b.WriteFile? && b.path == path
    case EditFile(path, _, _) => b.EditFile? && b.path == path
    case WebFetch(url, _) => b.WebFetch? && b.url == url
    case Mcp(server, tool, _) => b.Mcp? && b.server == server && b.tool == tool
    case Unknown(name, _) => b.Unknown? && b.name == name
  }

  /** The rewrite keeps what may be seen and nothing else: calls that differ only in content,
      replaced and replacing text, prompt or input render alike, and all others differently. */
  lemma RenderAlikeExactly(a: ToolCall, b: ToolCall)
    ensures PrivateCall(SanitizeToolCall(a)) && SamePublic(a, SanitizeToolCall(a))
    ensures SanitizeToolCall(a) == SanitizeToolCall(b) <==> SamePublic(a, b)
  {
  }

  /** Rendering changes nothing but the private content of tool calls. */
  lemma RenderedParts(parts: seq<MessagePart>)
    ensures |RenderParts(parts)| == |parts|
    ensures forall i :: 0 <= i < |parts| ==>
      var p, r := parts[i], RenderParts(parts)[i];
      if p.Tool? then r.Tool? && r == p.(call := r.call) && PrivateCall(r.call) && SamePublic(p.call, r.call) else r == p
  {
    forall i | 0 <= i < |parts| && parts[i].Tool?
      ensures PrivateCall(RenderParts(parts)[i].call) && SamePublic(parts[i].call, RenderParts(parts)[i].call)
    {
      RenderAlikeExactly(parts[i].call, parts[i].call);
    }
  }

  /** Closing leaves no question open and changes nothing else. */
  lemma ClosedParts(parts: seq<MessagePart>)
    ensures |CloseInputs(parts)| == |parts|
    ensures forall i :: 0 <= i < |parts| ==>
      var p, c := parts[i], CloseInputs(parts)[i];
      if p.Input? then c.Input? && c.resolved && c.(resolved := p.resolved) == p else c == p
  {
  }
}
