/** Delta frames for the transcript watch (crates/doc/src/transcript_delta.rs): what a frame
    is, how the sender computes one and how a viewer applies it. */
module TranscriptDelta {
  import opened Common
  import opened Parts

  datatype Upsert = Upsert(after: Option<string>, entry: Entry)

  datatype TextAppend = TextAppend(entry: string, part: string, text: Bytes, len: nat)

  datatype Frame =
    | Reset(reset: seq<Entry>)
    | Delta(upsert: seq<Upsert>, append: seq<TextAppend>, remove: seq<string>, count: nat)
  {
    predicate IsEmptyDelta() {
      Delta? && upsert == [] && append == [] && remove == []
    }
  }

  datatype Desync =
    | MissingAnchor(anchor: string)
    | MissingEntry(entry: string)
    | MissingPart(part: string)
    | LengthMismatch(entry: string, part: string, have: nat, expected: nat)
    | CountMismatch(have: nat, expected: nat)

  // ----- lookups -----

  /** Index of the first entry with the given id, or |es|. */
  function Position(es: seq<Entry>, id: string): (k: nat)
    ensures k <= |es|
    ensures k < |es| ==> es[k].id == id
    ensures forall j :: 0 <= j < k ==> es[j].id != id
  {
    if es == [] then 0
    else if es[0].id == id then 0
    else
      var r := Position(es[1..], id);
      assert forall j :: 0 < j < r + 1 ==> es[j] == es[1..][j - 1];
      r + 1
  }

  /** Index of the last entry with the given id, or |es|: what an index built by inserting
      every entry into a hash map answers. */
  function LastPosition(es: seq<Entry>, id: string): (k: nat)
    ensures k <= |es|
    ensures k < |es| ==> es[k].id == id && forall j :: k < j < |es| ==> es[j].id != id
    ensures k == |es| ==> forall j :: 0 <= j < |es| ==> es[j].id != id
  {
    if es == [] then 0
    else if es[|es| - 1].id == id then |es| - 1
    else
      var r := LastPosition(es[..|es| - 1], id);
      if r == |es| - 1 then |es| else r
  }

  function Predecessor(es: seq<Entry>, i: nat): Option<string>
    requires i < |es|
  {
    if i == 0 then None else Some(es[i - 1].id)
  }

  // ----- the sender's side -----

  predicate SameShell(p: Entry, n: Entry) {
    n == p.(parts := n.parts) && |p.parts| == |n.parts|
  }

  /** First index at or after i where the parts differ, or |p|. */
  function FirstDifference(p: seq<MessagePart>, n: seq<MessagePart>, i: nat): (k: nat)
    requires i <= |p| == |n|
    ensures i <= k <= |p|
    ensures forall j :: i <= j < k ==> p[j] == n[j]
    ensures k < |p| ==> p[k] != n[k]
    decreases |p| - i
  {
    if i == |p| || p[i] != n[i] then i else FirstDifference(p, n, i + 1)
  }

  predicate TextGrew(p: MessagePart, n: MessagePart) {
    p.Text? && n.Text? && p.id == n.id && p.text <= n.text
  }

  /** Exactly one part differs, and it is a text part that grew. */
  predicate SoleGrowth(p: seq<MessagePart>, n: seq<MessagePart>, k: int) {
    |p| == |n| && 0 <= k < |p| && p[k] != n[k] && TextGrew(p[k], n[k]) &&
    forall j :: 0 <= j < |p| && j != k ==> p[j] == n[j]
  }

  /** `Some` exactly when `n` is `p` with one text part lengthened and nothing else changed. */
  function TextAppendOf(p: Entry, n: Entry): Option<TextAppend> {
    if !SameShell(p, n) then None
    else
      var k := FirstDifference(p.parts, n.parts, 0);
      if k == |p.parts| || !TextGrew(p.parts[k], n.parts[k]) then None
      else if FirstDifference(p.parts, n.parts, k + 1) < |p.parts| then None
      else Some(TextAppend(n.id, n.parts[k].id, n.parts[k].text[|p.parts[k].text|..], |n.parts[k].text|))
  }

  datatype Change = Keep | Grow(append: TextAppend) | Send(upsert: Upsert)

  /** What the sender does about entry i of `next`. */
  function ChangeOf(prev: seq<Entry>, next: seq<Entry>, i: nat): Change
    requires i < |next|
  {
    var after := Predecessor(next, i);
    var p := LastPosition(prev, next[i].id);
    if p == |prev| || Predecessor(prev, p) != after then Send(Upsert(after, next[i]))
    else if prev[p] == next[i] then Keep
    else
      var a := TextAppendOf(prev[p], next[i]);
      if a.Some? then Grow(a.value) else Send(Upsert(after, next[i]))
  }

  function Upserts(prev: seq<Entry>, next: seq<Entry>, i: nat): (us: seq<Upsert>)
    requires i <= |next|
    ensures |us| <= i
  {
    if i == 0 then []
    else
      var c := ChangeOf(prev, next, i - 1);
      Upserts(prev, next, i - 1) + if c.Send? then [c.upsert] else []
  }

  function Appends(prev: seq<Entry>, next: seq<Entry>, i: nat): seq<TextAppend>
    requires i <= |next|
  {
    if i == 0 then []
    else
      var c := ChangeOf(prev, next, i - 1);
      Appends(prev, next, i - 1) + if c.Grow? then [c.append] else []
  }

  predicate Has(es: seq<Entry>, id: string) {
    Position(es, id) < |es|
  }

  function Removed(prev: seq<Entry>, next: seq<Entry>): seq<string> {
    if prev == [] then []
    else (if Has(next, prev[0].id) then [] else [prev[0].id]) + Removed(prev[1..], next)
  }

  function Max(a: nat, b: nat): nat { if a < b then b else a }

  function Diff(prev: seq<Entry>, next: seq<Entry>): Frame {
    var us := Upserts(prev, next, |next|);
    if |us| * 2 >= Max(|next|, 1) && |next| > 4 then Reset(next)
    else Delta(us, Appends(prev, next, |next|), Removed(prev, next), |next|)
  }

  // ----- the viewer's side -----

  function Without(es: seq<Entry>, gone: seq<string>): seq<Entry> {
    if es == [] then []
    else (if es[0].id in gone then [] else [es[0]]) + Without(es[1..], gone)
  }

  lemma {:induction false} WithoutNone(es: seq<Entry>)
    ensures Without(es, []) == es
  {
    if es != [] { WithoutNone(es[1..]); }
  }

  function Drop(es: seq<Entry>, id: string): seq<Entry> {
    var k := Position(es, id);
    if k < |es| then es[..k] + es[k + 1..] else es
  }

  function ApplyUpsert(es: seq<Entry>, u: Upsert): Result<seq<Entry>, Desync> {
    var rest := Drop(es, u.entry.id);
    match u.after
    case None => Ok([u.entry] + rest)
    case Some(anchor) =>
      var k := Position(rest, anchor);
      if k == |rest| then Err(MissingAnchor(anchor))
      else Ok(rest[..k + 1] + [u.entry] + rest[k + 1..])
  }

  function ApplyUpserts(es: seq<Entry>, us: seq<Upsert>): Result<seq<Entry>, Desync> {
    if us == [] then Ok(es)
    else
      var r := ApplyUpserts(es, us[..|us| - 1]);
      if r.Err? then r else ApplyUpsert(r.value, us[|us| - 1])
  }

  /** Index of the first text part with the given id, or |parts|. */
  function TextIndex(parts: seq<MessagePart>, id: string): (k: nat)
    ensures k <= |parts|
    ensures k < |parts| ==> parts[k].Text? && parts[k].id == id
    ensures forall j :: 0 <= j < k ==> !(parts[j].Text? && parts[j].id == id)
  {
    if parts == [] then 0
    else if parts[0].Text? && parts[0].id == id then 0
    else
      var r := TextIndex(parts[1..], id);
      assert forall j :: 0 < j < r + 1 ==> parts[j] == parts[1..][j - 1];
      r + 1
  }

  function AppendTo(e: Entry, a: TextAppend): Result<Entry, Desync> {
    var k := TextIndex(e.parts, a.part);
    if k == |e.parts| then Err(MissingPart(a.part))
    else
      var grown := e.parts[k].text + a.text;
      if |grown| != a.len then Err(LengthMismatch(a.entry, a.part, |grown|, a.len))
      else Ok(e.(parts := e.parts[k := Text(e.parts[k].id, grown)]))
  }

  function ApplyAppend(es: seq<Entry>, a: TextAppend): Result<seq<Entry>, Desync> {
    var k := Position(es, a.entry);
    if k == |es| then Err(MissingEntry(a.entry))
    else
      var r := AppendTo(es[k], a);
      if r.Err? then Err(r.error) else Ok(es[k := r.value])
  }

  function ApplyAppends(es: seq<Entry>, as_: seq<TextAppend>): Result<seq<Entry>, Desync> {
    if as_ == [] then Ok(es)
    else
      var r := ApplyAppends(es, as_[..|as_| - 1]);
      if r.Err? then r else ApplyAppend(r.value, as_[|as_| - 1])
  }

  function ApplyDelta(es: seq<Entry>, us: seq<Upsert>, as_: seq<TextAppend>, remove: seq<string>, count: nat)
    : Result<seq<Entry>, Desync>
  {
    var r := ApplyUpserts(Without(es, remove), us);
    if r.Err? then r
    else
      var s := ApplyAppends(r.value, as_);
      if s.Err? then s
      else if |s.value| != count then Err(CountMismatch(|s.value|, count)) else s
  }

  function Apply(es: seq<Entry>, frame: Frame): Result<seq<Entry>, Desync> {
    match frame
    case Reset(reset) => Ok(reset)
    case Delta(us, as_, remove, count) => ApplyDelta(es, us, as_, remove, count)
  }
}
