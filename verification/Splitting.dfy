/** Capping the size of a message entry (crates/doc/src/parts.rs, split_parts). */
module Splitting {
  import opened Common
  import opened Parts

  /** Most bytes a message entry may carry before it is split. */
  const MSG_INLINE_MAX: nat := 256 * 1024

  // ----- UTF-8 -----

  predicate Continues(b: byte) { 0x80 <= b < 0xC0 }

  /** Length of the character a lead byte announces, or 0. */
  function CharLength(b: byte): nat {
    if b < 0x80 then 1
    else if 0xC0 <= b < 0xE0 then 2
    else if 0xE0 <= b < 0xF0 then 3
    else if 0xF0 <= b < 0xF8 then 4
    else 0
  }

  predicate StartsWithChar(s: Bytes) {
    s != [] && 0 < CharLength(s[0]) <= |s| && forall i :: 1 <= i < CharLength(s[0]) ==> Continues(s[i])
  }

  /** The shape every string of the source has: lead bytes followed by as many continuation
      bytes as they announce. */
  predicate Utf8(s: Bytes) {
    s == [] || (StartsWithChar(s) && Utf8(s[CharLength(s[0])..]))
  }

  type CodePoint = c: nat | c < 0x11_0000

  /** The bytes of a code point, section 3 of RFC 3629. */
  function Encoded(c: CodePoint): Bytes {
    if c < 0x80 then [c]
    else if c < 0x800 then [0xC0 + c / 0x40, 0x80 + c % 0x40]
    else if c < 0x1_0000 then [0xE0 + c / 0x1000, 0x80 + c / 0x40 % 0x40, 0x80 + c % 0x40]
    else [0xF0 + c / 0x4_0000, 0x80 + c / 0x1000 % 0x40, 0x80 + c / 0x40 % 0x40, 0x80 + c % 0x40]
  }

  function EncodedAll(text: seq<CodePoint>): Bytes {
    if text == [] then [] else Encoded(text[0]) + EncodedAll(text[1..])
  }

  /** Every encoded text has this shape. */
  lemma {:induction false} EncodedIsUtf8(text: seq<CodePoint>)
    ensures Utf8(EncodedAll(text))
  {
    if text != [] {
      EncodedIsUtf8(text[1..]);
      CharInFront(text[0], EncodedAll(text[1..]));
    }
  }

  lemma CharInFront(c: CodePoint, rest: Bytes)
    requires Utf8(rest)
    ensures Utf8(Encoded(c) + rest)
  {
    var s := Encoded(c) + rest;
    assert CharLength(s[0]) == |Encoded(c)|;
    assert s[|Encoded(c)|..] == rest;
  }

  predicate IsBoundary(s: Bytes, i: nat)
    requires i <= |s|
  {
    i == |s| || !Continues(s[i])
  }

  lemma SliceOfSlice(s: Bytes, n: nat, i: nat)
    requires n <= i <= |s|
    ensures s[n..][i - n..] == s[i..]
    ensures s[n..][..i - n] == s[..i][n..]
  {
    assert s[n..][..i - n] == s[n..i];
    assert s[..i][n..] == s[n..i];
  }

  /** Cutting a string at a boundary gives two strings. */
  lemma {:induction false} CutAtBoundary(s: Bytes, i: nat)
    requires Utf8(s) && i <= |s| && IsBoundary(s, i)
    ensures Utf8(s[..i]) && Utf8(s[i..])
    decreases |s|
  {
    if i == 0 {
      assert s[0..] == s;
    } else {
      var n := CharLength(s[0]);
      var t := s[n..];
      assert forall j :: 1 <= j < n ==> Continues(s[j]);
      assert i >= n;
      SliceOfSlice(s, n, i);
      if i < |s| { assert t[i - n] == s[i]; }
      CutAtBoundary(t, i - n);
    }
  }

  /** No four consecutive bytes are all continuations, so a boundary is never far. */
  lemma {:induction false} BoundaryNear(s: Bytes, i: nat)
    requires Utf8(s) && 3 <= i < |s|
    ensures IsBoundary(s, i) || IsBoundary(s, i - 1) || IsBoundary(s, i - 2) || IsBoundary(s, i - 3)
    decreases |s|
  {
    var n := CharLength(s[0]);
    assert !Continues(s[0]);
    if i - 3 >= n {
      var t := s[n..];
      assert t[i - n] == s[i] && t[i - n - 1] == s[i - 1] && t[i - n - 2] == s[i - 2] && t[i - n - 3] == s[i - 3];
      BoundaryNear(t, i - n);
    } else if i - 3 > 0 {
      var t := s[n..];
      assert t[0] == s[n] && !Continues(t[0]);
    }
  }

  // ----- pieces of an oversized text -----

  /** Largest boundary not beyond `end`. */
  function CutDown(s: Bytes, end: nat): (k: nat)
    requires end <= |s| && Utf8(s)
    ensures k <= end && IsBoundary(s, k)
    ensures forall j :: k < j <= end ==> !IsBoundary(s, j)
  {
    if IsBoundary(s, end) then end
    else
      assert end > 0;
      CutDown(s, end - 1)
  }

  function CutEnd(s: Bytes, start: nat): (k: nat)
    requires Utf8(s) && start < |s|
    ensures start < k <= |s| && k - start <= MSG_INLINE_MAX && IsBoundary(s, k)
  {
    var limit := if start + MSG_INLINE_MAX < |s| then start + MSG_INLINE_MAX else |s|;
    CutProgress(s, start, limit);
    CutDown(s, limit)
  }

  /** The search for a boundary never falls back to the start of the piece: the source's
      forward-progress guard is never taken. */
  lemma CutProgress(s: Bytes, start: nat, limit: nat)
    requires Utf8(s) && start < limit <= |s|
    requires limit == |s| || limit == start + MSG_INLINE_MAX
    ensures CutDown(s, limit) > start
  {
    if limit < |s| {
      BoundaryNear(s, limit);
    }
  }

  function Pieces(s: Bytes, start: nat): (ps: seq<Bytes>)
    requires Utf8(s) && start <= |s|
    decreases |s| - start
  {
    if start == |s| then [] else [s[start..CutEnd(s, start)]] + Pieces(s, CutEnd(s, start))
  }

  /** The part of a string between two boundaries is a string. */
  lemma CutBetween(s: Bytes, i: nat, j: nat)
    requires Utf8(s) && i <= j <= |s| && IsBoundary(s, i) && IsBoundary(s, j)
    ensures Utf8(s[i..j])
  {
    var t := s[i..];
    assert Utf8(t) by { CutAtBoundary(s, i); }
    assert IsBoundary(t, j - i) by { if j < |s| { assert t[j - i] == s[j]; } }
    assert Utf8(t[..j - i]) by { CutAtBoundary(t, j - i); }
    assert t[..j - i] == s[i..j];
  }

  predicate IsPiece(p: Bytes) { 0 < |p| <= MSG_INLINE_MAX && Utf8(p) }

  lemma FirstPiece(s: Bytes, start: nat)
    requires Utf8(s) && start < |s| && IsBoundary(s, start)
    ensures var end := CutEnd(s, start);
      && IsPiece(s[start..end]) && s[start..] == s[start..end] + s[end..]
      && Pieces(s, start) == [s[start..end]] + Pieces(s, end)
  {
    CutBetween(s, start, CutEnd(s, start));
  }

  /** Pieces are strings, non-empty, within the cap, and spell the text. */
  lemma {:induction false} PiecesSpell(s: Bytes, start: nat)
    requires Utf8(s) && start <= |s| && IsBoundary(s, start)
    ensures Concat(Pieces(s, start)) == s[start..]
    ensures forall p :: p in Pieces(s, start) ==> IsPiece(p)
    decreases |s| - start
  {
    if start < |s| {
      var end := CutEnd(s, start);
      FirstPiece(s, start);
      PiecesSpell(s, end);
      ConcatCons(s[start..end], Pieces(s, end));
    }
  }

  function PieceId(id: string, n: nat): string {
    if n == 0 then id else id + "~" + Decimal(n)
  }

  function Labelled(id: string, ps: seq<Bytes>, n: nat): seq<MessagePart> {
    if ps == [] then [] else [Text(PieceId(id, n), ps[0])] + Labelled(id, ps[1..], n + 1)
  }

  predicate Oversized(p: MessagePart) { p.Text? && |p.text| > MSG_INLINE_MAX }

  predicate Utf8Texts(parts: seq<MessagePart>) {
    forall p :: p in parts && p.Text? ==> Utf8(p.text)
  }

  /** One part, with an oversized text replaced by its labelled pieces. */
  function Expand(p: MessagePart): seq<MessagePart>
    requires p.Text? ==> Utf8(p.text)
  {
    if Oversized(p) then Labelled(p.id, Pieces(p.text, 0), 0) else [p]
  }

  function Expanded(parts: seq<MessagePart>): seq<MessagePart>
    requires Utf8Texts(parts)
  {
    if parts == [] then [] else Expand(parts[0]) + Expanded(parts[1..])
  }

  // ----- filling chunks -----

  /** Bytes a part weighs; tool calls and questions weigh their JSON, measured by `json`. */
  function ByteLen(p: MessagePart, json: MessagePart -> nat): nat {
    match p
    case Text(_, text) => |text|
    case Error(_, message) => |message|
    case Tool(_, _, _, _) => json(p)
    case Input(_, _, _, _) => json(p)
  }

  function Weight(parts: seq<MessagePart>, json: MessagePart -> nat): nat {
    if parts == [] then 0 else Weight(parts[..|parts| - 1], json) + ByteLen(parts[|parts| - 1], json)
  }

  function Flat(chunks: seq<seq<MessagePart>>): seq<MessagePart> {
    if chunks == [] then [] else Flat(chunks[..|chunks| - 1]) + chunks[|chunks| - 1]
  }

  predicate Full(last: seq<MessagePart>, p: MessagePart, json: MessagePart -> nat) {
    Weight(last, json) > 0 && Weight(last, json) + ByteLen(p, json) > MSG_INLINE_MAX
  }

  /** Put a part into the last chunk, or into a new one if it no longer fits there. */
  function Place(chunks: seq<seq<MessagePart>>, p: MessagePart, json: MessagePart -> nat): seq<seq<MessagePart>>
    requires chunks != []
  {
    var last := chunks[|chunks| - 1];
    if Full(last, p, json)
    then chunks + [[p]]
    else chunks[|chunks| - 1 := last + [p]]
  }

  function PlaceAll(parts: seq<MessagePart>, json: MessagePart -> nat): (chunks: seq<seq<MessagePart>>)
    ensures chunks != []
  {
    if parts == [] then [[]]
    else Place(PlaceAll(parts[..|parts| - 1], json), parts[|parts| - 1], json)
  }

  function Split(parts: seq<MessagePart>, json: MessagePart -> nat): seq<seq<MessagePart>>
    requires Utf8Texts(parts)
  {
    PlaceAll(Expanded(parts), json)
  }

  /** Within the cap, or weightless parts followed by one part that is too heavy on its own. */
  ghost predicate Fits(chunk: seq<MessagePart>, json: MessagePart -> nat) {
    Weight(chunk, json) <= MSG_INLINE_MAX ||
    (&& chunk != []
     && Weight(chunk[..|chunk| - 1], json) == 0
     && !chunk[|chunk| - 1].Text?)
  }

  ghost predicate NoRoomBefore(chunks: seq<seq<MessagePart>>, i: nat, json: MessagePart -> nat)
    requires 0 < i < |chunks|
  {
    && chunks[i] != []
    && Weight(chunks[i - 1], json) > 0
    && Weight(chunks[i - 1], json) + ByteLen(chunks[i][0], json) > MSG_INLINE_MAX
  }

  /** A chunk was closed only because the next chunk's first part did not fit into it. */
  ghost predicate Greedy(chunks: seq<seq<MessagePart>>, json: MessagePart -> nat) {
    forall i :: 0 < i < |chunks| ==> NoRoomBefore(chunks, i, json)
  }

  ghost predicate AllFit(chunks: seq<seq<MessagePart>>, json: MessagePart -> nat) {
    forall c :: c in chunks ==> Fits(c, json)
  }

  lemma WeightSnoc(chunk: seq<MessagePart>, p: MessagePart, json: MessagePart -> nat)
    ensures Weight(chunk + [p], json) == Weight(chunk, json) + ByteLen(p, json)
  {
    assert (chunk + [p])[..|chunk|] == chunk;
  }

  lemma FlatSnoc(chunks: seq<seq<MessagePart>>, last: seq<MessagePart>)
    ensures Flat(chunks + [last]) == Flat(chunks) + last
  {
    assert (chunks + [last])[..|chunks|] == chunks;
  }

  lemma FitsMore(last: seq<MessagePart>, p: MessagePart, json: MessagePart -> nat)
    requires (!Oversized(p) && Weight(last, json) == 0) || Weight(last, json) + ByteLen(p, json) <= MSG_INLINE_MAX
    ensures Fits(last + [p], json)
  {
    WeightSnoc(last, p, json);
    assert (last + [p])[..|last|] == last;
  }

  lemma PlaceNew(chunks: seq<seq<MessagePart>>, p: MessagePart, json: MessagePart -> nat)
    requires chunks != [] && !Oversized(p) && Greedy(chunks, json) && AllFit(chunks, json)
    requires var last := chunks[|chunks| - 1];
      Weight(last, json) > 0 && Weight(last, json) + ByteLen(p, json) > MSG_INLINE_MAX
    ensures Flat(chunks + [[p]]) == Flat(chunks) + [p]
    ensures Greedy(chunks + [[p]], json) && AllFit(chunks + [[p]], json)
  {
    var r := chunks + [[p]];
    FlatSnoc(chunks, [p]);
    FitsMore([], p, json);
    assert [] + [p] == [p];
    forall i | 0 < i < |r| ensures NoRoomBefore(r, i, json) {
      assert r[i - 1] == chunks[i - 1];
      if i < |chunks| { assert NoRoomBefore(chunks, i, json); }
    }
  }

  lemma PlaceLast(front: seq<seq<MessagePart>>, last: seq<MessagePart>, p: MessagePart, json: MessagePart -> nat)
    requires !Oversized(p) && Greedy(front + [last], json) && AllFit(front + [last], json)
    requires Weight(last, json) == 0 || Weight(last, json) + ByteLen(p, json) <= MSG_INLINE_MAX
    ensures Flat(front + [last + [p]]) == Flat(front + [last]) + [p]
    ensures Greedy(front + [last + [p]], json) && AllFit(front + [last + [p]], json)
  {
    var chunks, r := front + [last], front + [last + [p]];
    FlatSnoc(front, last);
    FlatSnoc(front, last + [p]);
    assert Flat(front) + (last + [p]) == (Flat(front) + last) + [p];
    FitsMore(last, p, json);
    forall i | 0 < i < |r| ensures NoRoomBefore(r, i, json) {
      assert NoRoomBefore(chunks, i, json);
      assert r[i - 1] == chunks[i - 1];
    }
    forall c | c in r ensures Fits(c, json) {
      if c != last + [p] { assert c in front && c in chunks; }
    }
  }

  lemma PlaceKeeps(chunks: seq<seq<MessagePart>>, p: MessagePart, json: MessagePart -> nat)
    requires chunks != [] && !Oversized(p) && Greedy(chunks, json) && AllFit(chunks, json)
    ensures Flat(Place(chunks, p, json)) == Flat(chunks) + [p]
    ensures Greedy(Place(chunks, p, json), json) && AllFit(Place(chunks, p, json), json)
  {
    var front, last := chunks[..|chunks| - 1], chunks[|chunks| - 1];
    if Weight(last, json) > 0 && Weight(last, json) + ByteLen(p, json) > MSG_INLINE_MAX {
      PlaceNew(chunks, p, json);
    } else {
      assert chunks == front + [last];
      PlaceLast(front, last, p, json);
      assert chunks[|chunks| - 1 := last + [p]] == front + [last + [p]];
    }
  }

  lemma {:induction false} PlaceAllKeeps(parts: seq<MessagePart>, json: MessagePart -> nat)
    requires forall p :: p in parts ==> !Oversized(p)
    ensures Flat(PlaceAll(parts, json)) == parts
    ensures Greedy(PlaceAll(parts, json), json) && AllFit(PlaceAll(parts, json), json)
  {
    if parts == [] {
      var empty: seq<seq<MessagePart>> := [[]];
      assert empty[..0] == [] && Flat(empty) == Flat([]) + [];
    } else {
      var before, p := parts[..|parts| - 1], parts[|parts| - 1];
      PlaceAllKeeps(before, json);
      assert p in parts && before + [p] == parts;
      PlaceKeeps(PlaceAll(before, json), p, json);
    }
  }

  predicate Small(p: MessagePart) { !Oversized(p) && (p.Text? ==> Utf8(p.text)) }

  lemma ExpandFits(p: MessagePart)
    requires p.Text? ==> Utf8(p.text)
    ensures forall q :: q in Expand(p) ==> Small(q)
  {
    if Oversized(p) {
      var ps := Pieces(p.text, 0);
      PiecesSpell(p.text, 0);
      LabelledTexts(p.id, ps, 0);
      forall q | q in Expand(p) ensures Small(q) {
        assert IsPiece(q.text);
      }
    }
  }

  lemma {:induction false} ExpandedFits(parts: seq<MessagePart>)
    requires Utf8Texts(parts)
    ensures forall q :: q in Expanded(parts) ==> Small(q)
  {
    if parts != [] {
      ExpandedFits(parts[1..]);
      ExpandFits(parts[0]);
    }
  }

  lemma {:induction false} LabelledTexts(id: string, ps: seq<Bytes>, n: nat)
    ensures forall q :: q in Labelled(id, ps, n) ==> q.Text? && q.text in ps
  {
    if ps != [] {
      LabelledTexts(id, ps[1..], n + 1);
      forall q | q in Labelled(id, ps, n) ensures q.Text? && q.text in ps {
        assert q == Text(PieceId(id, n), ps[0]) || q in Labelled(id, ps[1..], n + 1);
      }
    }
  }

  /** MAIN RESULT. The chunks, put end to end, are the parts with every oversized text replaced
      by its pieces; every chunk fits; none was closed early. */
  lemma SplitIsBounded(parts: seq<MessagePart>, json: MessagePart -> nat)
    requires Utf8Texts(parts)
    ensures Flat(Split(parts, json)) == Expanded(parts)
    ensures AllFit(Split(parts, json), json)
    ensures Greedy(Split(parts, json), json)
  {
    ExpandedFits(parts);
    PlaceAllKeeps(Expanded(parts), json);
  }

  // ----- nothing is lost -----

  function AllText(parts: seq<MessagePart>): Bytes {
    if parts == [] then [] else (if parts[0].Text? then parts[0].text else []) + AllText(parts[1..])
  }

  function Others(parts: seq<MessagePart>): seq<MessagePart> {
    if parts == [] then [] else (if parts[0].Text? then [] else [parts[0]]) + Others(parts[1..])
  }

  lemma {:induction false} AllTextConcat(a: seq<MessagePart>, b: seq<MessagePart>)
    ensures AllText(a + b) == AllText(a) + AllText(b) && Others(a + b) == Others(a) + Others(b)
  {
    if a == [] {
      assert a + b == b;
    } else {
      assert (a + b)[0] == a[0] && (a + b)[1..] == a[1..] + b;
      AllTextConcat(a[1..], b);
    }
  }

  lemma {:induction false} LabelledSpells(id: string, ps: seq<Bytes>, n: nat)
    ensures AllText(Labelled(id, ps, n)) == Concat(ps) && Others(Labelled(id, ps, n)) == []
  {
    if ps != [] {
      LabelledSpells(id, ps[1..], n + 1);
      ConcatCons(ps[0], ps[1..]);
      assert [ps[0]] + ps[1..] == ps;
      assert Labelled(id, ps, n)[1..] == Labelled(id, ps[1..], n + 1);
    }
  }

  /** Splitting and joining again keeps the whole text and every other part, in order. */
  lemma {:induction false} ExpandedIsLossless(parts: seq<MessagePart>)
    requires Utf8Texts(parts)
    ensures AllText(Expanded(parts)) == AllText(parts) && Others(Expanded(parts)) == Others(parts)
  {
    if parts != [] {
      var p := parts[0];
      ExpandedIsLossless(parts[1..]);
      AllTextConcat(Expand(p), Expanded(parts[1..]));
      if Oversized(p) {
        PiecesSpell(p.text, 0);
        LabelledSpells(p.id, Pieces(p.text, 0), 0);
        assert p.text[0..] == p.text;
      } else {
        assert Expand(p)[1..] == [];
        assert (if p.Text? then p.text else []) + [] == if p.Text? then p.text else [];
      }
    }
  }

  /** What has been split once is not split again. */
  lemma {:induction false} ExpandedIsStable(parts: seq<MessagePart>)
    requires forall p :: p in parts ==> !Oversized(p)
    requires Utf8Texts(parts)
    ensures Expanded(parts) == parts
  {
    if parts != [] {
      ExpandedIsStable(parts[1..]);
    }
  }

  // ----- the source's loops -----

  /** Where the piece starting at `start` ends: the cap, moved down to a boundary. */
  method FindCut(text: Bytes, start: nat) returns (end: nat)
    requires Utf8(text) && start < |text|
    ensures end == CutEnd(text, start)
  {
    end := if start + MSG_INLINE_MAX < |text| then start + MSG_INLINE_MAX else |text|;
    ghost var limit := end;
    while end < |text| && Continues(text[end])
      invariant 0 <= end <= limit
      invariant CutDown(text, end) == CutDown(text, limit)
      decreases end
    {
      assert end > 0;
      end := end - 1;
    }
    CutProgress(text, start, limit);
    if end <= start {
      assert false;  // the source's forward-progress guard: never reached
    }
  }

  lemma PieceStep(id: string, text: Bytes, start: nat, piece: nat, out: seq<MessagePart>)
    requires Utf8(text) && start < |text|
    ensures var end := CutEnd(text, start);
      var sub := Text(PieceId(id, piece), text[start..end]);
      (out + [sub]) + Labelled(id, Pieces(text, end), piece + 1) == out + Labelled(id, Pieces(text, start), piece)
  {
    var end := CutEnd(text, start);
    var sub, rest := Text(PieceId(id, piece), text[start..end]), Pieces(text, end);
    assert ([text[start..end]] + rest)[1..] == rest;
    assert Labelled(id, Pieces(text, start), piece) == [sub] + Labelled(id, rest, piece + 1);
  }

  lemma PlaceAllSnoc(parts: seq<MessagePart>, p: MessagePart, json: MessagePart -> nat)
    ensures PlaceAll(parts + [p], json) == Place(PlaceAll(parts, json), p, json)
  {
    assert (parts + [p])[..|parts|] == parts;
  }

  lemma PlacedInOpenChunk(was: seq<seq<MessagePart>>, p: MessagePart, json: MessagePart -> nat)
    requires was != []
    ensures var chunks := if Full(was[|was| - 1], p, json) then was + [[]] else was;
      var last := chunks[|chunks| - 1];
      && chunks[|chunks| - 1 := last + [p]] == Place(was, p, json)
      && Weight(last + [p], json) == Weight(last, json) + ByteLen(p, json)
  {
    WeightSnoc([], p, json);
    WeightSnoc(was[|was| - 1], p, json);
    assert [] + [p] == [p];
  }

  /** State of the chunk builder: the chunks and the weight of the last one. */
  class Chunker {
    var chunks: seq<seq<MessagePart>>
    var currentBytes: nat

    constructor ()
      ensures chunks == [[]] && currentBytes == 0
    {
      chunks := [[]];
      currentBytes := 0;
    }

    ghost predicate Valid(json: MessagePart -> nat)
      reads this
    {
      chunks != [] && currentBytes == Weight(chunks[|chunks| - 1], json)
    }

    method PushPart(part: MessagePart, json: MessagePart -> nat)
      requires Valid(json)
      modifies this
      ensures Valid(json)
      ensures chunks == Place(old(chunks), part, json)
    {
      var len := ByteLen(part, json);
      PlacedInOpenChunk(chunks, part, json);
      if currentBytes > 0 && currentBytes + len > MSG_INLINE_MAX {
        chunks := chunks + [[]];
        currentBytes := 0;
      }
      currentBytes := currentBytes + len;
      chunks := chunks[|chunks| - 1 := chunks[|chunks| - 1] + [part]];
    }

    /** Cut the next piece off a text and place it. */
    method PushPiece(id: string, text: Bytes, start: nat, piece: nat, json: MessagePart -> nat, ghost out: seq<MessagePart>)
        returns (end: nat)
      requires Valid(json) && Utf8(text) && start < |text| && chunks == PlaceAll(out, json)
      modifies this
      ensures Valid(json) && end == CutEnd(text, start)
      ensures chunks == PlaceAll(out + [Text(PieceId(id, piece), text[start..end])], json)
    {
      end := FindCut(text, start);
      var sub := Text(if piece == 0 then id else id + "~" + Decimal(piece), text[start..end]);
      PlaceAllSnoc(out, sub, json);
      PushPart(sub, json);
    }

    method PushText(id: string, text: Bytes, json: MessagePart -> nat, ghost done: seq<MessagePart>)
      requires Valid(json) && Utf8(text)
      requires chunks == PlaceAll(done, json)
      modifies this
      ensures Valid(json)
      ensures chunks == PlaceAll(done + Labelled(id, Pieces(text, 0), 0), json)
    {
      var start, piece := 0, 0;
      ghost var out := done;
      ghost var goal := done + Labelled(id, Pieces(text, 0), 0);
      while start < |text|
        invariant Valid(json) && start <= |text|
        invariant chunks == PlaceAll(out, json)
        invariant out + Labelled(id, Pieces(text, start), piece) == goal
        decreases |text| - start
      {
        PieceStep(id, text, start, piece, out);
        var end := PushPiece(id, text, start, piece, json, out);
        out := out + [Text(PieceId(id, piece), text[start..end])];
        start := end;
        piece := piece + 1;
      }
      assert out + [] == out;
    }

    method PushWhole(part: MessagePart, json: MessagePart -> nat, ghost done: seq<MessagePart>)
      requires Valid(json) && (part.Text? ==> Utf8(part.text))
      requires chunks == PlaceAll(done, json)
      modifies this
      ensures Valid(json)
      ensures chunks == PlaceAll(done + Expand(part), json)
    {
      if part.Text? && |part.text| > MSG_INLINE_MAX {
        PushText(part.id, part.text, json, done);
      } else {
        PlaceAllSnoc(done, part, json);
        PushPart(part, json);
      }
    }
  }

  lemma ExpandStep(done: seq<MessagePart>, parts: seq<MessagePart>, i: nat)
    requires Utf8Texts(parts) && i < |parts|
    ensures (done + Expand(parts[i])) + Expanded(parts[i + 1..]) == done + Expanded(parts[i..])
  {
    var tail := parts[i..];
    assert tail[0] == parts[i] && tail[1..] == parts[i + 1..];
    var head, rest := Expand(tail[0]), Expanded(tail[1..]);
    assert Expanded(tail) == head + rest;
    assert (done + head) + rest == done + (head + rest);
  }

  method SplitParts(parts: seq<MessagePart>, json: MessagePart -> nat) returns (chunks: seq<seq<MessagePart>>)
    requires Utf8Texts(parts)
    ensures chunks == Split(parts, json)
  {
    var chunker := new Chunker();
    ghost var done: seq<MessagePart> := [];
    assert parts[0..] == parts && done + Expanded(parts) == Expanded(parts);
    assert chunker.Valid(json);
    for i := 0 to |parts|
      invariant chunker.Valid(json) && chunker.chunks == PlaceAll(done, json)
      invariant done + Expanded(parts[i..]) == Expanded(parts)
    {
      assert parts[i] in parts;
      ExpandStep(done, parts, i);
      chunker.PushWhole(parts[i], json, done);
      done := done + Expand(parts[i]);
    }
    assert done + [] == done;
    chunks := chunker.chunks;
  }

  // ----- the names of pieces -----

  lemma PieceIdInjective(id: string, m: nat, n: nat)
    requires PieceId(id, m) == PieceId(id, n)
    ensures m == n
  {
    if m > 0 { assert |PieceId(id, m)| > |id| && PieceId(id, m)[|id| + 1..] == Decimal(m); }
    if n > 0 { assert |PieceId(id, n)| > |id| && PieceId(id, n)[|id| + 1..] == Decimal(n); }
    if m > 0 && n > 0 { DecimalInjective(m, n); }
  }

  lemma {:induction false} LabelledAt(id: string, ps: seq<Bytes>, n: nat, k: nat)
    requires k < |ps|
    ensures |Labelled(id, ps, n)| == |ps| && Labelled(id, ps, n)[k] == Text(PieceId(id, n + k), ps[k])
  {
    if k == 0 {
      LabelledLength(id, ps, n);
    } else {
      LabelledAt(id, ps[1..], n + 1, k - 1);
      InFront(Text(PieceId(id, n), ps[0]), Labelled(id, ps[1..], n + 1), k - 1);
    }
  }

  lemma InFront(first: MessagePart, rest: seq<MessagePart>, k: nat)
    requires k < |rest|
    ensures |[first] + rest| == |rest| + 1 && ([first] + rest)[k + 1] == rest[k]
  {
  }

  lemma {:induction false} LabelledLength(id: string, ps: seq<Bytes>, n: nat)
    ensures |Labelled(id, ps, n)| == |ps|
  {
    if ps != [] { LabelledLength(id, ps[1..], n + 1); }
  }

  /** The pieces of a text have different names, the first one that of the text. */
  lemma PiecesAreNamed(id: string, ps: seq<Bytes>)
    ensures var parts := Labelled(id, ps, 0);
      && |parts| == |ps| && (parts != [] ==> parts[0].id == id)
      && forall k, l :: 0 <= k < l < |parts| ==> parts[k].id != parts[l].id
  {
    LabelledLength(id, ps, 0);
    var parts := Labelled(id, ps, 0);
    if ps != [] { LabelledAt(id, ps, 0, 0); }
    forall k, l | 0 <= k < l < |parts| ensures parts[k].id != parts[l].id {
      LabelledAt(id, ps, 0, k);
      LabelledAt(id, ps, 0, l);
      if parts[k].id == parts[l].id { PieceIdInjective(id, k, l); }
    }
  }

  /** A piece is only cut short where the next byte would not fit or would tear a character. */
  lemma {:induction false} PiecesAreFull(s: Bytes, start: nat)
    requires Utf8(s) && start <= |s| && IsBoundary(s, start)
    ensures var ps := Pieces(s, start);
      forall k :: 0 <= k < |ps| - 1 ==> |ps[k]| > MSG_INLINE_MAX - 4
    decreases |s| - start
  {
    if start < |s| {
      var end := CutEnd(s, start);
      FirstPiece(s, start);
      PiecesAreFull(s, end);
      if end < |s| {
        FullPiece(s, start);
        assert |s[start..end]| > MSG_INLINE_MAX - 4;
      }
    }
  }

  lemma FullPiece(s: Bytes, start: nat)
    requires Utf8(s) && start < |s| && CutEnd(s, start) < |s|
    ensures CutEnd(s, start) - start > MSG_INLINE_MAX - 4
  {
    var limit := start + MSG_INLINE_MAX;
    if limit < |s| { BoundaryNear(s, limit); }
  }

  /** The text and error bytes of parts. */
  function SpokenBytes(parts: seq<MessagePart>): nat {
    if parts == [] then 0
    else
      var last := parts[|parts| - 1];
      SpokenBytes(parts[..|parts| - 1]) + if last.Text? then |last.text| else if last.Error? then |last.message| else 0
  }

  /** The bytes of the JSON of all tool calls and questions. */
  function JsonBytes(parts: seq<MessagePart>, json: MessagePart -> nat): nat {
    if parts == [] then 0
    else
      var last := parts[|parts| - 1];
      JsonBytes(parts[..|parts| - 1], json) + if last.Tool? || last.Input? then json(last) else 0
  }

  lemma {:induction false} WeightCounts(parts: seq<MessagePart>, json: MessagePart -> nat)
    ensures Weight(parts, json) == SpokenBytes(parts) + JsonBytes(parts, json)
  {
    if parts != [] { WeightCounts(parts[..|parts| - 1], json); }
  }
}
