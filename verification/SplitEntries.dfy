/** Splitting an entry into a root and continuations, and the join that undoes it. */
module SplitEntries {
  import opened Common
  import opened Parts
  import opened Splitting
  import opened Continuations
  import opened Schema

  function ContinuationId(root: string, index: nat): string { root + "#c" + Decimal(index) }

  lemma ContinuationIdsDiffer(root: string, i: nat, j: nat)
    ensures ContinuationId(root, i) != root && root + "#c" <= ContinuationId(root, i)
    ensures ContinuationId(root, i)[|root| + 2..] == Decimal(i)
    ensures ContinuationId(root, i) == ContinuationId(root, j) ==> i == j
  {
    var a, b := ContinuationId(root, i), ContinuationId(root, j);
    assert |a| > |root|;
    assert a[|root| + 2..] == Decimal(i) && b[|root| + 2..] == Decimal(j);
    if a == b { DecimalInjective(i, j); }
  }

  /** The first chunk keeps the root's id; every further chunk is a continuation. */
  function Entries(e: Entry, chunks: seq<seq<MessagePart>>): seq<Entry> {
    seq(|chunks|, i requires 0 <= i < |chunks| =>
      if i == 0 then e.(parts := chunks[0])
      else e.(id := ContinuationId(e.id, i), parts := chunks[i], continuationOf := Some(e.id)))
  }

  /** Every entry carries the original's author, time, device and status; only the first its id. */
  lemma EntriesKeepFields(e: Entry, chunks: seq<seq<MessagePart>>, i: nat)
    requires i < |chunks|
    ensures |Entries(e, chunks)| == |chunks|
    ensures var x := Entries(e, chunks)[i];
      && x.parts == chunks[i]
      && x.role == e.role && x.createdAt == e.createdAt && x.deviceId == e.deviceId && x.status == e.status
      && (i == 0 ==> x.id == e.id && x.continuationOf == e.continuationOf)
      && (i > 0 ==> x.continuationOf == Some(e.id) && e.id + "#c" <= x.id && x.id[|e.id| + 2..] == Decimal(i))
  {
    ContinuationIdsDiffer(e.id, i, i);
  }

  lemma {:induction false} FlatCons(first: seq<MessagePart>, rest: seq<seq<MessagePart>>)
    ensures Flat([first] + rest) == first + Flat(rest)
  {
    var all := [first] + rest;
    if rest == [] {
      assert all[..0] == [] && [] + first == first + [];
    } else {
      var n := |rest| - 1;
      FlatCons(first, rest[..n]);
      assert all[..n + 1] == [first] + rest[..n];
      assert (first + Flat(rest[..n])) + rest[n] == first + (Flat(rest[..n]) + rest[n]);
    }
  }

  /** Rows that all continue one root spell its extension. */
  lemma {:induction false} ExtensionIsFlat(es: seq<Entry>, id: string, chunks: seq<seq<MessagePart>>)
    requires |es| == |chunks|
    requires forall i :: 0 <= i < |es| ==> es[i].continuationOf == Some(id) && es[i].parts == chunks[i]
    ensures Extension(es, id) == Flat(chunks)
  {
    if es != [] {
      ExtensionIsFlat(es[1..], id, chunks[1..]);
      FlatCons(chunks[0], chunks[1..]);
      assert chunks == [chunks[0]] + chunks[1..];
    }
  }

  lemma {:induction false} KnownRootsAbsorb(es: seq<Entry>, id: string, roots: set<string>)
    requires id in roots && forall e :: e in es ==> e.continuationOf == Some(id)
    ensures Joined(es, roots) == []
  {
    if es != [] {
      assert es[0] in es;
      KnownRootsAbsorb(es[1..], id, roots);
    }
  }

  /** Writing the chunks as entries and joining them gives back one entry: the original with its
      oversized texts in pieces. */
  lemma SplitThenJoin(e: Entry, json: MessagePart -> nat)
    requires e.continuationOf.None? && Utf8Texts(e.parts)
    ensures Join(Entries(e, Split(e.parts, json))) == [e.(parts := Expanded(e.parts))]
    ensures AllText(Expanded(e.parts)) == AllText(e.parts) && Others(Expanded(e.parts)) == Others(e.parts)
  {
    var chunks := Split(e.parts, json);
    var es := Entries(e, chunks);
    SplitIsBounded(e.parts, json);
    ExpandedIsLossless(e.parts);
    JoinOfChunks(e, chunks);
  }

  lemma JoinOfChunks(e: Entry, chunks: seq<seq<MessagePart>>)
    requires e.continuationOf.None? && chunks != []
    ensures Join(Entries(e, chunks)) == [e.(parts := Flat(chunks))]
  {
    var es := Entries(e, chunks);
    var rest := es[1..];
    ExtensionIsFlat(rest, e.id, chunks[1..]);
    FlatCons(chunks[0], chunks[1..]);
    assert chunks == [chunks[0]] + chunks[1..];
    forall x | x in rest ensures x.continuationOf == Some(e.id) {
      var i :| 0 <= i < |rest| && rest[i] == x;
      assert es[i + 1] == x;
    }
    KnownRootsAbsorb(rest, e.id, {} + {e.id});
    assert HeadRow(es, {}) == [e.(parts := Flat(chunks))];
    assert Join(es) == HeadRow(es, {}) + [];
  }

  // ----- through the document -----

  /** Entries as the document stores them. */
  function Stored(es: seq<Entry>): seq<DocEntry> { seq(|es|, i requires 0 <= i < |es| => WriteEntry(es[i])) }

  lemma {:induction false} PiecesReadable(id: string, ps: seq<Bytes>, n: nat)
    ensures forall p :: p in Labelled(id, ps, n) ==> Readable(p)
  {
    if ps != [] { PiecesReadable(id, ps[1..], n + 1); }
  }

  lemma {:induction false} ExpandedReadable(parts: seq<MessagePart>)
    requires Utf8Texts(parts) && forall p :: p in parts ==> Readable(p)
    ensures forall p :: p in Expanded(parts) ==> Readable(p)
  {
    if parts != [] {
      ExpandedReadable(parts[1..]);
      if Oversized(parts[0]) { PiecesReadable(parts[0].id, Pieces(parts[0].text, 0), 0); }
    }
  }

  lemma {:induction false} ChunkInFlat(chunks: seq<seq<MessagePart>>, i: nat, p: MessagePart)
    requires i < |chunks| && p in chunks[i]
    ensures p in Flat(chunks)
  {
    if i < |chunks| - 1 { ChunkInFlat(chunks[..|chunks| - 1], i, p); }
  }

  /** Split, stored entry by entry, read back and joined: the one entry again, with its text whole
      and every other part in place. */
  lemma StoredSplitJoins(e: Entry, json: MessagePart -> nat)
    requires e.continuationOf.None? && Utf8Texts(e.parts) && forall p :: p in e.parts ==> Readable(p)
    ensures Join(ReadEntries(Stored(Entries(e, Split(e.parts, json))))) == [e.(parts := Expanded(e.parts))]
    ensures AllText(Expanded(e.parts)) == AllText(e.parts) && Others(Expanded(e.parts)) == Others(e.parts)
  {
    var chunks := Split(e.parts, json);
    var es := Entries(e, chunks);
    SplitThenJoin(e, json);
    SplitIsBounded(e.parts, json);
    ExpandedReadable(e.parts);
    forall i | 0 <= i < |es| ensures ReadEntries(Stored(es))[i] == es[i] {
      forall p | p in es[i].parts ensures Readable(p) {
        ChunkInFlat(chunks, i, p);
      }
      EntryReadsBackExactly(es[i]);
    }
    assert ReadEntries(Stored(es)) == es;
  }

  /** Pushing them one after the other stores them so. */
  method PushSplit(doc: SessionDoc, es: seq<Entry>)
    modifies doc
    ensures doc.messages == old(doc.messages) + Stored(es)
  {
    for i := 0 to |es|
      invariant doc.messages == old(doc.messages) + Stored(es[..i])
    {
      doc.PushMessage(es[i]);
      assert Stored(es[..i + 1]) == Stored(es[..i]) + [WriteEntry(es[i])];
    }
    assert es[..|es|] == es;
  }
}
