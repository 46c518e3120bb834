/** The guarantees of the delta protocol, for every pair of transcripts with unique ids. */
module DeltaTheorems {
  import opened Common
  import opened Parts
  import opened TranscriptDelta
  import opened DeltaRoundTrip

  ghost function Copy(prev: seq<Entry>, next: seq<Entry>): seq<Entry>
    requires Unique(prev) && Unique(next)
  {
    PlaceAll(prev, next);
    ApplyUpserts(Without(prev, Removed(prev, next)), Upserts(prev, next, |next|)).value
  }

  lemma CopyFacts(prev: seq<Entry>, next: seq<Entry>)
    requires Unique(prev) && Unique(next)
    ensures var c := Copy(prev, next);
      && Progress(prev, next, SentIds(prev, next, |next|), c)
      && (forall id :: Has(c, id) <==> Has(next, id))
      && |c| == |next|
      && (Ids(c) == Ids(next) <==> KeptOrder(prev, next))
      && Collected(c, AppendedEach(prev, next, |next|, c), ApplyAppends(c, Appends(prev, next, |next|)))
  {
    PlaceAll(prev, next);
    var c := Copy(prev, next);
    AllSettled(prev, next, c);
    OrderExact(prev, next, c);
    SameIdsSameLength(c, next);
    AppendAll(prev, next, |next|, c);
  }

  lemma {:induction false} IdCount(es: seq<Entry>)
    requires Unique(es)
    ensures |IdSet(es)| == |es|
  {
    if es == [] {
      assert IdSet(es) == {};
    } else {
      var tail := es[1..];
      IdCount(tail);
      assert es == [es[0]] + tail;
      assert IdSet(es) == {es[0].id} + IdSet(tail);
      assert es[0].id !in IdSet(tail);
    }
  }

  lemma SameIdsSameLength(a: seq<Entry>, b: seq<Entry>)
    requires Unique(a) && Unique(b)
    requires forall id :: Has(a, id) <==> Has(b, id)
    ensures |a| == |b|
  {
    IdCount(a);
    IdCount(b);
    forall id ensures id in IdSet(a) <==> id in IdSet(b) {
      assert id in IdSet(a) <==> Has(a, id);
      assert id in IdSet(b) <==> Has(b, id);
    }
    assert IdSet(a) == IdSet(b);
  }

  lemma UniqueMember(es: seq<Entry>, e: Entry, k: nat)
    requires Unique(es) && k < |es| && e in es && e.id == es[k].id
    ensures e == es[k]
  {
    var j :| 0 <= j < |es| && es[j] == e;
    UniquePosition(es, j);
    UniquePosition(es, k);
  }

  /** What each entry of the copy becomes: the sender's entry of the same id, unless an append
      misses its part. */
  lemma EntryOutcome(prev: seq<Entry>, next: seq<Entry>, e: Entry, k: nat)
    requires Unique(prev) && Unique(next) && k < |next|
    requires e in Copy(prev, next) && e.id == next[k].id
    ensures var ch := ChangeOf(prev, next, k);
      if ch.Grow? then
        var p := prev[LastPosition(prev, next[k].id)];
        Appended(prev, next, |next|, e) == AppendTo(p, ch.append) && TextAppendOf(p, next[k]) == Some(ch.append)
      else Appended(prev, next, |next|, e) == Ok(next[k])
  {
    CopyFacts(prev, next);
    var c, ch := Copy(prev, next), ChangeOf(prev, next, k);
    UniquePosition(next, k);
    if ch.Send? {
      assert e.id in SentIds(prev, next, |next|);
      UniqueMember(next, e, k);
    } else {
      forall i | 0 <= i < |next| && ChangeOf(prev, next, i).Send? ensures next[i].id != e.id {
        UniquePosition(next, i);
      }
      UniqueMember(prev, e, LastPosition(prev, e.id));
    }
  }

  ghost predicate Hit(prev: seq<Entry>, next: seq<Entry>, i: nat)
    requires i < |next|
  {
    ChangeOf(prev, next, i).Grow? ==>
      var p := prev[LastPosition(prev, next[i].id)];
      var k := FirstDifference(p.parts, next[i].parts, 0);
      TextIndex(p.parts, p.parts[k].id) == k
  }

  /** An entry comes out exact if and only if its append hits. */
  lemma EntryExact(prev: seq<Entry>, next: seq<Entry>, e: Entry, k: nat)
    requires Unique(prev) && Unique(next) && k < |next|
    requires e in Copy(prev, next) && e.id == next[k].id
    ensures Appended(prev, next, |next|, e) == Ok(next[k]) <==> Hit(prev, next, k)
  {
    EntryOutcome(prev, next, e, k);
    if ChangeOf(prev, next, k).Grow? {
      AppendToExact(prev[LastPosition(prev, next[k].id)], next[k]);
    }
  }

  lemma HitsAreAppendsHit(prev: seq<Entry>, next: seq<Entry>)
    ensures AppendsHit(prev, next) <==> forall i :: 0 <= i < |next| ==> Hit(prev, next, i)
  {
    if AppendsHit(prev, next) {
      forall i | 0 <= i < |next| ensures Hit(prev, next, i) {}
    }
    if forall i :: 0 <= i < |next| ==> Hit(prev, next, i) {
      forall i | 0 <= i < |next| && ChangeOf(prev, next, i).Grow?
        ensures var p := prev[LastPosition(prev, next[i].id)];
          var k := FirstDifference(p.parts, next[i].parts, 0);
          TextIndex(p.parts, p.parts[k].id) == k
      {
        assert Hit(prev, next, i);
      }
    }
  }

  lemma ApplyIsAppends(prev: seq<Entry>, next: seq<Entry>)
    requires Unique(prev) && Unique(next) && Diff(prev, next).Delta?
    ensures var s := ApplyAppends(Copy(prev, next), Appends(prev, next, |next|));
      Apply(prev, Diff(prev, next)) ==
        if s.Ok? && |s.value| != |next| then Err(CountMismatch(|s.value|, |next|)) else s
  {
    PlaceAll(prev, next);
  }

  /** MAIN RESULT. Applying the sender's frame to the previous transcript yields the next
      transcript exactly when the frame is a reset, or the entries it leaves in place stand in
      the same order on both sides and every text append hits its part. */
  lemma RoundTripExactly(prev: seq<Entry>, next: seq<Entry>)
    requires Unique(prev) && Unique(next)
    ensures Apply(prev, Diff(prev, next)) == Ok(next) <==>
      Diff(prev, next).Reset? || (KeptOrder(prev, next) && AppendsHit(prev, next))
  {
    if Diff(prev, next).Delta? {
      CopyFacts(prev, next);
      ApplyIsAppends(prev, next);
      HitsAreAppendsHit(prev, next);
      var c := Copy(prev, next);
      var s := ApplyAppends(c, Appends(prev, next, |next|));
      var each := AppendedEach(prev, next, |next|, c);
      if KeptOrder(prev, next) && AppendsHit(prev, next) {
        forall j | 0 <= j < |c| ensures each[j] == Ok(next[j]) {
          assert Ids(c)[j] == Ids(next)[j];
          EntryExact(prev, next, c[j], j);
        }
        assert s.value == next;
      }
      if s == Ok(next) {
        assert forall j :: 0 <= j < |c| ==> next[j].id == c[j].id && each[j] == Ok(next[j]);
        assert Ids(c) == Ids(next);
        forall j | 0 <= j < |next| ensures Hit(prev, next, j) {
          EntryExact(prev, next, c[j], j);
        }
      }
    }
  }

  lemma {:induction false} Multiplicity(es: seq<Entry>, e: Entry)
    requires Unique(es)
    ensures multiset(es)[e] == if e in es then 1 else 0
  {
    if es != [] {
      var tail := es[1..];
      assert es == [es[0]] + tail;
      Multiplicity(tail, e);
      forall j | 0 <= j < |tail| ensures tail[j] != es[0] {
        assert tail[j] == es[j + 1];
      }
    }
  }

  lemma IdIndex(es: seq<Entry>, id: string) returns (k: nat)
    requires Has(es, id)
    ensures k < |es| && es[k].id == id
  {
    k := Position(es, id);
  }

  /** Reordering never desyncs: a frame is applied without error and leaves the viewer with each
      of the sender's entries exactly once if and only if it is a reset or its appends hit,
      whatever the order; the count tripwire sees nothing of it. */
  lemma NeverDesyncs(prev: seq<Entry>, next: seq<Entry>)
    requires Unique(prev) && Unique(next)
    ensures var r := Apply(prev, Diff(prev, next));
      r.Ok? && multiset(r.value) == multiset(next) <==> Diff(prev, next).Reset? || AppendsHit(prev, next)
  {
    if Diff(prev, next).Delta? {
      ApplyIsAppends(prev, next);
      var s := ApplyAppends(Copy(prev, next), Appends(prev, next, |next|));
      if AppendsHit(prev, next) { HitsDeliver(prev, next); }
      if s.Ok? && multiset(s.value) == multiset(next) { MembersHit(prev, next, s.value); }
    }
  }

  /** If every append hits, the copy ends up with the sender's entries. */
  lemma HitsDeliver(prev: seq<Entry>, next: seq<Entry>)
    requires Unique(prev) && Unique(next) && AppendsHit(prev, next)
    ensures var s := ApplyAppends(Copy(prev, next), Appends(prev, next, |next|));
      s.Ok? && |s.value| == |next| && multiset(s.value) == multiset(next)
  {
    CopyFacts(prev, next);
    CopyOutcome(prev, next);
    var c := Copy(prev, next);
    SameMembers(c, ApplyAppends(c, Appends(prev, next, |next|)).value, next);
  }

  lemma MemberExact(next: seq<Entry>, d: seq<Entry>, j: nat, k: nat)
    requires Unique(next) && multiset(d) == multiset(next) && j < |d| && k < |next| && d[j].id == next[k].id
    ensures d[j] == next[k]
  {
    assert d[j] in multiset(d);
    UniqueMember(next, d[j], k);
  }

  /** If the copy ends up with the sender's entries, every append hit its part. */
  lemma MembersHit(prev: seq<Entry>, next: seq<Entry>, d: seq<Entry>)
    requires Unique(prev) && Unique(next) && multiset(d) == multiset(next)
    requires ApplyAppends(Copy(prev, next), Appends(prev, next, |next|)) == Ok(d)
    ensures AppendsHit(prev, next)
  {
    CopyFacts(prev, next);
    forall k | 0 <= k < |next| ensures Hit(prev, next, k) {
      MemberHits(prev, next, d, k);
    }
    HitsAreAppendsHit(prev, next);
  }

  lemma MemberHits(prev: seq<Entry>, next: seq<Entry>, d: seq<Entry>, k: nat)
    requires Unique(prev) && Unique(next) && multiset(d) == multiset(next) && k < |next|
    requires var c := Copy(prev, next);
      (forall id :: Has(c, id) <==> Has(next, id)) && Collected(c, AppendedEach(prev, next, |next|, c), Ok(d))
    ensures Hit(prev, next, k)
  {
    var c := Copy(prev, next);
    assert next[k] in next && Has(next, next[k].id) && Has(c, next[k].id);
    var j := IdIndex(c, next[k].id);
    MemberExact(next, d, j, k);
    EntryExact(prev, next, c[j], k);
  }

  lemma CopyOutcome(prev: seq<Entry>, next: seq<Entry>)
    requires Unique(prev) && Unique(next) && AppendsHit(prev, next)
    ensures var c := Copy(prev, next);
      forall j :: 0 <= j < |c| ==>
        && Has(next, c[j].id)
        && AppendedEach(prev, next, |next|, c)[j] == Ok(next[Position(next, c[j].id)])
  {
    CopyFacts(prev, next);
    HitsAreAppendsHit(prev, next);
    var c := Copy(prev, next);
    forall j | 0 <= j < |c|
      ensures Has(next, c[j].id)
      ensures AppendedEach(prev, next, |next|, c)[j] == Ok(next[Position(next, c[j].id)])
    {
      assert c[j] in c && Has(c, c[j].id);
      var k := IdIndex(next, c[j].id);
      EntryExact(prev, next, c[j], k);
    }
  }

  /** Replacing each entry of a unique list by the equally named entry of another list with
      the same ids gives a permutation of the latter. */
  lemma SameMembers(c: seq<Entry>, d: seq<Entry>, next: seq<Entry>)
    requires Unique(c) && Unique(next) && |c| == |d|
    requires forall id :: Has(c, id) <==> Has(next, id)
    requires forall j :: 0 <= j < |c| ==> Has(next, c[j].id) && d[j].id == c[j].id && d[j] == next[Position(next, c[j].id)]
    ensures multiset(d) == multiset(next)
  {
    forall e | e in next ensures e in d {
      var k :| 0 <= k < |next| && next[k] == e;
      assert Has(c, e.id);
      var j := IdIndex(c, e.id);
      UniquePosition(next, k);
      assert d[j] == e;
    }
    forall e ensures multiset(d)[e] == multiset(next)[e] {
      Multiplicity(d, e);
      Multiplicity(next, e);
    }
  }

  // ----- conditions a caller can recognise -----

  ghost predicate TextIdsUnique(e: Entry) {
    forall j, k :: 0 <= j < k < |e.parts| && e.parts[j].Text? && e.parts[k].Text? ==>
      e.parts[j].id != e.parts[k].id
  }

  lemma UniqueTextIdsHit(prev: seq<Entry>, next: seq<Entry>)
    requires forall e :: e in prev ==> TextIdsUnique(e)
    ensures AppendsHit(prev, next)
  {
    forall i | 0 <= i < |next| ensures Hit(prev, next, i) {
      if ChangeOf(prev, next, i).Grow? {
        var p := prev[LastPosition(prev, next[i].id)];
        assert p in prev;
        var k := FirstDifference(p.parts, next[i].parts, 0);
        assert TextIndex(p.parts, p.parts[k].id) <= k;
      }
    }
    HitsAreAppendsHit(prev, next);
  }

  ghost function FilterIds(ids: seq<string>, S: set<string>): seq<string> {
    if ids == [] then [] else (if ids[0] in S then [ids[0]] else []) + FilterIds(ids[1..], S)
  }

  lemma {:induction false} OnlyNested(es: seq<Entry>, S: set<string>, K: set<string>)
    requires K <= S
    ensures Only(es, K) == FilterIds(Only(es, S), K)
  {
    if es != [] {
      OnlyNested(es[1..], S, K);
      var tail := Only(es[1..], S);
      if es[0].id in S {
        assert ([es[0].id] + tail)[1..] == tail;
      } else {
        assert Only(es, S) == tail;
      }
    }
  }

  /** The entries both transcripts share stand in the same order. */
  ghost predicate SharedOrder(prev: seq<Entry>, next: seq<Entry>) {
    Only(prev, IdSet(prev) * IdSet(next)) == Only(next, IdSet(prev) * IdSet(next))
  }

  lemma SharedOrderKeeps(prev: seq<Entry>, next: seq<Entry>)
    requires SharedOrder(prev, next)
    ensures KeptOrder(prev, next)
  {
    KeptFacts(prev, next);
    var S, K := IdSet(prev) * IdSet(next), Kept(prev, next);
    assert K <= S;
    OnlyNested(prev, S, K);
    OnlyNested(next, S, K);
  }

  /** If shared entries keep their relative order and no entry repeats a text part id, the
      viewer always ends up with the sender's transcript. */
  lemma RoundTripInOrder(prev: seq<Entry>, next: seq<Entry>)
    requires Unique(prev) && Unique(next)
    requires SharedOrder(prev, next)
    requires forall e :: e in prev ==> TextIdsUnique(e)
    ensures Apply(prev, Diff(prev, next)) == Ok(next)
  {
    SharedOrderKeeps(prev, next);
    UniqueTextIdsHit(prev, next);
    RoundTripExactly(prev, next);
  }

  // ----- no-op frames -----

  lemma {:induction false} NothingSent(prev: seq<Entry>, next: seq<Entry>, n: nat)
    requires Unique(prev) && Unique(next) && n <= |next|
    requires Upserts(prev, next, n) == [] && Appends(prev, next, n) == []
    ensures n <= |prev| && prev[..n] == next[..n]
  {
    if n > 0 {
      NothingSent(prev, next, n - 1);
      assert ChangeOf(prev, next, n - 1).Keep?;
      SameSlot(prev, next, n - 1);
    }
  }

  /** After an equal prefix, an entry with the same predecessor stands in the same place. */
  lemma SameSlot(prev: seq<Entry>, next: seq<Entry>, i: nat)
    requires Unique(prev) && i < |next| && i <= |prev| && prev[..i] == next[..i]
    requires ChangeOf(prev, next, i).Keep?
    ensures i < |prev| && prev[i] == next[i]
    ensures prev[..i + 1] == next[..i + 1]
  {
    var p := LastPosition(prev, next[i].id);
    if i > 0 {
      assert prev[i - 1] == prev[..i][i - 1] == next[i - 1];
      UniquePosition(prev, p - 1);
      UniquePosition(prev, i - 1);
    }
    assert p == i;
    assert prev[..i + 1] == prev[..i] + [prev[i]];
  }

  lemma {:induction false} SelfIsKept(es: seq<Entry>, n: nat)
    requires Unique(es) && n <= |es|
    ensures Upserts(es, es, n) == [] && Appends(es, es, n) == []
  {
    if n > 0 {
      SelfUnchanged(es, n - 1);
      var c := ChangeOf(es, es, n - 1);
      assert c == Keep;
      SelfIsKept(es, n - 1);
    }
  }

  lemma SelfUnchanged(es: seq<Entry>, i: nat)
    requires Unique(es) && i < |es|
    ensures ChangeOf(es, es, i) == Keep
  {
    assert LastPosition(es, es[i].id) == i;
  }

  /** The sender suppresses a frame exactly when nothing changed. */
  lemma EmptyDeltaIffEqual(prev: seq<Entry>, next: seq<Entry>)
    requires Unique(prev) && Unique(next)
    ensures Diff(prev, next).IsEmptyDelta() <==> prev == next
  {
    RemovedMembers(prev, next);
    if Diff(prev, next).IsEmptyDelta() {
      NothingSent(prev, next, |next|);
      assert next[..|next|] == next;
      if next != prev { PrefixMisses(prev, next); }
    }
    if prev == next {
      SelfIsKept(next, |next|);
      SomeMember(Removed(prev, next));
    }
  }

  lemma SomeMember(s: seq<string>)
    ensures s != [] ==> exists x :: x in s
  {
    if s != [] { assert s[0] in s; }
  }

  /** A proper prefix of a unique list misses an id. */
  lemma PrefixMisses(prev: seq<Entry>, next: seq<Entry>)
    requires Unique(prev) && next <= prev && next != prev
    ensures exists id :: Has(prev, id) && !Has(next, id)
  {
    var e := prev[|next|];
    assert e in prev;
    forall x | x in next ensures x.id != e.id {
      var k :| 0 <= k < |next| && next[k] == x;
      assert x == prev[k];
    }
    assert Has(prev, e.id) && !Has(next, e.id);
  }

  // ----- the two ways a frame goes wrong -----

  function Note(id: string, texts: seq<MessagePart>): Entry {
    Entry(id, Assistant, texts, 0, "dev", None, None)
  }

  /** Swapping two halves: the frame applies cleanly, passes the count check, and leaves the
      viewer with the wrong order. */
  lemma ReorderingGoesUnnoticed()
    ensures
      var a, b, c, d := Note("a", []), Note("b", []), Note("c", []), Note("d", []);
      Apply([a, b, c, d], Diff([a, b, c, d], [c, d, a, b])) == Ok([c, b, d, a])
  {
    var a, b, c, d := Note("a", []), Note("b", []), Note("c", []), Note("d", []);
    var prev, next := [a, b, c, d], [c, d, a, b];
    HalvesFrame(a, b, c, d);
    HalvesApply(a, b, c, d);
    WithoutNone(prev);
  }

  lemma HalvesFrame(a: Entry, b: Entry, c: Entry, d: Entry)
    requires Unique([a, b, c, d])
    ensures Diff([a, b, c, d], [c, d, a, b]) == Delta([Upsert(None, c), Upsert(Some(d.id), a)], [], [], 4)
  {
    var prev, next := [a, b, c, d], [c, d, a, b];
    UniqueLast(prev, 0);
    UniqueLast(prev, 1);
    UniqueLast(prev, 2);
    UniqueLast(prev, 3);
    assert prev[0].id != prev[1].id && prev[0].id != prev[3].id && prev[1].id != prev[3].id;
    var u0, u1 := Upsert(None, c), Upsert(Some(d.id), a);
    assert Upserts(prev, next, 1) == [u0] && Appends(prev, next, 1) == [];
    assert Upserts(prev, next, 2) == [u0] && Appends(prev, next, 2) == [];
    assert Upserts(prev, next, 3) == [u0, u1] && Appends(prev, next, 3) == [];
    assert Upserts(prev, next, 4) == [u0, u1] && Appends(prev, next, 4) == [];
    RemovedMembers(prev, next);
    assert next[0] == c && next[1] == d && next[2] == a && next[3] == b;
    assert a in next && b in next && c in next && d in next;
    SomeMember(Removed(prev, next));
  }

  lemma HalvesApply(a: Entry, b: Entry, c: Entry, d: Entry)
    requires Unique([a, b, c, d])
    ensures ApplyUpserts([a, b, c, d], [Upsert(None, c), Upsert(Some(d.id), a)]) == Ok([c, b, d, a])
  {
    var prev, mid := [a, b, c, d], [c, a, b, d];
    var u0, u1 := Upsert(None, c), Upsert(Some(d.id), a);
    UniquePosition(prev, 2);
    assert Drop(prev, c.id) == [a, b, d] && [c] + [a, b, d] == mid;
    assert prev[0].id != prev[1].id && prev[0].id != prev[2].id && prev[0].id != prev[3].id;
    assert prev[1].id != prev[2].id && prev[1].id != prev[3].id && prev[2].id != prev[3].id;
    assert Unique(mid);
    UniquePosition(mid, 1);
    assert Drop(mid, a.id) == [c, b, d];
    assert Unique([c, b, d]);
    UniquePosition([c, b, d], 2);
    assert [u0, u1][..1] == [u0] && [u0][..0] == [];
    assert ApplyUpserts(prev, [u0]) == Ok(mid);
    assert [c, b, d][..3] + [a] + [c, b, d][3..] == [c, b, d, a];
    assert ApplyUpsert(mid, u1) == Ok([c, b, d, a]);
  }

  lemma UniqueLast(es: seq<Entry>, k: nat)
    requires Unique(es) && k < |es|
    ensures LastPosition(es, es[k].id) == k
  {
  }

  /** Two text parts with one id: the append lands in the first, the length check agrees, and
      the viewer silently holds a different message. */
  lemma ShadowedAppendGoesUnnoticed()
    ensures
      var prev := [Note("a", [Text("t0", [7]), Text("t0", [7])])];
      var next := [Note("a", [Text("t0", [7]), Text("t0", [7, 8])])];
      Apply(prev, Diff(prev, next)) == Ok([Note("a", [Text("t0", [7, 8]), Text("t0", [7])])])
  {
    var p, n := Note("a", [Text("t0", [7]), Text("t0", [7])]), Note("a", [Text("t0", [7]), Text("t0", [7, 8])]);
    ShadowedFrame(p, n);
    ShadowedApply(p);
    WithoutNone([p]);
  }

  lemma ShadowedFrame(p: Entry, n: Entry)
    requires p == Note("a", [Text("t0", [7]), Text("t0", [7])])
    requires n == Note("a", [Text("t0", [7]), Text("t0", [7, 8])])
    ensures Diff([p], [n]) == Delta([], [TextAppend("a", "t0", [8], 2)], [], 1)
  {
    assert FirstDifference(p.parts, n.parts, 1) == 1;
    assert FirstDifference(p.parts, n.parts, 0) == 1;
    assert FirstDifference(p.parts, n.parts, 2) == 2;
    assert n.parts[1].text[|p.parts[1].text|..] == [8];
    UniqueLast([p], 0);
    assert Upserts([p], [n], 1) == [] && Appends([p], [n], 1) == [TextAppend("a", "t0", [8], 2)];
    assert n in [n] && Removed([p], [n]) == [];
  }

  lemma ShadowedApply(p: Entry)
    requires p == Note("a", [Text("t0", [7]), Text("t0", [7])])
    ensures ApplyAppends([p], [TextAppend("a", "t0", [8], 2)])
      == Ok([Note("a", [Text("t0", [7, 8]), Text("t0", [7])])])
  {
    var a := TextAppend("a", "t0", [8], 2);
    assert [7] + [8] == [7, 8];
    assert p.parts[0 := Text("t0", [7, 8])] == [Text("t0", [7, 8]), Text("t0", [7])];
    var r := Note("a", [Text("t0", [7, 8]), Text("t0", [7])]);
    assert AppendTo(p, a) == Ok(r);
    UniquePosition([p], 0);
    assert [p][0 := r] == [r];
    assert [a][..0] == [];
  }

  // ----- what a frame carries -----

  /** Entry i is nothing new: an entry of that id stood behind the same entry before, and is the
      same but for one text that grew. */
  ghost predicate Expected(prev: seq<Entry>, next: seq<Entry>, i: int)
    requires 0 <= i < |next|
  {
    exists p :: 0 <= p < |prev| && prev[p].id == next[i].id && ExpectedFrom(prev, next, p, i)
  }

  ghost predicate ExpectedFrom(prev: seq<Entry>, next: seq<Entry>, p: int, i: int)
    requires 0 <= p < |prev| && 0 <= i < |next|
  {
    && Predecessor(prev, p) == Predecessor(next, i)
    && (prev[p] == next[i] || (SameShell(prev[p], next[i]) && exists k :: SoleGrowth(prev[p].parts, next[i].parts, k)))
  }

  lemma AppendExactly(p: Entry, n: Entry)
    ensures TextAppendOf(p, n).Some? <==> SameShell(p, n) && exists k :: SoleGrowth(p.parts, n.parts, k)
  {
    if SameShell(p, n) {
      var k := FirstDifference(p.parts, n.parts, 0);
      if TextAppendOf(p, n).Some? { assert SoleGrowth(p.parts, n.parts, k); }
      if j :| SoleGrowth(p.parts, n.parts, j) {
        assert k == j;
        assert FirstDifference(p.parts, n.parts, k + 1) == |p.parts|;
      }
    }
  }

  /** An entry is sent whole exactly if it is something new. */
  lemma SentExactly(prev: seq<Entry>, next: seq<Entry>, i: nat)
    requires Unique(prev) && i < |next|
    ensures ChangeOf(prev, next, i).Send? <==> !Expected(prev, next, i)
  {
    var p := LastPosition(prev, next[i].id);
    if p < |prev| {
      AppendExactly(prev[p], next[i]);
      if q :| 0 <= q < |prev| && prev[q].id == next[i].id && ExpectedFrom(prev, next, q, i) { assert q == p; }
    }
  }

  ghost function News(prev: seq<Entry>, next: seq<Entry>, n: nat): set<int>
    requires n <= |next|
  {
    set i | 0 <= i < n && !Expected(prev, next, i)
  }

  lemma {:induction false} UpsertsAreNews(prev: seq<Entry>, next: seq<Entry>, n: nat)
    requires Unique(prev) && n <= |next|
    ensures |Upserts(prev, next, n)| == |News(prev, next, n)|
  {
    if n == 0 {
      assert News(prev, next, 0) == {};
    } else {
      UpsertsAreNews(prev, next, n - 1);
      SentExactly(prev, next, n - 1);
      if Expected(prev, next, n - 1) {
        assert News(prev, next, n) == News(prev, next, n - 1);
      } else {
        assert News(prev, next, n) == News(prev, next, n - 1) + {n - 1};
      }
    }
  }

  /** A frame resends the whole list exactly if the list is longer than four entries and at least
      half of them are new; otherwise it carries just the new ones whole. */
  lemma ResetsExactly(prev: seq<Entry>, next: seq<Entry>)
    requires Unique(prev)
    ensures var f, news := Diff(prev, next), News(prev, next, |next|);
      && (f.Reset? <==> |next| > 4 && 2 * |news| >= |next|)
      && (f.Reset? ==> f.reset == next)
      && (f.Delta? ==> |f.upsert| == |news|)
  {
    UpsertsAreNews(prev, next, |next|);
  }

  // ----- what a viewer refuses -----

  lemma DropKeepsOthers(es: seq<Entry>, id: string, anchor: string)
    requires Unique(es)
    ensures Has(Drop(es, id), anchor) <==> anchor != id && Has(es, anchor)
  {
    var k, rest := Position(es, id), Drop(es, id);
    if k < |es| {
      assert forall j :: 0 <= j < |rest| ==> rest[j] == if j < k then es[j] else es[j + 1];
      if anchor != id && Has(es, anchor) {
        var p := Position(es, anchor);
        assert rest[if p < k then p else p - 1].id == anchor;
      }
    }
  }

  /** An upsert is refused exactly if it is to stand behind itself or behind an entry the viewer
      does not have; the refusal names that entry. */
  lemma UpsertRefusedExactly(es: seq<Entry>, u: Upsert)
    requires Unique(es)
    ensures ApplyUpsert(es, u).Err? <==> u.after.Some? && (u.after.value == u.entry.id || !Has(es, u.after.value))
    ensures ApplyUpsert(es, u).Err? ==> ApplyUpsert(es, u).error == MissingAnchor(u.after.value)
  {
    if u.after.Some? { DropKeepsOthers(es, u.entry.id, u.after.value); }
  }

  /** The text of an entry's first text part with the id. */
  ghost predicate FirstText(e: Entry, id: string, k: int) {
    && 0 <= k < |e.parts| && e.parts[k].Text? && e.parts[k].id == id
    && forall j :: 0 <= j < k && e.parts[j].Text? ==> e.parts[j].id != id
  }

  /** Appending to an entry: refused without such a text, or if the text would not come out as long
      as the sender says; else that one text is lengthened. */
  lemma AppendToExactly(e: Entry, a: TextAppend)
    ensures AppendTo(e, a) == Err(MissingPart(a.part)) <==> forall p :: p in e.parts && p.Text? ==> p.id != a.part
    ensures forall k :: FirstText(e, a.part, k) ==>
      var grown := e.parts[k].text + a.text;
      AppendTo(e, a) ==
        if |grown| == a.len then Ok(e.(parts := e.parts[k := Text(a.part, grown)]))
        else Err(LengthMismatch(a.entry, a.part, |grown|, a.len))
  {
    var t := TextIndex(e.parts, a.part);
    if t < |e.parts| { assert e.parts[t] in e.parts; }
  }

  /** An append is refused for want of the entry, or as its entry refuses it; else it changes that
      one entry. */
  lemma AppendRefusedExactly(es: seq<Entry>, a: TextAppend, k: nat)
    requires Unique(es)
    ensures ApplyAppend(es, a) == Err(MissingEntry(a.entry)) <==> !Has(es, a.entry)
    ensures k < |es| && es[k].id == a.entry ==>
      match AppendTo(es[k], a)
      case Err(reason) => ApplyAppend(es, a) == Err(reason)
      case Ok(e) => ApplyAppend(es, a) == Ok(es[k := e])
  {
    if k < |es| && es[k].id == a.entry { assert Position(es, a.entry) == k; }
  }

  /** The removals are listed in the order of the previous list. */
  lemma {:induction false} RemovedInOrder(prev: seq<Entry>, e: Entry, next: seq<Entry>)
    ensures Removed(prev + [e], next) == Removed(prev, next) + if Has(next, e.id) then [] else [e.id]
  {
    if prev == [] {
      assert [] + [e] == [e] && [e][1..] == [];
    } else {
      assert (prev + [e])[0] == prev[0] && (prev + [e])[1..] == prev[1..] + [e];
      RemovedInOrder(prev[1..], e, next);
    }
  }
}
