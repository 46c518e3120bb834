/** How a document may change between two frames so that the viewer keeps up: entries are written
    further or merged in, and the joined lists of before and after differ by an exact frame. */
module Evolution {
  import opened Common
  import opened Parts
  import opened Continuations
  import opened TranscriptDelta
  import opened DeltaRoundTrip
  import opened DeltaTheorems

  // ----- how the joined list looks -----

  /** Row i of the list as it appears after the join. */
  ghost function Row(es: seq<Entry>, i: nat): Entry
    requires i < |es|
  {
    if es[i].continuationOf.None? then Extended(es[i], Extension(es[i + 1..], es[i].id)) else es[i]
  }

  lemma {:induction false} JoinedRows(es: seq<Entry>, roots: set<string>, r: Entry)
    requires r in Joined(es, roots)
    ensures exists i :: 0 <= i < |es| && r == Row(es, i)
  {
    var head, tail := HeadRow(es, roots), es[1..];
    if r in head {
      assert r == Row(es, 0);
    } else {
      assert r in Joined(tail, NextRoots(es[0], roots));
      JoinedRows(tail, NextRoots(es[0], roots), r);
      var i :| 0 <= i < |tail| && r == Row(tail, i);
      assert tail[i + 1..] == es[i + 2..];
      assert r == Row(es, i + 1);
    }
  }

  lemma {:induction false} JoinedUnique(es: seq<Entry>, roots: set<string>)
    requires Unique(es)
    ensures Unique(Joined(es, roots))
    ensures forall r :: r in Joined(es, roots) ==> Has(es, r.id)
  {
    if es != [] {
      var head, tail, next := HeadRow(es, roots), es[1..], NextRoots(es[0], roots);
      assert Unique(tail);
      JoinedUnique(tail, next);
      forall r | r in Joined(tail, next) ensures r.id != es[0].id && Has(es, r.id) {
        var k := IdIndex(tail, r.id);
        assert es[k + 1] == tail[k];
      }
      if head != [] {
        assert head == [head[0]] && head[0].id == es[0].id;
        ConsUnique(head[0], Joined(tail, next));
      } else {
        assert Joined(es, roots) == Joined(tail, next);
      }
    }
  }

  lemma ConsUnique(e: Entry, es: seq<Entry>)
    requires Unique(es) && forall r :: r in es ==> r.id != e.id
    ensures Unique([e] + es)
  {
    var s := [e] + es;
    forall i, j | 0 <= i < j < |s| ensures s[i].id != s[j].id {
      assert s[j] == es[j - 1];
      if i > 0 { assert s[i] == es[i - 1]; }
    }
  }

  lemma TailAvoids(es: seq<Entry>, roots: set<string>)
    requires Unique(es) && es != []
    ensures var j := Joined(es[1..], NextRoots(es[0], roots));
      forall r :: r in j ==> r.id != es[0].id
  {
    var tail, next := es[1..], NextRoots(es[0], roots);
    JoinedUnique(tail, next);
    forall r | r in Joined(tail, next) ensures r.id != es[0].id {
      var k := IdIndex(tail, r.id);
      assert es[k + 1] == tail[k];
    }
  }

  lemma TailSurfaces(es: seq<Entry>, roots: set<string>, S: set<string>)
    requires Unique(es) && es != []
    requires forall e :: e in es && e.id in S ==> Has(Joined(es, roots), e.id)
    ensures forall e :: e in es[1..] && e.id in S ==> Has(Joined(es[1..], NextRoots(es[0], roots)), e.id)
  {
    var all, j, head := Joined(es, roots), Joined(es[1..], NextRoots(es[0], roots)), HeadRow(es, roots);
    forall e | e in es[1..] && e.id in S ensures Has(j, e.id) {
      var i :| 0 <= i < |es[1..]| && es[1..][i] == e;
      assert es[i + 1] == e;
      var k := IdIndex(all, e.id);
      assert all[k] in head + j;
      if all[k] !in head { assert all[k] in j; }
    }
  }

  lemma HeadOrder(es: seq<Entry>, roots: set<string>, S: set<string>)
    requires Unique(es) && es != [] && (es[0].id in S ==> Has(Joined(es, roots), es[0].id))
    ensures Only(HeadRow(es, roots), S) == if es[0].id in S then [es[0].id] else []
  {
    var head, j := HeadRow(es, roots), Joined(es[1..], NextRoots(es[0], roots));
    if head == [] {
      TailAvoids(es, roots);
      assert Joined(es, roots) == j;
      NotThere(j, es[0].id);
    } else {
      OnlyOfOne(head, S);
    }
  }

  lemma NotThere(es: seq<Entry>, id: string)
    requires forall e :: e in es ==> e.id != id
    ensures !Has(es, id)
  {
  }

  lemma OnlyOfOne(es: seq<Entry>, S: set<string>)
    requires |es| == 1
    ensures Only(es, S) == if es[0].id in S then [es[0].id] else []
  {
    assert es[1..] == [];
  }

  /** Ids that surface keep the order they have in the list. */
  lemma {:induction false} JoinedOrder(es: seq<Entry>, roots: set<string>, S: set<string>)
    requires Unique(es)
    requires forall e :: e in es && e.id in S ==> Has(Joined(es, roots), e.id)
    ensures Only(Joined(es, roots), S) == Only(es, S)
  {
    if es != [] {
      var tail, next := es[1..], NextRoots(es[0], roots);
      assert Unique(tail);
      assert es[0] in es;
      TailSurfaces(es, roots, S);
      HeadOrder(es, roots, S);
      JoinedOrder(tail, next, S);
      OnlyConcat(HeadRow(es, roots), Joined(tail, next), S);
    }
  }

  // ----- how the document may change between two frames -----

  ghost predicate TextNamed(parts: seq<MessagePart>) {
    forall i :: 0 <= i < |parts| && parts[i].Text? ==> parts[i].id == TextId(i)
  }

  ghost function ExtensionOf(es: seq<Entry>, id: string): seq<MessagePart> {
    if Has(es, id) then Extension(es[Position(es, id) + 1..], id) else []
  }

  /** Longer, or the same. */
  ghost predicate NotShorter(a: seq<MessagePart>, b: seq<MessagePart>) {
    |a| <= |b| && (|a| == |b| ==> a == b)
  }

  /** How entry e of the earlier list stands in the later one: unchanged or written further, and
      continuations may have been merged behind it. */
  ghost predicate EntryEvolved(a: seq<Entry>, b: seq<Entry>, e: Entry) {
    && Has(b, e.id)
    && (b[Position(b, e.id)] == e || LiveGrew(e, b[Position(b, e.id)]))
    && NotShorter(ExtensionOf(a, e.id), ExtensionOf(b, e.id))
  }

  ghost predicate LiveGrew(e: Entry, f: Entry) {
    && e.continuationOf.None? && f.continuationOf.None?
    && TextNamed(e.parts) && |e.parts| <= |f.parts|
  }

  ghost predicate Evolved(a: seq<Entry>, b: seq<Entry>) {
    && Unique(a) && Unique(b)
    && Only(b, IdSet(a)) == Ids(a)
    && forall e :: e in a ==> EntryEvolved(a, b, e)
  }

  lemma EvolvedOrder(a: seq<Entry>, b: seq<Entry>)
    requires Evolved(a, b)
    ensures SharedOrder(Join(a), Join(b))
  {
    var S := IdSet(Join(a)) * IdSet(Join(b));
    JoinedUnique(a, {});
    JoinedUnique(b, {});
    forall id | id in S ensures Has(Join(a), id) && Has(Join(b), id) && id in IdSet(a) {
      var r :| r in Join(a) && r.id == id;
      var t :| t in Join(b) && t.id == id;
      var k := IdIndex(a, id);
      assert a[k] in a;
    }
    JoinedOrder(a, {}, S);
    JoinedOrder(b, {}, S);
    OnlyNested(b, IdSet(a), S);
    OnlyNested(a, IdSet(a), S);
    OnlyAll(a, IdSet(a));
  }

  lemma RowOf(es: seq<Entry>, i: nat)
    requires Unique(es) && i < |es|
    ensures Row(es, i) == if es[i].continuationOf.None? then Extended(es[i], ExtensionOf(es, es[i].id)) else es[i]
  {
    UniquePosition(es, i);
  }

  /** A row that a frame treats as a text append was written further, and the append can only land
      in the part that grew. */
  lemma RowHits(a: seq<Entry>, b: seq<Entry>, i: nat, j: nat)
    requires Evolved(a, b) && i < |a| && j < |b| && a[i].id == b[j].id
    requires TextAppendOf(Row(a, i), Row(b, j)).Some?
    ensures var k := FirstDifference(Row(a, i).parts, Row(b, j).parts, 0);
      TextIndex(Row(a, i).parts, Row(a, i).parts[k].id) == k
  {
    var e, f := a[i], b[j];
    assert e in a && EntryEvolved(a, b, e);
    UniquePosition(b, j);
    RowOf(a, i);
    RowOf(b, j);
    if f == e { UnchangedRow(e, ExtensionOf(a, e.id), ExtensionOf(b, e.id)); }
    GrownRow(e, f, Row(a, i).parts, Row(b, j).parts);
  }

  /** An entry that did not change may have got a longer extension, but that is no text append. */
  lemma UnchangedRow(e: Entry, x: seq<MessagePart>, y: seq<MessagePart>)
    requires NotShorter(x, y)
    ensures TextAppendOf(e, e).None? && TextAppendOf(Extended(e, x), Extended(e, y)).None?
  {
    if |x| == |y| {
      assert Extended(e, x) == Extended(e, y);
    } else {
      assert |Extended(e, x).parts| != |Extended(e, y).parts|;
    }
  }

  lemma GrownRow(e: Entry, f: Entry, x: seq<MessagePart>, y: seq<MessagePart>)
    requires LiveGrew(e, f) && e.parts <= x && f.parts <= y && |x| == |y|
    requires FirstDifference(x, y, 0) < |x| && x[FirstDifference(x, y, 0)].Text?
    requires FirstDifference(x, y, 0) < |e.parts|
    ensures var k := FirstDifference(x, y, 0);
      TextIndex(x, x[k].id) == k
  {
    var k := FirstDifference(x, y, 0);
    var t := TextIndex(x, x[k].id);
    assert x[k] == e.parts[k] && t <= k && x[t] == e.parts[t];
    TextIdInjective(t, k);
  }

  lemma EvolvedHits(a: seq<Entry>, b: seq<Entry>)
    requires Evolved(a, b)
    ensures AppendsHit(Join(a), Join(b))
  {
    var x, y := Join(a), Join(b);
    JoinedUnique(a, {});
    JoinedUnique(b, {});
    forall n | 0 <= n < |y| ensures Hit(x, y, n) {
      if ChangeOf(x, y, n).Grow? {
        var p := LastPosition(x, y[n].id);
        JoinedRows(a, {}, x[p]);
        JoinedRows(b, {}, y[n]);
        var i :| 0 <= i < |a| && x[p] == Row(a, i);
        var j :| 0 <= j < |b| && y[n] == Row(b, j);
        RowHits(a, b, i, j);
      }
    }
    HitsAreAppendsHit(x, y);
  }

  /** Any change of this kind reaches the viewer exactly. */
  lemma FrameDelivers(a: seq<Entry>, b: seq<Entry>)
    requires Evolved(a, b)
    ensures Apply(Join(a), Diff(Join(a), Join(b))) == Ok(Join(b))
  {
    JoinedUnique(a, {});
    JoinedUnique(b, {});
    EvolvedOrder(a, b);
    SharedOrderKeeps(Join(a), Join(b));
    EvolvedHits(a, b);
    RoundTripExactly(Join(a), Join(b));
  }

  // ----- each kind of step keeps the relation -----

  lemma EvolvedSelf(a: seq<Entry>)
    requires Unique(a)
    ensures Evolved(a, a)
  {
    OnlyAll(a, IdSet(a));
    forall e | e in a ensures EntryEvolved(a, a, e) {
      UniqueMember(a, e, Position(a, e.id));
    }
  }

  lemma {:induction false} ExtensionConcat(u: seq<Entry>, v: seq<Entry>, id: string)
    ensures Extension(u + v, id) == Extension(u, id) + if HasRoot(u, id) then [] else Extension(v, id)
  {
    if u == [] {
      assert u + v == v;
    } else {
      assert (u + v)[0] == u[0] && (u + v)[1..] == u[1..] + v;
      ExtensionConcat(u[1..], v, id);
    }
  }

  lemma {:induction false} NoRootAfter(u: seq<Entry>, id: string)
    requires forall e :: e in u ==> e.id != id
    ensures !HasRoot(u, id)
  {
    if u != [] {
      NoRootAfter(u[1..], id);
    }
  }

  /** Putting one new entry anywhere into a list never shortens an extension. */
  lemma ExtensionInsert(u: seq<Entry>, e: Entry, v: seq<Entry>, id: string)
    requires !IsRoot(e, id)
    ensures NotShorter(Extension(u + v, id), Extension(u + [e] + v, id))
  {
    ExtensionConcat(u, v, id);
    assert u + [e] + v == u + ([e] + v);
    ExtensionConcat(u, [e] + v, id);
    ExtensionConcat([e], v, id);
    assert [e][1..] == [];
    assert Extension([e], id) == (if e.continuationOf == Some(id) then e.parts else []) + [];
  }

  lemma InsertBehind(l: seq<Entry>, e: Entry, r: seq<Entry>, k: nat)
    requires Unique(l + r) && Unique(l + [e] + r) && k < |l|
    ensures var b, c, id := l + r, l + [e] + r, l[k].id;
      && Position(b, id) == Position(c, id) == k
      && b[k + 1..] == l[k + 1..] + r && c[k + 1..] == l[k + 1..] + [e] + r
  {
    assert (l + r)[k] == l[k] == (l + [e] + r)[k];
    UniquePosition(l + r, k);
    UniquePosition(l + [e] + r, k);
  }

  lemma InsertInFront(l: seq<Entry>, e: Entry, r: seq<Entry>, k: nat)
    requires Unique(l + r) && Unique(l + [e] + r) && k < |r|
    ensures var b, c, id := l + r, l + [e] + r, r[k].id;
      && Position(b, id) == |l| + k && Position(c, id) == |l| + k + 1
      && b[|l| + k + 1..] == r[k + 1..] == c[|l| + k + 2..]
  {
    assert (l + r)[|l| + k] == r[k] == (l + [e] + r)[|l| + k + 1];
    UniquePosition(l + r, |l| + k);
    UniquePosition(l + [e] + r, |l| + k + 1);
  }

  lemma InsertPositions(b: seq<Entry>, p: nat, e: Entry, id: string)
    requires Unique(b) && p <= |b| && !Has(b, e.id) && Has(b, id)
    ensures var c := b[..p] + [e] + b[p..];
      && Has(c, id) && c[Position(c, id)] == b[Position(b, id)]
      && NotShorter(ExtensionOf(b, id), ExtensionOf(c, id))
  {
    assert b == b[..p] + b[p..];
    InsertUnique(b, p, e);
    InsertedAt(b, b[..p] + [e] + b[p..], b[..p], e, b[p..], id);
  }

  lemma InsertedAt(b: seq<Entry>, c: seq<Entry>, l: seq<Entry>, e: Entry, r: seq<Entry>, id: string)
    requires b == l + r && c == l + [e] + r && Unique(b) && Unique(c) && Has(b, id)
    ensures Has(c, id) && c[Position(c, id)] == b[Position(b, id)]
    ensures NotShorter(ExtensionOf(b, id), ExtensionOf(c, id))
  {
    var k := Position(b, id);
    if k < |l| {
      assert b[k] == l[k] && c[k] == l[k] && c[|l|] == e;
      InsertedBehind(l, e, r, k);
    } else {
      assert b[k] == r[k - |l|];
      InsertedInFront(l, e, r, k - |l|);
    }
  }

  lemma InsertedBehind(l: seq<Entry>, e: Entry, r: seq<Entry>, k: nat)
    requires Unique(l + r) && Unique(l + [e] + r) && k < |l| && e.id != l[k].id
    ensures var b, c, id := l + r, l + [e] + r, l[k].id;
      && Has(c, id) && c[Position(c, id)] == l[k] && NotShorter(ExtensionOf(b, id), ExtensionOf(c, id))
  {
    InsertBehind(l, e, r, k);
    ExtensionInsert(l[k + 1..], e, r, l[k].id);
  }

  lemma InsertedInFront(l: seq<Entry>, e: Entry, r: seq<Entry>, k: nat)
    requires Unique(l + r) && Unique(l + [e] + r) && k < |r|
    ensures var b, c, id := l + r, l + [e] + r, r[k].id;
      && Has(c, id) && c[Position(c, id)] == r[k] && NotShorter(ExtensionOf(b, id), ExtensionOf(c, id))
  {
    InsertInFront(l, e, r, k);
  }

  lemma InsertUnique(b: seq<Entry>, p: nat, e: Entry)
    requires Unique(b) && p <= |b| && !Has(b, e.id)
    ensures Unique(b[..p] + [e] + b[p..])
  {
    assert b == b[..p] + b[p..];
    InsertedUnique(b[..p], e, b[p..]);
  }

  lemma EvolvedMerge(a: seq<Entry>, b: seq<Entry>, p: nat, e: Entry)
    requires Evolved(a, b) && p <= |b| && !Has(b, e.id)
    ensures Evolved(a, b[..p] + [e] + b[p..])
  {
    var c := b[..p] + [e] + b[p..];
    InsertUnique(b, p, e);
    forall x | x in a ensures EntryEvolved(a, c, x) && x.id != e.id {
      assert EntryEvolved(a, b, x);
      InsertPositions(b, p, e, x.id);
    }
    InsertOutside(b, p, e, IdSet(a));
  }

  lemma InsertOutside(b: seq<Entry>, p: nat, e: Entry, S: set<string>)
    requires p <= |b| && e.id !in S
    ensures Only(b[..p] + [e] + b[p..], S) == Only(b, S)
  {
    assert b == b[..p] + b[p..];
    OnlyInsert(b[..p], e, b[p..], S);
    OnlyConcat(b[..p], b[p..], S);
    assert Only(b[..p], S) + [] == Only(b[..p], S);
  }

  lemma {:induction false} ExtensionIgnoresRoots(u: seq<Entry>, v: seq<Entry>, id: string)
    requires |u| == |v|
    requires forall i :: 0 <= i < |u| ==>
      (u[i] == v[i] || (u[i].id == v[i].id && u[i].continuationOf.None? && v[i].continuationOf.None?))
    ensures Extension(u, id) == Extension(v, id)
  {
    if u != [] {
      ExtensionIgnoresRoots(u[1..], v[1..], id);
    }
  }

  lemma ReplacePositions(b: seq<Entry>, k: nat, f: Entry, id: string)
    requires k < |b| && f.id == b[k].id && f.continuationOf.None? && b[k].continuationOf.None?
    ensures Position(b[k := f], id) == Position(b, id)
    ensures ExtensionOf(b[k := f], id) == ExtensionOf(b, id)
  {
    var c, p := b[k := f], Position(b, id);
    assert forall i :: 0 <= i < |b| ==> c[i].id == b[i].id;
    assert Position(c, id) == p;
    if p < |b| {
      ExtensionIgnoresRoots(c[p + 1..], b[p + 1..], id);
    }
  }

  lemma EvolvedWrite(a: seq<Entry>, b: seq<Entry>, k: nat, f: Entry)
    requires k < |b| && Evolved(a, b)
    requires f.id == b[k].id && LiveGrew(b[k], f)
    ensures Evolved(a, b[k := f])
  {
    var c := b[k := f];
    assert forall i :: 0 <= i < |b| ==> c[i].id == b[i].id;
    assert Unique(c);
    assert Ids(c) == Ids(b);
    OnlyOfIds(b, c, IdSet(a));
    UniquePosition(b, k);
    forall x | x in a ensures EntryEvolved(a, c, x) {
      assert EntryEvolved(a, b, x);
      ReplacePositions(b, k, f, x.id);
    }
  }
}
