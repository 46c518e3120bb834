/** Joining continuation entries onto their roots (crates/doc/src/schema.rs). */
module Continuations {
  import opened Common
  import opened Parts

  predicate IsRoot(e: Entry, id: string) { e.continuationOf == None && e.id == id }

  predicate HasRoot(es: seq<Entry>, id: string) {
    es != [] && (IsRoot(es[0], id) || HasRoot(es[1..], id))
  }

  function NextRoots(e: Entry, roots: set<string>): set<string> {
    if e.continuationOf.None? then roots + {e.id} else roots
  }

  /** Parts of the continuations of `id` in `es`, up to the next root of that id. */
  function Extension(es: seq<Entry>, id: string): seq<MessagePart> {
    if es == [] || IsRoot(es[0], id) then []
    else (if es[0].continuationOf == Some(id) then es[0].parts else []) + Extension(es[1..], id)
  }

  /** What the first entry contributes: a root carries its own parts followed by its
      continuations', an orphan stands for itself, and a continuation of a root in `roots`
      contributes nothing. */
  function HeadRow(es: seq<Entry>, roots: set<string>): seq<Entry>
    requires es != []
  {
    match es[0].continuationOf
    case None => [es[0].(parts := es[0].parts + Extension(es[1..], es[0].id))]
    case Some(root) => if root in roots then [] else [es[0]]
  }

  /** The joined transcript, defined without an index; `roots` are the ids of the roots already
      passed. */
  function Joined(es: seq<Entry>, roots: set<string>): seq<Entry> {
    if es == [] then [] else HeadRow(es, roots) + Joined(es[1..], NextRoots(es[0], roots))
  }

  function Join(es: seq<Entry>): seq<Entry> { Joined(es, {}) }

  /** Index in the joined list of the last root of the given id, or None: what the hash map
      the source builds holds after the whole list. */
  function RootSlot(es: seq<Entry>, roots: set<string>, id: string): Option<nat> {
    if es == [] then None
    else
      var later := RootSlot(es[1..], NextRoots(es[0], roots), id);
      if later.Some? then Some(|HeadRow(es, roots)| + later.value)
      else if IsRoot(es[0], id) then Some(0) else None
  }

  lemma {:induction false} RootSlotBound(es: seq<Entry>, roots: set<string>, id: string)
    ensures var k := RootSlot(es, roots, id);
      && (k.Some? <==> HasRoot(es, id))
      && (k.Some? ==> k.value < |Joined(es, roots)|)
  {
    if es != [] {
      RootSlotBound(es[1..], NextRoots(es[0], roots), id);
      assert es == [es[0]] + es[1..];
    }
  }

  lemma {:induction false} ExtensionSnoc(es: seq<Entry>, e: Entry, id: string)
    requires e.continuationOf.None?
    ensures Extension(es + [e], id) == Extension(es, id)
  {
    if es == [] {
      assert [e][1..] == [];
    } else {
      assert (es + [e])[1..] == es[1..] + [e];
      ExtensionSnoc(es[1..], e, id);
    }
  }

  lemma {:induction false} ExtensionSnocMore(es: seq<Entry>, e: Entry, id: string)
    requires e.continuationOf.Some?
    ensures Extension(es + [e], id) ==
      if e.continuationOf == Some(id) && !(HasRoot(es, id))
      then Extension(es, id) + e.parts else Extension(es, id)
  {
    if es == [] {
      assert [e][1..] == [] && e.parts + [] == e.parts && [] + e.parts == e.parts;
    } else {
      assert (es + [e])[1..] == es[1..] + [e];
      assert es == [es[0]] + es[1..];
      ExtensionSnocMore(es[1..], e, id);
    }
  }

  lemma HeadRowSnoc(es: seq<Entry>, e: Entry, roots: set<string>)
    requires es != []
    requires e.continuationOf.None? || !IsRoot(es[0], e.continuationOf.value) || HasRoot(es[1..], e.continuationOf.value)
    ensures (es + [e])[0] == es[0] && (es + [e])[1..] == es[1..] + [e]
    ensures HeadRow(es + [e], roots) == HeadRow(es, roots)
  {
    assert (es + [e])[1..] == es[1..] + [e];
    if es[0].continuationOf.None? {
      if e.continuationOf.None? {
        ExtensionSnoc(es[1..], e, es[0].id);
      } else {
        ExtensionSnocMore(es[1..], e, es[0].id);
      }
    }
  }

  /** Appending a root or an orphan appends it to the joined list. */
  lemma {:induction false} JoinedSnocNew(es: seq<Entry>, e: Entry, roots: set<string>)
    requires e.continuationOf.Some? ==> e.continuationOf.value !in roots && !HasRoot(es, e.continuationOf.value)
    ensures Joined(es + [e], roots) == Joined(es, roots) + [e]
  {
    if es == [] {
      assert es + [e] == [e] && [e][1..] == [];
      assert e.parts + [] == e.parts;
      assert HeadRow([e], roots) == [e];
    } else {
      HeadRowSnoc(es, e, roots);
      JoinedSnocNew(es[1..], e, NextRoots(es[0], roots));
    }
  }

  lemma {:induction false} RootSlotSnoc(es: seq<Entry>, e: Entry, roots: set<string>, id: string)
    ensures RootSlot(es + [e], roots, id) == if IsRoot(e, id) then Some(|Joined(es, roots)|) else RootSlot(es, roots, id)
  {
    if es == [] {
      assert es + [e] == [e] && [e][1..] == [];
    } else {
      assert (es + [e])[0] == es[0] && (es + [e])[1..] == es[1..] + [e];
      RootSlotSnoc(es[1..], e, NextRoots(es[0], roots), id);
    }
  }

  function Extended(e: Entry, more: seq<MessagePart>): Entry { e.(parts := e.parts + more) }

  /** Appending a continuation of a known root extends that root in place. */
  lemma {:induction false} JoinedSnocMore(es: seq<Entry>, e: Entry, roots: set<string>)
    requires e.continuationOf.Some? && HasRoot(es, e.continuationOf.value)
    ensures RootSlot(es, roots, e.continuationOf.value).Some?
    ensures RootSlot(es, roots, e.continuationOf.value).value < |Joined(es, roots)|
    ensures var k, js := RootSlot(es, roots, e.continuationOf.value).value, Joined(es, roots);
      Joined(es + [e], roots) == js[k := Extended(js[k], e.parts)]
  {
    var id := e.continuationOf.value;
    var next := NextRoots(es[0], roots);
    var head, rest := HeadRow(es, roots), Joined(es[1..], next);
    RootSlotBound(es, roots, id);
    RootSlotBound(es[1..], next, id);
    assert (es + [e])[0] == es[0] && (es + [e])[1..] == es[1..] + [e];
    if HasRoot(es[1..], id) {
      HeadRowSnoc(es, e, roots);
      JoinedSnocMore(es[1..], e, next);
      var j := RootSlot(es[1..], next, id).value;
      UpdateBehind(head, rest, j, Extended(rest[j], e.parts));
    } else {
      JoinedSnocDropped(es[1..], e, next);
      ExtensionSnocMore(es[1..], e, id);
      assert es[0].parts + (Extension(es[1..], id) + e.parts) == (es[0].parts + Extension(es[1..], id)) + e.parts;
      assert HeadRow(es + [e], roots) == [Extended(head[0], e.parts)];
      UpdateFirst(head[0], rest, Extended(head[0], e.parts));
    }
  }

  lemma UpdateBehind(head: seq<Entry>, rest: seq<Entry>, j: nat, e: Entry)
    requires j < |rest|
    ensures (head + rest)[|head| + j] == rest[j]
    ensures (head + rest)[|head| + j := e] == head + rest[j := e]
  {
  }

  lemma UpdateFirst(first: Entry, rest: seq<Entry>, e: Entry)
    ensures ([first] + rest)[0 := e] == [e] + rest
  {
  }

  /** A continuation whose root lies before the list leaves the list's own rows alone. */
  lemma {:induction false} JoinedSnocDropped(es: seq<Entry>, e: Entry, roots: set<string>)
    requires e.continuationOf.Some? && e.continuationOf.value in roots && !HasRoot(es, e.continuationOf.value)
    ensures Joined(es + [e], roots) == Joined(es, roots)
  {
    if es == [] {
      assert es + [e] == [e] && [e][1..] == [];
    } else {
      HeadRowSnoc(es, e, roots);
      JoinedSnocDropped(es[1..], e, NextRoots(es[0], roots));
    }
  }

  lemma {:induction false} NothingToJoin(es: seq<Entry>, roots: set<string>)
    requires forall e :: e in es ==> e.continuationOf.None?
    ensures Joined(es, roots) == es
    ensures forall id :: Extension(es, id) == []
  {
    if es != [] {
      NothingToJoin(es[1..], roots + {es[0].id});
      assert es[0].parts + [] == es[0].parts;
    }
  }

  /** The source's loop: an output list and an index from root id to output row. */
  method JoinContinuationEntries(entries: seq<Entry>) returns (out: seq<Entry>)
    ensures out == Join(entries)
  {
    var any := false;
    for i := 0 to |entries|
      invariant any <==> exists j :: 0 <= j < i && entries[j].continuationOf.Some?
    {
      if entries[i].continuationOf.Some? { any := true; }
    }
    if !any {
      NothingToJoin(entries, {});
      return entries;
    }
    out := [];
    var rootIndex: map<string, nat> := map[];
    for i := 0 to |entries|
      invariant out == Join(entries[..i])
      invariant forall id :: id in rootIndex <==> RootSlot(entries[..i], {}, id).Some?
      invariant forall id :: id in rootIndex ==> RootSlot(entries[..i], {}, id) == Some(rootIndex[id])
    {
      var entry := entries[i];
      ghost var done := entries[..i];
      assert entries[..i + 1] == done + [entry];
      forall id ensures RootSlot(done + [entry], {}, id) ==
        if IsRoot(entry, id) then Some(|out|) else RootSlot(done, {}, id)
      {
        RootSlotSnoc(done, entry, {}, id);
      }
      match entry.continuationOf {
        case Some(root) =>
          RootSlotBound(done, {}, root);
          if root in rootIndex {
            var at := rootIndex[root];
            JoinedSnocMore(done, entry, {});
            out := out[at := out[at].(parts := out[at].parts + entry.parts)];
          } else {
            JoinedSnocNew(done, entry, {});
            out := out + [entry];
          }
        case None =>
          JoinedSnocNew(done, entry, {});
          rootIndex := rootIndex[entry.id := |out|];
          out := out + [entry];
      }
    }
    assert entries[..|entries|] == entries;
  }

  // ----- what the join conserves -----

  function Flatten(es: seq<Entry>): seq<MessagePart> {
    if es == [] then [] else es[0].parts + Flatten(es[1..])
  }

  /** Parts of the entries that continue a root in `roots` with no root of that id before them. */
  function Pending(es: seq<Entry>, roots: set<string>): seq<MessagePart> {
    if es == [] then []
    else
      match es[0].continuationOf
      case None => Pending(es[1..], roots - {es[0].id})
      case Some(root) => (if root in roots then es[0].parts else []) + Pending(es[1..], roots)
  }

  lemma {:induction false} PendingSplits(es: seq<Entry>, roots: set<string>, id: string)
    requires id !in roots
    ensures multiset(Pending(es, roots + {id})) == multiset(Pending(es, roots)) + multiset(Extension(es, id))
  {
    if es != [] {
      if IsRoot(es[0], id) {
        assert roots + {id} - {id} == roots && roots - {id} == roots;
      } else {
        match es[0].continuationOf {
          case None =>
            assert roots + {id} - {es[0].id} == roots - {es[0].id} + {id};
            PendingSplits(es[1..], roots - {es[0].id}, id);
          case Some(root) =>
            PendingSplits(es[1..], roots, id);
        }
      }
    }
  }

  /** No part is lost or duplicated by the join: its parts are those of the list, minus the
      ones owed to roots that stand before it. */
  lemma {:induction false} JoinedConserves(es: seq<Entry>, roots: set<string>)
    ensures multiset(Flatten(Joined(es, roots))) + multiset(Pending(es, roots)) == multiset(Flatten(es))
  {
    if es != [] {
      var next := NextRoots(es[0], roots);
      var rest := Joined(es[1..], next);
      JoinedConserves(es[1..], next);
      FlattenHead(HeadRow(es, roots), rest);
      HeadBalance(es, roots);
      Balance(multiset(Flatten(HeadRow(es, roots))), multiset(Flatten(rest)), multiset(Pending(es, roots)),
              multiset(es[0].parts), multiset(Pending(es[1..], next)), multiset(Flatten(es[1..])));
    }
  }

  lemma Balance<T>(head: multiset<T>, rest: multiset<T>, owed: multiset<T>,
                   first: multiset<T>, stillOwed: multiset<T>, tail: multiset<T>)
    requires head + owed == first + stillOwed
    requires rest + stillOwed == tail
    ensures (head + rest) + owed == first + tail
  {
    forall x ensures ((head + rest) + owed)[x] == (first + tail)[x] {
      assert (head + owed)[x] == (first + stillOwed)[x];
      assert (rest + stillOwed)[x] == tail[x];
    }
  }

  lemma FlattenHead(head: seq<Entry>, rest: seq<Entry>)
    requires |head| <= 1
    ensures multiset(Flatten(head + rest)) == multiset(Flatten(head)) + multiset(Flatten(rest))
  {
    if |head| == 1 {
      assert (head + rest)[1..] == rest && head[1..] == [];
    } else {
      assert head + rest == rest;
    }
  }

  /** What the first row gains is exactly what the rest of the list stops owing. */
  lemma HeadBalance(es: seq<Entry>, roots: set<string>)
    requires es != []
    ensures multiset(Flatten(HeadRow(es, roots))) + multiset(Pending(es, roots))
      == multiset(es[0].parts) + multiset(Pending(es[1..], NextRoots(es[0], roots)))
  {
    match es[0].continuationOf {
      case None =>
        var id := es[0].id;
        assert roots + {id} == (roots - {id}) + {id};
        PendingSplits(es[1..], roots - {id}, id);
        assert HeadRow(es, roots)[1..] == [];
        assert Flatten(HeadRow(es, roots)) == es[0].parts + Extension(es[1..], id) + [];
      case Some(root) =>
        assert root !in roots ==> [es[0]][1..] == [] && es[0].parts + [] == es[0].parts;
    }
  }

  lemma {:induction false} NoRootsNothingPending(es: seq<Entry>)
    ensures Pending(es, {}) == []
  {
    if es != [] {
      assert {} - {es[0].id} == {};
      NoRootsNothingPending(es[1..]);
    }
  }

  lemma JoinConserves(es: seq<Entry>)
    ensures multiset(Flatten(Join(es))) == multiset(Flatten(es))
  {
    JoinedConserves(es, {});
    NoRootsNothingPending(es);
  }

  /** Every row of the result is a root or a continuation of no earlier root. */
  ghost predicate Settled(es: seq<Entry>, roots: set<string>) {
    es == [] ||
     ((es[0].continuationOf.Some? ==> es[0].continuationOf.value !in roots) &&
      Settled(es[1..], NextRoots(es[0], roots)))
  }

  lemma {:induction false} JoinedSettled(es: seq<Entry>, roots: set<string>)
    ensures Settled(Joined(es, roots), roots)
  {
    if es != [] {
      var rest := Joined(es[1..], NextRoots(es[0], roots));
      JoinedSettled(es[1..], NextRoots(es[0], roots));
      if es[0].continuationOf.None? {
        var own := es[0].(parts := es[0].parts + Extension(es[1..], es[0].id));
        assert ([own] + rest)[1..] == rest && NextRoots(own, roots) == NextRoots(es[0], roots);
      } else {
        assert ([es[0]] + rest)[1..] == rest && [] + rest == rest;
      }
    }
  }

  lemma {:induction false} SettledNeedsNothing(es: seq<Entry>, roots: set<string>)
    requires Settled(es, roots)
    ensures Joined(es, roots) == es
    ensures forall id :: id in roots ==> Extension(es, id) == []
  {
    if es != [] {
      SettledNeedsNothing(es[1..], NextRoots(es[0], roots));
      assert es[0].parts + [] == es[0].parts;
    }
  }

  lemma JoinIdempotent(es: seq<Entry>)
    ensures Join(Join(es)) == Join(es)
  {
    JoinedSettled(es, {});
    SettledNeedsNothing(Join(es), {});
  }

  /** Default number of messages in the tail sidecar. */
  const TAIL_MESSAGE_COUNT: nat := 64

  datatype Tail = Tail(messages: seq<Entry>, total: nat)

  /** The last messages of the joined transcript; a count of zero means the default. */
  method MaterializeTail(entries: seq<Entry>, tailCount: nat) returns (tail: Tail)
    ensures tail.total == |Join(entries)|
    ensures |tail.messages| <= tail.total && tail.messages == Join(entries)[tail.total - |tail.messages|..]
    ensures var want := if tailCount == 0 then TAIL_MESSAGE_COUNT else tailCount;
      |tail.messages| == if want <= tail.total then want else tail.total
  {
    var all := JoinContinuationEntries(entries);
    var want := if tailCount == 0 then TAIL_MESSAGE_COUNT else tailCount;
    var start := if want <= |all| then |all| - want else 0;
    tail := Tail(all[start..], |all|);
  }
}
