/** The bounded set of open documents on a device (crates/engine/src/doc_host.rs): which ones the
    eviction pass closes, and that closing one loses nothing. */
module DocLru {
  import opened Common

  const WARM_DOC_CAP: nat := 12

  const DOC_LRU_BYTE_BUDGET: nat := 80 * 1024 * 1024

  const RESIDENT_BYTES_PER_SNAPSHOT_BYTE: nat := 6

  const DOC_RESIDENT_FLOOR_BYTES: nat := 512 * 1024

  /** An open document: its content, its watchers, the references to it (one is the handle's
      own), and whether this device hosts it and still owes it a command. */
  datatype Handle<D> = Handle(
    doc: D,
    lastAccess: int,
    snapshotBytes: nat,
    watchers: nat,
    references: nat,
    owed: bool)

  predicate Pinned(h: Handle) { h.watchers > 0 || h.references > 1 || h.owed }

  function ResidentEstimate(h: Handle): nat {
    var scaled := h.snapshotBytes * RESIDENT_BYTES_PER_SNAPSHOT_BYTE;
    if scaled > DOC_RESIDENT_FLOOR_BYTES then scaled else DOC_RESIDENT_FLOOR_BYTES
  }

  ghost function Total<D(!new)>(handles: map<string, Handle<D>>): nat
    decreases |handles|
  {
    if handles == map[] then 0
    else
      var id :| id in handles;
      ResidentEstimate(handles[id]) + Total(handles - {id})
  }

  /** The sum does not depend on the order of summation. */
  lemma {:induction false} TotalWithout<D(!new)>(handles: map<string, Handle<D>>, id: string)
    requires id in handles
    ensures Total(handles) == ResidentEstimate(handles[id]) + Total(handles - {id})
    decreases |handles|
  {
    var first :| first in handles && Total(handles) == ResidentEstimate(handles[first]) + Total(handles - {first});
    if first != id {
      TotalWithout(handles - {first}, id);
      TotalWithout(handles - {id}, first);
      assert handles - {first} - {id} == handles - {id} - {first};
    }
  }

  ghost predicate WithinBudgets<D(!new)>(handles: map<string, Handle<D>>) {
    |handles| <= WARM_DOC_CAP && Total(handles) <= DOC_LRU_BYTE_BUDGET
  }

  /** The pass: in the given order, close what is not pinned until both budgets hold. */
  ghost function Sweep<D(!new)>(handles: map<string, Handle<D>>, byAge: seq<string>): map<string, Handle<D>> {
    if byAge == [] || WithinBudgets(handles) then handles
    else if byAge[0] in handles && !Pinned(handles[byAge[0]]) then Sweep(handles - {byAge[0]}, byAge[1..])
    else Sweep(handles, byAge[1..])
  }

  /** Touched earlier, or at the same time with the smaller id. */
  predicate Older<D>(handles: map<string, Handle<D>>, a: string, b: string) {
    && a in handles && b in handles
    && (handles[a].lastAccess < handles[b].lastAccess
        || (handles[a].lastAccess == handles[b].lastAccess && Below(a, b)))
  }

  lemma OlderIsAnOrder<D>(handles: map<string, Handle<D>>, a: string, b: string)
    requires a in handles && b in handles
    ensures Older(handles, a, b) || a == b || Older(handles, b, a)
    ensures forall c :: Older(handles, a, b) && Older(handles, b, c) ==> Older(handles, a, c)
    ensures !Older(handles, a, a)
  {
    BelowIsTotal(a, b);
    forall c | Older(handles, a, b) && Older(handles, b, c) ensures Older(handles, a, c) {
      if Below(a, b) && Below(b, c) { BelowIsTransitive(a, b, c); }
    }
  }

  /** Every open document once, oldest first. */
  ghost predicate ByAge<D>(handles: map<string, Handle<D>>, byAge: seq<string>) {
    && (forall id :: id in handles <==> id in byAge)
    && forall i, j :: 0 <= i < j < |byAge| ==> Older(handles, byAge[i], byAge[j])
  }

  lemma EachOnce<D>(handles: map<string, Handle<D>>, byAge: seq<string>)
    requires ByAge(handles, byAge)
    ensures forall i, j :: 0 <= i < j < |byAge| ==> byAge[i] != byAge[j]
  {
    forall i, j | 0 <= i < j < |byAge| ensures byAge[i] != byAge[j] {
      assert Older(handles, byAge[i], byAge[j]);
      OlderIsAnOrder(handles, byAge[i], byAge[j]);
    }
  }

  // ----- what the pass guarantees -----

  /** It only closes, and never a pinned document. */
  lemma {:induction false} SweepSparesPinned<D(!new)>(handles: map<string, Handle<D>>, byAge: seq<string>)
    ensures forall id :: id in Sweep(handles, byAge) ==> id in handles && Sweep(handles, byAge)[id] == handles[id]
    ensures forall id :: id in handles && id !in Sweep(handles, byAge) ==> !Pinned(handles[id])
    ensures forall id :: id in handles && id !in byAge ==> id in Sweep(handles, byAge)
    decreases |byAge|
  {
    if byAge != [] && !WithinBudgets(handles) {
      SweepSparesPinned(handles - {byAge[0]}, byAge[1..]);
      SweepSparesPinned(handles, byAge[1..]);
    }
  }

  /** On exit both budgets hold, or everything still open that the pass looked at is pinned. */
  lemma {:induction false} SweepEnds<D(!new)>(handles: map<string, Handle<D>>, byAge: seq<string>)
    ensures var left := Sweep(handles, byAge);
      WithinBudgets(left) || forall id :: id in left && id in byAge ==> Pinned(left[id])
    decreases |byAge|
  {
    if byAge != [] && !WithinBudgets(handles) {
      var next := if byAge[0] in handles && !Pinned(handles[byAge[0]]) then handles - {byAge[0]} else handles;
      SweepEnds(next, byAge[1..]);
      SweepSparesPinned(next, byAge[1..]);
      assert forall id :: id in byAge ==> id == byAge[0] || id in byAge[1..];
    }
  }

  /** Whatever it closed comes before everything unpinned that it kept. */
  lemma {:induction false} SweepTakesAPrefix<D(!new)>(handles: map<string, Handle<D>>, byAge: seq<string>, i: nat, j: nat)
    requires i < |byAge| && j < |byAge| && byAge[i] in handles && byAge[j] in handles
    requires byAge[i] !in Sweep(handles, byAge) && byAge[j] in Sweep(handles, byAge) && !Pinned(handles[byAge[j]])
    requires forall a, b :: 0 <= a < b < |byAge| ==> byAge[a] != byAge[b]
    ensures i < j
    decreases |byAge|
  {
    SweepSparesPinned(handles, byAge);
    if !WithinBudgets(handles) {
      var rest := byAge[1..];
      var next := if byAge[0] in handles && !Pinned(handles[byAge[0]]) then handles - {byAge[0]} else handles;
      SweepSparesPinned(next, rest);
      if i > 0 && j > 0 {
        assert rest[i - 1] == byAge[i] && rest[j - 1] == byAge[j];
        SweepTakesAPrefix(next, rest, i - 1, j - 1);
      }
    }
  }

  /** The eviction pass as a whole: budgets met or all survivors pinned, pinned documents safe,
      and nothing closed is more recent than anything unpinned that stays open. */
  lemma SweepIsLru<D(!new)>(handles: map<string, Handle<D>>, byAge: seq<string>)
    requires ByAge(handles, byAge)
    ensures var left := Sweep(handles, byAge);
      && (WithinBudgets(left) || forall id :: id in left ==> Pinned(left[id]))
      && (forall id :: id in left ==> id in handles && left[id] == handles[id])
      && (forall id :: id in handles && Pinned(handles[id]) ==> id in left)
      && forall e, k :: e in handles && e !in left && k in left && !Pinned(left[k]) ==>
           handles[e].lastAccess <= left[k].lastAccess
  {
    SweepSparesPinned(handles, byAge);
    SweepEnds(handles, byAge);
    var left := Sweep(handles, byAge);
    forall e, k | e in handles && e !in left && k in left && !Pinned(left[k])
      ensures handles[e].lastAccess <= left[k].lastAccess
    {
      var i :| 0 <= i < |byAge| && byAge[i] == e;
      var j :| 0 <= j < |byAge| && byAge[j] == k;
      EachOnce(handles, byAge);
      SweepTakesAPrefix(handles, byAge, i, j);
      assert Older(handles, byAge[i], byAge[j]);
    }
  }

  /** It stops as soon as it may: if it closed anything, putting back the document it closed
      last would exceed a budget again. */
  lemma {:induction false} SweepClosesNoMoreThanNeeded<D(!new)>(handles: map<string, Handle<D>>, byAge: seq<string>)
    ensures var left, before := Sweep(handles, byAge), Before(handles, byAge);
      left == handles ||
      (!WithinBudgets(before) && exists id :: id in handles && id !in left && before == left + map[id := handles[id]])
    decreases |byAge|
  {
    if byAge != [] && !WithinBudgets(handles) {
      if byAge[0] in handles && !Pinned(handles[byAge[0]]) {
        var next := handles - {byAge[0]};
        if Sweep(next, byAge[1..]) == next {
          assert next + map[byAge[0] := handles[byAge[0]]] == handles;
        } else {
          SweepClosesNoMoreThanNeeded(next, byAge[1..]);
        }
      } else {
        SweepClosesNoMoreThanNeeded(handles, byAge[1..]);
      }
    }
  }

  /** What was open when the pass last closed a document. */
  ghost function Before<D(!new)>(handles: map<string, Handle<D>>, byAge: seq<string>): map<string, Handle<D>> {
    if byAge == [] || WithinBudgets(handles) then handles
    else
      var next := if byAge[0] in handles && !Pinned(handles[byAge[0]]) then handles - {byAge[0]} else handles;
      if Sweep(next, byAge[1..]) == next then handles else Before(next, byAge[1..])
  }

  /** The estimate is six times the snapshot, but at least half a megabyte. */
  lemma EstimateExactly(h: Handle)
    ensures ResidentEstimate(h) >= 6 * h.snapshotBytes && ResidentEstimate(h) >= 512 * 1024
    ensures ResidentEstimate(h) == 6 * h.snapshotBytes || ResidentEstimate(h) == 512 * 1024
  {
  }

  /** No document is closed that somebody watches, that is held elsewhere, or that still owes a
      command; and if a budget stays exceeded, each one left is of this kind. */
  lemma OnlyTheUnusedGo<D(!new)>(handles: map<string, Handle<D>>, byAge: seq<string>, id: string)
    requires ByAge(handles, byAge) && id in handles
    ensures var left, h := Sweep(handles, byAge), handles[id];
      && (id !in left ==> h.watchers == 0 && h.references <= 1 && !h.owed)
      && (id in left && (|left| > 12 || Total(left) > 80 * 1024 * 1024) ==> h.watchers > 0 || h.references > 1 || h.owed)
  {
    SweepIsLru(handles, byAge);
  }

  // ----- the history of uses -----

  /** What may happen to the open documents: one is opened, a watcher attaches to one, or anything
      else that touches none: pins come and go, contents change, documents are deleted. */
  datatype Happening = Opens(id: string, at: int) | Watches(id: string, at: int) | Stirs

  /** A new handle as the pass sees it, with the reference of whoever opens it. */
  ghost predicate Arriving<D>(h: Handle<D>, at: int) { h.lastAccess == at && h.references == 2 }

  /** The open documents after a new one was admitted. */
  ghost predicate Admits<D(!new)>(handles: map<string, Handle<D>>, id: string, at: int, next: map<string, Handle<D>>) {
    exists h: Handle<D>, byAge: seq<string> :: AdmitsBy(handles, id, at, h, byAge, next)
  }

  /** Admitted by a pass in this order, after which the opener lets go. */
  ghost predicate AdmitsBy<D(!new)>(handles: map<string, Handle<D>>, id: string, at: int, h: Handle<D>, byAge: seq<string>,
                                    next: map<string, Handle<D>>) {
    && Arriving(h, at) && ByAge(handles[id := h], byAge)
    && next == Sweep(handles[id := h], byAge)[id := h.(references := 1)]
  }

  ghost predicate Happens<D(!new)>(handles: map<string, Handle<D>>, a: Happening, next: map<string, Handle<D>>) {
    match a
    case Opens(id, at) =>
      if id in handles then next == handles[id := handles[id].(lastAccess := at)] else Admits(handles, id, at, next)
    case Watches(id, at) =>
      if id in handles then id in next && next == handles[id := next[id]] && next[id].lastAccess == at else next == handles
    case Stirs => forall id :: id in next ==> id in handles && next[id].lastAccess == handles[id].lastAccess
  }

  /** The open documents before, between and after what happened. */
  ghost predicate Lived<D(!new)>(states: seq<map<string, Handle<D>>>, history: seq<Happening>) {
    && |states| == |history| + 1 && states[0] == map[]
    && forall i :: 0 <= i < |history| ==> Happens(states[i], history[i], states[i + 1])
  }

  /** When a document was last used, told from the history. */
  function LastUse(history: seq<Happening>, id: string): Option<int> {
    if history == [] then None
    else
      var a := history[|history| - 1];
      if !a.Stirs? && a.id == id then Some(a.at) else LastUse(history[..|history| - 1], id)
  }

  /** What the pass does to everything but the newcomer. */
  lemma AdmitsFacts<D(!new)>(handles: map<string, Handle<D>>, id: string, at: int, next: map<string, Handle<D>>)
    requires id !in handles && Admits(handles, id, at, next)
    ensures id in next && next[id].lastAccess == at
    ensures forall o :: o in next && o != id ==> o in handles && next[o] == handles[o]
    ensures forall o :: o in handles && Pinned(handles[o]) ==> o in next
    ensures forall e, k :: e in handles && e !in next && k in next && k != id && !Pinned(handles[k]) ==>
      handles[e].lastAccess <= handles[k].lastAccess
  {
    var h: Handle<D>, byAge: seq<string> :| AdmitsBy(handles, id, at, h, byAge, next);
    SweepIsLru(handles[id := h], byAge);
  }

  lemma StepAccess<D(!new)>(handles: map<string, Handle<D>>, a: Happening, next: map<string, Handle<D>>, id: string)
    requires Happens(handles, a, next) && id in next
    ensures if !a.Stirs? && a.id == id then next[id].lastAccess == a.at
            else id in handles && next[id].lastAccess == handles[id].lastAccess
  {
    if a.Opens? && a.id !in handles { AdmitsFacts(handles, a.id, a.at, next); }
  }

  /** The time a handle carries is that of the document's last use. */
  lemma {:induction false} AccessIsLastUse<D(!new)>(states: seq<map<string, Handle<D>>>, history: seq<Happening>, id: string)
    requires Lived(states, history) && id in states[|history|]
    ensures LastUse(history, id) == Some(states[|history|][id].lastAccess)
  {
    if history != [] {
      var n := |history| - 1;
      assert Happens(states[n], history[n], states[n + 1]);
      StepAccess(states[n], history[n], states[n + 1], id);
      if id in states[n] { AccessIsLastUse(states[..|history|], history[..n], id); }
    }
  }

  /** Over any history: opening one more document closes none that was used later than one it
      keeps without being made to. */
  lemma LeastRecentlyUsedGoes<D(!new)>(states: seq<map<string, Handle<D>>>, history: seq<Happening>, id: string, at: int,
                                       next: map<string, Handle<D>>, e: string, k: string)
    requires Lived(states, history) && Happens(states[|history|], Opens(id, at), next)
    requires e in states[|history|] && e !in next
    requires k in next && k != id && k in states[|history|] && !Pinned(states[|history|][k])
    ensures LastUse(history, e).Some? && LastUse(history, k).Some?
    ensures LastUse(history, e).value <= LastUse(history, k).value
    ensures !Pinned(states[|history|][e])
  {
    AccessIsLastUse(states, history, e);
    AccessIsLastUse(states, history, k);
    AdmitsFacts(states[|history|], id, at, next);
  }

  // ----- content -----

  /** What opening a document would show: the open copy, or the saved one. */
  ghost function Content<D>(handles: map<string, Handle<D>>, saved: map<string, D>, id: string): Option<D> {
    if id in handles then Some(handles[id].doc) else if id in saved then Some(saved[id]) else None
  }

  class DocHost<D(!new)> {
    var handles: map<string, Handle<D>>
    var saved: map<string, D>

    /** Ids in order of last access and id, by repeated selection. */
    method SortByAge() returns (byAge: seq<string>)
      ensures ByAge(handles, byAge)
    {
      byAge := [];
      var rest := handles.Keys;
      while rest != {}
        invariant rest <= handles.Keys
        invariant forall id :: id in handles <==> id in rest || id in byAge
        invariant forall i, j :: 0 <= i < j < |byAge| ==> Older(handles, byAge[i], byAge[j])
        invariant forall id, o :: id in byAge && o in rest ==> Older(handles, id, o)
        decreases |rest|
      {
        var oldest := Oldest(rest);
        byAge := byAge + [oldest];
        rest := rest - {oldest};
      }
    }

    method Oldest(ids: set<string>) returns (oldest: string)
      requires ids != {} && ids <= handles.Keys
      ensures oldest in ids && forall id :: id in ids && id != oldest ==> Older(handles, oldest, id)
    {
      oldest :| oldest in ids;
      var rest := ids - {oldest};
      while rest != {}
        invariant rest <= ids && oldest in ids
        invariant forall id :: id in ids - rest && id != oldest ==> Older(handles, oldest, id)
        decreases |rest|
      {
        var id :| id in rest;
        OlderIsAnOrder(handles, id, oldest);
        if handles[id].lastAccess < handles[oldest].lastAccess
           || (handles[id].lastAccess == handles[oldest].lastAccess && Below(id, oldest)) {
          oldest := id;
        }
        rest := rest - {id};
      }
    }

    method SumEstimates() returns (total: nat)
      ensures total == Total(handles)
    {
      total := 0;
      var rest := handles;
      while rest != map[]
        invariant total + Total(rest) == Total(handles)
        decreases |rest|
      {
        var id :| id in rest;
        TotalWithout(rest, id);
        total := total + ResidentEstimate(rest[id]);
        rest := rest - {id};
      }
    }

    /** Close documents, saving each, until the budgets hold. No content changes. */
    method EvictOverBudget() returns (ghost byAge: seq<string>)
      modifies this
      ensures ByAge(old(handles), byAge) && handles == Sweep(old(handles), byAge)
      ensures forall id :: Content(handles, saved, id) == Content(old(handles), old(saved), id)
    {
      var order := SortByAge();
      byAge := order;
      assert order[0..] == order;
      for i := 0 to |order|
        invariant Sweep(handles, order[i..]) == Sweep(old(handles), order)
        invariant forall id :: Content(handles, saved, id) == Content(old(handles), old(saved), id)
      {
        var total := SumEstimates();
        if |handles| <= WARM_DOC_CAP && total <= DOC_LRU_BYTE_BUDGET { return; }
        var id := order[i];
        assert order[i..][0] == id && order[i..][1..] == order[i + 1..];
        if id in handles && !Pinned(handles[id]) {
          Close(id);
        }
      }
    }

    /** Close a document after a final save. */
    method Close(id: string)
      requires id in handles
      modifies this
      ensures handles == old(handles) - {id}
      ensures forall o :: Content(handles, saved, o) == Content(old(handles), old(saved), o)
    {
      saved := saved[id := handles[id].doc];
      handles := handles - {id};
    }

    /** Opening: an open document is touched, a closed one comes back as it was saved, an
        unknown one starts empty. The pass that follows leaves every content alone and closes
        nothing pinned; the new document is pinned by the reference its opener still holds. */
    method Open(id: string, now: int, empty: D, snapshotBytes: nat, owed: bool) returns (doc: D)
      modifies this
      ensures Content(old(handles), old(saved), id) == None ==> doc == empty
      ensures Content(old(handles), old(saved), id).Some? ==> Content(old(handles), old(saved), id) == Some(doc)
      ensures id in handles && handles[id].doc == doc
      ensures Happens(old(handles), Opens(id, now), handles)
      ensures id !in old(handles) ==>
        handles[id] == Handle(doc, now, if id in old(saved) then snapshotBytes else 0, 0, 1, owed)
      ensures forall o :: o != id && o in old(handles) && Pinned(old(handles)[o]) ==>
        o in handles && handles[o] == old(handles)[o]
      ensures forall o :: o != id ==> Content(handles, saved, o) == Content(old(handles), old(saved), o)
    {
      if id in handles {
        doc := handles[id].doc;
        handles := handles[id := handles[id].(lastAccess := now)];
        return;
      }
      doc := if id in saved then saved[id] else empty;
      Admit(id, Handle(doc, now, if id in saved then snapshotBytes else 0, 0, 2, owed));
    }

    /** Register a new handle, make room, and let go of it. */
    method Admit(id: string, h: Handle<D>)
      requires id !in handles && Arriving(h, h.lastAccess)
      modifies this
      ensures Admits(old(handles), id, h.lastAccess, handles)
      ensures id in handles && handles[id] == h.(references := 1)
      ensures forall o :: o != id && o in old(handles) && Pinned(old(handles)[o]) ==>
        o in handles && handles[o] == old(handles)[o]
      ensures forall o :: o != id ==> Content(handles, saved, o) == Content(old(handles), old(saved), o)
    {
      handles := handles[id := h];
      ghost var before := handles;
      ghost var byAge := EvictOverBudget();
      SweepSparesPinned(before, byAge);
      assert Pinned(before[id]) && handles[id] == before[id];
      ghost var swept := handles;
      handles := handles[id := handles[id].(references := handles[id].references - 1)];
      assert forall o :: o != id ==> Content(handles, saved, o) == Content(swept, saved, o);
      assert AdmitsBy(old(handles), id, h.lastAccess, h, byAge, handles);
    }
  }
}
