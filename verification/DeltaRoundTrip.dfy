/** When a viewer that applies the sender's frame holds exactly the sender's transcript. */
module DeltaRoundTrip {
  import opened Common
  import opened Parts
  import opened TranscriptDelta

  ghost predicate Unique(es: seq<Entry>) {
    forall i, j :: 0 <= i < j < |es| ==> es[i].id != es[j].id
  }

  /** The ids of `es` that lie in `S`, in order. */
  ghost function Only(es: seq<Entry>, S: set<string>): seq<string> {
    if es == [] then []
    else (if es[0].id in S then [es[0].id] else []) + Only(es[1..], S)
  }

  ghost function IdSet(es: seq<Entry>): set<string> {
    set e | e in es :: e.id
  }

  ghost function Ids(es: seq<Entry>): seq<string> {
    seq(|es|, i requires 0 <= i < |es| => es[i].id)
  }

  /** Entries of `next` the frame does not re-send: same predecessor, and equal or grown by
      one text append. */
  ghost function Kept(prev: seq<Entry>, next: seq<Entry>): set<string> {
    set i | 0 <= i < |next| && !ChangeOf(prev, next, i).Send? :: next[i].id
  }

  /** The entries the frame leaves where they are stand in the same order on both sides. */
  ghost predicate KeptOrder(prev: seq<Entry>, next: seq<Entry>) {
    Only(prev, Kept(prev, next)) == Only(next, Kept(prev, next))
  }

  /** Every text append names a part that no earlier text part of its entry shadows. */
  ghost predicate AppendsHit(prev: seq<Entry>, next: seq<Entry>) {
    forall i :: 0 <= i < |next| ==> ChangeOf(prev, next, i).Grow? ==>
      var p := prev[LastPosition(prev, next[i].id)];
      var k := FirstDifference(p.parts, next[i].parts, 0);
      TextIndex(p.parts, p.parts[k].id) == k
  }

  // ----- order of ids under concatenation -----

  lemma {:induction false} OnlyConcat(a: seq<Entry>, b: seq<Entry>, S: set<string>)
    ensures Only(a + b, S) == Only(a, S) + Only(b, S)
  {
    if a == [] {
      assert a + b == b;
    } else {
      assert (a + b)[0] == a[0] && (a + b)[1..] == a[1..] + b;
      OnlyConcat(a[1..], b, S);
      var head := if a[0].id in S then [a[0].id] else [];
      assert head + (Only(a[1..], S) + Only(b, S)) == (head + Only(a[1..], S)) + Only(b, S);
    }
  }

  lemma {:induction false} OnlyMembers(es: seq<Entry>, S: set<string>)
    ensures forall id :: id in Only(es, S) <==> id in S && Has(es, id)
  {
    if es != [] {
      OnlyMembers(es[1..], S);
      forall id ensures Has(es, id) <==> es[0].id == id || Has(es[1..], id) {
        if es[0].id == id { assert es[0] in es; }
        if Has(es[1..], id) { var e :| e in es[1..] && e.id == id; assert e in es; }
      }
    }
  }

  lemma {:induction false} OnlyAgree(es: seq<Entry>, S: set<string>, T: set<string>)
    requires forall e :: e in es ==> (e.id in S <==> e.id in T)
    ensures Only(es, S) == Only(es, T)
  {
    if es != [] {
      assert es[0] in es;
      OnlyAgree(es[1..], S, T);
    }
  }

  lemma {:induction false} OnlyAll(es: seq<Entry>, S: set<string>)
    requires IdSet(es) <= S
    ensures Only(es, S) == Ids(es)
  {
    if es != [] {
      assert es[0] in es;
      assert IdSet(es[1..]) <= IdSet(es);
      OnlyAll(es[1..], S);
    }
  }

  /** A sequence without x in its first part splits at x in one way only. */
  lemma SplitOnce(a: seq<string>, b: seq<string>, c: seq<string>, d: seq<string>, x: string)
    requires a + [x] + b == c + [x] + d
    requires x !in a && x !in c
    ensures a == c && b == d
  {
    var s := a + [x] + b;
    assert s[|a|] == x && s[|c|] == x;
    assert a == s[..|a|] && c == s[..|c|];
    assert b == s[|a| + 1..] && d == s[|c| + 1..];
  }

  // ----- one upsert -----

  lemma DropFacts(es: seq<Entry>, id: string)
    requires Unique(es)
    ensures Unique(Drop(es, id))
    ensures forall e :: e in Drop(es, id) <==> e in es && e.id != id
  {
    var k := Position(es, id);
    if k < |es| {
      var r := es[..k] + es[k + 1..];
      forall e | e in es && e.id != id ensures e in r {
        var j :| 0 <= j < |es| && es[j] == e;
        assert r[if j < k then j else j - 1] == e;
      }
    }
  }

  lemma DropOrder(es: seq<Entry>, id: string, S: set<string>)
    requires id !in S
    ensures Only(Drop(es, id), S) == Only(es, S)
  {
    var k := Position(es, id);
    if k < |es| {
      assert es == es[..k] + [es[k]] + es[k + 1..];
      OnlyInsert(es[..k], es[k], es[k + 1..], S);
      OnlyConcat(es[..k], es[k + 1..], S);
    }
  }

  lemma OnlyInsert(a: seq<Entry>, e: Entry, b: seq<Entry>, S: set<string>)
    ensures Only(a + [e] + b, S) == Only(a, S) + (if e.id in S then [e.id] else []) + Only(b, S)
  {
    OnlyConcat(a + [e], b, S);
    OnlyConcat(a, [e], S);
    assert Only([e], S) == if e.id in S then [e.id] else [];
  }

  /** Dropping one entry does not take another's anchor away. */
  lemma AnchorStays(es: seq<Entry>, id: string, anchor: string)
    requires Unique(es) && Has(es, anchor) && anchor != id
    ensures Has(Drop(es, id), anchor)
  {
    DropFacts(es, id);
    var e := es[Position(es, anchor)];
    assert e in es && e in Drop(es, id);
  }

  /** Where an upsert whose anchor is present puts its entry. */
  lemma UpsertSplits(es: seq<Entry>, u: Upsert) returns (a: seq<Entry>, b: seq<Entry>)
    requires Unique(es)
    requires u.after.Some? ==> Has(es, u.after.value) && u.after.value != u.entry.id
    ensures Drop(es, u.entry.id) == a + b
    ensures ApplyUpsert(es, u) == Ok(a + [u.entry] + b)
    ensures u.after.None? ==> a == []
    ensures u.after.Some? ==> |a| > 0 && a[|a| - 1].id == u.after.value
  {
    var rest := Drop(es, u.entry.id);
    if u.after.None? {
      a, b := [], rest;
      assert a + [u.entry] + b == [u.entry] + rest;
    } else {
      AnchorStays(es, u.entry.id, u.after.value);
      var k := Position(rest, u.after.value);
      a, b := rest[..k + 1], rest[k + 1..];
    }
  }

  /** An upsert whose anchor is present replaces its entry, keeps every other entry and the
      order of every set of ids it does not touch. */
  lemma UpsertStep(es: seq<Entry>, u: Upsert)
    requires Unique(es)
    requires u.after.Some? ==> Has(es, u.after.value) && u.after.value != u.entry.id
    ensures ApplyUpsert(es, u).Ok?
    ensures Unique(ApplyUpsert(es, u).value)
    ensures forall e :: e in ApplyUpsert(es, u).value <==> e == u.entry || (e in es && e.id != u.entry.id)
  {
    DropFacts(es, u.entry.id);
    var a, b := UpsertSplits(es, u);
    InsertedUnique(a, u.entry, b);
  }

  lemma UpsertKeepsOrder(es: seq<Entry>, u: Upsert, S: set<string>)
    requires Unique(es) && u.entry.id !in S
    requires u.after.Some? ==> Has(es, u.after.value) && u.after.value != u.entry.id
    ensures ApplyUpsert(es, u).Ok?
    ensures Only(ApplyUpsert(es, u).value, S) == Only(es, S)
  {
    var a, b := UpsertSplits(es, u);
    DropOrder(es, u.entry.id, S);
    OnlyInsert(a, u.entry, b, S);
    OnlyConcat(a, b, S);
  }

  lemma InsertedUnique(a: seq<Entry>, e: Entry, b: seq<Entry>)
    requires Unique(a + b) && forall x :: x in a + b ==> x.id != e.id
    ensures Unique(a + [e] + b)
  {
    var r, s := a + [e] + b, a + b;
    forall i, j | 0 <= i < j < |r| ensures r[i].id != r[j].id {
      if i != |a| && j != |a| {
        var i', j' := if i < |a| then i else i - 1, if j < |a| then j else j - 1;
        assert r[i] == s[i'] && r[j] == s[j'];
      } else if i == |a| {
        assert r[j] == s[j - 1] && s[j - 1] in s;
      } else {
        assert r[i] == s[i] && s[i] in s;
      }
    }
  }

  lemma OnlySkips(es: seq<Entry>, S: set<string>, y: string)
    requires forall e :: e in es ==> e.id != y
    ensures Only(es, S + {y}) == Only(es, S)
  {
    OnlyAgree(es, S + {y}, S);
  }

  lemma OnlyAvoids(es: seq<Entry>, S: set<string>, y: string)
    requires forall e :: e in es ==> e.id != y
    ensures y !in Only(es, S)
  {
    OnlyMembers(es, S);
  }

  lemma OthersDiffer(next: seq<Entry>, i: nat)
    requires Unique(next) && i < |next|
    ensures forall e :: e in next[..i] ==> e.id != next[i].id
    ensures forall e :: e in next[i + 1..] ==> e.id != next[i].id
  {
  }

  /** Inserting y between a and b, seen through S and through S + {y}. */
  lemma OnlyAround(a: seq<Entry>, y: Entry, b: seq<Entry>, S: set<string>)
    requires y.id !in S
    requires forall e :: e in a ==> e.id != y.id
    requires forall e :: e in b ==> e.id != y.id
    ensures Only(a + [y] + b, S) == Only(a, S) + Only(b, S)
    ensures Only(a + [y] + b, S + {y.id}) == Only(a, S) + [y.id] + Only(b, S)
  {
    OnlyInsert(a, y, b, S);
    OnlyInsert(a, y, b, S + {y.id});
    OnlySkips(a, S, y.id);
    OnlySkips(b, S, y.id);
    assert Only(a, S) + [] + Only(b, S) == Only(a, S) + Only(b, S);
  }

  /** If two sequences agree on the order of S, inserting one more id right after the same
      anchor on both sides makes them agree on the larger set. */
  lemma UpsertOrder(es: seq<Entry>, u: Upsert, next: seq<Entry>, i: nat, S: set<string>)
    requires Unique(es) && Unique(next) && i < |next|
    requires u == Upsert(Predecessor(next, i), next[i])
    requires u.after.Some? ==> Has(es, u.after.value) && u.after.value in S
    requires next[i].id !in S
    requires Only(es, S) == Only(next, S)
    ensures ApplyUpsert(es, u).Ok?
    ensures Only(ApplyUpsert(es, u).value, S + {next[i].id}) == Only(next, S + {next[i].id})
  {
    var y := next[i];
    var a, b := UpsertSplits(es, u);
    var rest := Drop(es, y.id);
    DropFacts(es, y.id);
    DropOrder(es, y.id, S);
    forall e | e in a ensures e.id != y.id { assert e in rest; }
    forall e | e in b ensures e.id != y.id { assert e in rest; }
    assert a == rest[..|a|];
    InsertOrder(a, b, next, i, S);
  }

  lemma InsertOrder(a: seq<Entry>, b: seq<Entry>, next: seq<Entry>, i: nat, S: set<string>)
    requires Unique(a) && Unique(next) && i < |next| && next[i].id !in S
    requires forall e :: e in a ==> e.id != next[i].id
    requires forall e :: e in b ==> e.id != next[i].id
    requires if i == 0 then a == [] else |a| > 0 && a[|a| - 1].id == next[i - 1].id && next[i - 1].id in S
    requires Only(a + b, S) == Only(next, S)
    ensures Only(a + [next[i]] + b, S + {next[i].id}) == Only(next, S + {next[i].id})
  {
    var y, c, d := next[i], next[..i], next[i + 1..];
    assert next == c + [y] + d;
    OnlyConcat(a, b, S);
    OnlyAround(a, y, b, S);
    OthersDiffer(next, i);
    OnlyAround(c, y, d, S);
    if i > 0 {
      SplitAtAnchor(a, b, next, i, S);
    } else {
      assert Only(a, S) == [] == Only(c, S);
      assert Only(b, S) == [] + Only(b, S) && Only(d, S) == [] + Only(d, S);
    }
  }

  lemma OnlyLast(a: seq<Entry>, S: set<string>)
    requires a != [] && a[|a| - 1].id in S
    ensures Only(a, S) == Only(a[..|a| - 1], S) + [a[|a| - 1].id]
  {
    assert a == a[..|a| - 1] + [a[|a| - 1]] + [];
    OnlyInsert(a[..|a| - 1], a[|a| - 1], [], S);
  }

  lemma SplitAtAnchor(a: seq<Entry>, b: seq<Entry>, next: seq<Entry>, i: nat, S: set<string>)
    requires Unique(a) && Unique(next)
    requires 0 < i < |next| && next[i - 1].id in S
    requires |a| > 0 && a[|a| - 1].id == next[i - 1].id
    requires Only(a, S) + Only(b, S) == Only(next[..i], S) + Only(next[i + 1..], S)
    ensures Only(a, S) == Only(next[..i], S) && Only(b, S) == Only(next[i + 1..], S)
  {
    var x := next[i - 1].id;
    var a0, n0 := a[..|a| - 1], next[..i - 1];
    OnlyLast(a, S);
    OnlyLast(next[..i], S);
    assert next[..i][..i - 1] == n0;
    OthersDiffer(a, |a| - 1);
    OthersDiffer(next, i - 1);
    OnlyAvoids(a0, S, x);
    OnlyAvoids(n0, S, x);
    SplitOnce(Only(a0, S), Only(b, S), Only(n0, S), Only(next[i + 1..], S), x);
  }

  // ----- all upserts -----

  ghost function SentIds(prev: seq<Entry>, next: seq<Entry>, n: nat): set<string>
    requires n <= |next|
  {
    set i | 0 <= i < n && ChangeOf(prev, next, i).Send? :: next[i].id
  }

  /** After the removals and some upserts, S being the ids sent so far: which entries stand in
      the copy, and that each is the sender's new version if it was sent and the old one
      otherwise. */
  ghost predicate Placed(prev: seq<Entry>, next: seq<Entry>, S: set<string>, c: seq<Entry>) {
    && Unique(c)
    && (forall id :: Has(c, id) <==> (Has(prev, id) && Has(next, id)) || id in S)
    && (forall e :: e in c ==> if e.id in S then e in next else e in prev)
  }

  lemma {:induction false} RemovedMembers(prev: seq<Entry>, next: seq<Entry>)
    ensures forall id :: id in Removed(prev, next) <==> Has(prev, id) && !Has(next, id)
  {
    if prev != [] {
      RemovedMembers(prev[1..], next);
      forall id ensures Has(prev, id) <==> prev[0].id == id || Has(prev[1..], id) {
        if prev[0].id == id { assert prev[0] in prev; }
        if Has(prev[1..], id) { var e :| e in prev[1..] && e.id == id; assert e in prev; }
      }
    }
  }

  lemma {:induction false} WithoutMembers(es: seq<Entry>, gone: seq<string>)
    ensures forall e :: e in Without(es, gone) <==> e in es && e.id !in gone
    ensures Unique(es) ==> Unique(Without(es, gone))
  {
    if es != [] {
      WithoutMembers(es[1..], gone);
      if Unique(es) {
        assert Unique(es[1..]);
        forall e | e in es[1..] ensures e.id != es[0].id {
          var j :| 0 <= j < |es[1..]| && es[1..][j] == e;
          assert es[j + 1] == e;
        }
      }
    }
  }

  lemma {:induction false} WithoutOrder(es: seq<Entry>, gone: seq<string>, S: set<string>)
    requires forall id :: id in S ==> id !in gone
    ensures Only(Without(es, gone), S) == Only(es, S)
  {
    if es != [] {
      WithoutOrder(es[1..], gone, S);
      var rest := Without(es[1..], gone);
      assert Without(es, gone) == if es[0].id in gone then rest else [es[0]] + rest;
    }
  }

  lemma KeptFacts(prev: seq<Entry>, next: seq<Entry>)
    ensures forall id :: id in Kept(prev, next) ==> Has(prev, id) && Has(next, id)
  {
    forall id | id in Kept(prev, next) ensures Has(prev, id) && Has(next, id) {
      var i :| 0 <= i < |next| && !ChangeOf(prev, next, i).Send? && next[i].id == id;
      assert next[i] in next;
      assert prev[LastPosition(prev, id)] in prev;
    }
  }

  lemma BasePlaced(prev: seq<Entry>, next: seq<Entry>)
    requires Unique(prev) && Unique(next)
    ensures Placed(prev, next, {}, Without(prev, Removed(prev, next)))
    ensures Only(Without(prev, Removed(prev, next)), Kept(prev, next)) == Only(prev, Kept(prev, next))
  {
    var gone := Removed(prev, next);
    var base := Without(prev, gone);
    RemovedMembers(prev, next);
    WithoutMembers(prev, gone);
    forall id ensures Has(base, id) <==> Has(prev, id) && Has(next, id) {
      if Has(prev, id) && Has(next, id) {
        var e :| e in prev && e.id == id;
        assert e in base;
      }
    }
    KeptFacts(prev, next);
    WithoutOrder(prev, gone, Kept(prev, next));
  }

  /** The anchor of entry i is settled before entry i is placed. */
  lemma AnchorSettled(prev: seq<Entry>, next: seq<Entry>, i: nat, c: seq<Entry>)
    requires Unique(next) && 0 < i < |next| && Placed(prev, next, SentIds(prev, next, i), c)
    ensures Has(c, next[i - 1].id)
    ensures next[i - 1].id in Kept(prev, next) + SentIds(prev, next, i)
    ensures next[i - 1].id != next[i].id
  {
    KeptFacts(prev, next);
    if ChangeOf(prev, next, i - 1).Send? {
      assert next[i - 1].id in SentIds(prev, next, i);
    } else {
      assert next[i - 1].id in Kept(prev, next);
    }
  }

  lemma NotYetSettled(prev: seq<Entry>, next: seq<Entry>, i: nat)
    requires Unique(next) && i < |next| && ChangeOf(prev, next, i).Send?
    ensures next[i].id !in Kept(prev, next) && next[i].id !in SentIds(prev, next, i)
    ensures SentIds(prev, next, i + 1) == SentIds(prev, next, i) + {next[i].id}
  {
  }

  /** Placement plus order: the kept entries never move; if they are in the right order, so
      is everything settled so far. */
  ghost predicate Progress(prev: seq<Entry>, next: seq<Entry>, S: set<string>, c: seq<Entry>) {
    var K := Kept(prev, next);
    && Placed(prev, next, S, c)
    && Only(c, K) == Only(prev, K)
    && (KeptOrder(prev, next) ==> Only(c, K + S) == Only(next, K + S))
  }

  /** The first n decisions went through and settled what they should. */
  ghost predicate PlacedUpTo(prev: seq<Entry>, next: seq<Entry>, n: nat, r: Result<seq<Entry>, Desync>)
    requires n <= |next|
  {
    match r
    case Ok(c) => Progress(prev, next, SentIds(prev, next, n), c)
    case Err(_) => false
  }

  function Then(r: Result<seq<Entry>, Desync>, u: Upsert): Result<seq<Entry>, Desync> {
    match r
    case Ok(c) => ApplyUpsert(c, u)
    case Err(_) => r
  }

  lemma SendStep(prev: seq<Entry>, next: seq<Entry>, i: nat, r: Result<seq<Entry>, Desync>)
      returns (after: Result<seq<Entry>, Desync>)
    requires Unique(prev) && Unique(next) && i < |next| && ChangeOf(prev, next, i).Send? && PlacedUpTo(prev, next, i, r)
    ensures after == Then(r, ChangeOf(prev, next, i).upsert) && PlacedUpTo(prev, next, i + 1, after)
  {
    after := Then(r, ChangeOf(prev, next, i).upsert);
    var u, K := ChangeOf(prev, next, i).upsert, Kept(prev, next);
    var S, c := SentIds(prev, next, i), r.value;
    if i > 0 { AnchorSettled(prev, next, i, c); }
    NotYetSettled(prev, next, i);
    UpsertStep(c, u);
    UpsertKeepsOrder(c, u, K);
    StepPlaced(prev, next, i, c, ApplyUpsert(c, u).value);
    assert K + SentIds(prev, next, i + 1) == K + S + {next[i].id};
    if KeptOrder(prev, next) {
      UpsertOrder(c, u, next, i, K + S);
    }
  }

  lemma NotSent(prev: seq<Entry>, next: seq<Entry>, i: nat)
    requires i < |next| && !ChangeOf(prev, next, i).Send?
    ensures SentIds(prev, next, i + 1) == SentIds(prev, next, i)
  {
  }

  lemma KeepStep(prev: seq<Entry>, next: seq<Entry>, i: nat, r: Result<seq<Entry>, Desync>)
    requires i < |next| && !ChangeOf(prev, next, i).Send? && PlacedUpTo(prev, next, i, r)
    ensures PlacedUpTo(prev, next, i + 1, r)
  {
    NotSent(prev, next, i);
  }

  lemma StepPlaced(prev: seq<Entry>, next: seq<Entry>, i: nat, c: seq<Entry>, r: seq<Entry>)
    requires i < |next| && Placed(prev, next, SentIds(prev, next, i), c) && Unique(r)
    requires SentIds(prev, next, i + 1) == SentIds(prev, next, i) + {next[i].id}
    requires forall e :: e in r <==> e == next[i] || (e in c && e.id != next[i].id)
    ensures Placed(prev, next, SentIds(prev, next, i + 1), r)
  {
    var S := SentIds(prev, next, i);
    assert next[i] in r;
    forall id ensures Has(r, id) <==> (Has(prev, id) && Has(next, id)) || id in S + {next[i].id} {
      if id != next[i].id {
        if Has(c, id) { var e :| e in c && e.id == id; assert e in r; }
        if Has(r, id) { var e :| e in r && e.id == id; assert e in c; }
      }
    }
  }

  /** The copy after one decision. */
  function OneStep(prev: seq<Entry>, next: seq<Entry>, i: nat, r: Result<seq<Entry>, Desync>): Result<seq<Entry>, Desync>
    requires i < |next|
  {
    var ch := ChangeOf(prev, next, i);
    if ch.Send? then Then(r, ch.upsert) else r
  }

  lemma OneMoreChange(prev: seq<Entry>, next: seq<Entry>, n: nat, base: seq<Entry>)
    requires 0 < n <= |next|
    ensures ApplyUpserts(base, Upserts(prev, next, n)) ==
      OneStep(prev, next, n - 1, ApplyUpserts(base, Upserts(prev, next, n - 1)))
  {
    var us, ch := Upserts(prev, next, n - 1), ChangeOf(prev, next, n - 1);
    if ch.Send? {
      assert (us + [ch.upsert])[..|us|] == us;
    } else {
      assert us + [] == us;
    }
  }

  lemma NoChange(prev: seq<Entry>, next: seq<Entry>, base: seq<Entry>)
    ensures ApplyUpserts(base, Upserts(prev, next, 0)) == Ok(base)
  {
  }

  /** What one decision keeps, all keep. */
  lemma {:induction false} DecisionsKeep(prev: seq<Entry>, next: seq<Entry>, n: nat, base: seq<Entry>,
                                         P: (nat, Result<seq<Entry>, Desync>) -> bool)
    requires n <= |next| && P(0, Ok(base))
    requires forall i: nat, r :: i < |next| && P(i, r) ==> P(i + 1, OneStep(prev, next, i, r))
    ensures P(n, ApplyUpserts(base, Upserts(prev, next, n)))
  {
    if n == 0 {
      NoChange(prev, next, base);
    } else {
      var before := ApplyUpserts(base, Upserts(prev, next, n - 1));
      DecisionsKeep(prev, next, n - 1, base, P);
      assert P(n, OneStep(prev, next, n - 1, before));
      OneMoreChange(prev, next, n, base);
    }
  }

  lemma PlaceStep(prev: seq<Entry>, next: seq<Entry>, i: nat, r: Result<seq<Entry>, Desync>)
    requires Unique(prev) && Unique(next) && i < |next| && PlacedUpTo(prev, next, i, r)
    ensures PlacedUpTo(prev, next, i + 1, OneStep(prev, next, i, r))
  {
    if ChangeOf(prev, next, i).Send? {
      var _ := SendStep(prev, next, i, r);
    } else {
      KeepStep(prev, next, i, r);
    }
  }

  /** All upserts go through, from the copy without what the sender removed. */
  lemma PlaceAll(prev: seq<Entry>, next: seq<Entry>)
    requires Unique(prev) && Unique(next)
    ensures PlacedUpTo(prev, next, |next|, ApplyUpserts(Without(prev, Removed(prev, next)), Upserts(prev, next, |next|)))
  {
    var base := Without(prev, Removed(prev, next));
    var P := (i: nat, r: Result<seq<Entry>, Desync>) => i <= |next| && PlacedUpTo(prev, next, i, r);
    forall i: nat, r | i < |next| && P(i, r) ensures P(i + 1, OneStep(prev, next, i, r)) {
      PlaceStep(prev, next, i, r);
    }
    PlacedAtStart(prev, next);
    DecisionsKeep(prev, next, |next|, base, P);
  }

  lemma PlacedAtStart(prev: seq<Entry>, next: seq<Entry>)
    requires Unique(prev) && Unique(next)
    ensures PlacedUpTo(prev, next, 0, Ok(Without(prev, Removed(prev, next))))
  {
    BaseProgress(prev, next);
    assert SentIds(prev, next, 0) == {};
  }

  lemma BaseProgress(prev: seq<Entry>, next: seq<Entry>)
    requires Unique(prev) && Unique(next)
    ensures Progress(prev, next, {}, Without(prev, Removed(prev, next)))
  {
    BasePlaced(prev, next);
    assert Kept(prev, next) + {} == Kept(prev, next);
  }

  // ----- where the upserts leave the copy -----

  lemma {:induction false} OnlyOfIds(a: seq<Entry>, b: seq<Entry>, S: set<string>)
    requires Ids(a) == Ids(b)
    ensures Only(a, S) == Only(b, S)
  {
    assert |a| == |Ids(a)| == |b|;
    if a != [] {
      assert a[0].id == Ids(a)[0] == b[0].id;
      assert Ids(a[1..]) == Ids(a)[1..] == Ids(b[1..]);
      OnlyOfIds(a[1..], b[1..], S);
    }
  }

  lemma AllSettled(prev: seq<Entry>, next: seq<Entry>, c: seq<Entry>)
    requires Unique(next) && Progress(prev, next, SentIds(prev, next, |next|), c)
    ensures forall id :: Has(c, id) <==> Has(next, id)
    ensures IdSet(c) <= Kept(prev, next) + SentIds(prev, next, |next|)
    ensures IdSet(next) <= Kept(prev, next) + SentIds(prev, next, |next|)
  {
    KeptFacts(prev, next);
    var A := Kept(prev, next) + SentIds(prev, next, |next|);
    forall id ensures Has(c, id) <==> Has(next, id) {
      if Has(next, id) {
        var e :| e in next && e.id == id;
        var i :| 0 <= i < |next| && next[i] == e;
        assert id in if ChangeOf(prev, next, i).Send? then SentIds(prev, next, |next|) else Kept(prev, next);
      }
      if id in SentIds(prev, next, |next|) {
        var i :| 0 <= i < |next| && ChangeOf(prev, next, i).Send? && next[i].id == id;
        assert next[i] in next;
      }
    }
    forall id | id in IdSet(next) ensures id in A {
      var e :| e in next && e.id == id;
      var i :| 0 <= i < |next| && next[i] == e;
      assert id in if ChangeOf(prev, next, i).Send? then SentIds(prev, next, |next|) else Kept(prev, next);
    }
    forall id | id in IdSet(c) ensures id in A {
      assert Has(c, id);
      assert id in IdSet(next);
    }
  }

  lemma OrderExact(prev: seq<Entry>, next: seq<Entry>, c: seq<Entry>)
    requires Unique(next) && Progress(prev, next, SentIds(prev, next, |next|), c)
    ensures Ids(c) == Ids(next) <==> KeptOrder(prev, next)
  {
    AllSettled(prev, next, c);
    var A := Kept(prev, next) + SentIds(prev, next, |next|);
    if KeptOrder(prev, next) {
      OnlyAll(c, A);
      OnlyAll(next, A);
    }
    if Ids(c) == Ids(next) {
      OnlyOfIds(c, next, Kept(prev, next));
    }
  }

  // ----- text appends -----

  /** Applying an append reproduces the sender's entry exactly when no earlier text part
      carries the same id. */
  lemma AppendToExact(p: Entry, n: Entry)
    requires TextAppendOf(p, n).Some?
    ensures var k := FirstDifference(p.parts, n.parts, 0);
      AppendTo(p, TextAppendOf(p, n).value) == Ok(n) <==> TextIndex(p.parts, p.parts[k].id) == k
  {
    var a := TextAppendOf(p, n).value;
    var k := FirstDifference(p.parts, n.parts, 0);
    var j := TextIndex(p.parts, a.part);
    assert p.parts[k].text + a.text == n.parts[k].text;
    if j == k {
      assert p.parts[k := n.parts[k]] == n.parts;
    } else {
      var grown := p.parts[j].text + a.text;
      assert |grown| > |p.parts[j].text|;
      assert n.parts[j] == p.parts[j];
    }
  }

  /** Entry e of the copy after the first n decisions' appends. */
  ghost function Appended(prev: seq<Entry>, next: seq<Entry>, n: nat, e: Entry): Result<Entry, Desync>
    requires n <= |next|
  {
    var k := Position(next, e.id);
    if k < n && ChangeOf(prev, next, k).Grow? then AppendTo(e, ChangeOf(prev, next, k).append) else Ok(e)
  }

  /** Every entry of the copy after the first n decisions' appends. */
  ghost function AppendedEach(prev: seq<Entry>, next: seq<Entry>, n: nat, c: seq<Entry>): seq<Result<Entry, Desync>>
    requires n <= |next|
  {
    seq(|c|, j requires 0 <= j < |c| => Appended(prev, next, n, c[j]))
  }

  /** The whole copy is an error if one entry is, and otherwise is the entries. */
  ghost predicate Collected(c: seq<Entry>, each: seq<Result<Entry, Desync>>, r: Result<seq<Entry>, Desync>)
    requires |each| == |c|
  {
    if exists j :: 0 <= j < |c| && each[j].Err? then r.Err?
    else
      && r.Ok? && |r.value| == |c|
      && forall m :: 0 <= m < |c| ==> r.value[m].id == c[m].id && each[m] == Ok(r.value[m])
  }

  lemma UniquePosition(es: seq<Entry>, k: nat)
    requires Unique(es) && k < |es|
    ensures Position(es, es[k].id) == k
  {
  }

  lemma AppendsSnoc(es: seq<Entry>, as_: seq<TextAppend>, a: TextAppend)
    ensures var r := ApplyAppends(es, as_);
      ApplyAppends(es, as_ + [a]) == if r.Err? then r else ApplyAppend(r.value, a)
  {
    assert (as_ + [a])[..|as_|] == as_;
  }

  lemma OneMoreAppend(prev: seq<Entry>, next: seq<Entry>, n: nat, c: seq<Entry>)
    requires 0 < n <= |next|
    ensures var before, ch := ApplyAppends(c, Appends(prev, next, n - 1)), ChangeOf(prev, next, n - 1);
      ApplyAppends(c, Appends(prev, next, n)) ==
        if ch.Grow? && before.Ok? then ApplyAppend(before.value, ch.append) else before
  {
    var as_, ch := Appends(prev, next, n - 1), ChangeOf(prev, next, n - 1);
    if ch.Grow? {
      AppendsSnoc(c, as_, ch.append);
    } else {
      assert as_ + [] == as_;
    }
  }

  lemma {:induction false} AppendAll(prev: seq<Entry>, next: seq<Entry>, n: nat, c: seq<Entry>)
    requires Unique(next) && Unique(c) && n <= |next|
    requires forall id :: Has(c, id) <==> Has(next, id)
    ensures Collected(c, AppendedEach(prev, next, n, c), ApplyAppends(c, Appends(prev, next, n)))
  {
    if n > 0 {
      AppendAll(prev, next, n - 1, c);
      UniquePosition(next, n - 1);
      OneMoreAppend(prev, next, n, c);
      assert next[n - 1] in next;
      assert Has(c, next[n - 1].id);
      AppendStep(prev, next, n, c, ApplyAppends(c, Appends(prev, next, n - 1)));
    }
  }

  lemma AppendStep(prev: seq<Entry>, next: seq<Entry>, n: nat, c: seq<Entry>, r: Result<seq<Entry>, Desync>)
    requires Unique(c) && 0 < n <= |next|
    requires Has(c, next[n - 1].id) && Position(next, next[n - 1].id) == n - 1
    requires Collected(c, AppendedEach(prev, next, n - 1, c), r)
    ensures var ch := ChangeOf(prev, next, n - 1);
      Collected(c, AppendedEach(prev, next, n, c), if ch.Grow? && r.Ok? then ApplyAppend(r.value, ch.append) else r)
  {
    if ChangeOf(prev, next, n - 1).Grow? {
      TouchedEach(prev, next, n, c);
      StepResults(c, ChangeOf(prev, next, n - 1).append, AppendedEach(prev, next, n - 1, c), AppendedEach(prev, next, n, c), r);
    } else {
      UntouchedEach(prev, next, n, c);
    }
  }

  lemma UntouchedEach(prev: seq<Entry>, next: seq<Entry>, n: nat, c: seq<Entry>)
    requires 0 < n <= |next| && !ChangeOf(prev, next, n - 1).Grow?
    ensures AppendedEach(prev, next, n, c) == AppendedEach(prev, next, n - 1, c)
  {
  }

  lemma TouchedEach(prev: seq<Entry>, next: seq<Entry>, n: nat, c: seq<Entry>)
    requires 0 < n <= |next| && Position(next, next[n - 1].id) == n - 1 && ChangeOf(prev, next, n - 1).Grow?
    ensures var a := ChangeOf(prev, next, n - 1).append;
      var before, after := AppendedEach(prev, next, n - 1, c), AppendedEach(prev, next, n, c);
      && a.entry == next[n - 1].id
      && forall j :: 0 <= j < |c| ==>
           (c[j].id != a.entry ==> after[j] == before[j])
           && (c[j].id == a.entry ==> before[j] == Ok(c[j]) && after[j] == AppendTo(c[j], a))
  {
    GrowNames(prev, next, n - 1);
    var a := ChangeOf(prev, next, n - 1).append;
    var before, after := AppendedEach(prev, next, n - 1, c), AppendedEach(prev, next, n, c);
    forall j | 0 <= j < |c|
      ensures c[j].id != a.entry ==> after[j] == before[j]
      ensures c[j].id == a.entry ==> before[j] == Ok(c[j]) && after[j] == AppendTo(c[j], a)
    {
      Touched(prev, next, n, c[j]);
    }
  }

  lemma GrowNames(prev: seq<Entry>, next: seq<Entry>, i: nat)
    requires i < |next| && ChangeOf(prev, next, i).Grow?
    ensures ChangeOf(prev, next, i).append.entry == next[i].id
  {
  }

  lemma Touched(prev: seq<Entry>, next: seq<Entry>, n: nat, e: Entry)
    requires 0 < n <= |next| && ChangeOf(prev, next, n - 1).Grow?
    requires Position(next, next[n - 1].id) == n - 1
    ensures e.id != next[n - 1].id ==> Appended(prev, next, n, e) == Appended(prev, next, n - 1, e)
    ensures e.id == next[n - 1].id ==>
      && Appended(prev, next, n - 1, e) == Ok(e)
      && Appended(prev, next, n, e) == AppendTo(e, ChangeOf(prev, next, n - 1).append)
  {
    var k := Position(next, e.id);
    if k == n - 1 {
      assert next[k].id == e.id;
    }
  }

  lemma StepResults(c: seq<Entry>, a: TextAppend, before: seq<Result<Entry, Desync>>,
                    after: seq<Result<Entry, Desync>>, r: Result<seq<Entry>, Desync>)
    requires |before| == |after| == |c| && Unique(c) && Has(c, a.entry)
    requires Collected(c, before, r)
    requires forall j :: 0 <= j < |c| && c[j].id != a.entry ==> after[j] == before[j]
    requires forall j :: 0 <= j < |c| && c[j].id == a.entry ==> before[j] == Ok(c[j]) && after[j] == AppendTo(c[j], a)
    ensures Collected(c, after, if r.Err? then r else ApplyAppend(r.value, a))
  {
    if exists j :: 0 <= j < |c| && before[j].Err? {
      var j :| 0 <= j < |c| && before[j].Err?;
      assert after[j].Err?;
    } else {
      var m := Position(c, a.entry);
      AppendAt(r.value, c, a, m);
      assert after[m] == AppendTo(c[m], a);
    }
  }

  /** An append acts on the one entry it names, wherever earlier appends left it. */
  lemma AppendAt(es: seq<Entry>, c: seq<Entry>, a: TextAppend, m: nat)
    requires |es| == |c| && m < |c| && m == Position(c, a.entry) && Unique(c)
    requires forall j :: 0 <= j < |c| ==> es[j].id == c[j].id
    requires es[m] == c[m]
    ensures Position(es, a.entry) == m
    ensures ApplyAppend(es, a).Err? <==> AppendTo(c[m], a).Err?
    ensures ApplyAppend(es, a).Ok? ==> ApplyAppend(es, a).value == es[m := AppendTo(c[m], a).value]
    ensures forall e :: e in c && e.id == a.entry ==> e == c[m]
  {
  }
}
