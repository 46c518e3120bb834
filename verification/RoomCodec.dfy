/** How a room stores a batch of updates in one log row and sends one large update in
    fragments (edge/src/session-room.ts). */
module RoomCodec {
  import opened Common

  const U32: nat := 0x1_0000_0000

  /** Big-endian unsigned 32-bit; a larger value wraps, as the platform's setter does. */
  function PutU32(n: nat): (b: Bytes)
    ensures |b| == 4
  {
    var m := n % U32;
    var high, low := m / 0x1_0000, m % 0x1_0000;
    [high / 0x100, high % 0x100, low / 0x100, low % 0x100]
  }

  function GetU32(b: Bytes): (n: nat)
    requires |b| == 4
    ensures n < U32
  {
    0x1_0000 * (0x100 * (b[0] as int) + b[1] as int) + 0x100 * (b[2] as int) + b[3] as int
  }

  lemma U32RoundTrip(n: nat)
    ensures GetU32(PutU32(n)) == n % U32
  {
    var m := n % U32;
    var high, low := m / 0x1_0000, m % 0x1_0000;
    assert high == 0x100 * (high / 0x100) + high % 0x100;
    assert low == 0x100 * (low / 0x100) + low % 0x100;
  }

  /** One row: each update behind its length. */
  function Combine(updates: seq<Bytes>): Bytes {
    if updates == [] then [] else PutU32(|updates[0]|) + updates[0] + Combine(updates[1..])
  }

  /** Read updates off the front of a row until what is left is too short. */
  function Split(bytes: Bytes): seq<Bytes> {
    if |bytes| < 4 then []
    else
      var len := GetU32(bytes[..4]);
      if 4 + len > |bytes| then []
      else [bytes[4..4 + len]] + Split(bytes[4 + len..])
  }

  /** What the reader does with an update behind its (possibly wrapped) length. */
  lemma SplitStep(u: Bytes, rest: Bytes)
    ensures var row, len := PutU32(|u|) + u + rest, |u| % U32;
      Split(row) == [u[..len]] + Split((u + rest)[len..])
    ensures |u| < U32 ==> Split(PutU32(|u|) + u + rest) == [u] + Split(rest)
  {
    var row, len := PutU32(|u|) + u + rest, |u| % U32;
    U32RoundTrip(|u|);
    assert row[..4] == PutU32(|u|);
    assert row[4..4 + len] == u[..len] && row[4 + len..] == (u + rest)[len..];
    if |u| < U32 {
      assert u[..len] == u && (u + rest)[len..] == rest;
    }
  }

  /** A row cut off inside its first update yields nothing. */
  lemma SplitCutOff(u: Bytes, rest: Bytes, k: nat)
    requires |u| < U32 && k < 4 + |u|
    ensures Split((PutU32(|u|) + u + rest)[..k]) == []
  {
    var p := (PutU32(|u|) + u + rest)[..k];
    U32RoundTrip(|u|);
    if k >= 4 { assert p[..4] == PutU32(|u|); }
  }

  lemma CombineOne(u: Bytes)
    ensures Combine([u]) == PutU32(|u|) + u
  {
    assert [u][1..] == [];
    assert PutU32(|u|) + u + [] == PutU32(|u|) + u;
  }

  lemma CombineCons(u: Bytes, us: seq<Bytes>)
    ensures Combine([u] + us) == PutU32(|u|) + u + Combine(us)
  {
    assert ([u] + us)[1..] == us;
  }

  /** Of the first k bytes of a row, m updates are complete and are what reading yields. */
  ghost predicate CutAfter(updates: seq<Bytes>, k: nat, m: nat)
    requires k <= |Combine(updates)|
  {
    && m <= |updates| && Split(Combine(updates)[..k]) == updates[..m]
    && |Combine(updates[..m])| <= k
    && (m < |updates| ==> k < |Combine(updates[..m + 1])|)
  }

  lemma CutLater(u: Bytes, rest: seq<Bytes>, k: nat, n: nat)
    requires |u| < U32 && k <= |Combine(rest)| && CutAfter(rest, k, n)
    ensures 4 + |u| + k <= |Combine([u] + rest)| && CutAfter([u] + rest, 4 + |u| + k, n + 1)
  {
    var all, tail := [u] + rest, Combine(rest);
    CombineCons(u, rest);
    assert Combine(all)[..4 + |u| + k] == PutU32(|u|) + u + tail[..k];
    SplitStep(u, tail[..k]);
    CombineTake(u, rest, n);
    if n < |rest| { CombineTake(u, rest, n + 1); }
  }

  lemma CombineTake(u: Bytes, rest: seq<Bytes>, n: nat)
    requires n <= |rest|
    ensures ([u] + rest)[..n + 1] == [u] + rest[..n]
    ensures |Combine(([u] + rest)[..n + 1])| == 4 + |u| + |Combine(rest[..n])|
  {
    assert ([u] + rest)[..n + 1] == [u] + rest[..n];
    CombineCons(u, rest[..n]);
  }

  lemma CutNow(u: Bytes, rest: seq<Bytes>, k: nat)
    requires |u| < U32 && k < 4 + |u|
    ensures k <= |Combine([u] + rest)| && CutAfter([u] + rest, k, 0)
  {
    CombineCons(u, rest);
    SplitCutOff(u, Combine(rest), k);
    CombineOne(u);
    var all := [u] + rest;
    assert all[..1] == [u] && all[..0] == [];
  }

  /** How many updates lie completely within the first k bytes of their row. */
  function CompleteIn(updates: seq<Bytes>, k: nat): nat {
    if updates == [] || k < 4 + |updates[0]| then 0
    else 1 + CompleteIn(updates[1..], k - 4 - |updates[0]|)
  }

  lemma PrefixStep(u: Bytes, rest: seq<Bytes>, k: nat)
    requires |u| < U32 && k <= 4 + |u| + |Combine(rest)|
    requires k >= 4 + |u| ==> CutAfter(rest, k - 4 - |u|, CompleteIn(rest, k - 4 - |u|))
    ensures k <= |Combine([u] + rest)| && CutAfter([u] + rest, k, CompleteIn([u] + rest, k))
  {
    assert ([u] + rest)[1..] == rest;
    if k < 4 + |u| {
      CutNow(u, rest, k);
    } else {
      CutLater(u, rest, k - 4 - |u|, CompleteIn(rest, k - 4 - |u|));
    }
  }

  /** On a row cut off anywhere, reading gives back exactly the updates that are complete. */
  lemma {:induction false} SplitPrefix(updates: seq<Bytes>, k: nat)
    requires forall u :: u in updates ==> |u| < U32
    requires k <= |Combine(updates)|
    ensures CutAfter(updates, k, CompleteIn(updates, k))
  {
    if updates == [] {
      assert Combine(updates)[..k] == [];
    } else {
      var u, rest := updates[0], updates[1..];
      assert u in updates && [u] + rest == updates;
      CombineCons(u, rest);
      if k >= 4 + |u| { SplitPrefix(rest, k - 4 - |u|); }
      PrefixStep(u, rest, k);
    }
  }

  lemma {:induction false} SplitCombine(updates: seq<Bytes>)
    requires forall u :: u in updates ==> |u| < U32
    ensures Split(Combine(updates)) == updates
  {
    if updates != [] {
      assert updates[0] in updates;
      SplitStep(updates[0], Combine(updates[1..]));
      SplitCombine(updates[1..]);
    }
  }

  /** An update too long for its length field is not read back. */
  lemma {:induction false} LongUpdateIsLost(updates: seq<Bytes>)
    requires exists u :: u in updates && |u| >= U32
    ensures Split(Combine(updates)) != updates
  {
    var u, rest := updates[0], updates[1..];
    SplitStep(u, Combine(rest));
    if |u| < U32 {
      var v :| v in updates && |v| >= U32;
      assert v in rest;
      LongUpdateIsLost(rest);
      assert ([u] + Split(Combine(rest)))[1..] == Split(Combine(rest));
    } else {
      assert Split(Combine(updates))[0] == u[..|u| % U32] != u;
    }
  }

  /** Splitting a row undoes combining exactly when every update fits its length field. */
  lemma SplitCombineExactly(updates: seq<Bytes>)
    ensures Split(Combine(updates)) == updates <==> forall u :: u in updates ==> |u| < U32
  {
    if forall u :: u in updates ==> |u| < U32 {
      SplitCombine(updates);
    } else {
      LongUpdateIsLost(updates);
    }
  }

  // ----- the loops -----

  function TotalSize(updates: seq<Bytes>): nat {
    if updates == [] then 0 else 4 + |updates[0]| + TotalSize(updates[1..])
  }

  lemma {:induction false} TotalIsLength(updates: seq<Bytes>)
    ensures |Combine(updates)| == TotalSize(updates)
  {
    if updates != [] { TotalIsLength(updates[1..]); }
  }

  lemma {:induction false} CombineSnoc(updates: seq<Bytes>, u: Bytes)
    ensures Combine(updates + [u]) == Combine(updates) + PutU32(|u|) + u
  {
    if updates == [] {
      assert [] + [u] == [u] && [u][1..] == [];
    } else {
      assert (updates + [u])[0] == updates[0] && (updates + [u])[1..] == updates[1..] + [u];
      CombineSnoc(updates[1..], u);
    }
  }

  lemma {:induction false} CombineConcat(a: seq<Bytes>, b: seq<Bytes>)
    ensures Combine(a + b) == Combine(a) + Combine(b)
  {
    if a == [] {
      assert a + b == b;
    } else {
      assert (a + b)[0] == a[0] && (a + b)[1..] == a[1..] + b;
      CombineConcat(a[1..], b);
    }
  }

  method SetBytes(out: array<byte>, bytes: Bytes, off: nat)
    requires off + |bytes| <= out.Length
    modifies out
    ensures out[..] == old(out[..off]) + bytes + old(out[off + |bytes|..])
  {
    forall i | 0 <= i < |bytes| {
      out[off + i] := bytes[i];
    }
  }

  method CombinePendingUpdates(pending: seq<Bytes>) returns (row: Bytes)
    ensures row == Combine(pending)
  {
    var total := 0;
    for i := 0 to |pending|
      invariant total + TotalSize(pending[i..]) == TotalSize(pending)
    {
      assert pending[i..][1..] == pending[i + 1..];
      total := total + 4 + |pending[i]|;
    }
    TotalIsLength(pending);
    var out := new byte[total];
    var off := 0;
    for i := 0 to |pending|
      invariant off <= out.Length
      invariant off == |Combine(pending[..i])| && out[..off] == Combine(pending[..i])
    {
      ghost var done := pending[..i];
      assert pending == done + pending[i..] && pending[i..][0] == pending[i];
      CombineConcat(done, pending[i..]);
      CombineSnoc(done, pending[i]);
      assert pending[..i + 1] == done + [pending[i]];
      SetBytes(out, PutU32(|pending[i]|), off);
      off := off + 4;
      SetBytes(out, pending[i], off);
      off := off + |pending[i]|;
    }
    assert pending[..|pending|] == pending;
    row := out[..];
  }

  /** Reading on from the middle of a row. */
  lemma SplitHere(bytes: Bytes, off: nat)
    requires off + 4 <= |bytes|
    ensures var at := off + 4 + GetU32(bytes[off..off + 4]);
      Split(bytes[off..]) == if at > |bytes| then [] else [bytes[off + 4..at]] + Split(bytes[at..])
  {
    var rest, len := bytes[off..], GetU32(bytes[off..off + 4]);
    assert rest[..4] == bytes[off..off + 4];
    if off + 4 + len <= |bytes| {
      assert rest[4..4 + len] == bytes[off + 4..off + 4 + len] && rest[4 + len..] == bytes[off + 4 + len..];
    }
  }

  method SplitCombinedUpdates(bytes: Bytes) returns (updates: seq<Bytes>)
    ensures updates == Split(bytes)
  {
    updates := [];
    var off := 0;
    assert bytes[0..] == bytes;
    while off + 4 <= |bytes|
      invariant off <= |bytes|
      invariant updates + Split(bytes[off..]) == Split(bytes)
      decreases |bytes| - off
    {
      SplitHere(bytes, off);
      var len := GetU32(bytes[off..off + 4]);
      off := off + 4;
      if off + len > |bytes| {
        assert updates + [] == updates;
        return;
      }
      Reassociated(updates, [bytes[off..off + len]], Split(bytes[off + len..]));
      updates := updates + [bytes[off..off + len]];
      off := off + len;
    }
    SplitEnds(bytes, off);
    assert updates + [] == updates;
  }

  lemma SplitEnds(bytes: Bytes, off: nat)
    requires off <= |bytes| < off + 4
    ensures Split(bytes[off..]) == []
  {
  }

  // ----- fragments -----

  /** Payload bytes per fragment. */
  const FRAGMENT_BYTES: nat := 200_000

  function FragmentCount(n: nat): nat { (n + FRAGMENT_BYTES - 1) / FRAGMENT_BYTES }

  function Min(a: nat, b: nat): nat { if a < b then a else b }

  function Fragment(update: Bytes, i: nat): Bytes
    requires i < FragmentCount(|update|)
  {
    update[i * FRAGMENT_BYTES..Min((i + 1) * FRAGMENT_BYTES, |update|)]
  }

  /** The sender's loop: the fragments of one update, in index order. */
  method SendFragments(update: Bytes) returns (fragments: seq<Bytes>)
    ensures |fragments| == FragmentCount(|update|)
    ensures forall i :: 0 <= i < |fragments| ==> fragments[i] == Fragment(update, i)
  {
    var count := (|update| + FRAGMENT_BYTES - 1) / FRAGMENT_BYTES;
    fragments := [];
    for i := 0 to count
      invariant |fragments| == i
      invariant forall j :: 0 <= j < i ==> fragments[j] == Fragment(update, j)
    {
      fragments := fragments + [update[i * FRAGMENT_BYTES..Min((i + 1) * FRAGMENT_BYTES, |update|)]];
    }
  }

  lemma {:induction false} FragmentsSpell(update: Bytes, parts: seq<Bytes>)
    requires |parts| <= FragmentCount(|update|)
    requires forall i :: 0 <= i < |parts| ==> parts[i] == Fragment(update, i)
    ensures Concat(parts) == update[..Min(|parts| * FRAGMENT_BYTES, |update|)]
  {
    if parts != [] {
      FragmentsSpell(update, parts[..|parts| - 1]);
    }
  }

  /** `None` is a hole in the list, which JavaScript leaves when it writes past the end. */
  datatype Batch = Batch(parts: seq<Option<Bytes>>, received: nat, totalSize: nat)

  /** A batch on a socket. */
  type Key = (nat, string)

  datatype Incoming =
    | Header(key: Key, count: nat, totalSize: nat)
    | Piece(key: Key, index: nat, fragment: Bytes)
    | SocketClosed(socket: nat)

  datatype Outcome =
    | Waiting
    | UnknownBatch
    | BadFragment
    | Complete(update: Bytes)

  /** The longest JavaScript array; an index from here on does not lengthen one. */
  const ARRAY_LIMIT: nat := 0xFFFF_FFFF

  /** Writing an element of an array, whatever its index. */
  function Place(parts: seq<Option<Bytes>>, index: nat, fragment: Bytes): (r: seq<Option<Bytes>>)
    ensures index < ARRAY_LIMIT ==> index < |r| && r[index] == Some(fragment)
    ensures |parts| <= |r| && forall i :: 0 <= i < |parts| && i != index ==> r[i] == parts[i]
    ensures forall i :: |parts| <= i < |r| && i != index ==> r[i] == None
  {
    if index < |parts| then parts[index := Some(fragment)]
    else if index >= ARRAY_LIMIT then parts
    else parts + seq(index - |parts|, i => None) + [Some(fragment)]
  }

  predicate Gapless(parts: seq<Option<Bytes>>) { forall p :: p in parts ==> p.Some? }

  function Values(parts: seq<Option<Bytes>>): seq<Bytes>
    requires Gapless(parts)
  {
    seq(|parts|, i requires 0 <= i < |parts| => parts[i].value)
  }

  /** The concatenation laid into a buffer of the announced size; longer parts do not fit, and a
      hole is nothing that could be copied. */
  function Assemble(parts: seq<Option<Bytes>>, totalSize: nat): Outcome {
    if !Gapless(parts) || |Concat(Values(parts))| > totalSize then BadFragment
    else
      var all := Concat(Values(parts));
      Complete(all + seq(totalSize - |all|, i => 0))
  }

  function Receive(batches: map<Key, Batch>, m: Incoming): (map<Key, Batch>, Outcome) {
    match m
    case Header(key, count, totalSize) =>
      if count > ARRAY_LIMIT then (batches, BadFragment)
      else (batches[key := Batch(seq(count, i => Some([])), 0, totalSize)], Waiting)
    case Piece(key, index, fragment) =>
      if key !in batches then (batches, UnknownBatch)
      else
        var b := batches[key];
        var parts := Place(b.parts, index, fragment);
        if b.received + 1 < |parts| then (batches[key := Batch(parts, b.received + 1, b.totalSize)], Waiting)
        else (batches - {key}, Assemble(parts, b.totalSize))
    case SocketClosed(socket) =>
      (map k | k in batches && k.0 != socket :: batches[k], Waiting)
  }

  class Reassembler {
    var batches: map<Key, Batch>

    constructor ()
      ensures batches == map[]
    {
      batches := map[];
    }

    method Handle(m: Incoming) returns (outcome: Outcome)
      modifies this
      ensures (batches, outcome) == Receive(old(batches), m)
    {
      match m
      case Header(key, count, totalSize) =>
        if count > ARRAY_LIMIT {
          return BadFragment;
        }
        batches := batches[key := Batch(seq(count, i => Some([])), 0, totalSize)];
        return Waiting;
      case Piece(key, index, fragment) =>
        if key !in batches {
          return UnknownBatch;
        }
        var b := batches[key];
        var parts := SetElement(b.parts, index, fragment);
        if b.received + 1 < |parts| {
          batches := batches[key := Batch(parts, b.received + 1, b.totalSize)];
          return Waiting;
        }
        batches := batches - {key};
        outcome := Copy(parts, b.totalSize);
      case SocketClosed(socket) =>
        batches := map k | k in batches && k.0 != socket :: batches[k];
        return Waiting;
    }
  }

  /** What JavaScript does for `parts[index] = fragment`, one hole at a time. */
  method SetElement(parts: seq<Option<Bytes>>, index: nat, fragment: Bytes) returns (next: seq<Option<Bytes>>)
    ensures next == Place(parts, index, fragment)
  {
    if index < |parts| {
      return parts[index := Some(fragment)];
    }
    next := parts;
    if index >= ARRAY_LIMIT {
      return;
    }
    while |next| < index
      invariant |parts| <= |next| <= index && next == parts + seq(|next| - |parts|, i => None)
    {
      next := next + [None];
    }
    next := next + [Some(fragment)];
  }

  /** Copy the parts into a buffer of the announced size, stopping at the first that cannot be. */
  method Copy(parts: seq<Option<Bytes>>, totalSize: nat) returns (outcome: Outcome)
    ensures outcome == Assemble(parts, totalSize)
  {
    var total: Bytes := [];
    for i := 0 to |parts|
      invariant Gapless(parts[..i]) && total == Concat(Values(parts[..i])) && |total| <= totalSize
    {
      var front := parts[..i + 1];
      assert front[..i] == parts[..i] && front[i] == parts[i];
      if parts[i].None? {
        assert parts[i] in parts;
        return BadFragment;
      }
      assert Values(front)[..i] == Values(parts[..i]);
      total := total + parts[i].value;
      if |total| > totalSize {
        if Gapless(parts) {
          assert Values(front) == Values(parts)[..i + 1];
          PrefixFits(Values(parts), i + 1);
        }
        return BadFragment;
      }
    }
    assert parts[..|parts|] == parts;
    return Complete(total + seq(totalSize - |total|, i => 0));
  }

  function ReceiveAll(batches: map<Key, Batch>, ms: seq<Incoming>): map<Key, Batch> {
    if ms == [] then batches else Receive(ReceiveAll(batches, ms[..|ms| - 1]), ms[|ms| - 1]).0
  }

  /** The messages of `ms` that concern the batch. */
  function About(ms: seq<Incoming>, key: Key): seq<Incoming> {
    if ms == [] then []
    else
      var last := ms[|ms| - 1];
      var mine := if last.SocketClosed? then last.socket == key.0 else last.key == key;
      About(ms[..|ms| - 1], key) + if mine then [last] else []
  }

  function Indices(ms: seq<Incoming>): set<nat> {
    set m | m in ms && m.Piece? :: m.index
  }

  /** What the receiver holds of a batch after `n` of its fragments, `got` of them different. */
  ghost predicate Partly(b: Batch, update: Bytes, got: set<nat>, n: nat) {
    && |b.parts| == FragmentCount(|update|) && b.totalSize == |update| && b.received == n
    && HoldsOf(b.parts, update, got)
  }

  ghost predicate HoldsOf(parts: seq<Option<Bytes>>, update: Bytes, got: set<nat>) {
    && |parts| == FragmentCount(|update|)
    && forall i :: 0 <= i < |parts| ==> parts[i] == Some(if i in got then Fragment(update, i) else [])
  }

  ghost predicate OneOf(m: Incoming, key: Key, update: Bytes) {
    && m.Piece? && m.key == key && m.index < FragmentCount(|update|) && m.fragment == Fragment(update, m.index)
  }

  /** Messages of one batch: its header, then fragments of the update. */
  ghost predicate Genuine(ms: seq<Incoming>, key: Key, update: Bytes) {
    && ms != [] && ms[0] == Header(key, FragmentCount(|update|), |update|)
    && FragmentCount(|update|) <= ARRAY_LIMIT
    && forall i :: 1 <= i < |ms| ==> OneOf(ms[i], key, update)
  }

  /** No fragment came twice. */
  ghost predicate Distinct(ms: seq<Incoming>) {
    forall i, j :: 1 <= i < j < |ms| && ms[i].Piece? && ms[j].Piece? ==> ms[i].index != ms[j].index
  }

  lemma {:induction false} IndexSetBound(s: set<nat>, n: nat)
    requires forall i :: i in s ==> i < n
    ensures |s| <= n && (|s| == n <==> forall i: nat :: i < n ==> i in s)
  {
    if n == 0 {
      assert s == {};
    } else {
      IndexSetBound(s - {n - 1}, n - 1);
      if n - 1 in s { assert s == (s - {n - 1}) + {n - 1}; } else { assert s == s - {n - 1}; }
    }
  }

  /** Messages of other batches and sockets leave a batch alone. */
  lemma OthersIgnored(batches: map<Key, Batch>, m: Incoming, key: Key)
    requires if m.SocketClosed? then m.socket != key.0 else m.key != key
    ensures var r := Receive(batches, m).0;
      (key in r <==> key in batches) && (key in batches ==> r[key] == batches[key])
  {
  }

  lemma PieceStep(batches: map<Key, Batch>, update: Bytes, got: set<nat>, n: nat, m: Incoming)
    requires m.Piece? && OneOf(m, m.key, update) && FragmentCount(|update|) <= ARRAY_LIMIT
    requires m.key in batches && Partly(batches[m.key], update, got, n)
    ensures var r, parts := Receive(batches, m), Place(batches[m.key].parts, m.index, m.fragment);
      && HoldsOf(parts, update, got + {m.index})
      && if n + 1 < FragmentCount(|update|) then
           r.1 == Waiting && m.key in r.0 && Partly(r.0[m.key], update, got + {m.index}, n + 1)
         else r.1 == Assemble(parts, |update|) && m.key !in r.0
  {
  }

  lemma GenuineFront(mine: seq<Incoming>, key: Key, update: Bytes)
    requires |mine| > 1 && Genuine(mine, key, update)
    ensures var front, last := mine[..|mine| - 1], mine[|mine| - 1];
      && Genuine(front, key, update) && OneOf(last, key, update)
      && Indices(mine) == Indices(front) + {last.index}
  {
    var front, last := mine[..|mine| - 1], mine[|mine| - 1];
    assert mine == front + [last];
  }

  /** As many different indices as fragments, just when none came twice. */
  lemma {:induction false} IndicesCount(mine: seq<Incoming>, key: Key, update: Bytes)
    requires Genuine(mine, key, update)
    ensures |Indices(mine)| <= |mine| - 1
    ensures |Indices(mine)| == |mine| - 1 <==> Distinct(mine)
    ensures forall i :: i in Indices(mine) ==> i < FragmentCount(|update|)
    decreases |mine|
  {
    if |mine| == 1 {
      assert Indices(mine) == {};
    } else {
      var front, last := mine[..|mine| - 1], mine[|mine| - 1];
      GenuineFront(mine, key, update);
      IndicesCount(front, key, update);
      LastIsNew(mine, key, update);
      if last.index in Indices(front) {
        assert Indices(mine) == Indices(front);
      }
    }
  }

  lemma LastIsNew(mine: seq<Incoming>, key: Key, update: Bytes)
    requires |mine| > 1 && Genuine(mine, key, update)
    ensures var front, last := mine[..|mine| - 1], mine[|mine| - 1];
      Distinct(mine) <==> Distinct(front) && last.index !in Indices(front)
  {
    var front, last := mine[..|mine| - 1], mine[|mine| - 1];
    assert OneOf(last, key, update);
    if last.index in Indices(front) {
      var m :| m in front && m.Piece? && m.index == last.index;
      var i :| 0 <= i < |front| && front[i] == m;
      assert mine[i] == m && i > 0;
    }
    if Distinct(front) && last.index !in Indices(front) {
      forall i, j | 1 <= i < j < |mine| && mine[i].Piece? && mine[j].Piece? ensures mine[i].index != mine[j].index {
        assert front[i] == mine[i] && front[i] in front;
        if j < |front| { assert front[j] == mine[j]; }
      }
    }
  }

  lemma PieceArrives(before: map<Key, Batch>, mine: seq<Incoming>, key: Key, update: Bytes)
    requires 1 < |mine| <= FragmentCount(|update|) && Genuine(mine, key, update)
    requires key in before && Partly(before[key], update, Indices(mine[..|mine| - 1]), |mine| - 2)
    ensures var after := Receive(before, mine[|mine| - 1]).0;
      key in after && Partly(after[key], update, Indices(mine), |mine| - 1)
  {
    GenuineFront(mine, key, update);
    PieceStep(before, update, Indices(mine[..|mine| - 1]), |mine| - 2, mine[|mine| - 1]);
  }

  lemma HeaderArrives(before: map<Key, Batch>, m: Incoming, key: Key, update: Bytes)
    requires Genuine([m], key, update)
    ensures var after := Receive(before, m).0;
      key in after && Partly(after[key], update, Indices([m]), 0)
  {
    assert m == [m][0];
    assert Indices([m]) == {};
  }

  /** Whatever else arrives in between, a batch holds the fragments delivered so far, in whatever
      order they came, and waits until as many came as it has. */
  lemma {:induction false} BatchProgress(start: map<Key, Batch>, ms: seq<Incoming>, key: Key, update: Bytes)
    requires Genuine(About(ms, key), key, update)
    requires |About(ms, key)| <= FragmentCount(|update|)
    ensures key in ReceiveAll(start, ms)
    ensures Partly(ReceiveAll(start, ms)[key], update, Indices(About(ms, key)), |About(ms, key)| - 1)
  {
    var front, last := ms[..|ms| - 1], ms[|ms| - 1];
    var before, mine := ReceiveAll(start, front), About(ms, key);
    if mine == About(front, key) {
      BatchProgress(start, front, key, update);
      OthersIgnored(before, last, key);
    } else if |mine| == 1 {
      assert mine == [last];
      HeaderArrives(before, last, key, update);
    } else {
      assert mine[..|mine| - 1] == About(front, key) && mine[|mine| - 1] == last;
      GenuineFront(mine, key, update);
      BatchProgress(start, front, key, update);
      PieceArrives(before, mine, key, update);
    }
  }

  /** All fragments of the update, each in its place. */
  ghost predicate HoldsAll(parts: seq<Option<Bytes>>, update: Bytes) {
    |parts| == FragmentCount(|update|) && forall i :: 0 <= i < |parts| ==> parts[i] == Some(Fragment(update, i))
  }

  lemma HoldsAllExactly(parts: seq<Option<Bytes>>, update: Bytes, got: set<nat>)
    requires HoldsOf(parts, update, got) && forall i :: i in got ==> i < FragmentCount(|update|)
    ensures HoldsAll(parts, update) <==> |got| == FragmentCount(|update|)
  {
    IndexSetBound(got, |parts|);
    forall i | 0 <= i < |parts| ensures Fragment(update, i) != [] {
    }
  }

  lemma AssembledFrom(parts: seq<Option<Bytes>>, update: Bytes, got: set<nat>)
    requires HoldsOf(parts, update, got)
    ensures Assemble(parts, |update|).Complete?
    ensures HoldsAll(parts, update) ==> Assemble(parts, |update|) == Complete(update)
  {
    var values, n := Values(parts), |parts|;
    HeldIsShort(values, update, got);
    if HoldsAll(parts, update) {
      FragmentsSpell(update, values);
      assert Concat(values) == update;
      assert update + seq(0, i => 0) == update;
    }
  }

  lemma {:induction false} HeldIsShort(values: seq<Bytes>, update: Bytes, got: set<nat>)
    requires |values| <= FragmentCount(|update|)
    requires forall i :: 0 <= i < |values| ==> values[i] == if i in got then Fragment(update, i) else []
    ensures |Concat(values)| <= Min(|values| * FRAGMENT_BYTES, |update|)
  {
    if values != [] { HeldIsShort(values[..|values| - 1], update, got); }
  }

  /** As many genuine fragments as a batch has, in any order and interleaved with any other
      traffic that does not close the socket: until the last one the batch waits, at the last one
      it completes, and it then holds the whole update if and only if no fragment came twice. */
  lemma FragmentsReassembleExactly(start: map<Key, Batch>, ms: seq<Incoming>, last: Incoming, key: Key, update: Bytes)
    requires last.Piece? && Genuine(About(ms, key) + [last], key, update)
    requires |About(ms, key)| == FragmentCount(|update|) > 0
    ensures key in ReceiveAll(start, ms)
    ensures var parts := Place(ReceiveAll(start, ms)[key].parts, last.index, last.fragment);
      var r := Receive(ReceiveAll(start, ms), last);
      && key !in r.0 && r.1.Complete? && r.1 == Assemble(parts, |update|)
      && (HoldsAll(parts, update) <==> Distinct(About(ms, key) + [last]))
      && (HoldsAll(parts, update) ==> r.1 == Complete(update))
  {
    var before, mine := ReceiveAll(start, ms), About(ms, key) + [last];
    assert mine[..|mine| - 1] == About(ms, key);
    GenuineFront(mine, key, update);
    BatchProgress(start, ms, key, update);
    var got := Indices(About(ms, key));
    PieceStep(before, update, got, |mine| - 2, last);
    var parts := Place(before[key].parts, last.index, last.fragment);
    IndicesCount(mine, key, update);
    HoldsAllExactly(parts, update, got + {last.index});
    AssembledFrom(parts, update, got + {last.index});
  }

  /** So fragments delivered once each complete exactly at the last one, with the original
      update. */
  lemma FragmentsReassemble(start: map<Key, Batch>, ms: seq<Incoming>, last: Incoming, key: Key, update: Bytes)
    requires last.Piece? && Genuine(About(ms, key) + [last], key, update) && Distinct(About(ms, key) + [last])
    requires |About(ms, key)| == FragmentCount(|update|) > 0
    ensures Receive(ReceiveAll(start, ms), last).1 == Complete(update)
    ensures key !in Receive(ReceiveAll(start, ms), last).0
  {
    FragmentsReassembleExactly(start, ms, last, key, update);
  }

  /** Fragments are counted, not identified: one delivered twice completes its batch early, with
      zeros where the missing fragment belongs. */
  lemma DuplicateCompletesEarly(key: Key, first: Bytes)
    requires |first| == 1
    ensures
      var begun := Receive(map[], Header(key, 2, 2)).0;
      var once := Receive(begun, Piece(key, 0, first)).0;
      Receive(once, Piece(key, 0, first)).1 == Complete(first + [0])
  {
    var begun := Receive(map[], Header(key, 2, 2)).0;
    assert begun[key].parts == [Some([]), Some([])];
    var once := Receive(begun, Piece(key, 0, first)).0;
    var parts := [Some(first), Some([])];
    assert [Some([]), Some([])][0 := Some(first)] == parts && once[key].parts == parts && parts[0 := Some(first)] == parts;
    var values := [first, []];
    assert Values(parts) == values;
    assert values[..1] == [first] && [first][..0] == [];
    assert Concat(values) == (Concat([]) + first) + [];
    assert seq(1, i => 0) == [0 as byte];
  }

  // ----- the bytes of a row -----

  /** A row is, update by update, a length in four bytes, most significant first, and the update. */
  lemma RowLayout(u: Bytes, rest: seq<Bytes>)
    requires |u| < U32
    ensures var row := Combine([u] + rest);
      && |row| >= 4 + |u|
      && 0x100_0000 * (row[0] as int) + 0x1_0000 * (row[1] as int) + 0x100 * (row[2] as int) + (row[3] as int) == |u|
      && row[4..4 + |u|] == u && row[4 + |u|..] == Combine(rest)
  {
    assert ([u] + rest)[1..] == rest;
    U32RoundTrip(|u|);
    var row := Combine([u] + rest);
    assert row[..4] == PutU32(|u|);
  }

  /** A header for more fragments than an array holds is refused, a fragment of an unknown batch is
      answered so, and neither changes anything. */
  lemma RefusedExactly(batches: map<Key, Batch>, m: Incoming)
    ensures var (next, reply) := Receive(batches, m);
      && (reply == UnknownBatch <==> m.Piece? && m.key !in batches)
      && (reply == UnknownBatch ==> next == batches)
      && (m.Header? ==> (reply == BadFragment <==> m.count >= 0x1_0000_0000) && (reply == BadFragment || reply == Waiting))
      && (m.Header? && reply == BadFragment ==> next == batches)
      && (m.Header? && reply == Waiting ==> next == batches[m.key := Batch(seq(m.count, i => Some([])), 0, m.totalSize)])
      && (m.SocketClosed? ==> reply == Waiting && forall key :: key in next <==> key in batches && key.0 != m.socket)
  {
  }
}
