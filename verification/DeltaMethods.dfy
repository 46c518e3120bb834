/** The loops of crates/doc/src/transcript_delta.rs, proved against TranscriptDelta. */
module DeltaMethods {
  import opened Common
  import opened Parts
  import opened TranscriptDelta

  method TryTextAppend(prev: Entry, next: Entry) returns (append: Option<TextAppend>)
    ensures append == TextAppendOf(prev, next)
    ensures append.Some? <==>
      SameShell(prev, next) && exists k :: SoleGrowth(prev.parts, next.parts, k)
  {
    if prev.id != next.id || prev.role != next.role || prev.createdAt != next.createdAt
      || prev.deviceId != next.deviceId || prev.status != next.status
      || prev.continuationOf != next.continuationOf || |prev.parts| != |next.parts|
    {
      return None;
    }
    append := None;
    ghost var at := |prev.parts|;
    for i := 0 to |prev.parts|
      invariant append.None? ==> at == |prev.parts| && forall j :: 0 <= j < i ==> prev.parts[j] == next.parts[j]
      invariant append.Some? ==>
        && 0 <= at < i
        && prev.parts[at] != next.parts[at] && TextGrew(prev.parts[at], next.parts[at])
        && (forall j :: 0 <= j < i && j != at ==> prev.parts[j] == next.parts[j])
        && append.value == TextAppend(next.id, next.parts[at].id,
                             next.parts[at].text[|prev.parts[at].text|..], |next.parts[at].text|)
    {
      var p, n := prev.parts[i], next.parts[i];
      if p == n { continue; }
      if !(p.Text? && n.Text?) {
        NoSoleGrowth(prev.parts, next.parts, i, at);
        return None;
      }
      if p.id != n.id || !(p.text <= n.text) || append.Some? {
        NoSoleGrowth(prev.parts, next.parts, i, at);
        return None;
      }
      append := Some(TextAppend(next.id, n.id, n.text[|p.text|..], |n.text|));
      at := i;
    }
    if append.Some? {
      assert SoleGrowth(prev.parts, next.parts, at);
    }
  }

  /** A second difference, or one that is not text growth, rules an append out. */
  lemma NoSoleGrowth(p: seq<MessagePart>, n: seq<MessagePart>, i: int, at: int)
    requires |p| == |n| && 0 <= i < |p| && p[i] != n[i]
    requires !TextGrew(p[i], n[i]) || (0 <= at < i && p[at] != n[at])
    ensures !exists k :: SoleGrowth(p, n, k)
  {
  }

  /** The sender's index over the previous transcript: a later entry replaces an earlier one. */
  method IndexById(es: seq<Entry>) returns (index: map<string, nat>)
    ensures forall id :: id in index <==> LastPosition(es, id) < |es|
    ensures forall id :: id in index ==> index[id] == LastPosition(es, id)
  {
    index := map[];
    for i := 0 to |es|
      invariant forall id :: id in index <==> LastPosition(es[..i], id) < i
      invariant forall id :: id in index ==> index[id] == LastPosition(es[..i], id)
    {
      assert es[..i + 1][..i] == es[..i];
      index := index[es[i].id := i];
    }
    assert es[..|es|] == es;
  }

  method CollectRemoved(prev: seq<Entry>, next: seq<Entry>) returns (remove: seq<string>)
    ensures remove == Removed(prev, next)
  {
    var nextIds := set e | e in next :: e.id;
    remove := [];
    for i := 0 to |prev|
      invariant remove + Removed(prev[i..], next) == Removed(prev, next)
    {
      assert prev[i..][1..] == prev[i + 1..];
      if prev[i].id !in nextIds {
        remove := remove + [prev[i].id];
      }
    }
  }

  method DiffTranscript(prev: seq<Entry>, next: seq<Entry>) returns (frame: Frame)
    ensures frame == Diff(prev, next)
  {
    var prevById := IndexById(prev);
    var remove := CollectRemoved(prev, next);
    var upsert, append := [], [];
    for i := 0 to |next|
      invariant upsert == Upserts(prev, next, i)
      invariant append == Appends(prev, next, i)
    {
      var entry := next[i];
      var after := if i == 0 then None else Some(next[i - 1].id);
      if entry.id in prevById {
        var p := prevById[entry.id];
        var prevAfter := if p == 0 then None else Some(prev[p - 1].id);
        if prev[p] == entry && prevAfter == after {
          continue;
        }
        if prevAfter == after {
          var textAppend := TryTextAppend(prev[p], entry);
          if textAppend.Some? {
            append := append + [textAppend.value];
            continue;
          }
        }
        upsert := upsert + [Upsert(after, entry)];
      } else {
        upsert := upsert + [Upsert(after, entry)];
      }
    }
    if |upsert| * 2 >= Max(|next|, 1) && |next| > 4 {
      return Reset(next);
    }
    return Delta(upsert, append, remove, |next|);
  }

  lemma {:induction false} UpsertErrorSticks(es: seq<Entry>, us: seq<Upsert>, n: nat)
    requires n <= |us| && ApplyUpserts(es, us[..n]).Err?
    ensures ApplyUpserts(es, us) == ApplyUpserts(es, us[..n])
    decreases |us| - n
  {
    if n < |us| {
      assert us[..n + 1][..n] == us[..n];
      UpsertErrorSticks(es, us, n + 1);
    } else {
      assert us[..n] == us;
    }
  }

  lemma {:induction false} AppendErrorSticks(es: seq<Entry>, as_: seq<TextAppend>, n: nat)
    requires n <= |as_| && ApplyAppends(es, as_[..n]).Err?
    ensures ApplyAppends(es, as_) == ApplyAppends(es, as_[..n])
    decreases |as_| - n
  {
    if n < |as_| {
      assert as_[..n + 1][..n] == as_[..n];
      AppendErrorSticks(es, as_, n + 1);
    } else {
      assert as_[..n] == as_;
    }
  }

  /** A viewer's copy of the transcript, edited in place by every frame. */
  class Viewer {
    var current: seq<Entry>

    constructor ()
      ensures current == []
    {
      current := [];
    }

    method FindEntry(id: string) returns (k: nat)
      ensures k == Position(current, id)
    {
      k := 0;
      while k < |current| && current[k].id != id
        invariant k <= |current|
        invariant forall j :: 0 <= j < k ==> current[j].id != id
      {
        k := k + 1;
      }
    }

    method RetainExcept(remove: seq<string>)
      modifies this
      ensures current == Without(old(current), remove)
    {
      var kept := [];
      assert current[0..] == current && [] + Without(current, remove) == Without(current, remove);
      for i := 0 to |current|
        invariant current == old(current)
        invariant kept + Without(current[i..], remove) == Without(current, remove)
      {
        WithoutFrom(current, i, remove);
        ghost var rest := Without(current[i + 1..], remove);
        if current[i].id !in remove {
          assert kept + ([current[i]] + rest) == (kept + [current[i]]) + rest;
          kept := kept + [current[i]];
        }
      }
      assert current[|current|..] == [] && kept + [] == kept;
      current := kept;
    }

    method ApplyUpsertInPlace(u: Upsert) returns (error: Option<Desync>)
      modifies this
      ensures error.None? ==> ApplyUpsert(old(current), u) == Ok(current)
      ensures error.Some? ==> ApplyUpsert(old(current), u) == Err(error.value)
    {
      var existing := FindEntry(u.entry.id);
      if existing < |current| {
        current := current[..existing] + current[existing + 1..];
      }
      var at: nat := 0;
      match u.after {
        case None =>
        case Some(anchor) =>
          var ix := FindEntry(anchor);
          if ix == |current| {
            return Some(MissingAnchor(anchor));
          }
          at := ix + 1;
      }
      current := current[..at] + [u.entry] + current[at..];
      assert u.after.None? ==> current == [u.entry] + Drop(old(current), u.entry.id);
      return None;
    }

    method ApplyAppendInPlace(a: TextAppend) returns (error: Option<Desync>)
      modifies this
      ensures error.None? ==> ApplyAppend(old(current), a) == Ok(current)
      ensures error.Some? ==> ApplyAppend(old(current), a) == Err(error.value)
    {
      var k := FindEntry(a.entry);
      if k == |current| {
        return Some(MissingEntry(a.entry));
      }
      var target := current[k];
      var j: nat := 0;
      while j < |target.parts| && !(target.parts[j].Text? && target.parts[j].id == a.part)
        invariant j <= |target.parts|
        invariant forall i :: 0 <= i < j ==> !(target.parts[i].Text? && target.parts[i].id == a.part)
      {
        j := j + 1;
      }
      assert j == TextIndex(target.parts, a.part);
      if j == |target.parts| {
        return Some(MissingPart(a.part));
      }
      var tail := target.parts[j].text + a.text;
      current := current[k := target.(parts := target.parts[j := Text(target.parts[j].id, tail)])];
      if |tail| != a.len {
        return Some(LengthMismatch(a.entry, a.part, |tail|, a.len));
      }
      return None;
    }

    method ApplyAllUpserts(upsert: seq<Upsert>) returns (error: Option<Desync>)
      modifies this
      ensures error.None? ==> ApplyUpserts(old(current), upsert) == Ok(current)
      ensures error.Some? ==> ApplyUpserts(old(current), upsert) == Err(error.value)
    {
      for i := 0 to |upsert|
        invariant ApplyUpserts(old(current), upsert[..i]) == Ok(current)
      {
        assert upsert[..i + 1][..i] == upsert[..i];
        error := ApplyUpsertInPlace(upsert[i]);
        if error.Some? {
          UpsertErrorSticks(old(current), upsert, i + 1);
          return;
        }
      }
      assert upsert[..|upsert|] == upsert;
      return None;
    }

    method ApplyAllAppends(append: seq<TextAppend>) returns (error: Option<Desync>)
      modifies this
      ensures error.None? ==> ApplyAppends(old(current), append) == Ok(current)
      ensures error.Some? ==> ApplyAppends(old(current), append) == Err(error.value)
    {
      for i := 0 to |append|
        invariant ApplyAppends(old(current), append[..i]) == Ok(current)
      {
        assert append[..i + 1][..i] == append[..i];
        error := ApplyAppendInPlace(append[i]);
        if error.Some? {
          AppendErrorSticks(old(current), append, i + 1);
          return;
        }
      }
      assert append[..|append|] == append;
      return None;
    }

    /** Applies a frame in place. On an error the copy is unreliable and must be reset. */
    method ApplyFrame(frame: Frame) returns (error: Option<Desync>)
      modifies this
      ensures error.None? ==> Apply(old(current), frame) == Ok(current)
      ensures error.Some? ==> Apply(old(current), frame) == Err(error.value)
    {
      match frame
      case Reset(reset) =>
        current := reset;
        return None;
      case Delta(upsert, append, remove, count) =>
        WithoutNone(current);
        if remove != [] {
          RetainExcept(remove);
        }
        error := ApplyAllUpserts(upsert);
        if error.Some? { return; }
        error := ApplyAllAppends(append);
        if error.Some? { return; }
        if |current| != count {
          return Some(CountMismatch(|current|, count));
        }
        return None;
    }
  }

  lemma WithoutFrom(es: seq<Entry>, i: nat, gone: seq<string>)
    requires i < |es|
    ensures Without(es[i..], gone) ==
      if es[i].id in gone then Without(es[i + 1..], gone) else [es[i]] + Without(es[i + 1..], gone)
  {
    assert es[i..][1..] == es[i + 1..];
  }
}
