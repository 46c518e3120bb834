/** Named blobs stored as ordered chunk rows (edge/src/blobs.ts). */
module Blobs {
  import opened Common

  const CHUNK_BYTES: nat := 1_500_000

  /** Rows are full except the last; only the empty blob has an empty row. */
  ghost predicate WellChunked(rows: seq<Bytes>) {
    && rows != []
    && (forall i :: 0 <= i < |rows| - 1 ==> |rows[i]| == CHUNK_BYTES)
    && |rows[|rows| - 1]| <= CHUNK_BYTES
    && (|rows[|rows| - 1]| == 0 ==> |rows| == 1)
  }

  lemma {:induction false} FullRows(rows: seq<Bytes>)
    requires forall i :: 0 <= i < |rows| ==> |rows[i]| == CHUNK_BYTES
    ensures |Concat(rows)| == |rows| * CHUNK_BYTES
  {
    if rows != [] { FullRows(rows[..|rows| - 1]); }
  }

  lemma ChunkedSize(rows: seq<Bytes>)
    requires WellChunked(rows)
    ensures |Concat(rows)| == (|rows| - 1) * CHUNK_BYTES + |rows[|rows| - 1]|
  {
    FullRows(rows[..|rows| - 1]);
  }

  /** A blob has exactly one chunking: the rows a reader finds determine nothing but the bytes. */
  lemma {:induction false} ChunkingIsUnique(a: seq<Bytes>, b: seq<Bytes>)
    requires WellChunked(a) && WellChunked(b) && Concat(a) == Concat(b)
    ensures a == b
    decreases |a|
  {
    ChunkedSize(a);
    ChunkedSize(b);
    var la, lb := a[|a| - 1], b[|b| - 1];
    assert |a| == |b| && |la| == |lb|;
    var n := |a| - 1;
    var s := Concat(a);
    assert s[|s| - |la|..] == la && s[|s| - |la|..] == lb;
    assert s[..|s| - |la|] == Concat(a[..n]) && s[..|s| - |la|] == Concat(b[..n]);
    if n > 0 {
      ChunkingIsUnique(a[..n], b[..n]);
      assert a == a[..n] + [la] && b == b[..n] + [lb];
    }
  }

  class BlobStore {
    /** Chunk rows by name, in index order; an absent name has no rows. */
    var table: map<string, seq<Bytes>>

    constructor ()
      ensures table == map[]
    {
      table := map[];
    }

    method Put(name: string, bytes: Bytes)
      modifies this
      ensures name in table && WellChunked(table[name]) && Concat(table[name]) == bytes
      ensures table == old(table)[name := table[name]]
    {
      table := table - {name};
      var i := 0;
      var rows: seq<Bytes> := [];
      while i == 0 || i < |bytes|
        invariant i == |rows| * CHUNK_BYTES
        invariant |rows| > 1 ==> i - CHUNK_BYTES < |bytes|
        invariant rows == [] ==> table == old(table) - {name}
        invariant rows != [] ==> table == old(table)[name := rows] && WellChunked(rows)
        invariant i < |bytes| ==> forall j :: 0 <= j < |rows| ==> |rows[j]| == CHUNK_BYTES
        invariant Concat(rows) == if i < |bytes| then bytes[..i] else if i == 0 then [] else bytes
        decreases |bytes| + CHUNK_BYTES - i
      {
        var end := if i + CHUNK_BYTES < |bytes| then i + CHUNK_BYTES else |bytes|;
        var chunk := bytes[i..end];
        ConcatSnoc(rows, chunk);
        rows := rows + [chunk];
        table := table[name := rows];
        i := i + CHUNK_BYTES;
      }
    }

    method Get(name: string) returns (bytes: Option<Bytes>)
      ensures bytes == if name in table && table[name] != [] then Some(Concat(table[name])) else None
    {
      if name !in table || table[name] == [] {
        return None;
      }
      var rows := table[name];
      var total := 0;
      for i := 0 to |rows|
        invariant total == |Concat(rows[..i])|
      {
        assert rows[..i + 1][..i] == rows[..i];
        total := total + |rows[i]|;
      }
      assert rows[..|rows|] == rows;
      var out := new byte[total];
      var off := 0;
      for i := 0 to |rows|
        invariant off == |Concat(rows[..i])| <= out.Length && out[..off] == Concat(rows[..i])
      {
        assert rows[..i + 1][..i] == rows[..i];
        PrefixFits(rows, i + 1);
        forall j | 0 <= j < |rows[i]| {
          out[off + j] := rows[i][j];
        }
        assert out[..off + |rows[i]|] == out[..off] + rows[i];
        off := off + |rows[i]|;
      }
      assert out[..] == out[..off];
      bytes := Some(out[..]);
    }

    method Delete(name: string)
      modifies this
      ensures table == old(table) - {name}
    {
      table := table - {name};
    }
  }

  /** What is put is what is read back, including the empty blob; other names are untouched; a
      deleted blob is gone. */
  method PutThenGet(store: BlobStore, name: string, other: string, bytes: Bytes)
    returns (back: Option<Bytes>, unrelated: Option<Bytes>, gone: Option<Bytes>)
    requires name != other
    modifies store
    ensures back == Some(bytes)
    ensures other in old(store.table) && old(store.table)[other] != [] ==>
      unrelated == Some(Concat(old(store.table)[other]))
    ensures gone == None
  {
    store.Put(name, bytes);
    back := store.Get(name);
    unrelated := store.Get(other);
    store.Delete(name);
    gone := store.Get(name);
  }
}
