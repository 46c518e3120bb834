/** Vocabulary shared by every component: optional values, results, bytes and decimal ids. */
module Common {

  datatype Option<+T> = None | Some(value: T)

  datatype Result<+T, +E> = Ok(value: T) | Err(error: E)

  type byte = x: int | 0 <= x < 256

  /** A UTF-8 string as the source measures and slices it: by bytes. */
  type Bytes = seq<byte>

  function Digit(d: nat): (c: char)
    requires d < 10
  {
    ['0', '1', '2', '3', '4', '5', '6', '7', '8', '9'][d]
  }

  /** Decimal rendering of a counter, as used inside generated ids. */
  function Decimal(n: nat): (s: string)
    ensures |s| > 0
  {
    if n < 10 then [Digit(n)] else Decimal(n / 10) + [Digit(n % 10)]
  }

  lemma {:induction false} DecimalInjective(m: nat, n: nat)
    requires Decimal(m) == Decimal(n)
    ensures m == n
  {
    var s, t := Decimal(m), Decimal(n);
    assert s[|s| - 1] == t[|t| - 1];
    if m >= 10 && n >= 10 {
      assert s[..|s| - 1] == Decimal(m / 10);
      assert t[..|t| - 1] == Decimal(n / 10);
      DecimalInjective(m / 10, n / 10);
    }
  }

  // ----- sequences of sequences -----

  /** All rows, one behind the other. */
  function Concat(rows: seq<Bytes>): Bytes {
    if rows == [] then [] else Concat(rows[..|rows| - 1]) + rows[|rows| - 1]
  }

  lemma ConcatSnoc(rows: seq<Bytes>, row: Bytes)
    ensures Concat(rows + [row]) == Concat(rows) + row
  {
    assert (rows + [row])[..|rows|] == rows;
  }

  lemma {:induction false} ConcatCons(row: Bytes, rows: seq<Bytes>)
    ensures Concat([row] + rows) == row + Concat(rows)
  {
    if rows == [] {
      assert [row] + rows == [row] && [row][..0] == [];
    } else {
      var front, last := rows[..|rows| - 1], rows[|rows| - 1];
      ConcatCons(row, front);
      assert [row] + rows == ([row] + front) + [last];
      ConcatSnoc([row] + front, last);
      Reassociated(row, Concat(front), last);
    }
  }

  lemma {:induction false} PrefixFits(rows: seq<Bytes>, i: nat)
    requires i <= |rows|
    ensures |Concat(rows[..i])| <= |Concat(rows)|
    decreases |rows| - i
  {
    if i < |rows| {
      assert rows[..i + 1][..i] == rows[..i];
      PrefixFits(rows, i + 1);
    } else {
      assert rows[..i] == rows;
    }
  }

  lemma Reassociated<T>(a: seq<T>, b: seq<T>, c: seq<T>)
    ensures a + (b + c) == (a + b) + c
  {
  }

  // ----- the order of strings -----

  /** Strictly before, character by character; for UTF-8 this is also the order of the bytes. */
  predicate Below(a: string, b: string) {
    b != [] && (a == [] || a[0] < b[0] || (a[0] == b[0] && Below(a[1..], b[1..])))
  }

  lemma {:induction false} BelowIsTotal(a: string, b: string)
    ensures Below(a, b) || a == b || Below(b, a)
    ensures !(Below(a, b) && Below(b, a)) && !Below(a, a)
  {
    if a != [] { BelowIsTotal(a[1..], a[1..]); }
    if a != [] && b != [] && a[0] == b[0] {
      BelowIsTotal(a[1..], b[1..]);
      assert a == [a[0]] + a[1..] && b == [b[0]] + b[1..];
    }
  }

  lemma {:induction false} BelowIsTransitive(a: string, b: string, c: string)
    requires Below(a, b) && Below(b, c)
    ensures Below(a, c)
  {
    if a != [] && a[0] == b[0] == c[0] { BelowIsTransitive(a[1..], b[1..], c[1..]); }
  }

  /** The first of some strings. */
  method First(names: set<string>) returns (first: string)
    requires names != {}
    ensures first in names && forall n :: n in names && n != first ==> Below(first, n)
  {
    first :| first in names;
    var rest := names - {first};
    while rest != {}
      invariant rest <= names && first in names
      invariant forall n :: n in names - rest && n != first ==> Below(first, n)
      decreases |rest|
    {
      var n :| n in rest;
      BelowIsTotal(n, first);
      if Below(n, first) {
        forall m | m in names - rest && m != first ensures Below(n, m) {
          BelowIsTransitive(n, first, m);
        }
        first := n;
      }
      rest := rest - {n};
    }
  }

  /** The strings in order, each once. */
  method Sort(names: set<string>) returns (sorted: seq<string>)
    ensures forall n :: n in sorted <==> n in names
    ensures forall i, j :: 0 <= i < j < |sorted| ==> Below(sorted[i], sorted[j])
  {
    sorted := [];
    var rest := names;
    while rest != {}
      invariant rest <= names
      invariant forall n :: n in names <==> n in rest || n in sorted
      invariant forall i, j :: 0 <= i < j < |sorted| ==> Below(sorted[i], sorted[j])
      invariant forall n, m :: n in sorted && m in rest ==> Below(n, m)
      decreases |rest|
    {
      var first := First(rest);
      forall m | m in rest - {first} ensures m != first {
      }
      sorted := sorted + [first];
      rest := rest - {first};
    }
  }
}
