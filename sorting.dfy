/**
 * `df.sort_values(keys)` with the default `na_position="last"`, over several
 * key columns (a stable lexicographic sort). Cells of one column are compared
 * by a total order: numbers by value, text lexicographically, booleans with
 * False first, and NaN after everything else.
 */
module Sorting {
  import opened Frames

  /** Lexicographic order on strings (Python's `<=` on `str`). */
  predicate StrLe(s: string, t: string)
  {
    s == [] || (t != [] && (s[0] < t[0] || (s[0] == t[0] && StrLe(s[1..], t[1..]))))
  }

  function KindRank(c: Cell): nat
  {
    match c
    case Num(_) => 0
    case Text(_) => 1
    case Flag(_) => 2
    case Missing => 3
  }

  predicate CellLe(a: Cell, b: Cell)
  {
    KindRank(a) < KindRank(b)
    || (KindRank(a) == KindRank(b) &&
        match a
        case Num(x) => x <= b.x
        case Text(s) => StrLe(s, b.s)
        case Flag(p) => !p || b.b
        case Missing => true)
  }

  /** Lexicographic order on sort keys: the first differing cell decides. */
  predicate KeyLe(a: seq<Cell>, b: seq<Cell>)
    requires |a| == |b|
  {
    a == [] || (a[0] != b[0] && CellLe(a[0], b[0])) || (a[0] == b[0] && KeyLe(a[1..], b[1..]))
  }

  lemma {:induction false} StrLeTotal(s: string, t: string)
    ensures StrLe(s, t) || StrLe(t, s)
  {
    if s != [] && t != [] && s[0] == t[0] {
      StrLeTotal(s[1..], t[1..]);
    }
  }

  lemma {:induction false} StrLeAntisymmetric(s: string, t: string)
    requires StrLe(s, t) && StrLe(t, s)
    ensures s == t
  {
    if s != [] {
      StrLeAntisymmetric(s[1..], t[1..]);
    }
  }

  lemma {:induction false} StrLeTransitive(s: string, t: string, u: string)
    requires StrLe(s, t) && StrLe(t, u)
    ensures StrLe(s, u)
  {
    if s != [] && t != [] && u != [] && s[0] == t[0] && t[0] == u[0] {
      StrLeTransitive(s[1..], t[1..], u[1..]);
    }
  }

  lemma CellLeTotal(a: Cell, b: Cell)
    ensures CellLe(a, b) || CellLe(b, a)
  {
    if a.Text? && b.Text? {
      StrLeTotal(a.s, b.s);
    }
  }

  lemma CellLeAntisymmetric(a: Cell, b: Cell)
    requires CellLe(a, b) && CellLe(b, a)
    ensures a == b
  {
    if a.Text? && b.Text? {
      StrLeAntisymmetric(a.s, b.s);
    }
  }

  lemma CellLeTransitive(a: Cell, b: Cell, c: Cell)
    requires CellLe(a, b) && CellLe(b, c)
    ensures CellLe(a, c)
  {
    if a.Text? && b.Text? && c.Text? {
      StrLeTransitive(a.s, b.s, c.s);
    }
  }

  lemma {:induction false} KeyLeTotal(a: seq<Cell>, b: seq<Cell>)
    requires |a| == |b|
    ensures KeyLe(a, b) || KeyLe(b, a)
  {
    if a != [] {
      if a[0] == b[0] {
        KeyLeTotal(a[1..], b[1..]);
      } else {
        CellLeTotal(a[0], b[0]);
      }
    }
  }

  lemma {:induction false} KeyLeTransitive(a: seq<Cell>, b: seq<Cell>, c: seq<Cell>)
    requires |a| == |b| == |c|
    requires KeyLe(a, b) && KeyLe(b, c)
    ensures KeyLe(a, c)
  {
    if a != [] {
      if a[0] == b[0] && b[0] == c[0] {
        KeyLeTransitive(a[1..], b[1..], c[1..]);
      } else if a[0] != b[0] && b[0] != c[0] {
        CellLeTransitive(a[0], b[0], c[0]);
        if a[0] == c[0] {
          CellLeAntisymmetric(a[0], b[0]);
        }
      }
    }
  }

  predicate RowLe(r: Row, t: Row, ks: seq<string>)
  {
    KeyLe(RowCells(r, ks), RowCells(t, ks))
  }

  predicate Sorted(rows: seq<Row>, ks: seq<string>)
  {
    forall i, j :: 0 <= i < j < |rows| ==> RowLe(rows[i], rows[j], ks)
  }

  /** Places `r` after every row of `sorted` whose key is not greater, keeping ties in input order. */
  function Insert(sorted: seq<Row>, r: Row, ks: seq<string>): (s: seq<Row>)
    ensures multiset(s) == multiset(sorted) + multiset{r}
    ensures |s| == |sorted| + 1
  {
    if sorted == [] || RowLe(sorted[|sorted| - 1], r, ks) then sorted + [r]
    else
      var init := sorted[..|sorted| - 1];
      assert sorted == init + [sorted[|sorted| - 1]];
      Insert(init, r, ks) + [sorted[|sorted| - 1]]
  }

  /** The rows in sorted order; equal keys keep their input order. */
  function SortRows(rows: seq<Row>, ks: seq<string>): (s: seq<Row>)
    ensures multiset(s) == multiset(rows)
    ensures |s| == |rows|
  {
    if rows == [] then []
    else
      var init := rows[..|rows| - 1];
      assert rows == init + [rows[|rows| - 1]];
      Insert(SortRows(init, ks), rows[|rows| - 1], ks)
  }

  lemma {:induction false} InsertSorted(sorted: seq<Row>, r: Row, ks: seq<string>)
    requires Sorted(sorted, ks)
    ensures Sorted(Insert(sorted, r, ks), ks)
  {
    if sorted == [] {
    } else if RowLe(sorted[|sorted| - 1], r, ks) {
      var last := sorted[|sorted| - 1];
      forall i | 0 <= i < |sorted| - 1
        ensures RowLe(sorted[i], r, ks)
      {
        KeyLeTransitive(RowCells(sorted[i], ks), RowCells(last, ks), RowCells(r, ks));
      }
    } else {
      var last := sorted[|sorted| - 1];
      var init := sorted[..|sorted| - 1];
      InsertSorted(init, r, ks);
      KeyLeTotal(RowCells(last, ks), RowCells(r, ks));
      var s := Insert(init, r, ks);
      forall i | 0 <= i < |s|
        ensures RowLe(s[i], last, ks)
      {
        assert s[i] in multiset(s);
        if s[i] != r {
          assert s[i] in multiset(init);
          var j :| 0 <= j < |init| && init[j] == s[i];
        }
      }
    }
  }

  lemma {:induction false} SortRowsSorted(rows: seq<Row>, ks: seq<string>)
    ensures Sorted(SortRows(rows, ks), ks)
  {
    if rows != [] {
      SortRowsSorted(rows[..|rows| - 1], ks);
      InsertSorted(SortRows(rows[..|rows| - 1], ks), rows[|rows| - 1], ks);
    }
  }
}
