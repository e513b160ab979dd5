/** Labelled windows, sorted by host name and then by window start. */
module Tables {
  datatype Window = Window(host: string, ts: int, attack: bool)

  /** Lexicographic order of host names, by character. */
  predicate NameLeq(a: string, b: string) {
    a == "" || (b != "" && (a[0] < b[0] || (a[0] == b[0] && NameLeq(a[1..], b[1..]))))
  }

  /** a is b or a beginning of it, or the first character they differ in is the smaller one in a. */
  ghost predicate Lexicographic(a: string, b: string) {
    a <= b || exists k: nat :: FallsAt(a, b, k)
  }

  /** The first place two names differ. */
  ghost predicate FallsAt(a: string, b: string, k: nat) {
    k < |a| && k < |b| && a[..k] == b[..k] && a[k] < b[k]
  }

  lemma TailsFall(c: char, a: string, b: string, k: nat)
    ensures FallsAt([c] + a, [c] + b, k + 1) <==> FallsAt(a, b, k)
  {
    if k < |a| && k < |b| {
      assert ([c] + a)[..k + 1] == [c] + a[..k] && ([c] + b)[..k + 1] == [c] + b[..k];
      assert ([c] + a[..k])[1..] == a[..k] && ([c] + b[..k])[1..] == b[..k];
    }
  }

  lemma SameHead(c: char, a: string, b: string)
    ensures Lexicographic([c] + a, [c] + b) <==> Lexicographic(a, b)
  {
    assert [c] + a <= [c] + b <==> a <= b by {
      assert |a| <= |b| ==> ([c] + b)[..|a| + 1] == [c] + b[..|a|];
      assert ([c] + a)[1..] == a && ([c] + b)[1..] == b;
    }
    if k: nat :| FallsAt(a, b, k) {
      TailsFall(c, a, b, k);
    }
    if k: nat :| FallsAt([c] + a, [c] + b, k) {
      assert k > 0;
      TailsFall(c, a, b, k - 1);
    }
  }

  lemma OtherHead(a: string, b: string)
    requires a != "" && b != "" && a[0] != b[0]
    ensures Lexicographic(a, b) <==> a[0] < b[0]
  {
    assert a[..0] == b[..0] == "";
    assert a[0] < b[0] ==> FallsAt(a, b, 0);
    forall k: nat | k > 0 && k < |a| && k < |b|
      ensures a[..k] != b[..k]
    {
      assert a[..k][0] != b[..k][0];
    }
  }

  lemma {:induction false} NameLeqIff(a: string, b: string)
    ensures NameLeq(a, b) <==> Lexicographic(a, b)
  {
    if a != "" && b != "" {
      if a[0] == b[0] {
        NameLeqIff(a[1..], b[1..]);
        SameHead(a[0], a[1..], b[1..]);
        assert a == [a[0]] + a[1..] && b == [a[0]] + b[1..];
      } else {
        OtherHead(a, b);
      }
    }
  }

  lemma {:induction false} NameTotal(a: string, b: string)
    ensures NameLeq(a, b) || NameLeq(b, a)
    ensures NameLeq(a, b) && NameLeq(b, a) ==> a == b
  {
    if a != "" && b != "" && a[0] == b[0] {
      NameTotal(a[1..], b[1..]);
      assert a == [a[0]] + a[1..] && b == [b[0]] + b[1..];
    }
  }

  lemma {:induction false} NameTransitive(a: string, b: string, c: string)
    requires NameLeq(a, b) && NameLeq(b, c)
    ensures NameLeq(a, c)
  {
    if a != "" && a[0] == b[0] && b[0] == c[0] {
      NameTransitive(a[1..], b[1..], c[1..]);
    }
  }

  predicate RowLeq(x: Window, y: Window) {
    if x.host == y.host then x.ts <= y.ts else NameLeq(x.host, y.host)
  }

  lemma RowTotal(x: Window, y: Window)
    ensures RowLeq(x, y) || RowLeq(y, x)
  {
    NameTotal(x.host, y.host);
  }

  lemma RowTransitive(x: Window, y: Window, z: Window)
    requires RowLeq(x, y) && RowLeq(y, z)
    ensures RowLeq(x, z)
  {
    if x.host == z.host {
      NameTotal(x.host, y.host);
    } else if x.host != y.host && y.host != z.host {
      NameTransitive(x.host, y.host, z.host);
    }
  }

  ghost predicate SortedRows(rows: seq<Window>) {
    forall i, j | 0 <= i < j < |rows| :: RowLeq(rows[i], rows[j])
  }

  /** Stable insertion: in front of the first row that is strictly larger. */
  function InsertRow(rows: seq<Window>, x: Window): seq<Window> {
    if rows == [] || RowLeq(rows[|rows| - 1], x) then rows + [x]
    else InsertRow(rows[..|rows| - 1], x) + [rows[|rows| - 1]]
  }

  function SortRows(rows: seq<Window>): seq<Window> {
    if rows == [] then [] else InsertRow(SortRows(rows[..|rows| - 1]), rows[|rows| - 1])
  }

  lemma {:induction false} InsertKeepsRows(rows: seq<Window>, x: Window)
    ensures multiset(InsertRow(rows, x)) == multiset(rows) + multiset{x}
  {
    if rows != [] && !RowLeq(rows[|rows| - 1], x) {
      InsertKeepsRows(rows[..|rows| - 1], x);
      assert rows == rows[..|rows| - 1] + [rows[|rows| - 1]];
    }
  }

  lemma {:induction false} InsertSorts(rows: seq<Window>, x: Window)
    requires SortedRows(rows)
    ensures SortedRows(InsertRow(rows, x))
  {
    if rows != [] {
      var init, last := rows[..|rows| - 1], rows[|rows| - 1];
      if RowLeq(last, x) {
        forall i | 0 <= i < |rows|
          ensures RowLeq(rows[i], x)
        {
          if i < |rows| - 1 { RowTransitive(rows[i], last, x); }
        }
      } else {
        RowTotal(last, x);
        InsertSorts(init, x);
        InsertKeepsRows(init, x);
        var out := InsertRow(init, x);
        forall i | 0 <= i < |out|
          ensures RowLeq(out[i], last)
        {
          assert out[i] in multiset(out);
        }
      }
    }
  }

  /** Sorting keeps every row and puts each host's rows together, in time order. */
  lemma {:induction false} SortRowsSorts(rows: seq<Window>)
    ensures SortedRows(SortRows(rows))
    ensures multiset(SortRows(rows)) == multiset(rows)
    ensures |SortRows(rows)| == |rows|
  {
    if rows != [] {
      var init, last := rows[..|rows| - 1], rows[|rows| - 1];
      assert rows == init + [last];
      SortRowsSorts(init);
      InsertSorts(SortRows(init), last);
      InsertKeepsRows(SortRows(init), last);
    }
    assert |multiset(SortRows(rows))| == |multiset(rows)|;
  }

  lemma SortRowsMembers(rows: seq<Window>, r: Window)
    ensures r in SortRows(rows) <==> r in rows
  {
    SortRowsSorts(rows);
    assert r in multiset(SortRows(rows)) <==> r in multiset(rows);
  }

  /** Rows of one host stay in time order when host names agree. */
  lemma HostRowsInOrder(rows: seq<Window>, i: nat, j: nat)
    requires SortedRows(rows) && i <= j < |rows| && rows[i].host == rows[j].host
    ensures rows[i].ts <= rows[j].ts
  {
  }
}
