/**
 * The in-memory stand-in for one database table: rows keyed by an
 * auto-increment id, and the `SELECT * ... ORDER BY` queries the list
 * endpoints run over it.
 */
module Tables {
  import opened Wrappers

  datatype Row<R> = Row(id: nat, value: R)

  /**
   * A table maps ids to rows; `next` is the auto-increment counter. Ids start
   * at 1 and are never reused after a delete.
   */
  datatype Table<R> = Table(rows: map<nat, R>, next: nat) {

    predicate Valid() {
      next >= 1 && forall k :: k in rows ==> 1 <= k < next
    }

    /** `INSERT`: the new row gets the next id, which no existing row has. */
    function Insert(r: R): (t: Table<R>)
      ensures Valid() ==> t.Valid() && next !in rows && |t.rows| == |rows| + 1
      ensures t.rows.Keys == rows.Keys + {next} && next in t.rows && t.rows[next] == r
      ensures forall k :: k in rows && k != next ==> t.rows[k] == rows[k]
    {
      Table(rows[next := r], next + 1)
    }

    /** `DELETE ... WHERE id = k`: no other row changes; an absent id changes nothing. */
    function Remove(k: nat): (t: Table<R>)
      ensures Valid() ==> t.Valid()
      ensures t.rows.Keys == rows.Keys - {k} && t.next == next
      ensures forall j :: j in t.rows ==> t.rows[j] == rows[j]
      ensures k !in rows ==> t == this
    {
      Table(map j | j in rows && j != k :: rows[j], next)
    }

    /** `UPDATE ... WHERE id = k` on an existing row: only that row changes. */
    function Put(k: nat, r: R): (t: Table<R>)
      requires k in rows
      ensures Valid() ==> t.Valid()
      ensures t.rows.Keys == rows.Keys && t.next == next && t.rows[k] == r
      ensures forall j :: j in rows && j != k ==> t.rows[j] == rows[j]
    {
      Table(rows[k := r], next)
    }
  }

  function EmptyTable<R>(): (t: Table<R>)
    ensures t.Valid() && t.rows == map[]
  {
    Table(map[], 1)
  }

  /** The rows with ids below `n`, in ascending id order. */
  function RowsBelow<R>(m: map<nat, R>, n: nat): (r: seq<Row<R>>)
    ensures forall i :: 0 <= i < |r| ==> r[i].id < n && r[i].id in m && m[r[i].id] == r[i].value
    ensures forall k :: k < n && k in m ==> Row(k, m[k]) in r
    ensures forall i, j :: 0 <= i < j < |r| ==> r[i].id < r[j].id
  {
    if n == 0 then []
    else
      var below := RowsBelow(m, n - 1);
      if n - 1 in m then below + [Row(n - 1, m[n - 1])] else below
  }

  /** A table's rows in ascending id order: every row exactly once. */
  function RowsOf<R>(t: Table<R>): (r: seq<Row<R>>)
    requires t.Valid()
    ensures forall i :: 0 <= i < |r| ==> r[i].id in t.rows && t.rows[r[i].id] == r[i].value
    ensures forall k :: k in t.rows ==> Row(k, t.rows[k]) in r
    ensures forall i, j :: 0 <= i < j < |r| ==> r[i].id < r[j].id
  {
    RowsBelow(t.rows, t.next)
  }

  /** The value a row is ordered by; SQL NULL orders below every number. */
  datatype SortKey = NullKey | NumKey(n: real)

  datatype Direction = Ascending | Descending

  /** `a` may come before `b` in `ORDER BY ... ASC` (NULLs first) or `DESC` (NULLs last). */
  predicate Before(a: SortKey, b: SortKey, dir: Direction) {
    match dir
    case Ascending => a.NullKey? || (b.NumKey? && a.n <= b.n)
    case Descending => b.NullKey? || (a.NumKey? && a.n >= b.n)
  }

  lemma BeforeTotal(a: SortKey, b: SortKey, dir: Direction)
    ensures Before(a, b, dir) || Before(b, a, dir)
  {
  }

  lemma BeforeTransitive(a: SortKey, b: SortKey, c: SortKey, dir: Direction)
    requires Before(a, b, dir) && Before(b, c, dir)
    ensures Before(a, c, dir)
  {
  }

  ghost predicate Sorted<R>(s: seq<Row<R>>, key: R -> SortKey, dir: Direction) {
    forall i, j :: 0 <= i < j < |s| ==> Before(key(s[i].value), key(s[j].value), dir)
  }

  /** Puts `x` in front of the first row it may precede. */
  function InsertSorted<R(==)>(x: Row<R>, s: seq<Row<R>>, key: R -> SortKey, dir: Direction): (r: seq<Row<R>>)
    requires Sorted(s, key, dir)
    ensures multiset(r) == multiset(s) + multiset{x}
    ensures Sorted(r, key, dir)
  {
    if s == [] then [x]
    else if Before(key(x.value), key(s[0].value), dir) then
      SortedCons(x, s, key, dir);
      [x] + s
    else
      var rest := InsertSorted(x, s[1..], key, dir);
      assert s == [s[0]] + s[1..];
      HeadPrecedesInsert(x, s, rest, key, dir);
      SortedCons(s[0], rest, key, dir);
      [s[0]] + rest
  }

  lemma HeadPrecedesInsert<R>(x: Row<R>, s: seq<Row<R>>, rest: seq<Row<R>>, key: R -> SortKey, dir: Direction)
    requires s != [] && Sorted(s, key, dir) && !Before(key(x.value), key(s[0].value), dir)
    requires multiset(rest) == multiset(s[1..]) + multiset{x}
    ensures forall i :: 0 <= i < |rest| ==> Before(key(s[0].value), key(rest[i].value), dir)
  {
    BeforeTotal(key(x.value), key(s[0].value), dir);
    forall i | 0 <= i < |rest| ensures Before(key(s[0].value), key(rest[i].value), dir) {
      assert rest[i] in multiset(rest);
      if rest[i] != x {
        assert rest[i] in multiset(s[1..]);
        var j :| 0 <= j < |s[1..]| && s[1..][j] == rest[i];
        assert s[j + 1] == rest[i];
      }
    }
  }

  lemma SortedCons<R>(h: Row<R>, t: seq<Row<R>>, key: R -> SortKey, dir: Direction)
    requires Sorted(t, key, dir)
    requires forall i :: 0 <= i < |t| ==> Before(key(h.value), key(t[i].value), dir)
    ensures Sorted([h] + t, key, dir)
  {
    var r := [h] + t;
    forall i, j | 0 <= i < j < |r| ensures Before(key(r[i].value), key(r[j].value), dir) {
      if i > 0 {
        assert r[i] == t[i - 1] && r[j] == t[j - 1];
      } else {
        assert r[j] == t[j - 1];
      }
    }
  }

  /** `ORDER BY`: a permutation of `xs` in which every row may precede the rows after it. */
  function SortBy<R(==)>(xs: seq<Row<R>>, key: R -> SortKey, dir: Direction): (r: seq<Row<R>>)
    ensures multiset(r) == multiset(xs)
    ensures Sorted(r, key, dir)
  {
    if xs == [] then []
    else
      assert xs == [xs[0]] + xs[1..];
      InsertSorted(xs[0], SortBy(xs[1..], key, dir), key, dir)
  }

  /** `WHERE`: the rows of `xs` whose value satisfies `p`, in their order. */
  function Where<R>(xs: seq<Row<R>>, p: R -> bool): (r: seq<Row<R>>)
    ensures forall i :: 0 <= i < |r| ==> r[i] in xs && p(r[i].value)
    ensures forall i :: 0 <= i < |xs| && p(xs[i].value) ==> xs[i] in r
  {
    if xs == [] then []
    else (if p(xs[0].value) then [xs[0]] else []) + Where(xs[1..], p)
  }

  /** `SELECT * ... WHERE p ORDER BY ...`: the rows of `t` satisfying `p`, each once, in order. */
  function SelectWhere<R(==)>(t: Table<R>, p: R -> bool, key: R -> SortKey, dir: Direction): (r: seq<Row<R>>)
    requires t.Valid()
    ensures forall i :: 0 <= i < |r| ==> r[i].id in t.rows && t.rows[r[i].id] == r[i].value && p(r[i].value)
    ensures forall k :: k in t.rows && p(t.rows[k]) ==> Row(k, t.rows[k]) in r
    ensures forall i, j :: 0 <= i < j < |r| ==> r[i].id != r[j].id
    ensures Sorted(r, key, dir)
  {
    var tagged := Where(RowsOf(t), p);
    var r := SortBy(tagged, key, dir);
    SelectWhereRows(t, p, tagged, r);
    SelectWhereOnce(t, p, tagged, r);
    r
  }

  /** No row is selected twice: the filtered rows are distinct, and sorting only permutes them. */
  lemma SelectWhereOnce<R>(t: Table<R>, p: R -> bool, tagged: seq<Row<R>>, r: seq<Row<R>>)
    requires t.Valid() && tagged == Where(RowsOf(t), p) && multiset(r) == multiset(tagged)
    requires forall i :: 0 <= i < |r| ==> r[i].id in t.rows && t.rows[r[i].id] == r[i].value
    ensures forall i, j :: 0 <= i < j < |r| ==> r[i].id != r[j].id
  {
    WhereIncreasing(RowsOf(t), p);
    forall i, j | 0 <= i < j < |r| ensures r[i].id != r[j].id {
      CountAtMostOne(tagged, r[i]);
      CountedOnceApart(r, i, j);
    }
  }

  predicate IdsIncreasing<R>(s: seq<Row<R>>) {
    forall i, j :: 0 <= i < j < |s| ==> s[i].id < s[j].id
  }

  /** Filtering keeps the rows in their order, so strictly increasing ids stay strictly increasing. */
  lemma {:induction false} WhereIncreasing<R>(xs: seq<Row<R>>, p: R -> bool)
    requires IdsIncreasing(xs)
    ensures IdsIncreasing(Where(xs, p))
  {
    if xs != [] {
      var rest := Where(xs[1..], p);
      WhereIncreasing(xs[1..], p);
      WhereAbove(xs[1..], p, xs[0].id);
      if p(xs[0].value) {
        IncreasingCons(xs[0], rest);
        assert Where(xs, p) == [xs[0]] + rest;
      } else {
        assert Where(xs, p) == rest;
      }
    }
  }

  /** Filtering rows whose ids all exceed `b` keeps only such rows. */
  lemma WhereAbove<R>(xs: seq<Row<R>>, p: R -> bool, b: nat)
    requires forall i :: 0 <= i < |xs| ==> b < xs[i].id
    ensures forall i :: 0 <= i < |Where(xs, p)| ==> b < Where(xs, p)[i].id
  {
    var r := Where(xs, p);
    forall i | 0 <= i < |r| ensures b < r[i].id {
      var m :| 0 <= m < |xs| && xs[m] == r[i];
    }
  }

  lemma IncreasingCons<R>(h: Row<R>, t: seq<Row<R>>)
    requires IdsIncreasing(t) && forall i :: 0 <= i < |t| ==> h.id < t[i].id
    ensures IdsIncreasing([h] + t)
  {
    var s := [h] + t;
    forall i, j | 0 <= i < j < |s| ensures s[i].id < s[j].id {
      assert s[j] == t[j - 1];
      if i > 0 {
        assert s[i] == t[i - 1];
      }
    }
  }

  /** A row of a sequence with strictly increasing ids occurs in it at most once. */
  lemma {:induction false} CountAtMostOne<R>(s: seq<Row<R>>, x: Row<R>)
    requires IdsIncreasing(s)
    ensures multiset(s)[x] <= 1
  {
    if s != [] {
      CountAtMostOne(s[1..], x);
      assert s == [s[0]] + s[1..];
      if s[0] == x {
        forall m | 0 <= m < |s[1..]| ensures s[1..][m] != x {
          assert s[1..][m] == s[m + 1];
        }
        assert x !in s[1..];
      }
    }
  }

  /** Two positions of a sequence whose element at `i` occurs at most once hold different elements. */
  lemma CountedOnceApart<T>(s: seq<T>, i: nat, j: nat)
    requires i < j < |s| && multiset(s)[s[i]] <= 1
    ensures s[i] != s[j]
  {
    var a, b := s[..j], s[j..];
    assert s == a + b;
    assert s[i] == a[i];
    assert multiset(a)[s[i]] >= 1;
    assert multiset(b)[s[i]] == 0;
    assert b[0] == s[j];
  }

  lemma SelectWhereRows<R>(t: Table<R>, p: R -> bool, tagged: seq<Row<R>>, r: seq<Row<R>>)
    requires t.Valid() && tagged == Where(RowsOf(t), p) && multiset(r) == multiset(tagged)
    ensures forall i :: 0 <= i < |r| ==> r[i].id in t.rows && t.rows[r[i].id] == r[i].value && p(r[i].value)
    ensures forall k :: k in t.rows && p(t.rows[k]) ==> Row(k, t.rows[k]) in r
  {
    forall i | 0 <= i < |r|
      ensures r[i].id in t.rows && t.rows[r[i].id] == r[i].value && p(r[i].value)
    {
      assert r[i] in multiset(r);
      assert r[i] in multiset(tagged);
      SelectedRow(t, p, tagged, r[i]);
    }
    forall k | k in t.rows && p(t.rows[k]) ensures Row(k, t.rows[k]) in r {
      KeptRow(t, p, tagged, k);
      assert Row(k, t.rows[k]) in multiset(r);
    }
  }

  lemma SelectedRow<R>(t: Table<R>, p: R -> bool, tagged: seq<Row<R>>, x: Row<R>)
    requires t.Valid() && tagged == Where(RowsOf(t), p) && x in tagged
    ensures x.id in t.rows && t.rows[x.id] == x.value && p(x.value)
  {
    var all := RowsOf(t);
    var j :| 0 <= j < |tagged| && tagged[j] == x;
    assert x in all;
    var m :| 0 <= m < |all| && all[m] == x;
  }

  lemma KeptRow<R>(t: Table<R>, p: R -> bool, tagged: seq<Row<R>>, k: nat)
    requires t.Valid() && tagged == Where(RowsOf(t), p) && k in t.rows && p(t.rows[k])
    ensures Row(k, t.rows[k]) in multiset(tagged)
  {
    var all := RowsOf(t);
    var i :| 0 <= i < |all| && all[i] == Row(k, t.rows[k]);
    assert all[i] in tagged;
  }

  /**
   * Every row whose stored path names a file (`file` maps a row to the file
   * its path names, if any) names one in `disk`.
   */
  ghost predicate FilesOn<R>(t: Table<R>, file: R -> Option<string>, disk: set<string>) {
    forall k :: k in t.rows && file(t.rows[k]).Some? ==> file(t.rows[k]).value in disk
  }

  /** Some row of `t` names the file `f`. */
  ghost predicate RefersTo<R>(t: Table<R>, file: R -> Option<string>, f: string) {
    exists k :: k in t.rows && file(t.rows[k]) == Some(f)
  }

  /** Every row of `a` is a row of `b`, under the same id. */
  ghost predicate SubTable<R>(a: Table<R>, b: Table<R>) {
    forall k :: k in a.rows ==> k in b.rows && a.rows[k] == b.rows[k]
  }

  lemma FilesOnGrow<R>(t: Table<R>, file: R -> Option<string>, disk: set<string>, more: set<string>)
    requires disk <= more
    ensures FilesOn(t, file, disk) ==> FilesOn(t, file, more)
  {
  }

  lemma FilesOnInsert<R>(t: Table<R>, file: R -> Option<string>, disk: set<string>, r: R)
    requires t.Valid() && FilesOn(t, file, disk) && (file(r).Some? ==> file(r).value in disk)
    ensures FilesOn(t.Insert(r), file, disk)
  {
    var u := t.Insert(r);
    forall k | k in u.rows && file(u.rows[k]).Some? ensures file(u.rows[k]).value in disk {
      if k != t.next {
        assert u.rows[k] == t.rows[k];
      }
    }
  }

  lemma FilesOnPut<R>(t: Table<R>, file: R -> Option<string>, disk: set<string>, k: nat, r: R)
    requires k in t.rows && FilesOn(t, file, disk) && (file(r).Some? ==> file(r).value in disk)
    ensures FilesOn(t.Put(k, r), file, disk)
  {
    var u := t.Put(k, r);
    forall j | j in u.rows && file(u.rows[j]).Some? ensures file(u.rows[j]).value in disk {
      if j != k {
        assert u.rows[j] == t.rows[j];
      }
    }
  }

  lemma SubTableRemove<R>(t: Table<R>, k: nat)
    ensures SubTable(t.Remove(k), t)
  {
  }

  /**
   * Rows taken from a table whose files were all on `disk` still have their
   * files on a smaller disk exactly when none of them names a removed file.
   */
  lemma FilesOnShrink<R>(a: Table<R>, b: Table<R>, file: R -> Option<string>, less: set<string>, disk: set<string>)
    requires SubTable(a, b) && FilesOn(b, file, disk) && less <= disk
    ensures FilesOn(a, file, less) <==> forall f :: f in disk && f !in less ==> !RefersTo(a, file, f)
  {
    if forall f :: f in disk && f !in less ==> !RefersTo(a, file, f) {
      forall k | k in a.rows && file(a.rows[k]).Some? ensures file(a.rows[k]).value in less {
        var f := file(a.rows[k]).value;
        assert f in disk;
        assert RefersTo(a, file, f);
      }
    }
  }

  /** What a list endpoint promises: every row of `t` exactly once, in the endpoint's order. */
  ghost predicate IsListing<R>(t: Table<R>, r: seq<Row<R>>, key: R -> SortKey, dir: Direction)
    requires t.Valid()
  {
    multiset(r) == multiset(RowsOf(t)) && Sorted(r, key, dir)
  }

  /** A listing holds exactly the rows of the table. */
  lemma ListingRows<R>(t: Table<R>, r: seq<Row<R>>, key: R -> SortKey, dir: Direction)
    requires t.Valid() && IsListing(t, r, key, dir)
    ensures forall i :: 0 <= i < |r| ==> r[i].id in t.rows && t.rows[r[i].id] == r[i].value
    ensures forall k :: k in t.rows ==> Row(k, t.rows[k]) in r
    ensures |r| == |t.rows|
  {
    var s := RowsOf(t);
    forall i | 0 <= i < |r| ensures r[i] in s {
      assert r[i] in multiset(r);
    }
    forall k | k in t.rows ensures Row(k, t.rows[k]) in r {
      assert Row(k, t.rows[k]) in multiset(s);
    }
    assert |r| == |multiset(r)| == |multiset(s)| == |s|;
    RowsOfSize(t);
  }

  lemma RowsOfSize<R>(t: Table<R>)
    requires t.Valid()
    ensures |RowsOf(t)| == |t.rows|
  {
    RowsBelowSize(t.rows, t.next);
    assert KeysBelow(t.rows, t.next) == t.rows.Keys;
  }

  /** The ids of `m` below `n`. */
  function KeysBelow<R>(m: map<nat, R>, n: nat): (r: set<nat>)
    ensures forall k :: k in r <==> k in m && k < n
  {
    if n == 0 then {} else KeysBelow(m, n - 1) + (if n - 1 in m then {n - 1} else {})
  }

  /** The rows below `n` are as many as the ids below `n`. */
  lemma {:induction false} RowsBelowSize<R>(m: map<nat, R>, n: nat)
    ensures |RowsBelow(m, n)| == |KeysBelow(m, n)|
  {
    if n > 0 {
      RowsBelowSize(m, n - 1);
      var below := KeysBelow(m, n - 1);
      if n - 1 in m {
        assert |RowsBelow(m, n)| == |RowsBelow(m, n - 1)| + 1;
        assert KeysBelow(m, n) == below + {n - 1} && n - 1 !in below;
      } else {
        assert RowsBelow(m, n) == RowsBelow(m, n - 1) && KeysBelow(m, n) == below;
      }
    }
  }

}
