/** A relational table with a serial primary key: rows keyed by id and the
    next value of the id sequence. A query without ORDER BY, or ordered by
    creation time, returns its rows in key order, which is insertion order. */
module Tables {
  import opened Common

  datatype Table<T> = Table(rows: map<int, T>, next: int) {

    /** Every key was drawn from the sequence, which starts at 1. */
    ghost predicate Valid() {
      1 <= next && forall k :: k in rows ==> 1 <= k < next
    }

    function Get(k: int): (r: Option<T>)
      ensures r.Some? <==> k in rows
      ensures r.Some? ==> r.value == rows[k]
    {
      if k in rows then Some(rows[k]) else None
    }

    /** INSERT: the row gets the next serial key. */
    function Insert(row: T): (t: Table<T>)
      requires Valid()
      ensures t.Valid() && next !in rows
      ensures t.rows == rows[next := row] && t.next == next + 1
    {
      Table(rows[next := row], next + 1)
    }

    /** UPDATE of the row with key `k`. */
    function Put(k: int, row: T): (t: Table<T>)
      requires Valid() && k in rows
      ensures t.Valid() && t.rows.Keys == rows.Keys && t.rows[k] == row
      ensures forall j :: j in rows && j != k ==> t.rows[j] == rows[j]
    {
      Table(rows[k := row], next)
    }

    /** DELETE of the rows whose key is in `ks`. */
    function Remove(ks: set<int>): (t: Table<T>)
      requires Valid()
      ensures t.Valid() && t.rows.Keys == rows.Keys - ks
      ensures forall j :: j in t.rows ==> t.rows[j] == rows[j]
    {
      Table(rows - ks, next)
    }
  }

  /** `t2` is `t` with `rows` inserted at consecutive keys from `t.next`,
      every earlier row kept. */
  ghost predicate Appended<T>(t: Table<T>, rows: seq<T>, t2: Table<T>) {
    && t2.Valid() && t2.next == t.next + |rows|
    && (forall k :: k in t2.rows <==> k in t.rows || t.next <= k < t.next + |rows|)
    && (forall k :: k in t.rows ==> t2.rows[k] == t.rows[k])
    && (forall i :: 0 <= i < |rows| ==> t2.rows[t.next + i] == rows[i])
  }

  /** Inserting `row` and then a block of rows is inserting the block
      `[row] + rest`. */
  lemma InsertBlockCons<T>(t: Table<T>, row: T, rest: seq<T>, t2: Table<T>)
    requires t.Valid() && Appended(t.Insert(row), rest, t2)
    ensures Appended(t, [row] + rest, t2)
  {
    var t1 := t.Insert(row);
    forall i | 0 <= i < |[row] + rest| ensures t2.rows[t.next + i] == ([row] + rest)[i] {
      if i > 0 {
        assert t2.rows[t1.next + (i - 1)] == rest[i - 1];
      }
    }
  }

  function Empty<T>(): (t: Table<T>)
    ensures t.Valid() && t.rows == map[]
  {
    Table(map[], 1)
  }

  /** The rows with key in [from, next) that satisfy `p`, in key order. */
  function SelectFrom<T>(t: Table<T>, p: T -> bool, from: int): seq<T>
    decreases t.next - from
  {
    if from >= t.next then []
    else (if from in t.rows && p(t.rows[from]) then [t.rows[from]] else []) + SelectFrom(t, p, from + 1)
  }

  /** `SELECT ... WHERE p`, in key order. */
  function Select<T>(t: Table<T>, p: T -> bool): seq<T> {
    SelectFrom(t, p, 1)
  }

  /** The keys SelectFrom visits and keeps. */
  ghost function KeysFrom<T>(t: Table<T>, p: T -> bool, from: int): set<int> {
    set k | k in t.rows && from <= k < t.next && p(t.rows[k])
  }

  lemma {:induction false} SelectFromMember<T>(t: Table<T>, p: T -> bool, from: int, x: T)
    ensures x in SelectFrom(t, p, from) <==>
            exists k :: k in t.rows && from <= k < t.next && t.rows[k] == x && p(x)
    decreases t.next - from
  {
    if from < t.next {
      SelectFromMember(t, p, from + 1, x);
    }
  }

  lemma SelectMember<T>(t: Table<T>, p: T -> bool, x: T)
    requires t.Valid()
    ensures x in Select(t, p) <==> exists k :: k in t.rows && t.rows[k] == x && p(x)
  {
    SelectFromMember(t, p, 1, x);
  }

  /** Inserting a row appends it to every query it satisfies. */
  lemma {:induction false} SelectFromInsert<T>(t: Table<T>, row: T, p: T -> bool, from: int)
    requires t.Valid() && from <= t.next
    ensures SelectFrom(t.Insert(row), p, from) == SelectFrom(t, p, from) + (if p(row) then [row] else [])
    decreases t.next - from
  {
    var t' := t.Insert(row);
    if from == t.next {
      assert SelectFrom(t', p, from + 1) == [];
      assert SelectFrom(t, p, from) == [];
    } else {
      SelectFromInsert(t, row, p, from + 1);
      assert (from in t'.rows && p(t'.rows[from])) == (from in t.rows && p(t.rows[from]));
      assert from in t.rows ==> t'.rows[from] == t.rows[from];
    }
  }

  lemma SelectInsert<T>(t: Table<T>, row: T, p: T -> bool)
    requires t.Valid()
    ensures Select(t.Insert(row), p) == Select(t, p) + (if p(row) then [row] else [])
  {
    SelectFromInsert(t, row, p, 1);
  }

  /** A row the query keeps, inserted before a block that the query
      appends, is appended with it. */
  lemma SelectInsertCons<T>(t: Table<T>, row: T, rest: seq<T>, t2: Table<T>, p: T -> bool)
    requires t.Valid() && p(row) && Select(t2, p) == Select(t.Insert(row), p) + rest
    ensures Select(t2, p) == Select(t, p) + ([row] + rest)
  {
    SelectInsert(t, row, p);
  }

  /** A query that no stored row satisfies is empty. */
  lemma {:induction false} SelectFromNone<T>(t: Table<T>, p: T -> bool, from: int)
    requires forall k :: k in t.rows && from <= k ==> !p(t.rows[k])
    ensures SelectFrom(t, p, from) == []
    decreases t.next - from
  {
    if from < t.next {
      SelectFromNone(t, p, from + 1);
    }
  }

  /** Two predicates that agree on the stored rows select the same rows. */
  lemma {:induction false} SelectFromAgree<T>(t: Table<T>, p: T -> bool, q: T -> bool, from: int)
    requires forall k :: k in t.rows ==> p(t.rows[k]) == q(t.rows[k])
    ensures SelectFrom(t, p, from) == SelectFrom(t, q, from)
    decreases t.next - from
  {
    if from < t.next {
      SelectFromAgree(t, p, q, from + 1);
    }
  }

  /** A query returns one row per selected key. */
  lemma {:induction false} SelectFromCount<T>(t: Table<T>, p: T -> bool, from: int)
    ensures |SelectFrom(t, p, from)| == |KeysFrom(t, p, from)|
    decreases t.next - from
  {
    if from >= t.next {
      assert KeysFrom(t, p, from) == {};
    } else {
      SelectFromCount(t, p, from + 1);
      var head: set<int> := if from in t.rows && p(t.rows[from]) then {from} else {};
      assert KeysFrom(t, p, from) == head + KeysFrom(t, p, from + 1);
      assert head * KeysFrom(t, p, from + 1) == {};
    }
  }

  /** When every row records its own key, a query lists its rows with
      strictly increasing keys, all of them at least `from`. */
  lemma {:induction false} SelectFromSorted<T>(t: Table<T>, p: T -> bool, from: int, key: T -> int)
    requires forall k :: k in t.rows ==> key(t.rows[k]) == k
    ensures forall i :: 0 <= i < |SelectFrom(t, p, from)| ==> from <= key(SelectFrom(t, p, from)[i])
    ensures forall i, j :: 0 <= i < j < |SelectFrom(t, p, from)| ==>
              key(SelectFrom(t, p, from)[i]) < key(SelectFrom(t, p, from)[j])
    decreases t.next - from
  {
    if from < t.next {
      SelectFromSorted(t, p, from + 1, key);
    }
  }

  /** The first key in [from, next) whose row satisfies `p`. */
  function FindFrom<T>(t: Table<T>, p: T -> bool, from: int): (r: Option<int>)
    ensures r.Some? ==> r.value in t.rows && from <= r.value < t.next && p(t.rows[r.value])
    ensures r.Some? ==> forall k :: k in t.rows && from <= k < r.value ==> !p(t.rows[k])
    ensures r.None? ==> forall k :: k in t.rows && from <= k < t.next ==> !p(t.rows[k])
    decreases t.next - from
  {
    if from >= t.next then None
    else if from in t.rows && p(t.rows[from]) then Some(from)
    else FindFrom(t, p, from + 1)
  }

  /** `SELECT ... WHERE p` read as `rows[0]`: the key of the first row. */
  function Find<T>(t: Table<T>, p: T -> bool): Option<int> {
    FindFrom(t, p, 1)
  }

  /** In a valid table, Find misses only when no stored row satisfies `p`. */
  lemma FindNone<T>(t: Table<T>, p: T -> bool)
    requires t.Valid()
    ensures Find(t, p).None? <==> forall k :: k in t.rows ==> !p(t.rows[k])
  {
  }

  /** `s` in reverse order, as `ORDER BY ... DESC` lists it. */
  function Reversed<T>(s: seq<T>): (r: seq<T>)
    ensures |r| == |s|
    ensures forall i :: 0 <= i < |s| ==> r[i] == s[|s| - 1 - i]
  {
    if s == [] then [] else Reversed(s[1..]) + [s[0]]
  }

  lemma ReversedMember<T>(s: seq<T>, x: T)
    ensures x in Reversed(s) <==> x in s
  {
    if x in s {
      var i :| 0 <= i < |s| && s[i] == x;
      assert Reversed(s)[|s| - 1 - i] == x;
    }
  }

  /** `OFFSET offset LIMIT limit` over an ordered result. */
  function Window<T>(s: seq<T>, offset: nat, limit: nat): (r: seq<T>)
    ensures |r| <= limit
    ensures offset <= |s| ==> |r| == if |s| - offset < limit then |s| - offset else limit
    ensures offset >= |s| ==> r == []
    ensures forall i :: 0 <= i < |r| ==> offset + i < |s| && r[i] == s[offset + i]
  {
    var rest := if offset <= |s| then s[offset..] else [];
    if |rest| <= limit then rest else rest[..limit]
  }

  /** Updating a row without changing whether it satisfies `p` leaves the
      first match where it was. */
  lemma {:induction false} FindFromPut<T>(t: Table<T>, k: int, row: T, p: T -> bool, from: int)
    requires t.Valid() && k in t.rows && p(row) == p(t.rows[k])
    ensures FindFrom(t.Put(k, row), p, from) == FindFrom(t, p, from)
    decreases t.next - from
  {
    if from < t.next {
      FindFromPut(t, k, row, p, from + 1);
    }
  }
  /** The elements of `s` that satisfy `q`, in order. */
  function Filter<T>(s: seq<T>, q: T -> bool): (r: seq<T>)
    ensures |r| <= |s|
    ensures forall x :: x in r ==> x in s && q(x)
  {
    if s == [] then [] else (if q(s[0]) then [s[0]] else []) + Filter(s[1..], q)
  }

  lemma {:induction false} FilterAppend<T>(a: seq<T>, b: seq<T>, q: T -> bool)
    ensures Filter(a + b, q) == Filter(a, q) + Filter(b, q)
  {
    if a == [] {
      assert [] + b == b;
    } else {
      assert (a + b)[0] == a[0];
      assert (a + b)[1..] == a[1..] + b;
      FilterAppend(a[1..], b, q);
    }
  }

  lemma FilterSnoc<T>(s: seq<T>, x: T, q: T -> bool)
    ensures Filter(s + [x], q) == Filter(s, q) + (if q(x) then [x] else [])
  {
    FilterAppend(s, [x], q);
    assert [x][1..] == [];
  }

  /** Filtering the result of a query is the query with both conditions. */
  lemma {:induction false} SelectFromFilter<T>(t: Table<T>, p: T -> bool, q: T -> bool, pq: T -> bool, from: int)
    requires forall k :: k in t.rows ==> pq(t.rows[k]) == (p(t.rows[k]) && q(t.rows[k]))
    ensures Filter(SelectFrom(t, p, from), q) == SelectFrom(t, pq, from)
    decreases t.next - from
  {
    if from < t.next {
      SelectFromFilter(t, p, q, pq, from + 1);
      var head := if from in t.rows && p(t.rows[from]) then [t.rows[from]] else [];
      FilterAppend(head, SelectFrom(t, p, from + 1), q);
      if head != [] {
        assert head[1..] == [];
      }
    }
  }
}
