/** Parameterised statements. A statement's text is modelled by what it
    binds: each `$n` placeholder is its index `n`, which the store resolves
    to the n-th value of the parameter list. */
module Sql {
  import opened Common

  datatype SqlValue = SNull | SInt(i: int) | SStr(s: string) | SBool(b: bool) | STime(t: Time)

  /** `column = $param` in a SET or WHERE list. */
  datatype Assignment = Assignment(column: string, param: int)

  /** The value that placeholder `$n` binds, if the list has one. */
  function Bound(params: seq<SqlValue>, n: int): (r: Option<SqlValue>)
    ensures r.Some? <==> 1 <= n <= |params|
    ensures r.Some? ==> r.value == params[n - 1]
  {
    if 1 <= n <= |params| then Some(params[n - 1]) else None
  }

  /** The values one VALUES tuple `($a, $b, ...)` binds. */
  function DecodeTuple(tuple: seq<int>, params: seq<SqlValue>): Option<seq<SqlValue>> {
    if tuple == [] then Some([])
    else match (Bound(params, tuple[0]), DecodeTuple(tuple[1..], params))
      case (Some(v), Some(vs)) => Some([v] + vs)
      case _ => None
  }

  /** The rows a multi-row VALUES list binds. */
  function DecodeTuples(tuples: seq<seq<int>>, params: seq<SqlValue>): Option<seq<seq<SqlValue>>> {
    if tuples == [] then Some([])
    else match (DecodeTuple(tuples[0], params), DecodeTuples(tuples[1..], params))
      case (Some(r), Some(rs)) => Some([r] + rs)
      case _ => None
  }

  /** The (column, value) pairs a SET list binds. */
  function DecodeAssignments(sets: seq<Assignment>, params: seq<SqlValue>): Option<seq<(string, SqlValue)>> {
    if sets == [] then Some([])
    else match (Bound(params, sets[0].param), DecodeAssignments(sets[1..], params))
      case (Some(v), Some(rest)) => Some([(sets[0].column, v)] + rest)
      case _ => None
  }

  /** The placeholders `$w*i+1 .. $w*i+w` of tuple `i`. */
  function TupleAt(i: int, width: nat): (t: seq<int>)
    ensures |t| == width
    ensures forall k :: 0 <= k < width ==> t[k] == width * i + k + 1
  {
    seq(width, k requires 0 <= k < width => width * i + k + 1)
  }

  function Concat(rows: seq<seq<SqlValue>>): seq<SqlValue> {
    if rows == [] then [] else rows[0] + Concat(rows[1..])
  }

  lemma {:induction false} ConcatSnoc(rows: seq<seq<SqlValue>>, last: seq<SqlValue>)
    ensures Concat(rows + [last]) == Concat(rows) + last
  {
    if rows == [] {
      assert [] + [last] == [last];
    } else {
      assert (rows + [last])[1..] == rows[1..] + [last];
      ConcatSnoc(rows[1..], last);
    }
  }

  lemma MulSucc(width: nat, n: int)
    ensures width * (n + 1) == width * n + width
  {
  }

  lemma MulMono(width: nat, a: int, b: int)
    requires a <= b
    ensures width * a <= width * b
  {
    assert width * b - width * a == width * (b - a);
  }

  lemma {:induction false} ConcatLength(rows: seq<seq<SqlValue>>, width: nat)
    requires forall i :: 0 <= i < |rows| ==> |rows[i]| == width
    ensures |Concat(rows)| == width * |rows|
  {
    if rows != [] {
      ConcatLength(rows[1..], width);
      MulSucc(width, |rows| - 1);
    }
  }

  lemma {:induction false} ConcatAt(rows: seq<seq<SqlValue>>, width: nat, i: int, k: int)
    requires forall j :: 0 <= j < |rows| ==> |rows[j]| == width
    requires 0 <= i < |rows| && 0 <= k < width
    ensures 0 <= width * i + k < |Concat(rows)|
    ensures Concat(rows)[width * i + k] == rows[i][k]
  {
    ConcatLength(rows, width);
    MulSucc(width, i);
    MulMono(width, i + 1, |rows|);
    MulMono(width, 0, i);
    if i > 0 {
      ConcatAt(rows[1..], width, i - 1, k);
      MulSucc(width, i - 1);
      assert |rows[0]| == width;
    }
  }

  /** A tuple whose placeholders all resolve binds the values they point at. */
  lemma {:induction false} DecodeTupleAt(tuple: seq<int>, params: seq<SqlValue>, vals: seq<SqlValue>)
    requires |tuple| == |vals|
    requires forall k :: 0 <= k < |tuple| ==> 1 <= tuple[k] <= |params| && params[tuple[k] - 1] == vals[k]
    ensures DecodeTuple(tuple, params) == Some(vals)
  {
    if tuple != [] {
      DecodeTupleAt(tuple[1..], params, vals[1..]);
      assert [vals[0]] + vals[1..] == vals;
    }
  }

  /** Tuple `from` resolves to row `from` of the flattened list. */
  lemma HeadTuple(rows: seq<seq<SqlValue>>, width: nat, tuple: seq<int>, from: nat)
    requires forall j :: 0 <= j < |rows| ==> |rows[j]| == width
    requires from < |rows| && tuple == TupleAt(from, width)
    ensures DecodeTuple(tuple, Concat(rows)) == Some(rows[from])
  {
    var params := Concat(rows);
    forall k | 0 <= k < width
      ensures 1 <= tuple[k] <= |params| && params[tuple[k] - 1] == rows[from][k]
    {
      ConcatAt(rows, width, from, k);
    }
    DecodeTupleAt(tuple, params, rows[from]);
  }

  /** Numbering the tuples of a flattened parameter list `$w*i+1 .. $w*i+w`
      makes the statement bind exactly the intended rows. */
  lemma {:induction false} DecodeNumberedTuples(rows: seq<seq<SqlValue>>, width: nat, tuples: seq<seq<int>>, from: nat)
    requires forall j :: 0 <= j < |rows| ==> |rows[j]| == width
    requires from <= |rows| && |tuples| == |rows| - from
    requires forall i :: 0 <= i < |tuples| ==> tuples[i] == TupleAt(from + i, width)
    ensures DecodeTuples(tuples, Concat(rows)) == Some(rows[from..])
    decreases |rows| - from
  {
    if from < |rows| {
      var params := Concat(rows);
      HeadTuple(rows, width, tuples[0], from);
      var tail := tuples[1..];
      forall i | 0 <= i < |tail| ensures tail[i] == TupleAt(from + 1 + i, width) {
        assert tail[i] == tuples[i + 1];
        assert from + (i + 1) == from + 1 + i;
      }
      DecodeNumberedTuples(rows, width, tail, from + 1);
      assert DecodeTuples(tuples, params) == Some([rows[from]] + rows[from + 1..]);
      assert [rows[from]] + rows[from + 1..] == rows[from..];
    } else {
      assert tuples == [] && rows[from..] == [];
    }
  }

  /** A SET list numbered $1, $2, ... over the entries' values binds each
      column to its own value. */
  lemma {:induction false} DecodeNumberedAssignments(entries: seq<(string, SqlValue)>, sets: seq<Assignment>,
                                                     params: seq<SqlValue>, from: nat)
    requires from <= |entries| && |sets| == |entries| - from && |entries| <= |params|
    requires forall i :: 0 <= i < |sets| ==> sets[i] == Assignment(entries[from + i].0, from + i + 1)
    requires forall i :: 0 <= i < |entries| ==> params[i] == entries[i].1
    ensures DecodeAssignments(sets, params) == Some(entries[from..])
    decreases |entries| - from
  {
    if from < |entries| {
      DecodeNumberedAssignments(entries, sets[1..], params, from + 1);
      assert [(entries[from].0, entries[from].1)] + entries[from + 1..] == entries[from..];
    }
  }

  /** A SET list numbered $1..$n over the entries' values, followed by one
      more parameter: the list binds the entries and `$(n+1)` binds the
      extra value. */
  lemma NumberedStatement(entries: seq<(string, SqlValue)>, sets: seq<Assignment>, params: seq<SqlValue>, extra: SqlValue)
    requires |sets| == |entries| && |params| == |entries| + 1
    requires forall i :: 0 <= i < |sets| ==> sets[i] == Assignment(entries[i].0, i + 1)
    requires forall i :: 0 <= i < |entries| ==> params[i] == entries[i].1
    requires params[|entries|] == extra
    ensures DecodeAssignments(sets, params) == Some(entries)
    ensures Bound(params, |entries| + 1) == Some(extra)
  {
    DecodeNumberedAssignments(entries, sets, params, 0);
    assert entries[0..] == entries;
  }
}
