/** The write side of a recorder: a backend that accepts rows, the default
    destructive and batch entry points layered on the backend's primitives,
    and the tabular specialization that binds a column list once and then
    records rows positionally.  Row names (R), column names (C), cell values
    (V), timestamps (D) and expression values (E) are opaque. */
module Recording {
  import opened Rows

  /** One submission a backend has accepted: a pre-flattened row, or a row
      given as an expression value, whose flattening is left to the backend. */
  datatype Entry<R, C, V, D, E> =
    | FlatRow(name: R, cells: seq<Cell<C, V, D>>)
    | ExprRow(name: R, expr: E)

  // FlatRows and ExprRows build log entries, whose type names all five
  // parameters; the ones their argument does not mention (E for FlatRows,
  // C, V and D for ExprRows) come from the log the entries are appended to,
  // so callers that have no such log at hand name them explicitly.

  /** The entries a batch of flattened rows leaves in the log, in order. */
  function FlatRows<R, C, V, D, E>(rows: seq<(R, seq<Cell<C, V, D>>)>): (entries: seq<Entry<R, C, V, D, E>>)
    ensures |entries| == |rows|
    ensures forall i :: 0 <= i < |rows| ==> entries[i] == FlatRow(rows[i].0, rows[i].1)
  {
    if rows == [] then [] else [FlatRow(rows[0].0, rows[0].1)] + FlatRows(rows[1..])
  }

  /** The entries a batch of expression-valued rows leaves in the log, in order. */
  function ExprRows<R, C, V, D, E>(rows: seq<(R, E)>): (entries: seq<Entry<R, C, V, D, E>>)
    ensures |entries| == |rows|
    ensures forall i :: 0 <= i < |rows| ==> entries[i] == ExprRow(rows[i].0, rows[i].1)
  {
    if rows == [] then [] else [ExprRow(rows[0].0, rows[0].1)] + ExprRows(rows[1..])
  }

  /** Recording rows a ++ b as one batch leaves the same entries as recording
      a and then b. */
  lemma FlatRowsSplit<R, C, V, D, E>(a: seq<(R, seq<Cell<C, V, D>>)>,
                                     b: seq<(R, seq<Cell<C, V, D>>)>)
    ensures FlatRows<R, C, V, D, E>(a + b) == FlatRows<R, C, V, D, E>(a) + FlatRows<R, C, V, D, E>(b)
  {
  }

  /** Extending a batch prefix by one row adds that row's entry at the end. */
  lemma FlatRowsExtend<R, C, V, D, E>(rows: seq<(R, seq<Cell<C, V, D>>)>, i: nat)
    requires i < |rows|
    ensures FlatRows<R, C, V, D, E>(rows[..i + 1])
         == FlatRows<R, C, V, D, E>(rows[..i]) + [FlatRow(rows[i].0, rows[i].1)]
  {
    assert rows[..i + 1] == rows[..i] + [rows[i]];
    FlatRowsSplit<R, C, V, D, E>(rows[..i], [rows[i]]);
  }

  /** A recording backend.  `log` is its visible state: everything it has
      accepted, oldest first. */
  class Recorder<R, C, V, D, E> {
    var log: seq<Entry<R, C, V, D, E>>

    constructor ()
      ensures log == []
    {
      log := [];
    }

    /** The kind name of the base recorder. */
    function GetKind(): (kind: string)
      ensures kind == "recorder"
    {
      "recorder"
    }

    /** Backend primitive: record one row given as an expression value. */
    method RecordRowExpr(rowName: R, expr: E)
      modifies this
      ensures log == old(log) + [ExprRow(rowName, expr)]
    {
      log := log + [ExprRow(rowName, expr)];
    }

    /** Same effect as RecordRowExpr; the argument is consumed. */
    method RecordRowExprDestructive(rowName: R, expr: E)
      modifies this
      ensures log == old(log) + [ExprRow(rowName, expr)]
    {
      RecordRowExpr(rowName, expr);
    }

    /** Backend primitive: record one pre-flattened row. */
    method RecordRow(rowName: R, vals: seq<Cell<C, V, D>>)
      modifies this
      ensures log == old(log) + [FlatRow(rowName, vals)]
    {
      log := log + [FlatRow(rowName, vals)];
    }

    /** Same effect as RecordRow; the row is consumed. */
    method RecordRowDestructive(rowName: R, vals: seq<Cell<C, V, D>>)
      modifies this
      ensures log == old(log) + [FlatRow(rowName, vals)]
    {
      RecordRow(rowName, vals);
    }

    /** Records several flattened rows in one call by forwarding each, in
        order, to RecordRow. */
    method RecordRows(rows: seq<(R, seq<Cell<C, V, D>>)>)
      modifies this
      ensures log == old(log) + FlatRows(rows)
    {
      var i := 0;
      while i < |rows|
        invariant 0 <= i <= |rows|
        invariant log == old(log) + FlatRows(rows[..i])
      {
        FlatRowsExtend<R, C, V, D, E>(rows, i);
        RecordRow(rows[i].0, rows[i].1);
        i := i + 1;
      }
      assert rows[..i] == rows;
    }

    /** Same effect as RecordRows; the rows are consumed. */
    method RecordRowsDestructive(rows: seq<(R, seq<Cell<C, V, D>>)>)
      modifies this
      ensures log == old(log) + FlatRows(rows)
    {
      RecordRows(rows);
    }

    /** Backend primitive: record several expression-valued rows in one call,
        in order. */
    method RecordRowsExpr(rows: seq<(R, E)>)
      modifies this
      ensures log == old(log) + ExprRows(rows)
    {
      log := log + ExprRows(rows);
    }

    /** Same effect as RecordRowsExpr; the rows are consumed. */
    method RecordRowsExprDestructive(rows: seq<(R, E)>)
      modifies this
      ensures log == old(log) + ExprRows(rows)
    {
      RecordRowsExpr(rows);
    }

    /** Binds the column list once and returns a function that records rows
        into this recorder by position. */
    method SpecializeRecordTabular(columns: seq<C>) returns (f: TabularFunction<R, C, V, D, E>)
      ensures fresh(f)
      ensures f.recorder == this && f.columns == columns
    {
      f := new TabularFunction(this, columns);
    }

    /** Builds the tabular row from the first numVals values, each paired with
        the column at its position, plus the extra pairs, all at `timestamp`,
        and submits it through RecordRowDestructive. */
    method RecordTabularImpl(rowName: R, timestamp: D, vals: array<V>, numVals: nat,
                             extra: seq<(C, V)>, columnNames: seq<C>)
      requires numVals <= vals.Length
      requires numVals == |columnNames|
      modifies this
      ensures log == old(log) + [FlatRow(rowName, TabularRow(columnNames, vals[..numVals], timestamp, extra))]
    {
      var row := BuildTabularRow(timestamp, vals, numVals, extra, columnNames);
      RecordRowDestructive(rowName, row);
    }
  }

  /** The row construction of RecordTabularImpl: one cell per value in
      vals[0..numVals), then one per extra pair. */
  method BuildTabularRow<C, V, D>(timestamp: D, vals: array<V>, numVals: nat,
                                  extra: seq<(C, V)>, columnNames: seq<C>)
    returns (row: seq<Cell<C, V, D>>)
    requires numVals <= vals.Length
    requires numVals == |columnNames|
    ensures row == TabularRow(columnNames, vals[..numVals], timestamp, extra)
  {
    row := [];
    var i := 0;
    while i < numVals
      invariant 0 <= i <= numVals
      invariant |row| == i
      invariant forall k :: 0 <= k < i ==> row[k] == Cell(columnNames[k], vals[k], timestamp)
    {
      row := row + [Cell(columnNames[i], vals[i], timestamp)];
      i := i + 1;
    }
    var j := 0;
    while j < |extra|
      invariant 0 <= j <= |extra|
      invariant |row| == numVals + j
      invariant forall k :: 0 <= k < numVals ==> row[k] == Cell(columnNames[k], vals[k], timestamp)
      invariant forall k :: 0 <= k < j ==> row[numVals + k] == Cell(extra[k].0, extra[k].1, timestamp)
    {
      row := row + [Cell(extra[j].0, extra[j].1, timestamp)];
      j := j + 1;
    }
    ghost var expected := TabularRow(columnNames, vals[..numVals], timestamp, extra);
    forall k | 0 <= k < |row|
      ensures row[k] == expected[k]
    {
      if k >= numVals {
        assert row[numVals + (k - numVals)] == expected[numVals + (k - numVals)];
      }
    }
  }

  /** The function SpecializeRecordTabular returns: it holds the recorder it
      records into and the bound column list, and nothing else. */
  class TabularFunction<R, C, V, D, E> {
    const recorder: Recorder<R, C, V, D, E>
    const columns: seq<C>

    constructor (recorder: Recorder<R, C, V, D, E>, columns: seq<C>)
      ensures this.recorder == recorder && this.columns == columns
    {
      this.recorder := recorder;
      this.columns := columns;
    }

    /** Records one row by position through RecordTabularImpl; the rows
        recorded before are left as they were. */
    method Call(rowName: R, timestamp: D, vals: array<V>, numVals: nat, extra: seq<(C, V)>)
      requires numVals <= vals.Length
      requires numVals == |columns|
      modifies recorder
      ensures recorder.log == old(recorder.log) + [FlatRow(rowName, TabularRow(columns, vals[..numVals], timestamp, extra))]
    {
      recorder.RecordTabularImpl(rowName, timestamp, vals, numVals, extra, columns);
    }
  }

  /** Binding [c1, c2, c3] and calling the specialized function with values
      [v1, v2, v3] and extra [(c4, v4)] stores the same row as calling
      RecordRow with the four triples written out. */
  method SpecializedMatchesRecordRow<R, C, V, D, E>(rowName: R, t: D, c1: C, c2: C, c3: C, c4: C,
                                                    v1: V, v2: V, v3: V, v4: V)
    returns (viaTabular: seq<Entry<R, C, V, D, E>>, viaRecordRow: seq<Entry<R, C, V, D, E>>)
    ensures viaTabular == viaRecordRow
    ensures viaRecordRow == [FlatRow(rowName, [Cell(c1, v1, t), Cell(c2, v2, t), Cell(c3, v3, t), Cell(c4, v4, t)])]
  {
    var tabular := new Recorder<R, C, V, D, E>();
    var f := tabular.SpecializeRecordTabular([c1, c2, c3]);
    var vals := new V[] [v1, v2, v3];
    f.Call(rowName, t, vals, 3, [(c4, v4)]);
    var direct := new Recorder<R, C, V, D, E>();
    direct.RecordRow(rowName, [Cell(c1, v1, t), Cell(c2, v2, t), Cell(c3, v3, t), Cell(c4, v4, t)]);
    assert vals[..3] == [v1, v2, v3];
    TabularRowExample(c1, c2, c3, c4, v1, v2, v3, v4, t);
    viaTabular, viaRecordRow := tabular.log, direct.log;
  }
}
