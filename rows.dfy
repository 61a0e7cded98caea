/** The flat row representation a recorder accepts: a row is a name together
    with an ordered list of (column, value, timestamp) cells.  Row names,
    column names, cell values and timestamps are opaque here and appear as
    the type parameters R, C, V and D. */
module Rows {

  /** One flattened cell, the (column, value, timestamp) triple of a row. */
  datatype Cell<C, V, D> = Cell(column: C, value: V, timestamp: D)

  /** Pairs columns[i] with values[i], position by position. */
  function Zip<C, V>(columns: seq<C>, values: seq<V>): (pairs: seq<(C, V)>)
    requires |values| == |columns|
    ensures |pairs| == |columns|
    ensures forall i :: 0 <= i < |columns| ==> pairs[i] == (columns[i], values[i])
  {
    if columns == [] then []
    else [(columns[0], values[0])] + Zip(columns[1..], values[1..])
  }

  /** Gives every (column, value) pair one and the same timestamp, keeping
      their order. */
  function Stamp<C, V, D>(pairs: seq<(C, V)>, timestamp: D): (cells: seq<Cell<C, V, D>>)
    ensures |cells| == |pairs|
    ensures forall i :: 0 <= i < |pairs| ==> cells[i] == Cell(pairs[i].0, pairs[i].1, timestamp)
  {
    if pairs == [] then []
    else [Cell(pairs[0].0, pairs[0].1, timestamp)] + Stamp(pairs[1..], timestamp)
  }

  /** The row a tabular recording call builds: the fixed columns paired
      positionally with the values, followed by the extra (column, value)
      pairs, every cell carrying the single timestamp of the call. */
  function TabularRow<C, V, D>(columns: seq<C>, values: seq<V>, timestamp: D,
                               extra: seq<(C, V)>): (cells: seq<Cell<C, V, D>>)
    requires |values| == |columns|
    ensures |cells| == |columns| + |extra|
    ensures forall i :: 0 <= i < |columns| ==> cells[i] == Cell(columns[i], values[i], timestamp)
    ensures forall j :: 0 <= j < |extra| ==>
              cells[|columns| + j] == Cell(extra[j].0, extra[j].1, timestamp)
  {
    Stamp(Zip(columns, values) + extra, timestamp)
  }

  /** A cell is in a tabular row exactly when it is one of the positional
      cells or one of the extra pairs, and it then has the call's timestamp. */
  lemma TabularRowMembers<C, V, D>(columns: seq<C>, values: seq<V>, timestamp: D,
                                   extra: seq<(C, V)>)
    requires |values| == |columns|
    ensures forall c :: c in TabularRow(columns, values, timestamp, extra) <==>
              (exists i :: 0 <= i < |columns| && c == Cell(columns[i], values[i], timestamp))
              || (exists p :: p in extra && c == Cell(p.0, p.1, timestamp))
    ensures forall c :: c in TabularRow(columns, values, timestamp, extra) ==> c.timestamp == timestamp
  {
  }

  /** The positional part of a tabular row gives back the bound columns and
      the supplied values, and its extra part gives back the extra pairs. */
  lemma TabularRowRecoversInputs<C, V, D>(columns: seq<C>, values: seq<V>, timestamp: D,
                                          extra: seq<(C, V)>)
    requires |values| == |columns|
    ensures ColumnsOf(TabularRow(columns, values, timestamp, extra)[..|columns|]) == columns
    ensures ValuesOf(TabularRow(columns, values, timestamp, extra)[..|columns|]) == values
    ensures Unstamp(TabularRow(columns, values, timestamp, extra)[|columns|..]) == extra
  {
  }

  /** The column of every cell, in order. */
  function ColumnsOf<C, V, D>(cells: seq<Cell<C, V, D>>): (columns: seq<C>)
    ensures |columns| == |cells|
    ensures forall i :: 0 <= i < |cells| ==> columns[i] == cells[i].column
  {
    if cells == [] then [] else [cells[0].column] + ColumnsOf(cells[1..])
  }

  /** The value of every cell, in order. */
  function ValuesOf<C, V, D>(cells: seq<Cell<C, V, D>>): (values: seq<V>)
    ensures |values| == |cells|
    ensures forall i :: 0 <= i < |cells| ==> values[i] == cells[i].value
  {
    if cells == [] then [] else [cells[0].value] + ValuesOf(cells[1..])
  }

  /** Drops the timestamps, the inverse of Stamp. */
  function Unstamp<C, V, D>(cells: seq<Cell<C, V, D>>): (pairs: seq<(C, V)>)
    ensures |pairs| == |cells|
    ensures forall i :: 0 <= i < |cells| ==> pairs[i] == (cells[i].column, cells[i].value)
  {
    if cells == [] then [] else [(cells[0].column, cells[0].value)] + Unstamp(cells[1..])
  }

  /** A worked instance: columns [c1, c2, c3], values [v1, v2, v3] and one
      extra pair (c4, v4) give the same cells as the four triples written
      out. */
  lemma TabularRowExample<C, V, D>(c1: C, c2: C, c3: C, c4: C,
                                   v1: V, v2: V, v3: V, v4: V, t: D)
    ensures TabularRow([c1, c2, c3], [v1, v2, v3], t, [(c4, v4)])
         == [Cell(c1, v1, t), Cell(c2, v2, t), Cell(c3, v3, t), Cell(c4, v4, t)]
  {
  }
}
