# MLDB recorder write path, modelled in Dafny

This project models the default recording layer of MLDB's `Recorder`, the
interface a storage backend implements to accept data (`core/recorder.h`).

- A backend's visible state is the list of submissions it has accepted: the
  `log` field of `Recording.Recorder`. Entries are either a pre-flattened row
  (a row name plus ordered (column, value, timestamp) cells) or a row given as
  an expression value.
- The backend primitives `recordRow`, `recordRowExpr` and `recordRowsExpr`
  append to the log. They are abstract in the source. Here they stand for a
  reference backend that accepts everything in order.
- Each of the four "destructive" entry points forwards to its borrowing twin.
  Each is proved to leave exactly the same log.
- `recordRows` records a batch by forwarding each row, in order, to
  `recordRow`. Its result is stated through `FlatRows`. `FlatRowsSplit`
  shows that one batch `a + b` has the same effect as batch `a` then batch `b`.
- Tabular specialization. `SpecializeRecordTabular` returns a
  `TabularFunction` object. The object holds only the recorder and the bound
  column list, which is what the C++ closure captures. Its `Call` goes
  through `RecordTabularImpl`. That method builds the row from the value
  array with a loop (`BuildTabularRow`) and submits it via
  `RecordRowDestructive`. The row built is the specification function
  `Rows.TabularRow`: `vals[i]` paired with `columns[i]` for every
  `i < numVals`, then the `extra` pairs, every cell at the call's one
  timestamp.

Row names, column names, cell values, timestamps and expression values are
opaque type parameters (`R`, `C`, `V`, `D`, `E`). The C++ `CellValue *
vals, size_t numVals` pair becomes an `array<V>` and a `nat`.

Choices the comments leave open:
- `numVals` must equal the number of bound columns (core/recorder.h:112-113),
  but nothing checks it. The model makes it an explicit `requires` on
  `RecordTabularImpl`, `BuildTabularRow` and `TabularFunction.Call`, along
  with `numVals <= vals.Length`, meaning the pointer really addresses
  `numVals` values. Calls that break either condition are outside the
  contract, just as in the source, where they read out of bounds.
- The header declares `recordRows` pure virtual (`= 0`, core/recorder.h:87).
  Its comment, however, says the default forwards to `recordRow`. The model
  gives the documented forwarding behaviour. That is the result every
  backend's override is expected to match.
- `recordRowsExpr` (core/recorder.h:96-98) is abstract and has no documented
  default. Like `recordRowExpr`, it is a primitive of the reference backend,
  which appends each row in order.
- The source does not show the order in which `recordTabularImpl` puts the
  cells, and the specialization comment (lines 107-117) states no order.
  Putting the positional cells first and the extras after them is the
  model's own choice. `Rows.TabularRowMembers` states which cells the row
  holds without depending on that order.

## Model

| member | source | states |
|---|---|---|
| `Rows.Zip` | core/recorder.h:110-113 | columns are inferred by position: the i-th pair is (columns[i], values[i]), one pair per column |
| `Rows.Stamp` | core/recorder.h:119-124 | every pair becomes a cell carrying the one supplied timestamp, order kept |
| `Rows.TabularRow` | core/recorder.h:107-117 | the built row has numVals + size(extra) cells; cell i is (columns[i], vals[i], timestamp) for i < numVals, and cell numVals + j is extra[j] at that timestamp |
| `Rows.TabularRowMembers` | core/recorder.h:107-117 | a cell is in the row if and only if it is a positional cell or an extra pair at the call's timestamp; every cell has that timestamp |
| `Rows.TabularRowRecoversInputs` | core/recorder.h:110-117 | projecting the first numVals cells gives back the bound columns and the values; the remaining cells give back the extra pairs |
| `Rows.TabularRowExample` | core/recorder.h:128-136 | columns [c1,c2,c3], values [v1,v2,v3], extra [(c4,v4)] give exactly [(c1,v1,t),(c2,v2,t),(c3,v3,t),(c4,v4,t)] |
| `Rows.ColumnsOf` | core/recorder.h:110-113 | specification helper of `Rows.TabularRowRecoversInputs`, not an operation of the source: the i-th column listed is the column of cell i |
| `Rows.ValuesOf` | core/recorder.h:110-113 | specification helper of `Rows.TabularRowRecoversInputs`, not an operation of the source: the i-th value listed is the value of cell i |
| `Rows.Unstamp` | core/recorder.h:115-117 | specification helper of `Rows.TabularRowRecoversInputs`, not an operation of the source: the i-th pair is cell i with its timestamp dropped |
| `Recording.FlatRows` | core/recorder.h:83-87 | a batch of rows leaves one flat entry per row, in the batch's order |
| `Recording.ExprRows` | core/recorder.h:96-98 | a batch of expression rows leaves one entry per row, in the batch's order |
| `Recording.FlatRowsSplit` | core/recorder.h:83-87 | recording a + b as one batch leaves what recording a and then b leaves |
| `Recording.Recorder.constructor` | core/recorder.h:40 | a new recorder has recorded nothing |
| `Recording.Recorder.GetKind` | core/recorder.h:48-51 | the base recorder's kind is "recorder" |
| `Recording.Recorder.RecordRowExpr` | core/recorder.h:55-60 | appends one expression row to the log, leaving earlier entries alone |
| `Recording.Recorder.RecordRowExprDestructive` | core/recorder.h:62-68 | leaves exactly the log RecordRowExpr leaves |
| `Recording.Recorder.RecordRow` | core/recorder.h:70-73 | appends one flat row to the log, leaving earlier entries alone |
| `Recording.Recorder.RecordRowDestructive` | core/recorder.h:75-81 | leaves exactly the log RecordRow leaves |
| `Recording.Recorder.RecordRows` | core/recorder.h:83-87 | forwarding each row to RecordRow in order appends FlatRows(rows) to the log |
| `Recording.Recorder.RecordRowsDestructive` | core/recorder.h:89-94 | leaves exactly the log RecordRows leaves |
| `Recording.Recorder.RecordRowsExpr` | core/recorder.h:96-98 | appends ExprRows(rows) to the log, in order |
| `Recording.Recorder.RecordRowsExprDestructive` | core/recorder.h:100-105 | leaves exactly the log RecordRowsExpr leaves |
| `Recording.Recorder.SpecializeRecordTabular` | core/recorder.h:107-125 | returns a new function object bound to this recorder and to the given columns, recording nothing itself |
| `Recording.Recorder.RecordTabularImpl` | core/recorder.h:128-136 | appends exactly one flat row named rowName whose cells are TabularRow(columns, vals[0..numVals), timestamp, extra), submitted through RecordRowDestructive |
| `Recording.BuildTabularRow` | core/recorder.h:128-136 | the row built element by element from the value array and the extras equals TabularRow |
| `Recording.TabularFunction.constructor` | core/recorder.h:119-125 | the function object holds the recorder and the bound column list |
| `Recording.TabularFunction.Call` | core/recorder.h:107-113 | each call appends one row by position with the bound columns and leaves earlier rows unchanged, so it can be repeated any number of times |
| `Recording.SpecializedMatchesRecordRow` | core/recorder.h:128-136 | binding [c1,c2,c3] and calling with [v1,v2,v3] plus extra [(c4,v4)] stores the same log as RecordRow with the four triples |

## Left out

- Registry and factory (`registerRecorderType`, its template helper, `RegisterRecorderType`, `createRecorder`, core/recorder.h:147-210): the header shows no bodies for the lookup and duplicate-key behaviour. The template only forwards to foreign facilities (logger lookup, object construction, documentation redirects, value descriptions), and self-registration happens during static initialization.
- How `recordRowExpr` and `recordRowsExpr` flatten an expression value: `ExpressionValue` and its flattening are defined in headers not part of this model. Expression rows are logged as submitted.
- `getStatus()` (line 53): it returns an opaque, backend-defined value with no statable content.
- `finishedChunk()` (line 139): a hook with no documented effect on recorded rows.
- The `MldbServer` pointer, the `MldbEntity` base and the constructor's server argument (lines 39-42): foreign plumbing.
- Concurrency: recorders shared between threads, and any locking a backend does.
- Backend failures (exceptions) and partial batch failure: the reference backend always accepts.
- Ownership transfer: Dafny sequences are immutable values, so a "destructive" call and its borrowing twin take the same argument. The moved-from state of the caller's vector or value array after the call is not modelled.
- Backends that override the defaults: the model gives only the default layer, the behaviour such overrides are documented to preserve.
