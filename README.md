# bt-fixture, modelled in Dafny

bt-fixture seeds a wide-column table store from a YAML fixture. `Load(path)`
does these steps in order:

- it reads the file and checks the extension (`.yml` or `.yaml`);
- it decodes the document into a table name, its column families and, per
  family, the columns to write;
- it deletes any table of that name;
- it creates the table again;
- for each family in order, it creates the family and then sends one bulk
  write per column. Each bulk write sets one cell per qualifier, under the
  column's row key, in that family, at the column's version or else at the
  load's "now".

Values are encoded by a pluggable marshaler. The default, MarshalBigEndian,
turns every integer width into the 8-byte big-endian two's complement of its
value widened to int64, and passes a string through unchanged.

The model has these modules, one file each:

- `Wrappers`: `Option` and `Result`.
- `Errors`: the load's error kinds (fixture.go:16-21), plus the errors that
  come back from the store or from a user encoder.
- `Encoding`: MarshalBigEndian, the integer widths it accepts, and the
  decoding convention that is its inverse.
- `FixtureModel`: the decoded fixture document and timestamp resolution.
- `Bigtable`: a stand-in for the admin and data clients.
  - A `Store` class holds a map of tables. Each table has a set of families
    and a cell map keyed by (row, family, qualifier, timestamp).
  - Any call may fail, chosen nondeterministically.
  - Every call is appended, with its response, to a ghost log `calls`.
- `LoaderSpec`: what a load must do, stated on values.
  - The *plan* of store calls for a fixture: the table creation, then per
    family the family creation and one bulk write per column.
  - The shape a bulk write must have.
  - The table a successful load leaves.
  - The outcome predicates the methods are proved against: `ClearOutcome`,
    `ExecOutcome`, `YamlOutcome`.
- `Fixture`: the `Fixture` class (`Load`, `loadYaml`, `clearTable`, `exec`),
  with `exec`'s loops as methods of their own, `getFileData` and
  `filepath.Ext`.

A method's contract states three things:

- the calls it made: a prefix of the plan, each call the planned step, and
  every call before the last one successful;
- which error it reports;
- the state it leaves. Only the fixture's table can change. After a
  successful load that table holds exactly the fixture's families and cells.

Three points of the code shape the model:

- Each family is created and its columns are written before the next family
  is created (fixture.go:163-204).
- The clock is read once at the top of `exec` (fixture.go:156), before the
  table is created, so every unversioned cell of a load carries that instant.
- A value that is neither an integer, a float nor a string panics
  (fixture.go:239).

## Model

| member | source | states |
|---|---|---|
| Encoding.Uint64Of | fixture.go:225-233 | `uint64(x)` of an int64: the result is below 2^64, congruent to `x` modulo 2^64, and at least 2^63 exactly when `x` is negative |
| Encoding.SignExtend | fixture.go:224-231 | `int64(t)` of every integer width: narrowing the result back to the value's own width gives the value again, so no information is lost |
| Encoding.PutUint64 | fixture.go:225 | `PutUint64` writes exactly 8 bytes, which `Uint64` reads back as the number written |
| Encoding.MarshalBigEndian | fixture.go:221-242 | an integer of any width encodes to exactly 8 bytes; a string encodes to as many bytes as it has |
| Encoding.BigEndianValueOfBytes | fixture.go:225 | reading back the n-byte big-endian form of a number below 256^n gives the number |
| Encoding.BigEndianBytesOfValue | fixture.go:225 | the converse: every byte string is the big-endian form of the number it reads as |
| Encoding.BigEndianLeadingByte | fixture.go:225 | the first byte of a big-endian number is its most significant: value = first byte × 256^(n-1) + value of the rest |
| Encoding.MarshalIntegerIsBigEndian | fixture.go:222-233 | every integer encodes to 8 bytes that read, big-endian, as `uint64(int64(v))`, and reinterpreted as int64 give back the sign-extended value |
| Encoding.MarshalSignByte | fixture.go:224-233 | two's complement: the top bit of the first byte is set exactly when the value is negative |
| Encoding.MarshalStringIsIdentity | fixture.go:238-239 | a string comes back as its own bytes, whatever its length |
| Encoding.UnmarshalMarshal | fixture.go:221-242 | round trip: decoding an encoded value with its own kind gives the value back, for every width and every string |
| Encoding.MarshalUnmarshal | fixture.go:221-242 | the other direction: bytes that decode to `v` under kind `k` are exactly the encoding of `v`, and `k` is `v`'s kind |
| Encoding.NegativeOneEncoding | fixture.go:226-233 | sign extension: an int8 -1 and an int64 -1 both encode to eight 0xFF bytes |
| FixtureModel.Version.IsZero | fixture.go:177 | a version is zero exactly when it is the zero value, the one a column without a `version` field decodes to |
| FixtureModel.ResolveTime | fixture.go:176-181 | an explicit version is always the write timestamp; the load's `now` is used only when the version is zero |
| Bigtable.FirstErrorIsFirst | fixture.go:198-202 | the first per-row error is None exactly when every row succeeded; when it is set, it is the error of a row that every earlier row precedes successfully |
| Bigtable.ApplyRowsAllSucceed | fixture.go:195 | a bulk write in which no row failed adds exactly the cells its (key, mutation) pairs set |
| Bigtable.Store.Tables | fixture.go:143 | the listing names exactly the existing tables, and is logged |
| Bigtable.Store.DeleteTable | fixture.go:149 | deleting removes exactly that table, fails for a missing one, changes nothing on failure |
| Bigtable.Store.CreateTable | fixture.go:158 | creating adds an empty table, fails for an existing name, changes nothing on failure |
| Bigtable.Store.CreateColumnFamily | fixture.go:164 | adds a new family to an existing table only; a missing table or a family the table already has is refused; changes nothing on failure |
| Bigtable.Store.ApplyBulk | fixture.go:195 | either the whole call fails and nothing changes, or each row gets its own outcome and exactly the successful rows are written; a row in a missing family fails |
| LoaderSpec.ColumnCellsAt | fixture.go:175-190 | every cell a column writes is at the column's row key, in the family, under one of its qualifiers whose value encoded, at `now` when no version is set and at the version otherwise, holding the encoded value |
| LoaderSpec.UnversionedCellsShareNow | fixture.go:156-177 | when no column pins a version, every cell a load writes has the same timestamp, the `now` read once at the top of `exec` |
| LoaderSpec.ColumnsCellsOrigin | fixture.go:169-193 | every cell the columns of a family write comes from one of those columns |
| LoaderSpec.CellsOfOrigin | fixture.go:163-193 | every cell a fixture writes comes from one column of one of its families |
| LoaderSpec.ColumnsCellsComplete | fixture.go:169-193 | every encodable value of every column of a family has its cell |
| LoaderSpec.CellsOfComplete | fixture.go:163-193 | every encodable value of every column of every family has its cell |
| LoaderSpec.FamilySetMembers | fixture.go:163-167 | a family ends up in the table exactly when some family entry of the fixture names it |
| LoaderSpec.BulkPairCell | fixture.go:185-192 | each (key, mutation) pair of a well-shaped bulk write sets one of the column's cells to its encoded value |
| LoaderSpec.BulkCellPair | fixture.go:185-192 | every cell of the column is set by some pair of the bulk write |
| LoaderSpec.BulkShapeDistinct | fixture.go:175-192 | no two pairs of a bulk write address the same cell |
| LoaderSpec.BulkShapeRowsMap | fixture.go:175-195 | the cells a well-shaped bulk write sets are exactly the column's cells, whatever order the map yields the qualifiers in |
| LoaderSpec.BulkWriteCells | fixture.go:195-202 | a bulk write of a column with no failed row adds exactly that column's cells to the table |
| LoaderSpec.AddColumnsCells | fixture.go:169-203 | writing a family's columns one bulk write after another adds, in effect, all their cells at once and leaves the families alone |
| LoaderSpec.AddFamiliesContents | fixture.go:163-205 | creating and populating the families one by one gives the table the union of their families and of their cells |
| LoaderSpec.CreateFailed | fixture.go:158-160 | a load run whose table creation failed consists of that one call and reports its error; no other table changed |
| LoaderSpec.CreateThenPopulate | fixture.go:158-206 | after a successful table creation, the family run decides the outcome; its success leaves the table equal to the expected one |
| LoaderSpec.FamilyFailed | fixture.go:164-167 | a refused family creation is the family's whole run and its error is the one reported |
| LoaderSpec.FamilyThenColumns | fixture.go:163-204 | a created family followed by a run of its columns' bulk writes is a run of the family's plan, ending as the column run ends |
| LoaderSpec.ClearFailed | fixture.go:134-137 | a failed clear is the whole load: its calls are the listing and, if any, the deletion, and its error is the one reported |
| LoaderSpec.ClearThenExec | fixture.go:134-138 | a successful clear followed by a load run is a load as `YamlOutcome` states; success leaves the old tables with the fixture's table replaced by the expected one |
| LoaderSpec.RunOutcome | fixture.go:158-206 | a run that followed the plan until its first failure, or to the end, has the outcome `ExecOutcome` describes |
| LoaderSpec.FirstFailureEndsRun | fixture.go:158-203 | abort at once: a failed call of a load run is its last call, and its error is the one reported |
| LoaderSpec.FailedCreateIsWholeRun | fixture.go:158-160 | when creating the table fails, that creation is the only call and the store is left as it was: no family is created and nothing is written |
| LoaderSpec.CreatedTableSurvives | fixture.go:158-204 | no rollback: when a load run fails after its first call, that call created the table, which is still there, holding no family the fixture does not name |
| Fixture.Ext | fixture.go:118 | `filepath.Ext`: a suffix of the path that is empty or starts with its only '.' and holds no '/'; when empty, every '.' of the path is followed by a '/' |
| Fixture.ExtOfSuffix | fixture.go:118-121 | a path that ends in a dot followed by neither dots nor slashes has exactly that ending as its extension, whatever precedes it |
| Fixture.ExtExamples | fixture_test.go:56-58 | the test paths `test.yml` and `version.yaml` are accepted and `invalid.ext` is rejected with extension `.ext` |
| Fixture.YamlPathAccepted | fixture.go:118-121 | every path ending in `.yml` or `.yaml` passes the extension check (`IsYamlExt`), whatever precedes the ending |
| Fixture.YamlPathEnding | fixture.go:118-121 | the converse: a path that passes the extension check ends in `.yml` or `.yaml` |
| Fixture.GetFileData | fixture.go:209-215 | `getFileData`: the file's bytes when the read succeeds, and otherwise the read error wrapped as ErrFailReadFile |
| Fixture.DefaultMarshaler | fixture.go:92 | the default encoder never fails, and decoding its output with the value's kind gives the value back |
| Fixture.FirstRowError | fixture.go:198-202 | the scan returns the first set per-row error, or None exactly when every row succeeded |
| Fixture.BuildMutations | fixture.go:170-193 | succeeds exactly when every value of the column encodes; a failure carries an encoder error of one of its values; success gives one pair per qualifier, with every key the column's row key and every mutation in the family at the resolved timestamp holding the encoded value |
| Fixture.Fixture.constructor | fixture.go:89-93 | a new fixture talks to the given store and encodes with MarshalBigEndian |
| Fixture.Fixture.WithMarshaler | fixture.go:95-109 | with the option, the fixture encodes with the given marshaler |
| Fixture.Fixture.Load | fixture.go:112-125 | a failed read (`getFileData`, fixture.go:209-215) is reported first, as ErrFailReadFile; then an extension other than `.yml`/`.yaml` is reported as ErrUnknownFileExt; then a decoding failure as ErrInvalidFixture; none of the three touches the store; otherwise the outcome is `YamlOutcome`: success leaves the old tables with the fixture's table replaced by the expected one; a failure after the table was created leaves it in place, with no family the fixture does not name |
| Fixture.Fixture.LoadYaml | fixture.go:127-139 | a decoding failure makes no store call; otherwise the table is cleared and, if that succeeded, created and populated (`YamlOutcome`); success replaces exactly that table with the expected one; a failed creation leaves the store as the clear left it, and a later failure leaves the created table in place |
| Fixture.Fixture.ClearTable | fixture.go:141-153 | lists the tables, and deletes the table exactly when a listed name equals it; a missing table is a success that changes nothing; a failed listing or deletion is reported and changes nothing |
| Fixture.Fixture.WriteColumn | fixture.go:169-203 | one column: an encoder error stops before any call and changes nothing; otherwise one bulk write of the planned shape, whose whole-call or first per-row failure is reported; success adds exactly the column's cells; the table stays and keeps its families; no other table changes |
| Fixture.Fixture.SubmitColumn | fixture.go:195-202 | the bulk write is one logged call; the error reported is that call's whole-call or first per-row error; success adds exactly the column's cells; the table keeps its families whatever happens |
| Fixture.Fixture.WriteColumns | fixture.go:169-203 | the columns in order, each as planned, stopping at the first failure; success adds every column's cells; the table stays and keeps its families, failure included |
| Fixture.Fixture.CreateFamily | fixture.go:163-204 | creates the family, then writes its columns; a failed creation skips them; whatever happens the table stays and gains no family but this one |
| Fixture.Fixture.CreateFamilies | fixture.go:163-205 | the families in order, stopping at the first failure; success gives the table every family and every cell; a failure leaves the table in place with no family the fixture does not name |
| Fixture.Fixture.Exec | fixture.go:155-207 | the calls follow the plan (create table, then per family the family and its columns' bulk writes); only the last call may fail; the reported error is that call's or an encoder error for the next column; success leaves the table holding exactly the fixture's families and cells; a failed creation leaves the store unchanged, a later failure leaves the created table in place with no family the fixture does not name; no other table changes |

## Left out

- The network clients are replaced by the in-memory `Store`. Its failures are nondeterministic stand-ins for any backend error. It refuses to create a table or a family that already exists, as the service does; so a fixture that names one family twice fails when it creates that family the second time. Connection set-up in `NewFixture` (fixture.go:79-88) is not part of this model.
- File reading and YAML decoding are parameters of `Load`: a function from path to bytes or error message, and one from bytes to document or error message. `Version.UnmarshalYAML` and its time format (fixture.go:54-70) are not part of this model.
- The clock is the parameter `now`. A time is an integer instant with 0 for Go's zero time. The conversion to the store's microsecond timestamps is not modelled.
- The float32 and float64 cases of MarshalBigEndian (fixture.go:234-237) are left out, because floating point is not modelled.
- The panic on a value of any other type (fixture.go:238-239) is left out. The model's `Value` is a closed union of the integer widths and strings.
- Go's `int` is taken to be 64 bits wide.
- Table names, family names, qualifiers, row keys and paths are Dafny strings, that is sequences of characters. Go strings are byte strings, so a name that is not valid UTF-8 cannot be written down in the model. Cell values are bytes and do not have this limit.
- Go map iteration order is unspecified. `BuildMutations` picks the next qualifier with an arbitrary choice, so its contract holds for every order. The model does not say which order Go picks. The order of the table listing is likewise unspecified, and `Store.Tables` returns the names in any order.
- Error messages and `errors.Wrap` chains are not modelled. Each error is a constructor that carries its cause.
- Concurrent loads of the same table are not modelled. The system itself does not coordinate them.
- The example program under `_example` and the tests are not part of this model, apart from the extension cases `Fixture.ExtExamples` restates.
- Fixture.Ext: models `filepath.Ext` on slash-separated paths only. A Windows volume name or backslash separator is not modelled.
