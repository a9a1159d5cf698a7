/**
 * The fixture loader (fixture.go:23-28, 72-215): read a fixture file, check
 * its extension, decode it, drop any table of the same name, then recreate
 * the table and its families and bulk-write every column's cells.
 *
 * The file system and the YAML decoder are parameters of Load: `read` gives a
 * file's bytes or the read error's message, `parse` gives the decoded
 * document or the decoder's message. The clock is the parameter `now`.
 */
module Fixture {
  import opened Wrappers
  import opened Errors
  import opened Encoding
  import opened FixtureModel
  import opened Bigtable
  import opened LoaderSpec

  /**
   * The default encoder as a Marshaler: MarshalBigEndian never fails on a
   * modelled value, and a reader who knows the value's kind decodes it back.
   */
  function DefaultMarshaler(v: Value): (r: Result<Bytes, Error>)
    ensures r.Ok? && Unmarshal(KindOf(v), r.value) == Some(v)
  {
    UnmarshalMarshal(v);
    Ok(MarshalBigEndian(v))
  }

  /** `getFileData`: the file's bytes, or its read error wrapped as ErrFailReadFile. */
  function GetFileData(path: string, read: string -> Result<Bytes, string>): (r: Result<Bytes, Error>)
    ensures r.Ok? <==> read(path).Ok?
    ensures r.Ok? ==> r.value == read(path).value
    ensures r.Err? ==> r.error == FailReadFile(read(path).error)
  {
    match read(path)
    case Ok(data) => Ok(data)
    case Err(cause) => Err(FailReadFile(cause))
  }

  /**
   * `filepath.Ext` on a slash-separated path: the suffix from the last '.' of
   * the final path element, or empty when that element has no '.'.
   */
  function Ext(path: string): (e: string)
    ensures |e| <= |path| && e == path[|path| - |e|..]
    ensures e != [] ==> e[0] == '.' && forall k :: 0 < k < |e| ==> e[k] != '.' && e[k] != '/'
    ensures e == [] ==> forall k :: 0 <= k < |path| && path[k] == '.' ==> exists j :: k < j < |path| && path[j] == '/'
  {
    if path == [] || path[|path| - 1] == '/' then []
    else if path[|path| - 1] == '.' then ['.']
    else
      var e := Ext(path[..|path| - 1]);
      if e == [] then [] else e + [path[|path| - 1]]
  }

  /** A path that ends in a dot followed by neither dots nor slashes has that ending as its extension. */
  lemma {:induction false} ExtOfSuffix(prefix: string, ext: string)
    requires ext != [] && ext[0] == '.'
    requires forall k :: 0 < k < |ext| ==> ext[k] != '.' && ext[k] != '/'
    ensures Ext(prefix + ext) == ext
  {
    var path := prefix + ext;
    var n := |ext| - 1;
    assert path != [] && path[|path| - 1] == ext[n];
    if n == 0 {
      assert ext == ['.'];
    } else {
      assert ext[n] != '.' && ext[n] != '/';
      var init := path[..|path| - 1];
      assert init == prefix + ext[..n];
      ExtOfSuffix(prefix, ext[..n]);
      assert Ext(path) == Ext(init) + [ext[n]];
      assert ext[..n] + [ext[n]] == ext;
    }
  }

  /** The extensions of the fixture paths the loader's own test cases use. */
  lemma ExtExamples()
    ensures IsYamlExt(Ext("testdata/test.yml"))
    ensures IsYamlExt(Ext("testdata/version.yaml"))
    ensures Ext("testdata/invalid.ext") == ".ext" && !IsYamlExt(Ext("testdata/invalid.ext"))
  {
    ExtOfSuffix("testdata/test", ".yml");
    assert "testdata/test" + ".yml" == "testdata/test.yml";
    ExtOfSuffix("testdata/version", ".yaml");
    assert "testdata/version" + ".yaml" == "testdata/version.yaml";
    ExtOfSuffix("testdata/invalid", ".ext");
    assert "testdata/invalid" + ".ext" == "testdata/invalid.ext";
  }

  /** The extensions Load accepts. */
  predicate IsYamlExt(ext: string)
  {
    ext == ".yml" || ext == ".yaml"
  }

  /** Load accepts every path that ends in ".yml" or ".yaml", whatever comes before. */
  lemma YamlPathAccepted(prefix: string, ext: string)
    requires IsYamlExt(ext)
    ensures IsYamlExt(Ext(prefix + ext))
  {
    assert forall k :: 0 < k < |ext| ==> ext[k] != '.' && ext[k] != '/';
    ExtOfSuffix(prefix, ext);
  }

  /** Load accepts no other path: an accepted path ends in ".yml" or ".yaml". */
  lemma YamlPathEnding(path: string)
    requires IsYamlExt(Ext(path))
    ensures (|path| >= 4 && path[|path| - 4..] == ".yml") || (|path| >= 5 && path[|path| - 5..] == ".yaml")
  {
    YamlSuffix(path, Ext(path));
  }

  /** A YAML extension that is a suffix of the path is one of its last four or five characters. */
  lemma YamlSuffix(path: string, e: string)
    requires IsYamlExt(e) && |e| <= |path| && e == path[|path| - |e|..]
    ensures (|path| >= 4 && path[|path| - 4..] == ".yml") || (|path| >= 5 && path[|path| - 5..] == ".yaml")
  {
    if e == ".yml" {
      assert |e| == 4;
    } else {
      assert |e| == 5;
    }
  }

  /**
   * `FirstRowError`: the scan of a bulk write's per-row errors, in submission
   * order, for the first one that is set.
   */
  method FirstRowError(rowErrs: seq<Option<Error>>) returns (err: Option<Error>)
    ensures err == FirstError(rowErrs)
    ensures err.None? <==> forall i :: 0 <= i < |rowErrs| ==> rowErrs[i].None?
    ensures err.Some? ==> exists i :: 0 <= i < |rowErrs| && rowErrs[i] == err && forall k :: 0 <= k < i ==> rowErrs[k].None?
  {
    var i := 0;
    while i < |rowErrs|
      invariant 0 <= i <= |rowErrs|
      invariant forall k :: 0 <= k < i ==> rowErrs[k].None?
      invariant FirstError(rowErrs[i..]) == FirstError(rowErrs)
    {
      if rowErrs[i].Some? {
        return rowErrs[i];
      }
      assert rowErrs[i..][1..] == rowErrs[i + 1..];
      i := i + 1;
    }
    return None;
  }

  /**
   * The inner loop of `exec` over one column's `Rows`: one mutation and one
   * row key per qualifier, in whatever order the map yields them. The first
   * value the encoder rejects ends the loop with that error.
   */
  method BuildMutations(family: string, cs: Columns, now: Time, marshal: Marshaler)
    returns (keys: seq<string>, muts: seq<Mutation>, err: Option<Error>)
    ensures err.None? <==> Encodable(cs, marshal)
    ensures err.Some? ==> EncodeError(cs, marshal, err.value)
    ensures err.None? ==> BulkShape(keys, muts, family, cs, ResolveTime(cs.version, now), marshal)
  {
    keys, muts := [], [];
    var rest := cs.rows.Keys;
    ghost var ts := ResolveTime(cs.version, now);
    BulkShapeStart(family, cs, ts, marshal);
    while rest != {}
      invariant BulkShapeExcept(keys, muts, family, cs, ts, marshal, rest)
      decreases rest
    {
      var q :| q in rest;
      var t: Time;
      if cs.version.IsZero() {
        t := now;
      } else {
        t := cs.version.time;
      }
      var b := marshal(cs.rows[q]);
      if b.Err? {
        EncodeFailure(cs, marshal, q, b.error);
        return [], [], Some(b.error);
      }
      BulkShapeStep(keys, muts, family, cs, ts, marshal, rest, q, b.value);
      muts := muts + [SetCell(family, q, t, b.value)];
      keys := keys + [cs.key];
      rest := rest - {q};
    }
    BulkShapeDone(keys, muts, family, cs, ts, marshal);
    err := None;
  }

  /** `Fixture`: the store clients it talks to, and the value encoder it writes cells with. */
  class Fixture {
    const store: Store
    const marshaler: Marshaler

    /** `New`: a fixture that encodes values with MarshalBigEndian. */
    constructor (store: Store)
      ensures this.store == store && marshaler == DefaultMarshaler
    {
      this.store := store;
      marshaler := DefaultMarshaler;
    }

    /** `New` with the `WithMarshaler(m)` option: a fixture that encodes values with `m`. */
    constructor WithMarshaler(store: Store, m: Marshaler)
      ensures this.store == store && marshaler == m
    {
      this.store := store;
      marshaler := m;
    }

    /**
     * `Load`: a read failure is reported first, whatever the extension; then
     * an unknown extension; then a decoding failure. None of the three
     * touches the store. A decoded fixture is loaded as LoadYaml says.
     */
    method Load(path: string, read: string -> Result<Bytes, string>,
                parse: Bytes -> Result<QueryModelWithYaml, string>, now: Time) returns (err: Option<Error>)
      modifies store
      ensures read(path).Err? ==>
        err == Some(FailReadFile(read(path).error)) && unchanged(store)
      ensures read(path).Ok? && !IsYamlExt(Ext(path)) ==>
        err == Some(UnknownFileExt(Ext(path))) && unchanged(store)
      ensures read(path).Ok? && IsYamlExt(Ext(path)) && parse(read(path).value).Err? ==>
        err == Some(InvalidFixture(parse(read(path).value).error)) && unchanged(store)
      ensures read(path).Ok? && IsYamlExt(Ext(path)) && parse(read(path).value).Ok? ==>
        && old(store.calls) < store.calls
        && YamlOutcome(old(store.tables), store.tables, store.calls[|old(store.calls)|..],
                       parse(read(path).value).value, now, marshaler, err)
      ensures err.None? ==> read(path).Ok? && IsYamlExt(Ext(path)) && parse(read(path).value).Ok?
      ensures err.None? ==>
        var m := parse(read(path).value).value;
        store.tables == old(store.tables)[m.table := Expected(m, now, marshaler)]
    {
      var data := GetFileData(path, read);
      if data.Err? {
        return Some(data.error);
      }
      var ext := Ext(path);
      if IsYamlExt(ext) {
        err := LoadYaml(data.value, parse, now);
      } else {
        err := Some(UnknownFileExt(ext));
      }
    }

    /**
     * `loadYaml`: a decoding failure is reported as ErrInvalidFixture with no
     * store call; otherwise the table is cleared and, if that succeeded,
     * recreated and populated. Only the named table can change, and success
     * leaves it holding exactly the fixture's families and cells.
     */
    method LoadYaml(file: Bytes, parse: Bytes -> Result<QueryModelWithYaml, string>, now: Time) returns (err: Option<Error>)
      modifies store
      ensures parse(file).Err? ==> err == Some(InvalidFixture(parse(file).error)) && unchanged(store)
      ensures parse(file).Ok? ==>
        && old(store.calls) < store.calls
        && YamlOutcome(old(store.tables), store.tables, store.calls[|old(store.calls)|..],
                       parse(file).value, now, marshaler, err)
      ensures err.None? ==> parse(file).Ok?
      ensures err.None? ==>
        store.tables == old(store.tables)[parse(file).value.table := Expected(parse(file).value, now, marshaler)]
    {
      var model := parse(file);
      if model.Err? {
        return Some(InvalidFixture(model.error));
      }
      var m := model.value;
      ghost var calls0, tables0 := store.calls, store.tables;
      err := ClearTable(m.table);
      ghost var calls1, tables1 := store.calls, store.tables;
      if err.Some? {
        ClearFailed(tables0, tables1, calls1[|calls0|..], m, now, marshaler, err);
        return;
      }
      err := Exec(m, now);
      LogSplit(calls0, calls1, store.calls);
      ClearThenExec(tables0, tables1, store.tables, calls1[|calls0|..], store.calls[|calls1|..], m, now, marshaler, err);
    }

    /**
     * `clearTable`: list the tables and delete `table` exactly when a listed
     * name equals it. No match is a success that changes nothing.
     */
    method ClearTable(table: string) returns (err: Option<Error>)
      modifies store
      ensures old(store.calls) < store.calls
      ensures ClearOutcome(old(store.tables), store.tables, store.calls[|old(store.calls)|..], table, err)
    {
      ghost var calls0 := store.calls;
      var tables, e := store.Tables();
      if e.Some? {
        return e;
      }
      var i := 0;
      while i < |tables|
        invariant 0 <= i <= |tables|
        invariant forall k :: 0 <= k < i ==> tables[k] != table
      {
        if tables[i] == table {
          err := store.DeleteTable(table);
          return;
        }
        i := i + 1;
      }
      return None;
    }

    /**
     * The body of the column loop of `exec`: build the column's mutations,
     * apply them as one bulk write, and surface the first per-row error. An
     * encoder error stops before any call.
     */
    method WriteColumn(table: string, family: string, cs: Columns, now: Time) returns (err: Option<Error>)
      modifies store
      ensures old(store.calls) <= store.calls
      ensures PartialRun(store.calls[|old(store.calls)|..],
                         [Step.WriteColumn(table, family, cs, ResolveTime(cs.version, now))], marshaler, err)
      ensures err.None? ==> table in old(store.tables) && table in store.tables
      ensures err.None? ==> store.tables[table] == old(store.tables)[table].(
        cells := old(store.tables)[table].cells + ColumnCells(family, cs, ResolveTime(cs.version, now), marshaler))
      ensures table in old(store.tables) ==> table in store.tables && store.tables[table].families == old(store.tables)[table].families
      ensures store.calls == old(store.calls) ==> store.tables == old(store.tables)
      ensures store.tables - {table} == old(store.tables) - {table}
    {
      ghost var step := Step.WriteColumn(table, family, cs, ResolveTime(cs.version, now));
      var keys, muts, encodeErr := BuildMutations(family, cs, now, marshaler);
      if encodeErr.Some? {
        assert store.calls[|old(store.calls)|..] == [];
        return encodeErr;
      }
      err := SubmitColumn(table, family, cs, ResolveTime(cs.version, now), keys, muts);
      ghost var call := store.calls[|store.calls| - 1];
      assert store.calls[|old(store.calls)|..] == [call];
      assert Conforms(call.req, step, marshaler);
      assert [call][..0] == [] && [step][..0] == [];
    }

    /** The bulk write of one column's mutations, and the scan of its per-row errors. */
    method SubmitColumn(table: string, family: string, cs: Columns, ghost ts: Time, keys: seq<string>, muts: seq<Mutation>)
      returns (err: Option<Error>)
      requires BulkShape(keys, muts, family, cs, ts, marshaler)
      modifies store
      ensures |store.calls| == |old(store.calls)| + 1 && old(store.calls) <= store.calls
      ensures store.calls[|store.calls| - 1].req == Request.ApplyBulk(table, keys, muts)
      ensures err == ErrorOf(store.calls[|store.calls| - 1].resp)
      ensures err.None? ==> table in old(store.tables) && table in store.tables
      ensures err.None? ==> store.tables[table] == old(store.tables)[table].(
        cells := old(store.tables)[table].cells + ColumnCells(family, cs, ts, marshaler))
      ensures table in old(store.tables) ==> table in store.tables && store.tables[table].families == old(store.tables)[table].families
      ensures store.tables - {table} == old(store.tables) - {table}
    {
      var rowErrs, bulkErr := store.ApplyBulk(table, keys, muts);
      if bulkErr.Some? {
        return bulkErr;
      }
      OnlyOneTableChanges(old(store.tables), table, store.tables[table]);
      err := FirstRowError(rowErrs);
      if err.None? {
        BulkWriteCells(old(store.tables)[table].cells, keys, muts, rowErrs, family, cs, ts, marshaler);
      }
    }

    /**
     * The column loop of `exec` for one family: one bulk write per column, in
     * order, stopping at the first failure. Success writes every column's
     * cells into the table.
     */
    method WriteColumns(table: string, family: string, cols: seq<Columns>, now: Time) returns (err: Option<Error>)
      requires table in store.tables
      modifies store
      ensures old(store.calls) <= store.calls
      ensures PartialRun(store.calls[|old(store.calls)|..], ColumnsPlan(table, family, cols, now), marshaler, err)
      ensures err.None? ==> table in store.tables
      ensures err.None? ==> store.tables[table] == AddColumns(old(store.tables)[table], family, cols, now, marshaler)
      ensures table in store.tables && store.tables[table].families == old(store.tables)[table].families
      ensures store.tables - {table} == old(store.tables) - {table}
    {
      ghost var calls0, tables0 := store.calls, store.tables;
      ghost var t0 := tables0[table];
      err := None;
      assert cols[..0] == [] && store.calls[|calls0|..] == [];
      var j := 0;
      while j < |cols|
        invariant 0 <= j <= |cols|
        invariant err.None? && calls0 <= store.calls
        invariant RunSoFar(store.calls[|calls0|..], ColumnsPlan(table, family, cols[..j], now), marshaler)
        invariant table in store.tables && store.tables[table] == AddColumns(t0, family, cols[..j], now, marshaler)
        invariant store.tables[table].families == t0.families
        invariant store.tables - {table} == tables0 - {table}
      {
        ghost var calls1 := store.calls;
        ghost var step := Step.WriteColumn(table, family, cols[j], ResolveTime(cols[j].version, now));
        ghost var pre := ColumnsPlan(table, family, cols[..j], now);
        ColumnsPlanStep(table, family, cols, now, j);
        assert cols[..j + 1][..j] == cols[..j];
        err := WriteColumn(table, family, cols[j], now);
        LogSplit(calls0, calls1, store.calls);
        RunStep(calls1[|calls0|..], pre, store.calls[|calls1|..], [step], ColumnsPlan(table, family, cols, now), marshaler, err);
        if err.Some? {
          return;
        }
        j := j + 1;
      }
      assert cols[..j] == cols;
    }

    /**
     * The body of the family loop of `exec`: create the family, then write
     * its columns. A failure to create the family skips the columns.
     */
    method CreateFamily(table: string, cf: ColumnFamilies, now: Time) returns (err: Option<Error>)
      modifies store
      ensures old(store.calls) <= store.calls
      ensures PartialRun(store.calls[|old(store.calls)|..], FamilyPlan(table, cf, now), marshaler, err)
      ensures err.None? ==> table in old(store.tables) && table in store.tables
      ensures err.None? ==> store.tables[table] == AddFamily(old(store.tables)[table], cf, now, marshaler)
      ensures table in old(store.tables) ==>
        table in store.tables && store.tables[table].families <= old(store.tables)[table].families + {cf.family}
      ensures store.tables - {table} == old(store.tables) - {table}
    {
      ghost var calls0, tables0 := store.calls, store.tables;
      err := store.CreateColumnFamily(table, cf.family);
      ghost var call := store.calls[|calls0|];
      if err.Some? {
        FamilyFailed(calls0, call, table, cf, now, marshaler);
        return;
      }
      OnlyOneTableChanges(tables0, table, store.tables[table]);
      err := WriteColumns(table, cf.family, cf.columns, now);
      FamilyThenColumns(calls0, call, store.calls, table, cf, now, marshaler, err);
    }

    /**
     * The family loop of `exec`: each family in order, stopping at the first
     * failure. Success creates every family and writes every column.
     */
    method CreateFamilies(table: string, fams: seq<ColumnFamilies>, now: Time) returns (err: Option<Error>)
      modifies store
      ensures old(store.calls) <= store.calls
      ensures PartialRun(store.calls[|old(store.calls)|..], FamiliesPlan(table, fams, now), marshaler, err)
      ensures err.None? && table in old(store.tables) ==>
        table in store.tables && store.tables[table] == AddFamilies(old(store.tables)[table], fams, now, marshaler)
      ensures table in old(store.tables) ==>
        table in store.tables && store.tables[table].families <= old(store.tables)[table].families + FamilySet(fams)
      ensures store.tables - {table} == old(store.tables) - {table}
    {
      ghost var calls0, tables0 := store.calls, store.tables;
      err := None;
      assert fams[..0] == [] && store.calls[|calls0|..] == [];
      var i := 0;
      while i < |fams|
        invariant 0 <= i <= |fams|
        invariant err.None? && calls0 <= store.calls
        invariant RunSoFar(store.calls[|calls0|..], FamiliesPlan(table, fams[..i], now), marshaler)
        invariant table in tables0 ==>
          table in store.tables && store.tables[table] == AddFamilies(tables0[table], fams[..i], now, marshaler)
        invariant table in tables0 ==>
          table in store.tables && store.tables[table].families <= tables0[table].families + FamilySet(fams[..i])
        invariant store.tables - {table} == tables0 - {table}
      {
        ghost var calls1 := store.calls;
        ghost var pre := FamiliesPlan(table, fams[..i], now);
        FamiliesPlanStep(table, fams, now, i);
        err := CreateFamily(table, fams[i], now);
        FamilySetStep(fams, i);
        FamilySetPrefix(fams, i + 1);
        LogSplit(calls0, calls1, store.calls);
        RunStep(calls1[|calls0|..], pre, store.calls[|calls1|..], FamilyPlan(table, fams[i], now), FamiliesPlan(table, fams, now),
                marshaler, err);
        if err.Some? {
          return;
        }
        if table in tables0 {
          AddFamiliesStep(tables0[table], fams, now, marshaler, i);
        }
        i := i + 1;
      }
      assert fams[..i] == fams;
    }

    /**
     * `exec`: create the table, then per family create the family and write
     * each of its columns as one bulk write. The calls follow the plan in
     * order and the first failure ends the run; success leaves the table
     * holding exactly the fixture's families and cells.
     */
    method Exec(model: QueryModelWithYaml, now: Time) returns (err: Option<Error>)
      modifies store
      ensures old(store.calls) < store.calls
      ensures ExecOutcome(old(store.tables), store.tables, store.calls[|old(store.calls)|..], model, now, marshaler, err)
    {
      ghost var calls0, tables0 := store.calls, store.tables;
      var t := model.table;
      err := store.CreateTable(t);
      ghost var call := store.calls[|calls0|];
      if err.Some? {
        CreateFailed(tables0, store.tables, calls0, call, model, now, marshaler);
      } else {
        OnlyOneTableChanges(tables0, t, store.tables[t]);
        err := CreateFamilies(t, model.columnFamilies, now);
        CreateThenPopulateLog(tables0, store.tables, calls0, call, store.calls, model, now, marshaler, err);
      }
    }
  }
}
