/**
 * An in-memory stand-in for the wide-column store behind the admin and data
 * clients the loader calls (fixture.go:143-149, 158-165, 195).
 *
 * The store holds named tables; a table has a set of column families and a
 * cell map keyed by (row key, family, qualifier, timestamp). Every call may
 * fail for reasons outside the loader's control, so each one chooses
 * nondeterministically whether to fail. Every call is appended, with its
 * response, to the ghost log `calls`, which is how callers state which calls
 * they made and in which order.
 */
module Bigtable {
  import opened Wrappers
  import opened Errors
  import opened Encoding
  import opened FixtureModel

  datatype CellKey = CellKey(row: string, family: string, qualifier: string, timestamp: Time)

  datatype Table = Table(families: set<string>, cells: map<CellKey, Bytes>)

  /** A mutation that sets one cell of a row; the row key travels beside it in a bulk write. */
  datatype Mutation = SetCell(family: string, qualifier: string, timestamp: Time, value: Bytes)

  datatype Request =
    | ListTables
    | DeleteTable(name: string)
    | CreateTable(name: string)
    | CreateColumnFamily(table: string, family: string)
    | ApplyBulk(table: string, keys: seq<string>, muts: seq<Mutation>)

  datatype Response =
    | Listed(names: seq<string>)
    | Done
    | RowResults(rowErrs: seq<Option<Error>>)
    | Failed(error: Error)

  datatype Call = Call(req: Request, resp: Response)

  /** The cell a mutation sets when applied to row `key`. */
  function CellOf(key: string, m: Mutation): CellKey
  {
    CellKey(key, m.family, m.qualifier, m.timestamp)
  }

  /** The first per-row error, in submission order. */
  function FirstError(errs: seq<Option<Error>>): Option<Error>
  {
    if errs == [] then None else if errs[0].Some? then errs[0] else FirstError(errs[1..])
  }

  /** The error a caller sees from a response: a whole-call failure or the first per-row failure. */
  function ErrorOf(resp: Response): Option<Error>
  {
    match resp
    case Failed(e) => Some(e)
    case RowResults(errs) => FirstError(errs)
    case _ => None
  }

  function Respond(err: Option<Error>): Response
  {
    if err.Some? then Failed(err.value) else Done
  }

  /** The cells after applying, in order, every mutation whose row did not fail. */
  function ApplyRows(cells: map<CellKey, Bytes>, keys: seq<string>, muts: seq<Mutation>,
                     rowErrs: seq<Option<Error>>): map<CellKey, Bytes>
    requires |keys| == |muts| == |rowErrs|
  {
    if keys == [] then cells
    else
      var n := |keys| - 1;
      var before := ApplyRows(cells, keys[..n], muts[..n], rowErrs[..n]);
      if rowErrs[n].None? then before[CellOf(keys[n], muts[n]) := muts[n].value] else before
  }

  lemma {:induction false} FirstErrorIsFirst(errs: seq<Option<Error>>)
    ensures FirstError(errs).None? <==> forall i :: 0 <= i < |errs| ==> errs[i].None?
    ensures FirstError(errs).Some? ==>
      exists i :: 0 <= i < |errs| && errs[i] == FirstError(errs) && forall k :: 0 <= k < i ==> errs[k].None?
  {
    if errs != [] && errs[0].None? {
      FirstErrorIsFirst(errs[1..]);
      if FirstError(errs).Some? {
        var i :| 0 <= i < |errs[1..]| && errs[1..][i] == FirstError(errs[1..])
                 && forall k :: 0 <= k < i ==> errs[1..][k].None?;
        assert errs[i + 1] == FirstError(errs);
        forall k | 0 <= k < i + 1 ensures errs[k].None? {
          if k > 0 { assert errs[k] == errs[1..][k - 1]; }
        }
      } else {
        forall i | 0 <= i < |errs| ensures errs[i].None? {
          if i > 0 { assert errs[i] == errs[1..][i - 1]; }
        }
      }
    }
  }

  /** The cells a list of (key, mutation) pairs sets, a later pair overriding an earlier one. */
  function RowsMap(keys: seq<string>, muts: seq<Mutation>): map<CellKey, Bytes>
    requires |keys| == |muts|
  {
    if keys == [] then map[]
    else
      var n := |keys| - 1;
      RowsMap(keys[..n], muts[..n])[CellOf(keys[n], muts[n]) := muts[n].value]
  }

  /** With no failed row, a bulk write adds exactly its pairs' cells. */
  lemma {:induction false} ApplyRowsAllSucceed(cells: map<CellKey, Bytes>, keys: seq<string>,
                                               muts: seq<Mutation>, rowErrs: seq<Option<Error>>)
    requires |keys| == |muts| == |rowErrs|
    requires forall i :: 0 <= i < |rowErrs| ==> rowErrs[i].None?
    ensures ApplyRows(cells, keys, muts, rowErrs) == cells + RowsMap(keys, muts)
  {
    if keys != [] {
      var n := |keys| - 1;
      ApplyRowsAllSucceed(cells, keys[..n], muts[..n], rowErrs[..n]);
    }
  }

  lemma {:induction false} RowsMapMember(keys: seq<string>, muts: seq<Mutation>, k: CellKey)
    requires |keys| == |muts| && k in RowsMap(keys, muts)
    ensures exists i :: 0 <= i < |muts| && k == CellOf(keys[i], muts[i])
  {
    var n := |keys| - 1;
    if k != CellOf(keys[n], muts[n]) {
      RowsMapMember(keys[..n], muts[..n], k);
      var i :| 0 <= i < n && k == CellOf(keys[..n][i], muts[..n][i]);
      assert k == CellOf(keys[i], muts[i]);
    }
  }

  /** When no two pairs set the same cell, each pair's cell holds that pair's value. */
  lemma {:induction false} RowsMapValue(keys: seq<string>, muts: seq<Mutation>, i: nat)
    requires |keys| == |muts| && i < |muts|
    requires forall a, b :: 0 <= a < b < |muts| ==> CellOf(keys[a], muts[a]) != CellOf(keys[b], muts[b])
    ensures CellOf(keys[i], muts[i]) in RowsMap(keys, muts)
    ensures RowsMap(keys, muts)[CellOf(keys[i], muts[i])] == muts[i].value
  {
    var n := |keys| - 1;
    if i < n {
      assert CellOf(keys[..n][i], muts[..n][i]) == CellOf(keys[i], muts[i]);
      RowsMapValue(keys[..n], muts[..n], i);
    }
  }

  class Store {
    var tables: map<string, Table>
    ghost var calls: seq<Call>

    constructor (tables: map<string, Table>)
      ensures this.tables == tables && calls == []
    {
      this.tables := tables;
      calls := [];
    }

    /** The store may be unavailable for any call: an arbitrary backend error, or none. */
    method Outage() returns (err: Option<Error>)
    {
      var down: bool :| true;
      if down {
        var message: string :| true;
        err := Some(Backend(message));
      } else {
        err := None;
      }
    }

    /** `AdminClient.Tables`: the names of all tables, in no particular order. */
    method Tables() returns (names: seq<string>, err: Option<Error>)
      modifies this`calls
      ensures calls == old(calls) + [Call(Request.ListTables, if err.Some? then Failed(err.value) else Listed(names))]
      ensures err.None? ==> forall n :: n in names <==> n in tables
    {
      err := Outage();
      names := [];
      if err.None? {
        var rest := tables.Keys;
        while rest != {}
          invariant rest <= tables.Keys
          invariant forall n :: n in names <==> n in tables.Keys - rest
          decreases rest
        {
          var n :| n in rest;
          names := names + [n];
          rest := rest - {n};
        }
      }
      calls := calls + [Call(Request.ListTables, if err.Some? then Failed(err.value) else Listed(names))];
    }

    /** `AdminClient.DeleteTable`: fails for a table that does not exist. */
    method DeleteTable(name: string) returns (err: Option<Error>)
      modifies this
      ensures calls == old(calls) + [Call(Request.DeleteTable(name), Respond(err))]
      ensures name !in old(tables) ==> err.Some?
      ensures err.None? ==> tables == old(tables) - {name}
      ensures err.Some? ==> tables == old(tables)
    {
      if name !in tables {
        err := Some(Backend("table not found"));
      } else {
        err := Outage();
        if err.None? {
          tables := tables - {name};
        }
      }
      calls := calls + [Call(Request.DeleteTable(name), Respond(err))];
    }

    /** `AdminClient.CreateTable`: a new table with no families and no cells; fails if the name is taken. */
    method CreateTable(name: string) returns (err: Option<Error>)
      modifies this
      ensures calls == old(calls) + [Call(Request.CreateTable(name), Respond(err))]
      ensures name in old(tables) ==> err.Some?
      ensures err.None? ==> tables == old(tables)[name := Table({}, map[])]
      ensures err.Some? ==> tables == old(tables)
    {
      if name in tables {
        err := Some(Backend("table already exists"));
      } else {
        err := Outage();
        if err.None? {
          tables := tables[name := Table({}, map[])];
        }
      }
      calls := calls + [Call(Request.CreateTable(name), Respond(err))];
    }

    /**
     * `AdminClient.CreateColumnFamily`: adds a new family to an existing table.
     * A family the table already has is refused, as the service answers
     * AlreadyExists.
     */
    method CreateColumnFamily(table: string, family: string) returns (err: Option<Error>)
      modifies this
      ensures calls == old(calls) + [Call(Request.CreateColumnFamily(table, family), Respond(err))]
      ensures table !in old(tables) || family in old(tables)[table].families ==> err.Some?
      ensures err.None? ==> table in old(tables) && family !in old(tables)[table].families
      ensures err.None? ==>
        tables == old(tables)[table := old(tables)[table].(families := old(tables)[table].families + {family})]
      ensures err.Some? ==> tables == old(tables)
    {
      if table !in tables {
        err := Some(Backend("table not found"));
      } else if family in tables[table].families {
        err := Some(Backend("family already exists"));
      } else {
        err := Outage();
        if err.None? {
          tables := tables[table := tables[table].(families := tables[table].families + {family})];
        }
      }
      calls := calls + [Call(Request.CreateColumnFamily(table, family), Respond(err))];
    }

    /**
     * `Table.ApplyBulk`: applies each (key, mutation) pair as its own row
     * write. Either the whole call fails and nothing is written, or every row
     * gets its own outcome and exactly the rows that did not fail are applied.
     * A row aimed at a family the table lacks always fails.
     */
    method ApplyBulk(table: string, keys: seq<string>, muts: seq<Mutation>) returns (rowErrs: seq<Option<Error>>, err: Option<Error>)
      modifies this
      ensures calls == old(calls) + [Call(Request.ApplyBulk(table, keys, muts), if err.Some? then Failed(err.value) else RowResults(rowErrs))]
      ensures table !in old(tables) || |keys| != |muts| ==> err.Some?
      ensures err.Some? ==> tables == old(tables)
      ensures err.None? ==> table in old(tables) && |rowErrs| == |keys| == |muts|
      ensures err.None? ==> forall i :: 0 <= i < |muts| && muts[i].family !in old(tables)[table].families ==> rowErrs[i].Some?
      ensures err.None? ==>
        tables == old(tables)[table := old(tables)[table].(cells := ApplyRows(old(tables)[table].cells, keys, muts, rowErrs))]
    {
      rowErrs := [];
      if table !in tables {
        err := Some(Backend("table not found"));
      } else if |keys| != |muts| {
        err := Some(Backend("mismatched row keys and mutations"));
      } else {
        err := Outage();
        if err.None? {
          var t := tables[table];
          var cells := t.cells;
          var i := 0;
          while i < |keys|
            invariant 0 <= i <= |keys| && |rowErrs| == i
            invariant forall k :: 0 <= k < i && muts[k].family !in t.families ==> rowErrs[k].Some?
            invariant cells == ApplyRows(t.cells, keys[..i], muts[..i], rowErrs)
            invariant calls == old(calls) && tables == old(tables)
          {
            var rowErr: Option<Error>;
            if muts[i].family !in t.families {
              rowErr := Some(Backend("family not found"));
            } else {
              rowErr := Outage();
            }
            if rowErr.None? {
              cells := cells[CellOf(keys[i], muts[i]) := muts[i].value];
            }
            ghost var prev := rowErrs;
            rowErrs := rowErrs + [rowErr];
            assert keys[..i + 1][..i] == keys[..i] && muts[..i + 1][..i] == muts[..i] && rowErrs[..i] == prev;
            i := i + 1;
          }
          assert keys[..i] == keys && muts[..i] == muts;
          tables := tables[table := t.(cells := cells)];
        }
      }
      calls := calls + [Call(Request.ApplyBulk(table, keys, muts), if err.Some? then Failed(err.value) else RowResults(rowErrs))];
    }
  }
}
