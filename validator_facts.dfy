/** What the validator's report means: when it is empty, how often a reused
    name is reported, and what the table and column maps it builds hold. */
module ValidatorFacts {
  import opened Schema
  import opened Seqs
  import opened Validator

  predicate Distinct(xs: seq<string>)
  {
    forall i, j :: 0 <= i < j < |xs| ==> xs[i] != xs[j]
  }

  lemma {:induction false} DistinctSnoc(xs: seq<string>, x: string)
    ensures Distinct(xs + [x]) <==> Distinct(xs) && x !in xs
  {
    var ys := xs + [x];
    if Distinct(xs) && x !in xs {
      forall i, j | 0 <= i < j < |ys|
        ensures ys[i] != ys[j]
      {
        assert ys[i] == xs[i];
        if j < |xs| {
          assert ys[j] == xs[j];
        }
      }
    }
    if Distinct(ys) {
      forall i, j | 0 <= i < j < |xs|
        ensures xs[i] != xs[j]
      {
        assert xs[i] == ys[i] && xs[j] == ys[j];
      }
      forall k | 0 <= k < |xs|
        ensures xs[k] != x
      {
        assert xs[k] == ys[k] && x == ys[|xs|];
      }
    }
  }

  lemma {:induction false} DistinctAppend(xs: seq<string>, ys: seq<string>)
    ensures Distinct(xs + ys) <==> Distinct(xs) && Distinct(ys) && forall y :: y in ys ==> y !in xs
  {
    var zs := xs + ys;
    if Distinct(zs) {
      forall i, j | 0 <= i < j < |ys|
        ensures ys[i] != ys[j]
      {
        assert ys[i] == zs[|xs| + i] && ys[j] == zs[|xs| + j];
      }
      forall i, j | 0 <= i < j < |xs|
        ensures xs[i] != xs[j]
      {
        assert xs[i] == zs[i] && xs[j] == zs[j];
      }
      forall y | y in ys
        ensures y !in xs
      {
        var b :| 0 <= b < |ys| && ys[b] == y;
        forall a | 0 <= a < |xs|
          ensures xs[a] != y
        {
          assert xs[a] == zs[a] && y == zs[|xs| + b];
        }
      }
    }
    if Distinct(xs) && Distinct(ys) && forall y :: y in ys ==> y !in xs {
      forall i, j | 0 <= i < j < |zs|
        ensures zs[i] != zs[j]
      {
        if j < |xs| {
          assert zs[i] == xs[i] && zs[j] == xs[j];
        } else if i < |xs| {
          assert zs[i] == xs[i] && zs[j] == ys[j - |xs|];
          assert ys[j - |xs|] in ys;
        } else {
          assert zs[i] == ys[i - |xs|] && zs[j] == ys[j - |xs|];
        }
      }
    }
  }

  // ---------------------------------------------------------------------
  // Repeated names

  /** Nothing is reported exactly when the names are pairwise different and
      none was seen before. */
  lemma {:induction false} RepeatsAfterEmpty(seen: seq<string>, xs: seq<string>)
    ensures RepeatsAfter(seen, xs) == [] <==> Distinct(xs) && forall x :: x in xs ==> x !in seen
    decreases |xs|
  {
    if xs != [] {
      var init, x := xs[..|xs| - 1], xs[|xs| - 1];
      assert xs == init + [x];
      RepeatsAfterEmpty(seen, init);
      DistinctSnoc(init, x);
    }
  }

  lemma {:induction false} RepeatsEmpty(xs: seq<string>)
    ensures Repeats(xs) == [] <==> Distinct(xs)
  {
    RepeatsAfterEmpty([], xs);
  }

  /** A name that occurs `k > 0` times is reported `k - 1` times: once for
      every reuse, never for its first occurrence. */
  lemma {:induction false} RepeatsCount(xs: seq<string>, x: string)
    ensures multiset(Repeats(xs))[x] == if x in xs then multiset(xs)[x] - 1 else 0
    decreases |xs|
  {
    if xs != [] {
      var init, y := xs[..|xs| - 1], xs[|xs| - 1];
      assert xs == init + [y];
      RepeatsCount(init, x);
      assert Repeats(xs) == Repeats(init) + (if y in init then [y] else []);
    }
  }

  lemma {:induction false} DuplicatesCount(tn: string, kind: NameKind, names: seq<string>, x: string)
    ensures multiset(Duplicates(tn, kind, names))[DuplicateName(tn, kind, x)] == multiset(names)[x]
    decreases |names|
  {
    if names != [] {
      var init, y := names[..|names| - 1], names[|names| - 1];
      assert names == init + [y];
      DuplicatesCount(tn, kind, init, x);
    }
  }

  /** validateIndexName reports an index name once per reuse across the four
      kinds of index of the table. */
  lemma {:induction false} IndexNameReports(t: Table, x: string)
    ensures multiset(IndexNameDiags(t))[DuplicateName(t.name, IndexName, x)]
      == if x in AllIndexNames(t) then multiset(AllIndexNames(t))[x] - 1 else 0
  {
    DuplicatesCount(t.name, IndexName, Repeats(AllIndexNames(t)), x);
    RepeatsCount(AllIndexNames(t), x);
  }

  /** The names carried by the "duplicated name" diagnostics of `ds`. */
  function ReportedNames(ds: seq<Diagnostic>): seq<string>
  {
    if ds == [] then []
    else
      var d := ds[|ds| - 1];
      ReportedNames(ds[..|ds| - 1]) + (if d.DuplicateName? then [d.name] else [])
  }

  lemma {:induction false} ReportedNamesAppend(a: seq<Diagnostic>, b: seq<Diagnostic>)
    ensures ReportedNames(a + b) == ReportedNames(a) + ReportedNames(b)
    decreases |b|
  {
    if b == [] {
      assert a + b == a;
    } else {
      var init := b[..|b| - 1];
      assert b == init + [b[|b| - 1]];
      assert (a + b)[..|a + b| - 1] == a + init;
      ReportedNamesAppend(a, init);
    }
  }

  lemma {:induction false} ReportedDuplicates(tn: string, kind: NameKind, names: seq<string>)
    ensures ReportedNames(Duplicates(tn, kind, names)) == names
    decreases |names|
  {
    if names != [] {
      var init := names[..|names| - 1];
      ReportedDuplicates(tn, kind, init);
      DuplicatesSnoc(tn, kind, init, names[|names| - 1]);
      assert names == init + [names[|names| - 1]];
      ReportedNamesAppend(Duplicates(tn, kind, init), [DuplicateName(tn, kind, names[|names| - 1])]);
    }
  }

  /** validateConstraints reports, across all tables, exactly the reuses of
      foreign-key names: a name reused in another table is reported too. */
  lemma {:induction false} ForeignKeyNameReports(ts: seq<Table>)
    ensures ReportedNames(ForeignKeyNameDiags(ts)) == Repeats(AllForeignKeyNames(ts))
    decreases |ts|
  {
    if ts != [] {
      var init, t := ts[..|ts| - 1], ts[|ts| - 1];
      var before, names := AllForeignKeyNames(init), ForeignKeyNames(t.foreignKeys);
      ForeignKeyNameReports(init);
      ReportedNamesAppend(ForeignKeyNameDiags(init), Duplicates(t.name, ForeignKeyName, RepeatsAfter(before, names)));
      ReportedDuplicates(t.name, ForeignKeyName, RepeatsAfter(before, names));
      RepeatsAfterAppend([], before, names);
      assert [] + before == before;
    }
  }

  lemma {:induction false} ForeignKeyNameDiagsEmpty(ts: seq<Table>)
    ensures ForeignKeyNameDiags(ts) == [] <==> Distinct(AllForeignKeyNames(ts))
  {
    ForeignKeyNameReports(ts);
    RepeatsEmpty(AllForeignKeyNames(ts));
    assert ReportedNames([]) == [];
    if ForeignKeyNameDiags(ts) != [] {
      NoReportedNames(ts);
    }
  }

  /** Every diagnostic validateConstraints saves is a "duplicated name" one,
      so an empty list of reported names means an empty report. */
  lemma {:induction false} NoReportedNames(ts: seq<Table>)
    ensures |ReportedNames(ForeignKeyNameDiags(ts))| == |ForeignKeyNameDiags(ts)|
    decreases |ts|
  {
    if ts != [] {
      var init, t := ts[..|ts| - 1], ts[|ts| - 1];
      var ds := Duplicates(t.name, ForeignKeyName, RepeatsAfter(AllForeignKeyNames(init), ForeignKeyNames(t.foreignKeys)));
      NoReportedNames(init);
      ReportedNamesAppend(ForeignKeyNameDiags(init), ds);
      ReportedDuplicates(t.name, ForeignKeyName, RepeatsAfter(AllForeignKeyNames(init), ForeignKeyNames(t.foreignKeys)));
    }
  }

  // ---------------------------------------------------------------------
  // The table and column maps built by createTableMap

  /** The table map binds exactly the table names, each to a table of the
      input that carries that name. */
  lemma {:induction false} TableMapKeys(ts: seq<Table>)
    ensures forall n :: n in TableMapOf(ts) <==> n in TableNames(ts)
    ensures forall n :: n in TableMapOf(ts) ==> TableMapOf(ts)[n].name == n && TableMapOf(ts)[n] in ts
    decreases |ts|
  {
    if ts != [] {
      var init := ts[..|ts| - 1];
      TableMapKeys(init);
      assert TableNames(ts) == TableNames(init) + [ts[|ts| - 1].name];
      assert forall x :: x in init ==> x in ts;
    }
  }

  /** A table is the one the map binds to its name exactly when no earlier
      table has that name: the first table of each name wins. */
  lemma {:induction false} TableMapFirst(ts: seq<Table>, i: nat)
    requires i < |ts| && forall k :: 0 <= k < i ==> ts[k].name != ts[i].name
    ensures ts[i].name in TableMapOf(ts) && TableMapOf(ts)[ts[i].name] == ts[i]
    decreases |ts|
  {
    var init := ts[..|ts| - 1];
    TableMapKeys(init);
    if i == |ts| - 1 {
      assert ts[i].name !in TableNames(init);
    } else {
      TableMapFirst(init, i);
    }
  }

  lemma {:induction false} ColumnsOfMap(tn: string, cols: seq<Column>, cm: ColumnMap)
    ensures forall k :: k in ColumnsOf(tn, cols, cm) <==> k in cm || (k.0 == tn && k.1 in ColumnNames(cols))
    ensures forall k :: k in cm ==> ColumnsOf(tn, cols, cm)[k] == cm[k]
    ensures forall k :: k in ColumnsOf(tn, cols, cm) && k !in cm ==>
      ColumnsOf(tn, cols, cm)[k] in cols && ColumnsOf(tn, cols, cm)[k].name == k.1
  {
    forall k
      ensures k in ColumnsOf(tn, cols, cm) <==> k in cm || (k.0 == tn && k.1 in ColumnNames(cols))
      ensures k in cm ==> ColumnsOf(tn, cols, cm)[k] == cm[k]
      ensures k in ColumnsOf(tn, cols, cm) && k !in cm ==>
        ColumnsOf(tn, cols, cm)[k] in cols && ColumnsOf(tn, cols, cm)[k].name == k.1
    {
      ColumnsOfKey(tn, cols, cm, k);
    }
  }

  /** The column map binds (table, column) exactly when the table map binds
      the table and that table has the column, and the column it binds is a
      column of that table with that name. */
  lemma {:induction false} ColumnMapKeys(ts: seq<Table>)
    ensures forall k :: k in ColumnMapOf(ts) <==>
      k.0 in TableMapOf(ts) && k.1 in ColumnNames(TableMapOf(ts)[k.0].columns)
    ensures forall k :: k in ColumnMapOf(ts) ==>
      ColumnMapOf(ts)[k] in TableMapOf(ts)[k.0].columns && ColumnMapOf(ts)[k].name == k.1
    decreases |ts|
  {
    if ts != [] {
      var init, t := ts[..|ts| - 1], ts[|ts| - 1];
      ColumnMapKeys(init);
      if t.name !in TableMapOf(init) {
        ColumnsOfMap(t.name, t.columns, ColumnMapOf(init));
      }
    }
  }

  /** `ColumnsOfMap` for one key. */
  lemma {:induction false} ColumnsOfKey(tn: string, cols: seq<Column>, cm: ColumnMap, k: (string, string))
    ensures k in ColumnsOf(tn, cols, cm) <==> k in cm || (k.0 == tn && k.1 in ColumnNames(cols))
    ensures k in cm ==> ColumnsOf(tn, cols, cm)[k] == cm[k]
    ensures k in ColumnsOf(tn, cols, cm) && k !in cm ==>
      ColumnsOf(tn, cols, cm)[k] in cols && ColumnsOf(tn, cols, cm)[k].name == k.1
    decreases |cols|
  {
    if cols != [] {
      var init := cols[..|cols| - 1];
      ColumnsOfKey(tn, init, cm, k);
      assert ColumnNames(cols) == ColumnNames(init) + [cols[|cols| - 1].name];
      if k in ColumnsOf(tn, init, cm) && k !in cm {
        assert ColumnsOf(tn, init, cm)[k] in init;
      }
    }
  }

  /** `ColumnMapKeys` for one key. */
  lemma {:induction false} ColumnMapKey(ts: seq<Table>, k: (string, string))
    ensures k in ColumnMapOf(ts) <==> k.0 in TableMapOf(ts) && k.1 in ColumnNames(TableMapOf(ts)[k.0].columns)
    ensures k in ColumnMapOf(ts) ==>
      ColumnMapOf(ts)[k] in TableMapOf(ts)[k.0].columns && ColumnMapOf(ts)[k].name == k.1
    decreases |ts|
  {
    if ts != [] {
      var init, t := ts[..|ts| - 1], ts[|ts| - 1];
      ColumnMapKey(init, k);
      if t.name !in TableMapOf(init) {
        ColumnsOfKey(t.name, t.columns, ColumnMapOf(init), k);
      }
    }
  }

  /** The column a key is bound to is the first column of the table with that
      name: a later column of the same name never replaces it. */
  lemma {:induction false} ColumnsOfFirst(tn: string, cols: seq<Column>, cm: ColumnMap, i: nat)
    requires i < |cols| && (tn, cols[i].name) !in cm
    requires forall j :: 0 <= j < i ==> cols[j].name != cols[i].name
    ensures (tn, cols[i].name) in ColumnsOf(tn, cols, cm)
    ensures ColumnsOf(tn, cols, cm)[(tn, cols[i].name)] == cols[i]
    decreases |cols|
  {
    var init := cols[..|cols| - 1];
    var k := (tn, cols[i].name);
    if i == |cols| - 1 {
      ColumnsOfKey(tn, init, cm, k);
      assert cols[i].name !in ColumnNames(init);
    } else {
      ColumnsOfFirst(tn, init, cm, i);
    }
  }

  /** createTableMap binds (table, column) to the first column of that name in
      the first table of that name; this is the column whose type, character
      set and collation the reference checks compare. */
  lemma {:induction false} ColumnMapFirst(ts: seq<Table>, t: Table, i: nat)
    requires Bound(ts, t) && i < |t.columns|
    requires forall j :: 0 <= j < i ==> t.columns[j].name != t.columns[i].name
    ensures (t.name, t.columns[i].name) in ColumnMapOf(ts)
    ensures ColumnMapOf(ts)[(t.name, t.columns[i].name)] == t.columns[i]
    decreases |ts|
  {
    var init, u := ts[..|ts| - 1], ts[|ts| - 1];
    var k := (t.name, t.columns[i].name);
    if u.name in TableMapOf(init) {
      ColumnMapFirst(init, t, i);
    } else if u.name == t.name {
      ColumnMapFresh(init, t.name);
      ColumnsOfFirst(t.name, t.columns, ColumnMapOf(init), i);
    } else {
      ColumnMapFirst(init, t, i);
      ColumnsOfKey(u.name, u.columns, ColumnMapOf(init), k);
    }
  }

  lemma {:induction false} TableMapHas(ts: seq<Table>, n: string)
    ensures n in TableMapOf(ts) <==> n in TableNames(ts)
  {
    TableMapKeys(ts);
  }

  lemma {:induction false} ColumnMapFresh(ts: seq<Table>, n: string)
    requires n !in TableMapOf(ts)
    ensures forall k :: k in ColumnMapOf(ts) ==> k.0 != n
  {
    ColumnMapKeys(ts);
  }

  /** A table name not yet in the column map: its columns are reported
      exactly at their reuses. */
  lemma {:induction false} ColumnDiagsAreRepeats(tn: string, cols: seq<Column>, cm: ColumnMap)
    requires forall k :: k in cm ==> k.0 != tn
    ensures ColumnDiags(tn, cols, cm) == Duplicates(tn, ColumnName, Repeats(ColumnNames(cols)))
    decreases |cols|
  {
    if cols != [] {
      var init, c := cols[..|cols| - 1], cols[|cols| - 1];
      ColumnDiagsAreRepeats(tn, init, cm);
      ColumnsOfMap(tn, init, cm);
      assert ColumnNames(cols) == ColumnNames(init) + [c.name];
      RepeatsAfterSnoc([], ColumnNames(init), c.name);
      if c.name in ColumnNames(init) {
        DuplicatesSnoc(tn, ColumnName, Repeats(ColumnNames(init)), c.name);
      } else {
        assert Repeats(ColumnNames(init)) + [] == Repeats(ColumnNames(init));
      }
    }
  }

  /** The names carried by the "duplicated name of table" diagnostics. */
  function ReportedTables(ds: seq<Diagnostic>): seq<string>
  {
    if ds == [] then []
    else
      var d := ds[|ds| - 1];
      ReportedTables(ds[..|ds| - 1]) + (if d.DuplicateTable? then [d.table] else [])
  }

  lemma {:induction false} ReportedTablesAppend(a: seq<Diagnostic>, b: seq<Diagnostic>)
    ensures ReportedTables(a + b) == ReportedTables(a) + ReportedTables(b)
    decreases |b|
  {
    if b == [] {
      assert a + b == a;
    } else {
      var init := b[..|b| - 1];
      assert b == init + [b[|b| - 1]];
      assert (a + b)[..|a + b| - 1] == a + init;
      ReportedTablesAppend(a, init);
    }
  }

  lemma {:induction false} NoTablesInDuplicates(tn: string, kind: NameKind, names: seq<string>)
    ensures ReportedTables(Duplicates(tn, kind, names)) == []
    decreases |names|
  {
    if names != [] {
      var init := names[..|names| - 1];
      NoTablesInDuplicates(tn, kind, init);
      DuplicatesSnoc(tn, kind, init, names[|names| - 1]);
      ReportedTablesAppend(Duplicates(tn, kind, init), [DuplicateName(tn, kind, names[|names| - 1])]);
    }
  }

  /** createTableMap reports a table name once per reuse. */
  lemma {:induction false} TableMapReports(ts: seq<Table>)
    ensures ReportedTables(TableMapDiags(ts)) == Repeats(TableNames(ts))
    decreases |ts|
  {
    if ts != [] {
      var init, t := ts[..|ts| - 1], ts[|ts| - 1];
      TableMapReports(init);
      TableMapKeys(init);
      assert TableNames(ts) == TableNames(init) + [t.name];
      RepeatsAfterSnoc([], TableNames(init), t.name);
      if t.name in TableMapOf(init) {
        ReportedTablesAppend(TableMapDiags(init), [DuplicateTable(t.name)]);
      } else {
        ColumnMapKeys(init);
        var cs := Repeats(ColumnNames(t.columns));
        ColumnDiagsAreRepeats(t.name, t.columns, ColumnMapOf(init));
        ReportedTablesAppend(TableMapDiags(init), Duplicates(t.name, ColumnName, cs));
        NoTablesInDuplicates(t.name, ColumnName, cs);
        assert Repeats(TableNames(init)) + [] == Repeats(TableNames(init));
      }
    }
  }

  /** Columns are unique within each table. */
  predicate ColumnsDistinct(ts: seq<Table>)
  {
    forall i :: 0 <= i < |ts| ==> Distinct(ColumnNames(ts[i].columns))
  }

  lemma {:induction false} ColumnsDistinctSnoc(ts: seq<Table>)
    requires ts != []
    ensures ColumnsDistinct(ts) <==>
      ColumnsDistinct(ts[..|ts| - 1]) && Distinct(ColumnNames(ts[|ts| - 1].columns))
  {
    assert forall i :: 0 <= i < |ts| - 1 ==> ts[..|ts| - 1][i] == ts[i];
  }

  /** createTableMap reports nothing exactly when table names are unique and
      column names are unique within each table. */
  lemma {:induction false} TableMapDiagsEmpty(ts: seq<Table>)
    ensures TableMapDiags(ts) == [] <==> Distinct(TableNames(ts)) && ColumnsDistinct(ts)
    decreases |ts|
  {
    if ts != [] {
      var init, t := ts[..|ts| - 1], ts[|ts| - 1];
      TableMapDiagsEmpty(init);
      TableMapHas(init, t.name);
      assert TableNames(ts) == TableNames(init) + [t.name];
      DistinctSnoc(TableNames(init), t.name);
      ColumnsDistinctSnoc(ts);
      if t.name !in TableMapOf(init) {
        ColumnMapFresh(init, t.name);
        var cs := Repeats(ColumnNames(t.columns));
        ColumnDiagsAreRepeats(t.name, t.columns, ColumnMapOf(init));
        RepeatsEmpty(ColumnNames(t.columns));
        assert |Duplicates(t.name, ColumnName, cs)| == |cs|;
        assert TableMapDiags(ts) == TableMapDiags(init) + Duplicates(t.name, ColumnName, cs);
      } else {
        assert TableMapDiags(ts) == TableMapDiags(init) + [DuplicateTable(t.name)];
      }
    }
  }

  // ---------------------------------------------------------------------
  // Column references and foreign keys

  lemma {:induction false} NotFoundEmpty(cm: ColumnMap, tn: string, place: Place, cols: seq<string>)
    ensures NotFound(cm, tn, place, cols) == [] <==> AllFound(cm, tn, cols)
    decreases |cols|
  {
    if cols != [] {
      var init := cols[..|cols| - 1];
      NotFoundEmpty(cm, tn, place, init);
      assert forall i :: 0 <= i < |init| ==> init[i] == cols[i];
    }
  }

  lemma {:induction false} IndexesNotFoundEmpty(cm: ColumnMap, tn: string, idxs: seq<Index>)
    ensures IndexesNotFound(cm, tn, idxs) == [] <==> forall k :: 0 <= k < |idxs| ==> AllFound(cm, tn, idxs[k].columns)
    decreases |idxs|
  {
    if idxs != [] {
      var init, idx := idxs[..|idxs| - 1], idxs[|idxs| - 1];
      IndexesNotFoundEmpty(cm, tn, init);
      NotFoundEmpty(cm, tn, InIndex(idx.name), idx.columns);
      assert forall k :: 0 <= k < |init| ==> init[k] == idxs[k];
    }
  }

  lemma {:induction false} UniqueIndexesNotFoundEmpty(cm: ColumnMap, tn: string, idxs: seq<UniqueIndex>)
    ensures UniqueIndexesNotFound(cm, tn, idxs) == [] <==> forall k :: 0 <= k < |idxs| ==> AllFound(cm, tn, idxs[k].columns)
    decreases |idxs|
  {
    if idxs != [] {
      var init, idx := idxs[..|idxs| - 1], idxs[|idxs| - 1];
      UniqueIndexesNotFoundEmpty(cm, tn, init);
      NotFoundEmpty(cm, tn, InUniqueIndex(idx.name), idx.columns);
      assert forall k :: 0 <= k < |init| ==> init[k] == idxs[k];
    }
  }

  /** Every name of `cs` is a column of `t`. */
  predicate HasColumns(t: Table, cs: seq<string>)
  {
    forall k :: 0 <= k < |cs| ==> cs[k] in ColumnNames(t.columns)
  }

  /** The primary key and every plain and unique index name only columns of
      the table. */
  predicate KeysOk(t: Table)
  {
    HasColumns(t, t.primaryKey.columns)
    && (forall k :: 0 <= k < |t.indexes| ==> HasColumns(t, t.indexes[k].columns))
    && (forall k :: 0 <= k < |t.uniqueIndexes| ==> HasColumns(t, t.uniqueIndexes[k].columns))
  }

  /** With unique table names, the table map holds each table under its own
      name. */
  lemma {:induction false} LookupTable(ts: seq<Table>, i: nat)
    requires Distinct(TableNames(ts)) && i < |ts|
    ensures ts[i].name in TableMapOf(ts) && TableMapOf(ts)[ts[i].name] == ts[i]
  {
    NoEarlierName(ts, i);
    TableMapFirst(ts, i);
  }

  /** With distinct table names, no table before `ts[i]` carries its name. */
  lemma {:induction false} NoEarlierName(ts: seq<Table>, i: nat)
    requires Distinct(TableNames(ts)) && i < |ts|
    ensures forall k :: 0 <= k < i ==> ts[k].name != ts[i].name
  {
    var names := TableNames(ts);
    forall k | 0 <= k < i
      ensures ts[k].name != ts[i].name
    {
      DistinctAt(names, k, i);
    }
  }

  lemma {:induction false} DistinctAt(xs: seq<string>, a: nat, b: nat)
    requires Distinct(xs) && a < b < |xs|
    ensures xs[a] != xs[b]
  {
  }

  /** The table map binds `t` under its own name. */
  predicate Bound(ts: seq<Table>, t: Table)
  {
    t.name in TableMapOf(ts) && TableMapOf(ts)[t.name] == t
  }

  /** The column map holds exactly the columns of a bound table under (its
      name, column name). */
  lemma {:induction false} LookupColumn(ts: seq<Table>, t: Table, c: string)
    requires Bound(ts, t)
    ensures (t.name, c) in ColumnMapOf(ts) <==> c in ColumnNames(t.columns)
    ensures (t.name, c) in ColumnMapOf(ts) ==>
      ColumnMapOf(ts)[(t.name, c)] in t.columns && ColumnMapOf(ts)[(t.name, c)].name == c
  {
    ColumnMapKey(ts, (t.name, c));
  }

  lemma {:induction false} AllFoundIsHasColumns(ts: seq<Table>, t: Table, cs: seq<string>)
    requires Bound(ts, t)
    ensures AllFound(ColumnMapOf(ts), t.name, cs) <==> HasColumns(t, cs)
  {
    forall k | 0 <= k < |cs|
      ensures (t.name, cs[k]) in ColumnMapOf(ts) <==> cs[k] in ColumnNames(t.columns)
    {
      LookupColumn(ts, t, cs[k]);
    }
  }

  lemma {:induction false} KeysChecks(ts: seq<Table>, t: Table)
    requires Bound(ts, t)
    ensures MissingKeyColumns(ColumnMapOf(ts), t) == [] <==> KeysOk(t)
  {
    var cm := ColumnMapOf(ts);
    AllFoundIsHasColumns(ts, t, t.primaryKey.columns);
    forall k | 0 <= k < |t.indexes|
      ensures AllFound(cm, t.name, t.indexes[k].columns) <==> HasColumns(t, t.indexes[k].columns)
    {
      AllFoundIsHasColumns(ts, t, t.indexes[k].columns);
    }
    forall k | 0 <= k < |t.uniqueIndexes|
      ensures AllFound(cm, t.name, t.uniqueIndexes[k].columns) <==> HasColumns(t, t.uniqueIndexes[k].columns)
    {
      AllFoundIsHasColumns(ts, t, t.uniqueIndexes[k].columns);
    }
    NotFoundEmpty(cm, t.name, InPrimaryKey, t.primaryKey.columns);
    IndexesNotFoundEmpty(cm, t.name, t.indexes);
    UniqueIndexesNotFoundEmpty(cm, t.name, t.uniqueIndexes);
  }

  lemma {:induction false} IndexNameDiagsEmpty(t: Table)
    ensures IndexNameDiags(t) == [] <==> Distinct(AllIndexNames(t))
  {
    RepeatsEmpty(AllIndexNames(t));
  }

  lemma {:induction false} IndexChecksEmpty(ts: seq<Table>, cm: ColumnMap)
    ensures IndexChecks(ts, cm) == [] <==>
      forall i :: 0 <= i < |ts| ==> MissingKeyColumns(cm, ts[i]) == [] && IndexNameDiags(ts[i]) == []
  {
    var f := t => MissingKeyColumns(cm, t) + IndexNameDiags(t);
    IndexChecksGather(ts, cm);
    GatherNone(f, ts);
    forall i | 0 <= i < |ts|
      ensures f(ts[i]) == [] <==> MissingKeyColumns(cm, ts[i]) == [] && IndexNameDiags(ts[i]) == []
    {
      AppendEmpty(MissingKeyColumns(cm, ts[i]), IndexNameDiags(ts[i]));
    }
  }

  lemma {:induction false} IndexChecksGather(ts: seq<Table>, cm: ColumnMap)
    ensures IndexChecks(ts, cm) == Gather(t => MissingKeyColumns(cm, t) + IndexNameDiags(t), ts)
  {
    if ts != [] {
      var t := ts[|ts| - 1];
      IndexChecksGather(ts[..|ts| - 1], cm);
      AppendAssoc(IndexChecks(ts[..|ts| - 1], cm), MissingKeyColumns(cm, t), IndexNameDiags(t));
    }
  }

  /** Two columns a foreign key may join: same type, signedness, character
      set and collation. */
  predicate Compatible(a: Column, b: Column)
  {
    a.typ == b.typ && a.unsigned == b.unsigned && a.charset == b.charset && a.collate == b.collate
  }

  /** Every column of `t` named `c` is compatible with every column of `ref`
      named `rc`. */
  predicate ColumnsAgree(t: Table, c: string, ref: Table, rc: string)
  {
    forall a, b :: 0 <= a < |t.columns| && 0 <= b < |ref.columns| && t.columns[a].name == c && ref.columns[b].name == rc
      ==> Compatible(t.columns[a], ref.columns[b])
  }

  /** What a foreign key of `t` asks of the table `ref` it refers to. */
  predicate ReferenceOk(skip: bool, t: Table, fk: ForeignKey, ref: Table)
  {
    HasColumns(ref, fk.references)
    && (forall k :: 0 <= k < |fk.references| && k < |fk.columns| ==> ReferenceAgrees(t, fk, ref, k))
    && (skip || Covered(ref, fk.references))
  }

  /** A foreign key the validator accepts: its columns exist and, unless the
      check is off, begin an index; its table exists and meets `ReferenceOk`. */
  predicate ForeignKeyOk(skip: bool, ts: seq<Table>, t: Table, fk: ForeignKey)
  {
    HasColumns(t, fk.columns) && (skip || Covered(t, fk.columns))
    && exists r :: 0 <= r < |ts| && ts[r].name == fk.table && ReferenceOk(skip, t, fk, ts[r])
  }

  lemma {:induction false} OnlyColumn(t: Table, a: nat, col: Column)
    requires Distinct(ColumnNames(t.columns)) && a < |t.columns|
    requires col in t.columns && col.name == t.columns[a].name
    ensures col == t.columns[a]
  {
    var a0 :| 0 <= a0 < |t.columns| && t.columns[a0] == col;
    assert ColumnNames(t.columns)[a0] == ColumnNames(t.columns)[a];
  }

  /** Reference `k` of `fk` names a column of `ref` compatible with the
      local column it pairs with. */
  predicate ReferenceAgrees(t: Table, fk: ForeignKey, ref: Table, k: nat)
    requires k < |fk.references| && k < |fk.columns|
  {
    fk.references[k] in ColumnNames(ref.columns) && ColumnsAgree(t, fk.columns[k], ref, fk.references[k])
  }

  lemma {:induction false} ReferenceCheck(ts: seq<Table>, t: Table, ref: Table, fk: ForeignKey, k: nat)
    requires Bound(ts, t) && Bound(ts, ref)
    requires Distinct(ColumnNames(t.columns)) && Distinct(ColumnNames(ref.columns))
    requires k < |fk.references| && k < |fk.columns|
    ensures ReferenceDiags(ColumnMapOf(ts), t, fk, ref, k) == [] <==> ReferenceAgrees(t, fk, ref, k)
  {
    var cm := ColumnMapOf(ts);
    var c, rc := fk.columns[k], fk.references[k];
    LookupColumn(ts, t, c);
    LookupColumn(ts, ref, rc);
    if (ref.name, rc) in cm && (t.name, c) in cm {
      var mycol, refcol := cm[(t.name, c)], cm[(ref.name, rc)];
      forall a, b | 0 <= a < |t.columns| && 0 <= b < |ref.columns| && t.columns[a].name == c && ref.columns[b].name == rc
        ensures t.columns[a] == mycol && ref.columns[b] == refcol
      {
        OnlyColumn(t, a, mycol);
        OnlyColumn(ref, b, refcol);
      }
      var a :| 0 <= a < |t.columns| && t.columns[a] == mycol;
      var b :| 0 <= b < |ref.columns| && ref.columns[b] == refcol;
      assert ReferenceDiags(cm, t, fk, ref, k) == [] <==> Compatible(mycol, refcol);
    } else if (ref.name, rc) in cm {
      forall a | 0 <= a < |t.columns|
        ensures t.columns[a].name != c
      {
        assert ColumnNames(t.columns)[a] == t.columns[a].name;
      }
    }
  }

  /** The reference checks of a foreign key report nothing exactly when no
      single reference check does. */
  lemma {:induction false} ReferencesDiagsNone(cm: ColumnMap, t: Table, fk: ForeignKey, ref: Table, n: nat)
    requires n <= |fk.references| <= |fk.columns|
    ensures ReferencesDiags(cm, t, fk, ref, n) == [] <==>
      forall k :: 0 <= k < n ==> ReferenceDiags(cm, t, fk, ref, k) == []
  {
    var f := ReferencePart(cm, t, fk, ref);
    ReferencesGather(cm, t, fk, ref, n);
    GatherUpToNone(f, n);
    forall k | 0 <= k < n
      ensures f(k) == ReferenceDiags(cm, t, fk, ref, k)
    {
    }
  }

  /** The check of one reference as a total function of its position. */
  function ReferencePart(cm: ColumnMap, t: Table, fk: ForeignKey, ref: Table): nat -> seq<Diagnostic>
  {
    (k: nat) => if k < |fk.references| && k < |fk.columns| then ReferenceDiags(cm, t, fk, ref, k) else []
  }

  lemma {:induction false} ReferencesGather(cm: ColumnMap, t: Table, fk: ForeignKey, ref: Table, n: nat)
    requires n <= |fk.references| <= |fk.columns|
    ensures ReferencesDiags(cm, t, fk, ref, n) == GatherUpTo(ReferencePart(cm, t, fk, ref), n)
  {
    if n > 0 {
      ReferencesGather(cm, t, fk, ref, n - 1);
    }
  }

  lemma {:induction false} ReferencesDiagsEmpty(ts: seq<Table>, t: Table, ref: Table, fk: ForeignKey)
    requires Bound(ts, t) && Bound(ts, ref)
    requires Distinct(ColumnNames(t.columns)) && Distinct(ColumnNames(ref.columns))
    requires |fk.references| <= |fk.columns|
    ensures ReferencesDiags(ColumnMapOf(ts), t, fk, ref, |fk.references|) == [] <==>
      forall k :: 0 <= k < |fk.references| ==> ReferenceAgrees(t, fk, ref, k)
  {
    ReferencesDiagsNone(ColumnMapOf(ts), t, fk, ref, |fk.references|);
    forall k | 0 <= k < |fk.references|
      ensures ReferenceDiags(ColumnMapOf(ts), t, fk, ref, k) == [] <==> ReferenceAgrees(t, fk, ref, k)
    {
      ReferenceCheck(ts, t, ref, fk, k);
    }
  }

  /** validateFKColumns reports nothing exactly when the local columns exist
      and, unless the check is off, begin an index of the table. */
  lemma {:induction false} FKColumnCheck(skip: bool, ts: seq<Table>, t: Table, fk: ForeignKey)
    requires Bound(ts, t)
    ensures FKColumnDiags(skip, ColumnMapOf(ts), t, fk) == [] <==> HasColumns(t, fk.columns) && (skip || Covered(t, fk.columns))
  {
    NotFoundEmpty(ColumnMapOf(ts), t.name, InForeignKey(fk.name), fk.columns);
    AllFoundIsHasColumns(ts, t, fk.columns);
  }

  /** validateFKRef against a table the map holds reports nothing exactly
      when `ReferenceOk` holds. */
  lemma {:induction false} FKRefCheck(skip: bool, ts: seq<Table>, t: Table, ref: Table, fk: ForeignKey)
    requires Bound(ts, t) && Bound(ts, ref) && fk.table == ref.name
    requires Distinct(ColumnNames(t.columns)) && Distinct(ColumnNames(ref.columns))
    requires |fk.references| <= |fk.columns|
    ensures FKRefDiags(skip, TableMapOf(ts), ColumnMapOf(ts), t, fk) == [] <==> ReferenceOk(skip, t, fk, ref)
  {
    var cm := ColumnMapOf(ts);
    ReferencesDiagsEmpty(ts, t, ref, fk);
    AllFoundIsHasColumns(ts, ref, fk.references);
    var checks := ReferencesDiags(cm, t, fk, ref, |fk.references|);
    var required := !skip && AllFound(cm, ref.name, fk.references) && !Covered(ref, fk.references);
    assert FKRefDiags(skip, TableMapOf(ts), cm, t, fk) == checks + (if required then [IndexRequired(t.name, fk.name, ref.name)] else []);
    if checks == [] {
      forall k | 0 <= k < |fk.references|
        ensures fk.references[k] in ColumnNames(ref.columns)
      {
        assert ReferenceAgrees(t, fk, ref, k);
      }
    }
  }

  /** The table map binds every table of `ts` under its name. */
  predicate AllBound(ts: seq<Table>)
  {
    forall r :: 0 <= r < |ts| ==> Bound(ts, ts[r])
  }

  lemma {:induction false} AllTablesBound(ts: seq<Table>)
    requires Distinct(TableNames(ts))
    ensures AllBound(ts)
  {
    forall r | 0 <= r < |ts|
      ensures Bound(ts, ts[r])
    {
      LookupTable(ts, r);
    }
  }

  /** The checks of one foreign key of table `ts[i]` report nothing exactly
      when `ForeignKeyOk` holds. */
  lemma {:induction false} ForeignKeyCheck(skip: bool, ts: seq<Table>, i: nat, fk: ForeignKey)
    requires AllBound(ts) && ColumnsDistinct(ts) && i < |ts|
    requires |fk.references| <= |fk.columns|
    ensures FKColumnDiags(skip, ColumnMapOf(ts), ts[i], fk) + FKRefDiags(skip, TableMapOf(ts), ColumnMapOf(ts), ts[i], fk) == []
      <==> ForeignKeyOk(skip, ts, ts[i], fk)
  {
    var t, tm := ts[i], TableMapOf(ts);
    assert Bound(ts, t);
    FKColumnCheck(skip, ts, t, fk);
    TableMapHas(ts, fk.table);
    if fk.table in tm {
      var r :| 0 <= r < |ts| && TableNames(ts)[r] == fk.table;
      assert Bound(ts, ts[r]);
      FKRefCheck(skip, ts, t, ts[r], fk);
      forall r' | 0 <= r' < |ts| && ts[r'].name == fk.table
        ensures ts[r'] == ts[r]
      {
        assert Bound(ts, ts[r']);
      }
    } else {
      forall r | 0 <= r < |ts|
        ensures ts[r].name != fk.table
      {
        assert Bound(ts, ts[r]);
      }
    }
  }

  /** The foreign-key checks of a table report nothing exactly when no single
      key's checks do. */
  lemma {:induction false} TableFKDiagsNone(skip: bool, tm: TableMap, cm: ColumnMap, t: Table, fks: seq<ForeignKey>)
    requires ReferencesFit(fks)
    ensures TableFKDiags(skip, tm, cm, t, fks) == [] <==>
      forall j :: 0 <= j < |fks| ==> FKColumnDiags(skip, cm, t, fks[j]) + FKRefDiags(skip, tm, cm, t, fks[j]) == []
  {
    var f := FKPart(skip, tm, cm, t);
    TableFKGather(skip, tm, cm, t, fks);
    GatherNone(f, fks);
  }

  /** The checks of one foreign key as a total function of the key. */
  function FKPart(skip: bool, tm: TableMap, cm: ColumnMap, t: Table): ForeignKey -> seq<Diagnostic>
  {
    (fk: ForeignKey) => if |fk.references| <= |fk.columns| then FKColumnDiags(skip, cm, t, fk) + FKRefDiags(skip, tm, cm, t, fk) else []
  }

  lemma {:induction false} TableFKGather(skip: bool, tm: TableMap, cm: ColumnMap, t: Table, fks: seq<ForeignKey>)
    requires ReferencesFit(fks)
    ensures TableFKDiags(skip, tm, cm, t, fks) == Gather(FKPart(skip, tm, cm, t), fks)
  {
    if fks != [] {
      var init, fk := fks[..|fks| - 1], fks[|fks| - 1];
      forall j | 0 <= j < |init|
        ensures |init[j].references| <= |init[j].columns|
      {
        assert init[j] == fks[j];
      }
      TableFKGather(skip, tm, cm, t, init);
      AppendAssoc(TableFKDiags(skip, tm, cm, t, init), FKColumnDiags(skip, cm, t, fk), FKRefDiags(skip, tm, cm, t, fk));
    }
  }

  /** validateForeignKeys reports nothing exactly when no table's foreign-key
      checks do. */
  lemma {:induction false} ForeignKeyDiagsNone(skip: bool, tm: TableMap, cm: ColumnMap, ts: seq<Table>)
    requires AllReferencesFit(ts)
    ensures ForeignKeyDiags(skip, tm, cm, ts) == [] <==>
      forall i :: 0 <= i < |ts| ==> TableFKDiags(skip, tm, cm, ts[i], ts[i].foreignKeys) == []
  {
    ForeignKeyGather(skip, tm, cm, ts);
    GatherNone(TablePart(skip, tm, cm), ts);
  }

  /** The foreign-key checks of one table as a total function of the table. */
  function TablePart(skip: bool, tm: TableMap, cm: ColumnMap): Table -> seq<Diagnostic>
  {
    (t: Table) => if ReferencesFit(t.foreignKeys) then TableFKDiags(skip, tm, cm, t, t.foreignKeys) else []
  }

  lemma {:induction false} ForeignKeyGather(skip: bool, tm: TableMap, cm: ColumnMap, ts: seq<Table>)
    requires AllReferencesFit(ts)
    ensures ForeignKeyDiags(skip, tm, cm, ts) == Gather(TablePart(skip, tm, cm), ts)
  {
    if ts != [] {
      var init := ts[..|ts| - 1];
      forall i | 0 <= i < |init|
        ensures ReferencesFit(init[i].foreignKeys)
      {
        assert init[i] == ts[i];
      }
      ForeignKeyGather(skip, tm, cm, init);
    }
  }

  /** Every foreign key of every table is accepted. */
  predicate ForeignKeysOk(skip: bool, ts: seq<Table>)
  {
    forall i, j :: 0 <= i < |ts| && 0 <= j < |ts[i].foreignKeys| ==> ForeignKeyOk(skip, ts, ts[i], ts[i].foreignKeys[j])
  }

  lemma {:induction false} ForeignKeyDiagsEmpty(skip: bool, ts: seq<Table>)
    requires Distinct(TableNames(ts)) && ColumnsDistinct(ts) && AllReferencesFit(ts)
    ensures ForeignKeyDiags(skip, TableMapOf(ts), ColumnMapOf(ts), ts) == [] <==> ForeignKeysOk(skip, ts)
  {
    var tm, cm := TableMapOf(ts), ColumnMapOf(ts);
    AllTablesBound(ts);
    ForeignKeyDiagsNone(skip, tm, cm, ts);
    forall i | 0 <= i < |ts|
      ensures TableFKDiags(skip, tm, cm, ts[i], ts[i].foreignKeys) == [] <==>
        forall j :: 0 <= j < |ts[i].foreignKeys| ==> ForeignKeyOk(skip, ts, ts[i], ts[i].foreignKeys[j])
    {
      var fks := ts[i].foreignKeys;
      TableFKDiagsNone(skip, tm, cm, ts[i], fks);
      forall j | 0 <= j < |fks|
        ensures FKColumnDiags(skip, cm, ts[i], fks[j]) + FKRefDiags(skip, tm, cm, ts[i], fks[j]) == []
          <==> ForeignKeyOk(skip, ts, ts[i], fks[j])
      {
        ForeignKeyCheck(skip, ts, i, fks[j]);
      }
    }
  }

  /** Every table's keys name existing columns and its index names are
      unique. */
  predicate IndexesOk(ts: seq<Table>)
  {
    forall i :: 0 <= i < |ts| ==> KeysOk(ts[i]) && Distinct(AllIndexNames(ts[i]))
  }

  lemma {:induction false} IndexPartEmpty(ts: seq<Table>)
    requires Distinct(TableNames(ts))
    ensures IndexChecks(ts, ColumnMapOf(ts)) == [] <==> IndexesOk(ts)
  {
    IndexChecksEmpty(ts, ColumnMapOf(ts));
    forall i | 0 <= i < |ts|
      ensures MissingKeyColumns(ColumnMapOf(ts), ts[i]) == [] <==> KeysOk(ts[i])
      ensures IndexNameDiags(ts[i]) == [] <==> Distinct(AllIndexNames(ts[i]))
    {
      LookupTable(ts, i);
      KeysChecks(ts, ts[i]);
      IndexNameDiagsEmpty(ts[i]);
    }
  }

  /** A schema Validate accepts: unique table names, unique column names per
      table, keys over existing columns, unique index names per table, unique
      foreign-key names across the schema and every foreign key accepted. */
  predicate WellFormed(skip: bool, ts: seq<Table>)
  {
    Distinct(TableNames(ts)) && ColumnsDistinct(ts) && IndexesOk(ts)
    && Distinct(AllForeignKeyNames(ts)) && ForeignKeysOk(skip, ts)
  }

  /** Validate reports nothing, and so returns no error, exactly on the
      well-formed schemas. */
  lemma {:induction false} DiagnosticsEmpty(skip: bool, ts: seq<Table>)
    requires AllReferencesFit(ts)
    ensures Diagnostics(skip, ts) == [] <==> WellFormed(skip, ts)
  {
    var tm, cm := TableMapOf(ts), ColumnMapOf(ts);
    TableMapDiagsEmpty(ts);
    ForeignKeyNameDiagsEmpty(ts);
    if Distinct(TableNames(ts)) && ColumnsDistinct(ts) {
      IndexPartEmpty(ts);
      ForeignKeyDiagsEmpty(skip, ts);
    }
  }
}
