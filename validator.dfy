/** Whole-schema validation (validator.go): builds the table and column
    lookup maps, then checks names, column references, foreign keys and their
    covering indexes, appending one diagnostic per problem found. Nothing
    stops the pass early; the diagnostics come out in a fixed order. */
module Validator {
  import opened Schema
  import opened Seqs
  import opened Strings
  import opened Wrappers

  /** Which name space a repeated name was found in. */
  datatype NameKind = ColumnName | IndexName | ForeignKeyName

  /** Where a column that does not exist was named. */
  datatype Place = InPrimaryKey | InIndex(index: string) | InUniqueIndex(index: string) | InForeignKey(fk: string)

  datatype MismatchKind = TypeMismatch | CharsetMismatch | CollateMismatch

  /** One diagnostic; `Message` gives the text the source formats for it. */
  datatype Diagnostic =
    | DuplicateTable(table: string)
    | DuplicateName(table: string, kind: NameKind, name: string)
    | ColumnNotFound(table: string, place: Place, column: string)
    | IndexRequired(table: string, fk: string, on: string)
    | ReferencedTableNotFound(table: string, fk: string, refTable: string)
    | ReferencedColumnNotFound(table: string, fk: string, refTable: string, column: string)
    | Mismatch(table: string, fk: string, column: string, refTable: string, refColumn: string, mismatch: MismatchKind)

  /** The error Validate returns when a diagnostic was saved. */
  datatype ValidationError = ValidationError(errs: seq<Diagnostic>)

  type TableMap = map<string, Table>
  type ColumnMap = map<(string, string), Column>

  // ---------------------------------------------------------------------
  // Repeated names

  /** The elements of `xs` that equal an element of `seen` or an earlier
      element of `xs`, in order. */
  function RepeatsAfter(seen: seq<string>, xs: seq<string>): seq<string>
  {
    if xs == [] then []
    else
      var init, x := xs[..|xs| - 1], xs[|xs| - 1];
      RepeatsAfter(seen, init) + (if x in seen || x in init then [x] else [])
  }

  /** The elements of `xs` that equal an earlier element: one per reuse. */
  function Repeats(xs: seq<string>): seq<string>
  {
    RepeatsAfter([], xs)
  }

  /** One "duplicated name" diagnostic per name of `names`. */
  function Duplicates(table: string, kind: NameKind, names: seq<string>): (ds: seq<Diagnostic>)
    ensures |ds| == |names|
  {
    if names == [] then []
    else Duplicates(table, kind, names[..|names| - 1]) + [DuplicateName(table, kind, names[|names| - 1])]
  }

  lemma {:induction false} DuplicatesSnoc(table: string, kind: NameKind, names: seq<string>, x: string)
    ensures Duplicates(table, kind, names + [x]) == Duplicates(table, kind, names) + [DuplicateName(table, kind, x)]
  {
  }

  lemma {:induction false} RepeatsAfterSnoc(seen: seq<string>, xs: seq<string>, x: string)
    ensures RepeatsAfter(seen, xs + [x]) == RepeatsAfter(seen, xs) + (if x in seen || x in xs then [x] else [])
  {
    assert (xs + [x])[..|xs|] == xs;
  }

  /** One step of a uniqueness loop. */
  lemma {:induction false} DuplicatesStep(tn: string, kind: NameKind, before: seq<string>, done: seq<string>, x: string)
    ensures Duplicates(tn, kind, RepeatsAfter(before, done + [x]))
      == Duplicates(tn, kind, RepeatsAfter(before, done)) + (if x in before || x in done then [DuplicateName(tn, kind, x)] else [])
  {
    RepeatsAfterSnoc(before, done, x);
    if x in before || x in done {
      DuplicatesSnoc(tn, kind, RepeatsAfter(before, done), x);
    } else {
      assert RepeatsAfter(before, done) + [] == RepeatsAfter(before, done);
    }
  }

  /** DuplicatesStep under a prefix `e`, split by whether `names[j]` repeats. */
  lemma {:induction false} NamesStep(e: seq<Diagnostic>, tn: string, kind: NameKind, before: seq<string>, names: seq<string>, j: nat)
    requires j < |names|
    ensures names[j] in before || names[j] in names[..j] ==>
      e + Duplicates(tn, kind, RepeatsAfter(before, names[..j])) + [DuplicateName(tn, kind, names[j])]
        == e + Duplicates(tn, kind, RepeatsAfter(before, names[..j + 1]))
    ensures !(names[j] in before || names[j] in names[..j]) ==>
      e + Duplicates(tn, kind, RepeatsAfter(before, names[..j]))
        == e + Duplicates(tn, kind, RepeatsAfter(before, names[..j + 1]))
  {
    var x, d := names[j], Duplicates(tn, kind, RepeatsAfter(before, names[..j]));
    assert names[..j + 1] == names[..j] + [x];
    DuplicatesStep(tn, kind, before, names[..j], x);
    if x in before || x in names[..j] {
      AppendAssoc(e, d, [DuplicateName(tn, kind, x)]);
    } else {
      assert d + [] == d;
    }
  }

  lemma {:induction false} DuplicatesAppend(table: string, kind: NameKind, a: seq<string>, b: seq<string>)
    ensures Duplicates(table, kind, a + b) == Duplicates(table, kind, a) + Duplicates(table, kind, b)
    decreases |b|
  {
    if b == [] {
      AppendNil(a);
    } else {
      var init, x := b[..|b| - 1], b[|b| - 1];
      InitLast(b);
      AppendInitLast(a, b);
      DuplicatesAppend(table, kind, a, init);
      assert Duplicates(table, kind, a + b) == Duplicates(table, kind, a + init) + [DuplicateName(table, kind, x)];
      DuplicatesSnoc(table, kind, init, x);
      AppendAssoc(Duplicates(table, kind, a), Duplicates(table, kind, init), [DuplicateName(table, kind, x)]);
    }
  }

  /** Checking `a + b` against `seen` reports what checking `a` reports, then
      what checking `b` against `seen + a` reports. */
  lemma {:induction false} RepeatsAfterAppend(seen: seq<string>, a: seq<string>, b: seq<string>)
    ensures RepeatsAfter(seen, a + b) == RepeatsAfter(seen, a) + RepeatsAfter(seen + a, b)
    decreases |b|
  {
    if b == [] {
      AppendNil(a);
    } else {
      var init, x := b[..|b| - 1], b[|b| - 1];
      InitLast(b);
      AppendInitLast(a, b);
      RepeatsAfterAppend(seen, a, init);
      var last := if x in seen || x in a + init then [x] else [];
      assert RepeatsAfter(seen, a + b) == RepeatsAfter(seen, a + init) + last;
      assert x in seen || x in a + init <==> x in seen + a || x in init;
      assert RepeatsAfter(seen + a, b) == RepeatsAfter(seen + a, init) + last;
      AppendAssoc(RepeatsAfter(seen, a), RepeatsAfter(seen + a, init), last);
    }
  }

  // ---------------------------------------------------------------------
  // createTableMap

  /** The table map: each name bound to the first table that carries it. */
  function TableMapOf(ts: seq<Table>): TableMap
  {
    if ts == [] then map[]
    else
      var m, t := TableMapOf(ts[..|ts| - 1]), ts[|ts| - 1];
      if t.name in m then m else m[t.name := t]
  }

  /** `cm` with the columns of table `tn` added, each name bound to the first
      column that carries it. */
  function ColumnsOf(tn: string, cols: seq<Column>, cm: ColumnMap): ColumnMap
  {
    if cols == [] then cm
    else
      var m, c := ColumnsOf(tn, cols[..|cols| - 1], cm), cols[|cols| - 1];
      if (tn, c.name) in m then m else m[(tn, c.name) := c]
  }

  /** The "duplicated name of column" diagnostics for the columns of `tn`. */
  function ColumnDiags(tn: string, cols: seq<Column>, cm: ColumnMap): seq<Diagnostic>
  {
    if cols == [] then []
    else
      var init, c := cols[..|cols| - 1], cols[|cols| - 1];
      ColumnDiags(tn, init, cm)
        + (if (tn, c.name) in ColumnsOf(tn, init, cm) then [DuplicateName(tn, ColumnName, c.name)] else [])
  }

  /** The column map: the columns of the first table of each name only. */
  function ColumnMapOf(ts: seq<Table>): ColumnMap
  {
    if ts == [] then map[]
    else
      var init, t := ts[..|ts| - 1], ts[|ts| - 1];
      if t.name in TableMapOf(init) then ColumnMapOf(init)
      else ColumnsOf(t.name, t.columns, ColumnMapOf(init))
  }

  /** The diagnostics createTableMap saves: a repeated table name is reported
      and its columns are skipped; a repeated column name is reported. */
  function TableMapDiags(ts: seq<Table>): seq<Diagnostic>
  {
    if ts == [] then []
    else
      var init, t := ts[..|ts| - 1], ts[|ts| - 1];
      if t.name in TableMapOf(init) then TableMapDiags(init) + [DuplicateTable(t.name)]
      else TableMapDiags(init) + ColumnDiags(t.name, t.columns, ColumnMapOf(init))
  }

  // ---------------------------------------------------------------------
  // validateIndex and validateIndexName

  /** One "column not found" diagnostic per name of `cols` that is not a
      column of table `tn` in `cm`, in order. */
  function NotFound(cm: ColumnMap, tn: string, place: Place, cols: seq<string>): seq<Diagnostic>
  {
    if cols == [] then []
    else
      var c := cols[|cols| - 1];
      NotFound(cm, tn, place, cols[..|cols| - 1]) + (if (tn, c) in cm then [] else [ColumnNotFound(tn, place, c)])
  }

  function IndexesNotFound(cm: ColumnMap, tn: string, idxs: seq<Index>): seq<Diagnostic>
  {
    if idxs == [] then []
    else
      var idx := idxs[|idxs| - 1];
      IndexesNotFound(cm, tn, idxs[..|idxs| - 1]) + NotFound(cm, tn, InIndex(idx.name), idx.columns)
  }

  function UniqueIndexesNotFound(cm: ColumnMap, tn: string, idxs: seq<UniqueIndex>): seq<Diagnostic>
  {
    if idxs == [] then []
    else
      var idx := idxs[|idxs| - 1];
      UniqueIndexesNotFound(cm, tn, idxs[..|idxs| - 1]) + NotFound(cm, tn, InUniqueIndex(idx.name), idx.columns)
  }

  /** validateIndex: missing primary-key columns, then missing index columns,
      then missing unique-index columns, each in declaration order. */
  function MissingKeyColumns(cm: ColumnMap, t: Table): seq<Diagnostic>
  {
    NotFound(cm, t.name, InPrimaryKey, t.primaryKey.columns)
      + IndexesNotFound(cm, t.name, t.indexes)
      + UniqueIndexesNotFound(cm, t.name, t.uniqueIndexes)
  }

  function IndexNames(idxs: seq<Index>): (names: seq<string>)
    ensures |names| == |idxs| && forall i :: 0 <= i < |idxs| ==> names[i] == idxs[i].name
  {
    if idxs == [] then [] else IndexNames(idxs[..|idxs| - 1]) + [idxs[|idxs| - 1].name]
  }

  function UniqueIndexNames(idxs: seq<UniqueIndex>): (names: seq<string>)
    ensures |names| == |idxs| && forall i :: 0 <= i < |idxs| ==> names[i] == idxs[i].name
  {
    if idxs == [] then [] else UniqueIndexNames(idxs[..|idxs| - 1]) + [idxs[|idxs| - 1].name]
  }

  function FullTextIndexNames(idxs: seq<FullTextIndex>): (names: seq<string>)
    ensures |names| == |idxs| && forall i :: 0 <= i < |idxs| ==> names[i] == idxs[i].name
  {
    if idxs == [] then [] else FullTextIndexNames(idxs[..|idxs| - 1]) + [idxs[|idxs| - 1].name]
  }

  function SpatialIndexNames(idxs: seq<SpatialIndex>): (names: seq<string>)
    ensures |names| == |idxs| && forall i :: 0 <= i < |idxs| ==> names[i] == idxs[i].name
  {
    if idxs == [] then [] else SpatialIndexNames(idxs[..|idxs| - 1]) + [idxs[|idxs| - 1].name]
  }

  /** The one index-name space of a table: plain, unique, full-text and
      spatial indexes, in that order. */
  function AllIndexNames(t: Table): seq<string>
  {
    IndexNames(t.indexes) + UniqueIndexNames(t.uniqueIndexes)
      + FullTextIndexNames(t.fullTextIndexes) + SpatialIndexNames(t.spatialIndexes)
  }

  /** validateIndexName: one diagnostic per reuse of an index name. */
  function IndexNameDiags(t: Table): seq<Diagnostic>
  {
    Duplicates(t.name, IndexName, Repeats(AllIndexNames(t)))
  }

  /** Checking the names `more` against those already seen extends the
      report on `seen` to the report on `seen + more`. */
  lemma {:induction false} ExtendDuplicates(e: seq<Diagnostic>, tn: string, kind: NameKind, seen: seq<string>, more: seq<string>)
    ensures e + Duplicates(tn, kind, Repeats(seen)) + Duplicates(tn, kind, RepeatsAfter(seen, more))
      == e + Duplicates(tn, kind, Repeats(seen + more))
  {
    RepeatsAfterAppend([], seen, more);
    assert [] + seen == seen;
    DuplicatesAppend(tn, kind, Repeats(seen), RepeatsAfter(seen, more));
  }

  /** What the per-table loop of Validate reports for `ts`, in order. */
  function IndexChecks(ts: seq<Table>, cm: ColumnMap): seq<Diagnostic>
  {
    if ts == [] then []
    else
      var t := ts[|ts| - 1];
      IndexChecks(ts[..|ts| - 1], cm) + MissingKeyColumns(cm, t) + IndexNameDiags(t)
  }

  // ---------------------------------------------------------------------
  // validateConstraints

  function ForeignKeyNames(fks: seq<ForeignKey>): (names: seq<string>)
    ensures |names| == |fks| && forall i :: 0 <= i < |fks| ==> names[i] == fks[i].name
  {
    if fks == [] then [] else ForeignKeyNames(fks[..|fks| - 1]) + [fks[|fks| - 1].name]
  }

  /** The foreign-key names of all tables, in order. */
  function AllForeignKeyNames(ts: seq<Table>): seq<string>
  {
    if ts == [] then [] else AllForeignKeyNames(ts[..|ts| - 1]) + ForeignKeyNames(ts[|ts| - 1].foreignKeys)
  }

  /** validateConstraints: one diagnostic per reuse of a foreign-key name
      anywhere in the schema, naming the table of the reuse. */
  function ForeignKeyNameDiags(ts: seq<Table>): seq<Diagnostic>
  {
    if ts == [] then []
    else
      var init, t := ts[..|ts| - 1], ts[|ts| - 1];
      ForeignKeyNameDiags(init)
        + Duplicates(t.name, ForeignKeyName, RepeatsAfter(AllForeignKeyNames(init), ForeignKeyNames(t.foreignKeys)))
  }

  // ---------------------------------------------------------------------
  // validateForeignKeys, validateFKColumns, validateFKRef, hasIndex

  /** hasIndex: `cols` begins the primary key, a plain index or a unique
      index of `t`. Full-text and spatial indexes never count. */
  predicate Covered(t: Table, cols: seq<string>)
  {
    cols <= t.primaryKey.columns
    || (exists i :: 0 <= i < |t.indexes| && cols <= t.indexes[i].columns)
    || (exists i :: 0 <= i < |t.uniqueIndexes| && cols <= t.uniqueIndexes[i].columns)
  }

  predicate AllFound(cm: ColumnMap, tn: string, cols: seq<string>)
  {
    forall i :: 0 <= i < |cols| ==> (tn, cols[i]) in cm
  }

  lemma {:induction false} AllFoundSnoc(cm: ColumnMap, tn: string, cols: seq<string>, c: string)
    ensures AllFound(cm, tn, cols + [c]) <==> AllFound(cm, tn, cols) && (tn, c) in cm
  {
    var xs := cols + [c];
    assert xs[|cols|] == c;
    assert forall i :: 0 <= i < |cols| ==> xs[i] == cols[i];
  }

  /** validateFKColumns: missing local columns, then "index required" on the
      local table when checking is on, every local column was found and no
      index begins with them. */
  function FKColumnDiags(skip: bool, cm: ColumnMap, t: Table, fk: ForeignKey): seq<Diagnostic>
  {
    NotFound(cm, t.name, InForeignKey(fk.name), fk.columns)
      + (if !skip && AllFound(cm, t.name, fk.columns) && !Covered(t, fk.columns)
         then [IndexRequired(t.name, fk.name, t.name)] else [])
  }

  /** The checks of reference `i` of `fk` against table `ref`: a missing
      referenced column is reported; otherwise, when the local column exists,
      type (or signedness), character set and collation are compared, each
      mismatch reported on its own. */
  function ReferenceDiags(cm: ColumnMap, t: Table, fk: ForeignKey, ref: Table, i: nat): seq<Diagnostic>
    requires i < |fk.references| && i < |fk.columns|
  {
    var col := fk.references[i];
    if (ref.name, col) !in cm then [ReferencedColumnNotFound(t.name, fk.name, ref.name, col)]
    else if (t.name, fk.columns[i]) !in cm then []
    else
      var refcol, mycol := cm[(ref.name, col)], cm[(t.name, fk.columns[i])];
      (if refcol.typ != mycol.typ || refcol.unsigned != mycol.unsigned
       then [Mismatch(t.name, fk.name, mycol.name, ref.name, col, TypeMismatch)] else [])
      + (if refcol.charset != mycol.charset
         then [Mismatch(t.name, fk.name, mycol.name, ref.name, col, CharsetMismatch)] else [])
      + (if refcol.collate != mycol.collate
         then [Mismatch(t.name, fk.name, mycol.name, ref.name, col, CollateMismatch)] else [])
  }

  /** The checks of the first `n` references of `fk`. */
  function ReferencesDiags(cm: ColumnMap, t: Table, fk: ForeignKey, ref: Table, n: nat): seq<Diagnostic>
    requires n <= |fk.references| && |fk.references| <= |fk.columns|
  {
    if n == 0 then [] else ReferencesDiags(cm, t, fk, ref, n - 1) + ReferenceDiags(cm, t, fk, ref, n - 1)
  }

  /** validateFKRef: a missing referenced table ends the checks with one
      diagnostic; otherwise each reference is checked, then "index required"
      on the referenced table when checking is on, every referenced column
      was found and no index of it begins with them. */
  function FKRefDiags(skip: bool, tm: TableMap, cm: ColumnMap, t: Table, fk: ForeignKey): seq<Diagnostic>
    requires |fk.references| <= |fk.columns|
  {
    if fk.table !in tm then [ReferencedTableNotFound(t.name, fk.name, fk.table)]
    else
      var ref := tm[fk.table];
      ReferencesDiags(cm, t, fk, ref, |fk.references|)
        + (if !skip && AllFound(cm, ref.name, fk.references) && !Covered(ref, fk.references)
           then [IndexRequired(t.name, fk.name, ref.name)] else [])
  }

  /** No foreign key has more references than columns (the source indexes
      the local columns by the reference position). */
  predicate ReferencesFit(fks: seq<ForeignKey>)
  {
    forall j :: 0 <= j < |fks| ==> |fks[j].references| <= |fks[j].columns|
  }

  predicate AllReferencesFit(ts: seq<Table>)
  {
    forall i :: 0 <= i < |ts| ==> ReferencesFit(ts[i].foreignKeys)
  }

  /** The foreign-key checks of table `t` for the keys `fks`, in order. */
  function TableFKDiags(skip: bool, tm: TableMap, cm: ColumnMap, t: Table, fks: seq<ForeignKey>): seq<Diagnostic>
    requires ReferencesFit(fks)
  {
    if fks == [] then []
    else
      var fk := fks[|fks| - 1];
      TableFKDiags(skip, tm, cm, t, fks[..|fks| - 1]) + FKColumnDiags(skip, cm, t, fk) + FKRefDiags(skip, tm, cm, t, fk)
  }

  /** validateForeignKeys: every table's foreign keys, tables in order. */
  function ForeignKeyDiags(skip: bool, tm: TableMap, cm: ColumnMap, ts: seq<Table>): seq<Diagnostic>
    requires AllReferencesFit(ts)
  {
    if ts == [] then []
    else
      var t := ts[|ts| - 1];
      ForeignKeyDiags(skip, tm, cm, ts[..|ts| - 1]) + TableFKDiags(skip, tm, cm, t, t.foreignKeys)
  }

  /** Everything Validate reports for `ts`, in the order it is saved. */
  function Diagnostics(skip: bool, ts: seq<Table>): seq<Diagnostic>
    requires AllReferencesFit(ts)
  {
    var tm, cm := TableMapOf(ts), ColumnMapOf(ts);
    TableMapDiags(ts) + IndexChecks(ts, cm) + ForeignKeyNameDiags(ts) + ForeignKeyDiags(skip, tm, cm, ts)
  }

  /** The report on `ts`, after `e`, is the four checks' reports in turn. */
  lemma {:induction false} DiagnosticsParts(e: seq<Diagnostic>, skip: bool, ts: seq<Table>)
    requires AllReferencesFit(ts)
    ensures e + TableMapDiags(ts) + IndexChecks(ts, ColumnMapOf(ts)) + ForeignKeyNameDiags(ts)
        + ForeignKeyDiags(skip, TableMapOf(ts), ColumnMapOf(ts), ts)
      == e + Diagnostics(skip, ts)
  {
    var a, b := TableMapDiags(ts), IndexChecks(ts, ColumnMapOf(ts));
    var c, d := ForeignKeyNameDiags(ts), ForeignKeyDiags(skip, TableMapOf(ts), ColumnMapOf(ts), ts);
    assert Diagnostics(skip, ts) == a + b + c + d;
    Concat3(e, a, b, c);
    AppendAssoc(e, a + b + c, d);
  }

  // ---------------------------------------------------------------------
  // One step of each loop of the validator

  lemma {:induction false} TableMapStep(e: seq<Diagnostic>, ts: seq<Table>, i: nat)
    requires i < |ts|
    ensures var init, t := ts[..i], ts[i];
      && TableMapOf(ts[..i + 1]) == (if t.name in TableMapOf(init) then TableMapOf(init) else TableMapOf(init)[t.name := t])
      && ColumnMapOf(ts[..i + 1])
        == (if t.name in TableMapOf(init) then ColumnMapOf(init) else ColumnsOf(t.name, t.columns, ColumnMapOf(init)))
      && e + TableMapDiags(init)
          + (if t.name in TableMapOf(init) then [DuplicateTable(t.name)] else ColumnDiags(t.name, t.columns, ColumnMapOf(init)))
        == e + TableMapDiags(ts[..i + 1])
  {
    var init, t := ts[..i], ts[i];
    assert ts[..i + 1][..i] == init;
    var rest := if t.name in TableMapOf(init) then [DuplicateTable(t.name)] else ColumnDiags(t.name, t.columns, ColumnMapOf(init));
    assert TableMapDiags(ts[..i + 1]) == TableMapDiags(init) + rest;
    AppendAssoc(e, TableMapDiags(init), rest);
  }

  lemma {:induction false} ColumnsStep(e: seq<Diagnostic>, tn: string, cols: seq<Column>, cm: ColumnMap, j: nat)
    requires j < |cols|
    ensures var init, c := cols[..j], cols[j];
      && ColumnsOf(tn, cols[..j + 1], cm)
        == (if (tn, c.name) in ColumnsOf(tn, init, cm) then ColumnsOf(tn, init, cm) else ColumnsOf(tn, init, cm)[(tn, c.name) := c])
      && e + ColumnDiags(tn, init, cm)
          + (if (tn, c.name) in ColumnsOf(tn, init, cm) then [DuplicateName(tn, ColumnName, c.name)] else [])
        == e + ColumnDiags(tn, cols[..j + 1], cm)
  {
    var init, c := cols[..j], cols[j];
    assert cols[..j + 1][..j] == init;
    var rest := if (tn, c.name) in ColumnsOf(tn, init, cm) then [DuplicateName(tn, ColumnName, c.name)] else [];
    assert ColumnDiags(tn, cols[..j + 1], cm) == ColumnDiags(tn, init, cm) + rest;
    AppendAssoc(e, ColumnDiags(tn, init, cm), rest);
  }


  lemma {:induction false} Concat3(e: seq<Diagnostic>, a: seq<Diagnostic>, b: seq<Diagnostic>, c: seq<Diagnostic>)
    ensures e + a + b + c == e + (a + b + c)
  {
    AppendAssoc(e, a, b);
    AppendAssoc(e, a + b, c);
  }

  lemma {:induction false} IndexChecksStep(e: seq<Diagnostic>, cm: ColumnMap, ts: seq<Table>, i: nat)
    requires i < |ts|
    ensures e + IndexChecks(ts[..i], cm) + MissingKeyColumns(cm, ts[i]) + IndexNameDiags(ts[i])
      == e + IndexChecks(ts[..i + 1], cm)
  {
    var a, m, n := IndexChecks(ts[..i], cm), MissingKeyColumns(cm, ts[i]), IndexNameDiags(ts[i]);
    assert ts[..i + 1][..i] == ts[..i];
    assert IndexChecks(ts[..i + 1], cm) == a + m + n;
    Concat3(e, a, m, n);
  }

  lemma {:induction false} IndexesStep(e: seq<Diagnostic>, cm: ColumnMap, tn: string, idxs: seq<Index>, a: nat)
    requires a < |idxs|
    ensures e + IndexesNotFound(cm, tn, idxs[..a]) + NotFound(cm, tn, InIndex(idxs[a].name), idxs[a].columns)
      == e + IndexesNotFound(cm, tn, idxs[..a + 1])
  {
    assert idxs[..a + 1][..a] == idxs[..a];
  }

  lemma {:induction false} UniqueIndexesStep(e: seq<Diagnostic>, cm: ColumnMap, tn: string, idxs: seq<UniqueIndex>, a: nat)
    requires a < |idxs|
    ensures e + UniqueIndexesNotFound(cm, tn, idxs[..a]) + NotFound(cm, tn, InUniqueIndex(idxs[a].name), idxs[a].columns)
      == e + UniqueIndexesNotFound(cm, tn, idxs[..a + 1])
  {
    assert idxs[..a + 1][..a] == idxs[..a];
  }

  lemma {:induction false} ForeignKeyNamesStep(e: seq<Diagnostic>, ts: seq<Table>, i: nat)
    requires i < |ts|
    ensures AllForeignKeyNames(ts[..i + 1]) == AllForeignKeyNames(ts[..i]) + ForeignKeyNames(ts[i].foreignKeys)
    ensures e + ForeignKeyNameDiags(ts[..i])
        + Duplicates(ts[i].name, ForeignKeyName, RepeatsAfter(AllForeignKeyNames(ts[..i]), ForeignKeyNames(ts[i].foreignKeys)))
      == e + ForeignKeyNameDiags(ts[..i + 1])
  {
    assert ts[..i + 1][..i] == ts[..i];
  }

  lemma {:induction false} ForeignKeyDiagsStep(e: seq<Diagnostic>, skip: bool, tm: TableMap, cm: ColumnMap, ts: seq<Table>, i: nat)
    requires AllReferencesFit(ts) && i < |ts|
    ensures AllReferencesFit(ts[..i]) && ReferencesFit(ts[i].foreignKeys)
    ensures e + ForeignKeyDiags(skip, tm, cm, ts[..i]) + TableFKDiags(skip, tm, cm, ts[i], ts[i].foreignKeys)
      == e + ForeignKeyDiags(skip, tm, cm, ts[..i + 1])
  {
    var init := ts[..i];
    forall k | 0 <= k < i
      ensures ReferencesFit(init[k].foreignKeys)
    {
      assert init[k] == ts[k];
    }
    assert ts[..i + 1][..i] == init && ts[..i + 1][i] == ts[i];
    var a, b := ForeignKeyDiags(skip, tm, cm, init), TableFKDiags(skip, tm, cm, ts[i], ts[i].foreignKeys);
    assert ForeignKeyDiags(skip, tm, cm, ts[..i + 1]) == a + b;
    AppendAssoc(e, a, b);
  }

  /** One column of a key list under a prefix `e`, split by whether it was
      found. */
  lemma {:induction false} NotFoundStep(e: seq<Diagnostic>, cm: ColumnMap, tn: string, place: Place, cols: seq<string>, k: nat)
    requires k < |cols|
    ensures (tn, cols[k]) in cm ==> e + NotFound(cm, tn, place, cols[..k]) == e + NotFound(cm, tn, place, cols[..k + 1])
    ensures (tn, cols[k]) !in cm ==>
      e + NotFound(cm, tn, place, cols[..k]) + [ColumnNotFound(tn, place, cols[k])] == e + NotFound(cm, tn, place, cols[..k + 1])
  {
    var a := NotFound(cm, tn, place, cols[..k]);
    assert cols[..k + 1][..k] == cols[..k] && cols[..k + 1][k] == cols[k];
    if (tn, cols[k]) in cm {
      assert NotFound(cm, tn, place, cols[..k + 1]) == a + [];
      assert a + [] == a;
    } else {
      AppendAssoc(e, a, [ColumnNotFound(tn, place, cols[k])]);
    }
  }

  lemma {:induction false} TableFKDiagsStep(e: seq<Diagnostic>, skip: bool, tm: TableMap, cm: ColumnMap, t: Table, fks: seq<ForeignKey>, j: nat)
    requires ReferencesFit(fks) && j < |fks|
    ensures ReferencesFit(fks[..j]) && |fks[j].references| <= |fks[j].columns|
    ensures e + TableFKDiags(skip, tm, cm, t, fks[..j]) + FKColumnDiags(skip, cm, t, fks[j]) + FKRefDiags(skip, tm, cm, t, fks[j])
      == e + TableFKDiags(skip, tm, cm, t, fks[..j + 1])
  {
    assert fks[..j + 1][..j] == fks[..j];
  }

  // ---------------------------------------------------------------------
  // The validator object

  class Validator {
    /** SkipValidationFKIndex: turns the covering-index requirement off. */
    var skipFKIndex: bool
    var tables: seq<Table>
    var errs: seq<Diagnostic>
    var tableMap: TableMap
    var columnMap: ColumnMap

    /** newValidator */
    constructor (tables: seq<Table>)
      ensures this.tables == tables && errs == [] && !skipFKIndex
      ensures tableMap == map[] && columnMap == map[]
    {
      this.tables := tables;
      skipFKIndex := false;
      errs := [];
      tableMap := map[];
      columnMap := map[];
    }

    /** SaveErrorf: appends one diagnostic. */
    method SaveError(d: Diagnostic)
      modifies this`errs
      ensures errs == old(errs) + [d]
    {
      errs := errs + [d];
    }

    /** Err: no error exactly when nothing was saved; otherwise an error
        carrying every saved diagnostic. */
    method Err() returns (e: Option<ValidationError>)
      ensures e.None? <==> errs == []
      ensures e.Some? ==> e.value.errs == errs
    {
      if |errs| == 0 {
        return None;
      }
      return Some(ValidationError(errs));
    }

    method CreateTableMap()
      modifies this`errs, this`tableMap, this`columnMap
      ensures tableMap == TableMapOf(tables) && columnMap == ColumnMapOf(tables)
      ensures errs == old(errs) + TableMapDiags(tables)
    {
      var tm: TableMap := map[];
      var cm: ColumnMap := map[];
      var i := 0;
      while i < |tables|
        invariant 0 <= i <= |tables|
        invariant tm == TableMapOf(tables[..i]) && cm == ColumnMapOf(tables[..i])
        invariant errs == old(errs) + TableMapDiags(tables[..i])
      {
        var t := tables[i];
        TableMapStep(old(errs), tables, i);
        if t.name in tm {
          SaveError(DuplicateTable(t.name));
        } else {
          tm := tm[t.name := t];
          cm := AddColumns(t, cm);
        }
        i := i + 1;
      }
      assert tables[..i] == tables;
      tableMap := tm;
      columnMap := cm;
    }

    /** The column loop of createTableMap: each column of `t` is added to the
        map under (table name, column name) unless that key is taken, which is
        reported instead. */
    method AddColumns(t: Table, cm: ColumnMap) returns (cm': ColumnMap)
      modifies this`errs
      ensures cm' == ColumnsOf(t.name, t.columns, cm)
      ensures errs == old(errs) + ColumnDiags(t.name, t.columns, cm)
    {
      cm' := cm;
      var j := 0;
      while j < |t.columns|
        invariant 0 <= j <= |t.columns|
        invariant cm' == ColumnsOf(t.name, t.columns[..j], cm)
        invariant errs == old(errs) + ColumnDiags(t.name, t.columns[..j], cm)
      {
        var col := t.columns[j];
        ColumnsStep(old(errs), t.name, t.columns, cm, j);
        if (t.name, col.name) in cm' {
          SaveError(DuplicateName(t.name, ColumnName, col.name));
        } else {
          cm' := cm'[(t.name, col.name) := col];
        }
        j := j + 1;
      }
      assert t.columns[..j] == t.columns;
    }

    /** The column-existence loop shared by validateIndex and
        validateFKColumns: reports each name of `cols` that is not a column
        of table `tn`, and tells whether all were found. */
    method CheckColumns(tn: string, place: Place, cols: seq<string>) returns (passed: bool)
      modifies this`errs
      ensures passed <==> AllFound(columnMap, tn, cols)
      ensures errs == old(errs) + NotFound(columnMap, tn, place, cols)
    {
      passed := true;
      var k := 0;
      while k < |cols|
        invariant 0 <= k <= |cols|
        invariant passed <==> AllFound(columnMap, tn, cols[..k])
        invariant errs == old(errs) + NotFound(columnMap, tn, place, cols[..k])
      {
        assert cols[..k + 1] == cols[..k] + [cols[k]];
        AllFoundSnoc(columnMap, tn, cols[..k], cols[k]);
        NotFoundStep(old(errs), columnMap, tn, place, cols, k);
        if (tn, cols[k]) !in columnMap {
          SaveError(ColumnNotFound(tn, place, cols[k]));
          passed := false;
        }
        k := k + 1;
      }
      assert cols[..k] == cols;
    }

    /** The uniqueness loop shared by validateIndexName and
        validateConstraints: `seen` holds the names met so far (`before`);
        each name of `names` already seen is reported, any other is added. */
    method CheckNames(tn: string, kind: NameKind, names: seq<string>, seen: set<string>, ghost before: seq<string>) returns (seen': set<string>)
      requires forall x :: x in seen <==> x in before
      modifies this`errs
      ensures forall x :: x in seen' <==> x in before || x in names
      ensures errs == old(errs) + Duplicates(tn, kind, RepeatsAfter(before, names))
    {
      seen' := seen;
      var j := 0;
      while j < |names|
        invariant 0 <= j <= |names|
        invariant forall x :: x in seen' <==> x in before || x in names[..j]
        invariant errs == old(errs) + Duplicates(tn, kind, RepeatsAfter(before, names[..j]))
      {
        var name := names[j];
        assert names[..j + 1] == names[..j] + [name];
        NamesStep(old(errs), tn, kind, before, names, j);
        if name in seen' {
          SaveError(DuplicateName(tn, kind, name));
        } else {
          seen' := seen' + {name};
        }
        j := j + 1;
      }
      assert names[..j] == names;
    }

    method ValidateIndex(t: Table)
      modifies this`errs
      ensures errs == old(errs) + MissingKeyColumns(columnMap, t)
    {
      var _ := CheckColumns(t.name, InPrimaryKey, t.primaryKey.columns);

      ghost var errs1 := errs;
      var a := 0;
      while a < |t.indexes|
        invariant 0 <= a <= |t.indexes|
        invariant errs == errs1 + IndexesNotFound(columnMap, t.name, t.indexes[..a])
      {
        var idx := t.indexes[a];
        IndexesStep(errs1, columnMap, t.name, t.indexes, a);
        var _ := CheckColumns(t.name, InIndex(idx.name), idx.columns);
        a := a + 1;
      }
      assert t.indexes[..a] == t.indexes;

      ghost var errs2 := errs;
      a := 0;
      while a < |t.uniqueIndexes|
        invariant 0 <= a <= |t.uniqueIndexes|
        invariant errs == errs2 + UniqueIndexesNotFound(columnMap, t.name, t.uniqueIndexes[..a])
      {
        var idx := t.uniqueIndexes[a];
        UniqueIndexesStep(errs2, columnMap, t.name, t.uniqueIndexes, a);
        var _ := CheckColumns(t.name, InUniqueIndex(idx.name), idx.columns);
        a := a + 1;
      }
      assert t.uniqueIndexes[..a] == t.uniqueIndexes;
      Concat3(old(errs), NotFound(columnMap, t.name, InPrimaryKey, t.primaryKey.columns),
        IndexesNotFound(columnMap, t.name, t.indexes), UniqueIndexesNotFound(columnMap, t.name, t.uniqueIndexes));
    }

    /** validateIndexName: one name space over the four kinds of index. */
    method ValidateIndexName(t: Table)
      modifies this`errs
      ensures errs == old(errs) + IndexNameDiags(t)
    {
      var n1, n2 := IndexNames(t.indexes), UniqueIndexNames(t.uniqueIndexes);
      var n3, n4 := FullTextIndexNames(t.fullTextIndexes), SpatialIndexNames(t.spatialIndexes);
      var seen := CheckNames(t.name, IndexName, n1, {}, []);
      assert errs == old(errs) + Duplicates(t.name, IndexName, Repeats(n1));
      seen := CheckNames(t.name, IndexName, n2, seen, n1);
      ExtendDuplicates(old(errs), t.name, IndexName, n1, n2);
      seen := CheckNames(t.name, IndexName, n3, seen, n1 + n2);
      ExtendDuplicates(old(errs), t.name, IndexName, n1 + n2, n3);
      seen := CheckNames(t.name, IndexName, n4, seen, n1 + n2 + n3);
      ExtendDuplicates(old(errs), t.name, IndexName, n1 + n2 + n3, n4);
    }

    method ValidateConstraints()
      modifies this`errs
      ensures errs == old(errs) + ForeignKeyNameDiags(tables)
    {
      var seen: set<string> := {};
      var i := 0;
      while i < |tables|
        invariant 0 <= i <= |tables|
        invariant forall x :: x in seen <==> x in AllForeignKeyNames(tables[..i])
        invariant errs == old(errs) + ForeignKeyNameDiags(tables[..i])
      {
        var t := tables[i];
        ForeignKeyNamesStep(old(errs), tables, i);
        seen := CheckNames(t.name, ForeignKeyName, ForeignKeyNames(t.foreignKeys), seen, AllForeignKeyNames(tables[..i]));
        i := i + 1;
      }
      assert tables[..i] == tables;
    }

    method ValidateForeignKeys()
      requires AllReferencesFit(tables)
      modifies this`errs
      ensures errs == old(errs) + ForeignKeyDiags(skipFKIndex, tableMap, columnMap, tables)
    {
      var i := 0;
      while i < |tables|
        invariant 0 <= i <= |tables|
        invariant errs == old(errs) + ForeignKeyDiags(skipFKIndex, tableMap, columnMap, tables[..i])
      {
        ForeignKeyDiagsStep(old(errs), skipFKIndex, tableMap, columnMap, tables, i);
        ValidateTableForeignKeys(tables[i]);
        i := i + 1;
      }
      assert tables[..i] == tables;
    }

    /** The inner loop of validateForeignKeys: the checks of each foreign key
        of `t`, in order. */
    method ValidateTableForeignKeys(t: Table)
      requires ReferencesFit(t.foreignKeys)
      modifies this`errs
      ensures errs == old(errs) + TableFKDiags(skipFKIndex, tableMap, columnMap, t, t.foreignKeys)
    {
      var j := 0;
      while j < |t.foreignKeys|
        invariant 0 <= j <= |t.foreignKeys|
        invariant errs == old(errs) + TableFKDiags(skipFKIndex, tableMap, columnMap, t, t.foreignKeys[..j])
      {
        var fk := t.foreignKeys[j];
        TableFKDiagsStep(old(errs), skipFKIndex, tableMap, columnMap, t, t.foreignKeys, j);
        ValidateFKColumns(t, fk);
        ValidateFKRef(t, fk);
        j := j + 1;
      }
      assert t.foreignKeys[..j] == t.foreignKeys;
    }

    method ValidateFKColumns(t: Table, fk: ForeignKey)
      modifies this`errs
      ensures errs == old(errs) + FKColumnDiags(skipFKIndex, columnMap, t, fk)
    {
      var passed := CheckColumns(t.name, InForeignKey(fk.name), fk.columns);
      if !skipFKIndex {
        if passed {
          var has := HasIndex(t, fk.columns);
          if !has {
            SaveError(IndexRequired(t.name, fk.name, t.name));
          }
        }
      }
    }

    method ValidateFKRef(t: Table, fk: ForeignKey)
      requires |fk.references| <= |fk.columns|
      modifies this`errs
      ensures errs == old(errs) + FKRefDiags(skipFKIndex, tableMap, columnMap, t, fk)
    {
      if fk.table !in tableMap {
        SaveError(ReferencedTableNotFound(t.name, fk.name, fk.table));
        return;
      }
      var ref := tableMap[fk.table];
      var passed := CheckReferences(t, fk, ref);
      ghost var e1 := errs;
      if !skipFKIndex {
        if passed {
          var has := HasIndex(ref, fk.references);
          if !has {
            SaveError(IndexRequired(t.name, fk.name, ref.name));
          }
        }
      }
      ghost var last := errs[|e1|..];
      assert errs == e1 + last;
      AppendAssoc(old(errs), ReferencesDiags(columnMap, t, fk, ref, |fk.references|), last);
    }

    /** The reference loop of validateFKRef: checks each referenced column
        in order and tells whether all of them were found. */
    method CheckReferences(t: Table, fk: ForeignKey, ref: Table) returns (passed: bool)
      requires |fk.references| <= |fk.columns|
      modifies this`errs
      ensures passed <==> AllFound(columnMap, ref.name, fk.references)
      ensures errs == old(errs) + ReferencesDiags(columnMap, t, fk, ref, |fk.references|)
    {
      passed := true;
      var i := 0;
      while i < |fk.references|
        invariant 0 <= i <= |fk.references|
        invariant passed <==> AllFound(columnMap, ref.name, fk.references[..i])
        invariant errs == old(errs) + ReferencesDiags(columnMap, t, fk, ref, i)
      {
        var col := fk.references[i];
        assert fk.references[..i + 1] == fk.references[..i] + [col];
        AllFoundSnoc(columnMap, ref.name, fk.references[..i], col);
        ghost var e0 := errs;
        var found := CheckReferenceAt(t, fk, ref, i);
        if !found {
          passed := false;
        }
        AppendAssoc(old(errs), ReferencesDiags(columnMap, t, fk, ref, i), ReferenceDiags(columnMap, t, fk, ref, i));
        i := i + 1;
      }
      assert fk.references[..i] == fk.references;
    }

    /** One pass of the reference loop: a missing referenced column is
        reported; when the local column is missing too nothing more is said
        (it was reported already); otherwise the column types are compared. */
    method CheckReferenceAt(t: Table, fk: ForeignKey, ref: Table, i: nat) returns (found: bool)
      requires i < |fk.references| && i < |fk.columns|
      modifies this`errs
      ensures found <==> (ref.name, fk.references[i]) in columnMap
      ensures errs == old(errs) + ReferenceDiags(columnMap, t, fk, ref, i)
    {
      var col := fk.references[i];
      if (ref.name, col) !in columnMap {
        SaveError(ReferencedColumnNotFound(t.name, fk.name, ref.name, col));
        return false;
      }
      if (t.name, fk.columns[i]) in columnMap {
        CheckReference(t, fk, ref, i);
      } else {
        assert errs + [] == errs;
      }
      return true;
    }

    /** The type, character-set and collation checks of reference `i` of
        `fk`, when both the referenced and the local column exist. */
    method CheckReference(t: Table, fk: ForeignKey, ref: Table, i: nat)
      requires i < |fk.references| && i < |fk.columns|
      requires (ref.name, fk.references[i]) in columnMap && (t.name, fk.columns[i]) in columnMap
      modifies this`errs
      ensures errs == old(errs) + ReferenceDiags(columnMap, t, fk, ref, i)
    {
      var col := fk.references[i];
      var refcol := columnMap[(ref.name, col)];
      var mycol := columnMap[(t.name, fk.columns[i])];
      if refcol.typ != mycol.typ || refcol.unsigned != mycol.unsigned {
        SaveError(Mismatch(t.name, fk.name, mycol.name, ref.name, col, TypeMismatch));
      }
      ghost var e1 := errs;
      if refcol.charset != mycol.charset {
        SaveError(Mismatch(t.name, fk.name, mycol.name, ref.name, col, CharsetMismatch));
      }
      ghost var e2 := errs;
      if refcol.collate != mycol.collate {
        SaveError(Mismatch(t.name, fk.name, mycol.name, ref.name, col, CollateMismatch));
      }
      Concat3(old(errs), e1[|old(errs)|..], e2[|e1|..], errs[|e2|..]);
    }

    /** hasIndex */
    method HasIndex(t: Table, cols: seq<string>) returns (b: bool)
      ensures b <==> Covered(t, cols)
    {
      b := HasPrefix(t.primaryKey.columns, cols);
      if b {
        return;
      }
      var i := 0;
      while i < |t.indexes|
        invariant 0 <= i <= |t.indexes|
        invariant forall k :: 0 <= k < i ==> !(cols <= t.indexes[k].columns)
      {
        b := HasPrefix(t.indexes[i].columns, cols);
        if b {
          return;
        }
        i := i + 1;
      }
      i := 0;
      while i < |t.uniqueIndexes|
        invariant 0 <= i <= |t.uniqueIndexes|
        invariant forall k :: 0 <= k < i ==> !(cols <= t.uniqueIndexes[k].columns)
      {
        b := HasPrefix(t.uniqueIndexes[i].columns, cols);
        if b {
          return;
        }
        i := i + 1;
      }
      return false;
    }

    /** hasPrefix: `prefix` is a prefix of `s`. */
    method HasPrefix(s: seq<string>, prefix: seq<string>) returns (b: bool)
      ensures b <==> prefix <= s
    {
      if |s| < |prefix| {
        return false;
      }
      var i := 0;
      while i < |prefix|
        invariant 0 <= i <= |prefix|
        invariant prefix[..i] == s[..i]
      {
        if s[i] != prefix[i] {
          return false;
        }
        i := i + 1;
      }
      assert prefix == s[..|prefix|];
      return true;
    }

    /** Validate: runs every check in order and returns the accumulated
        diagnostics as one error, or no error when there are none. */
    method Validate() returns (err: Option<ValidationError>)
      requires AllReferencesFit(tables)
      modifies this`errs, this`tableMap, this`columnMap
      ensures tableMap == TableMapOf(tables) && columnMap == ColumnMapOf(tables)
      ensures errs == old(errs) + Diagnostics(skipFKIndex, tables)
      ensures err.None? <==> errs == []
      ensures err.Some? ==> err.value.errs == errs
    {
      CreateTableMap();
      ghost var errs1 := errs;
      var i := 0;
      while i < |tables|
        invariant 0 <= i <= |tables|
        invariant tableMap == TableMapOf(tables) && columnMap == ColumnMapOf(tables)
        invariant errs == errs1 + IndexChecks(tables[..i], columnMap)
      {
        IndexChecksStep(errs1, columnMap, tables, i);
        ValidateIndex(tables[i]);
        ValidateIndexName(tables[i]);
        i := i + 1;
      }
      assert tables[..i] == tables;
      ValidateConstraints();
      ValidateForeignKeys();
      DiagnosticsParts(old(errs), skipFKIndex, tables);
      err := Err();
    }
  }
}
