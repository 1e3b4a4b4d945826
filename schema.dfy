/** The table descriptions the validator and the DDL generator consume: one
    record per entity, holding the fields the core reads. */
module Schema {

  /** A column: its SQL name, SQL type, length (0 = none), and the flags and
      character-set settings compared across foreign keys. */
  datatype Column = Column(
    name: string,
    typ: string,
    size: nat,
    unsigned: bool,
    nullable: bool,
    charset: string,
    collate: string)

  /** The primary key: column names in key order. */
  datatype PrimaryKey = PrimaryKey(columns: seq<string>)

  /** A plain secondary index. */
  datatype Index = Index(name: string, columns: seq<string>)

  /** A unique index. */
  datatype UniqueIndex = UniqueIndex(name: string, columns: seq<string>)

  /** A full-text index; only its name takes part in validation. */
  datatype FullTextIndex = FullTextIndex(name: string, column: string)

  /** A spatial index; only its name takes part in validation. */
  datatype SpatialIndex = SpatialIndex(name: string, column: string)

  /** A foreign key: local `columns` refer, position by position, to the
      `references` columns of table `table`. */
  datatype ForeignKey = ForeignKey(
    name: string,
    columns: seq<string>,
    table: string,
    references: seq<string>)

  datatype Table = Table(
    name: string,
    columns: seq<Column>,
    primaryKey: PrimaryKey,
    indexes: seq<Index>,
    uniqueIndexes: seq<UniqueIndex>,
    fullTextIndexes: seq<FullTextIndex>,
    spatialIndexes: seq<SpatialIndex>,
    foreignKeys: seq<ForeignKey>)

  /** The names of `cols`, in declaration order. */
  function ColumnNames(cols: seq<Column>): (names: seq<string>)
    ensures |names| == |cols|
    ensures forall i :: 0 <= i < |cols| ==> names[i] == cols[i].name
  {
    if cols == [] then [] else ColumnNames(cols[..|cols| - 1]) + [cols[|cols| - 1].name]
  }

  /** The names of `ts`, in input order. */
  function TableNames(ts: seq<Table>): (names: seq<string>)
    ensures |names| == |ts|
    ensures forall i :: 0 <= i < |ts| ==> names[i] == ts[i].name
  {
    if ts == [] then [] else TableNames(ts[..|ts| - 1]) + [ts[|ts| - 1].name]
  }
}
