/** The older reflection-based front end (parser.go): struct tags, Go type
    names and the arguments handed to the `dialect` package. Reflection is
    replaced by descriptors of the struct, its fields and their types; the
    snake-casing library and the dialect's column and table constructors are
    not part of this model, so the snake-casing is a parameter and the
    constructors are represented by the arguments they receive. */
module Parser {
  import opened Wrappers
  import opened Seqs
  import opened Strings

  /** The struct-tag key the front end reads (`ddl:"..."`). */
  const TagPrefix: string := "ddl"

  /** The tag token that excludes a field. */
  const IgnoreTag: string := "-"

  /** The error parseField returns for an excluded field. */
  const ErrIgnoreField: string := "error ignore this field"

  /** How reflection classifies a type that has no package path. */
  datatype Kind = Pointer | Slice | OtherKind

  /** What reflection reports about a field's type: its package path ("" for
      unnamed and predeclared types), its name, its kind and, for pointers
      and slices, the printed element type. */
  datatype TypeDesc = TypeDesc(pkgPath: string, name: string, kind: Kind, elem: string)

  /** A struct field: its Go name, its type and the value of its `ddl` tag. */
  datatype FieldDesc = FieldDesc(name: string, typ: TypeDesc, tag: string)

  /** The primary key a struct declares (AddPrimaryKey): its columns, verbatim. */
  datatype PrimaryKeyDesc = PrimaryKeyDesc(columns: seq<string>)

  /** A struct handed to the front end: its type's package path and name, its
      fields in declaration order and, for each optional method, what it
      returns, or None when the struct lacks the method. The dialect's
      foreign-key and index lists are of types `FK` and `IX`. */
  datatype StructDesc<FK, IX> = StructDesc(
    pkgPath: string,
    name: string,
    fields: seq<FieldDesc>,
    table: Option<string>,
    primaryKey: Option<PrimaryKeyDesc>,
    foreignKeys: Option<FK>,
    indexes: Option<IX>)

  /** The arguments of the dialect's newColumn: column name, Go type name and
      the tag with its spaces removed. */
  datatype ColumnArgs = ColumnArgs(name: string, typeName: string, tag: string)

  /** The arguments of the dialect's newTable. */
  datatype TableArgs<FK, IX> = TableArgs(
    name: string,
    primaryKey: Option<PrimaryKeyDesc>,
    foreignKeys: Option<FK>,
    columns: seq<ColumnArgs>,
    indexes: Option<IX>)

  // ---------------------------------------------------------------------
  // Tags

  /** The tag with every space removed, as stored in the column. */
  function TagText(tag: string): string
  {
    Remove(tag, ' ')
  }

  /** The comma-separated tokens of the space-free tag. */
  function TagTokens(tag: string): seq<string>
  {
    Split(TagText(tag), ',')
  }

  /** A field is excluded when any of its tag tokens is `-`. */
  predicate Ignored(tag: string)
  {
    IgnoreTag in TagTokens(tag)
  }

  /** The tokens hold neither spaces nor commas, and joined with commas they
      give back the space-free tag. */
  lemma {:induction false} TagTokensShape(tag: string)
    ensures forall i :: 0 <= i < |TagTokens(tag)| ==> ' ' !in TagTokens(tag)[i] && ',' !in TagTokens(tag)[i]
    ensures Join(TagTokens(tag), ",") == TagText(tag)
  {
    var tokens := TagTokens(tag);
    forall i | 0 <= i < |tokens| ensures ' ' !in tokens[i] {
      JoinSplit(TagText(tag), ',');
      JoinedPiece(tokens, ',', i);
    }
    JoinSplit(TagText(tag), ',');
  }

  /** Each piece of a joined list occurs in the joined text. */
  lemma {:induction false} JoinedPiece(xs: seq<string>, sep: char, i: nat)
    requires i < |xs|
    ensures forall c :: c in xs[i] ==> c in Join(xs, [sep])
    decreases |xs|
  {
    if |xs| > 1 {
      var rest := Join(xs[1..], [sep]);
      assert Join(xs, [sep]) == xs[0] + [sep] + rest;
      if i > 0 {
        JoinedPiece(xs[1..], sep, i - 1);
        assert xs[1..][i - 1] == xs[i];
      }
    }
  }

  /** Spaces anywhere in the tag change nothing; a token `-` excludes the
      field wherever it stands in the list: the tag `a,b` is ignored exactly
      when `a` or `b` is. */
  lemma {:induction false} IgnoredComma(a: string, b: string)
    ensures Ignored(a + "," + b) <==> Ignored(a) || Ignored(b)
  {
    RemoveAppend(a + ",", b, ' ');
    RemoveAppend(a, ",", ' ');
    assert Remove(",", ' ') == ",";
    SplitAppend(TagText(a), TagText(b), ',');
    assert TagText(a + "," + b) == TagText(a) + [','] + TagText(b);
  }

  lemma {:induction false} IgnoredSpaces(tag: string)
    ensures Ignored(TagText(tag)) <==> Ignored(tag)
  {
    RemoveIdempotent(tag, ' ');
  }

  /** The tags `-` and ` - ` exclude a field; `-x`, `--` and the empty tag do not. */
  lemma {:induction false} IgnoredExamples()
    ensures Ignored("-") && Ignored(" - ")
    ensures !Ignored("") && !Ignored("-x") && !Ignored("--")
  {
    SingleTokenTag("-");
    SingleTokenTag("-x");
    SingleTokenTag("--");
    SpacedDashText();
    IgnoredSpaces(" - ");
  }

  /** A tag without spaces or commas is a single token. */
  lemma {:induction false} SingleTokenTag(tag: string)
    requires ' ' !in tag && ',' !in tag
    ensures TagTokens(tag) == [tag]
  {
    RemoveNone(tag, ' ');
    SplitNone(tag, ',');
  }

  lemma {:induction false} SpacedDashText()
    ensures TagText(" - ") == "-"
  {
    assert " - "[1..] == "- " && "- "[1..] == " " && " "[1..] == "";
  }

  // ---------------------------------------------------------------------
  // Type names

  /** The package name printed for a package path: the text after the last
      `/`, or the whole path when it has none. */
  function PackageName(path: string): (name: string)
    ensures '/' !in name
    ensures EndsAfter(path, name, '/')
  {
    if '/' in path then
      var pkgs := Split(path, '/');
      SplitLast(path, '/');
      pkgs[|pkgs| - 1]
    else
      assert EndsAfter(path, path, '/') by { assert path[0..] == path; }
      path
  }

  /** The Go type name recorded for a field's type: `pkg.Name` for a type with
      a package path, else `*elem` for a pointer, `[]elem` for a slice, or the
      bare name. */
  function TypeName(t: TypeDesc): string
  {
    if t.pkgPath != "" then PackageName(t.pkgPath) + "." + t.name
    else if t.kind == Pointer then "*" + t.elem
    else if t.kind == Slice then "[]" + t.elem
    else t.name
  }

  /** A package-qualified name holds no `/` and ends with `.` and the type's
      own name; the package path is tested before the kind. */
  lemma {:induction false} TypeNameQualified(t: TypeDesc)
    requires t.pkgPath != "" && '/' !in t.name
    ensures '/' !in TypeName(t)
    ensures EndsWith(TypeName(t), "." + t.name)
    ensures StartsWith(TypeName(t), PackageName(t.pkgPath))
  {
    var p := PackageName(t.pkgPath);
    Assoc(p, ".", t.name);
    EndsWithAppend(p, "." + t.name);
    StartsWithAppend(p, "." + t.name);
  }

  /** A path without `/` is its own package name. */
  lemma {:induction false} PackageNameWhole(path: string)
    requires '/' !in path
    ensures PackageName(path) == path
  {
  }

  /** The package name of `a/b` is `b` when `b` holds no `/`, whatever `a` is. */
  lemma {:induction false} PackageNameLast(a: string, b: string)
    requires '/' !in b
    ensures PackageName(a + "/" + b) == b
  {
    var path := a + "/" + b;
    assert path[|a|] == '/';
    SplitAppend(a, b, '/');
    SplitNone(b, '/');
    LastOfAppend(Split(a, '/'), b);
  }

  /** `time.Time`, `sql.NullString` (from package path `database/sql`),
      `*int`, `[]string` and `int64`. */
  lemma {:induction false} TypeNameExamples()
    ensures TypeName(TypeDesc("time", "Time", OtherKind, "")) == "time" + "." + "Time"
    ensures TypeName(TypeDesc("database" + "/" + "sql", "NullString", Pointer, "")) == "sql" + "." + "NullString"
    ensures TypeName(TypeDesc("", "", Pointer, "int")) == "*" + "int"
    ensures TypeName(TypeDesc("", "", Slice, "string")) == "[]" + "string"
    ensures TypeName(TypeDesc("", "int64", OtherKind, "")) == "int64"
  {
    PackageNameWhole("time");
    PackageNameLast("database", "sql");
  }

  // ---------------------------------------------------------------------
  // Fields and tables

  /** What parseField yields for a field: the ignore error, or the column
      named after the snake-cased field name. */
  function FieldColumn(f: FieldDesc, toSnake: string -> string): (r: Result<ColumnArgs, string>)
  {
    if Ignored(f.tag) then Err(ErrIgnoreField)
    else Ok(ColumnArgs(toSnake(f.name), TypeName(f.typ), TagText(f.tag)))
  }

  /** The error is the ignore error exactly when a token is `-`; otherwise
      the column carries the snake-cased name, the type name and a tag
      without spaces. */
  lemma {:induction false} FieldColumnShape(f: FieldDesc, toSnake: string -> string)
    ensures FieldColumn(f, toSnake).Err? <==> exists i :: 0 <= i < |TagTokens(f.tag)| && TagTokens(f.tag)[i] == IgnoreTag
    ensures FieldColumn(f, toSnake).Err? ==> FieldColumn(f, toSnake).error == ErrIgnoreField
    ensures FieldColumn(f, toSnake).Ok? ==>
      var c := FieldColumn(f, toSnake).value;
      c.name == toSnake(f.name) && c.typeName == TypeName(f.typ) && ' ' !in c.tag && |c.tag| <= |f.tag|
  {
    var tokens := TagTokens(f.tag);
    if Ignored(f.tag) {
      var i :| 0 <= i < |tokens| && tokens[i] == IgnoreTag;
    }
  }

  /** parseField: strips the spaces from the tag, returns the ignore error if
      any token is `-`, and otherwise builds the column. */
  method ParseField(f: FieldDesc, toSnake: string -> string) returns (r: Result<ColumnArgs, string>)
    ensures r == FieldColumn(f, toSnake)
  {
    var tagStr := Remove(f.tag, ' ');
    var tokens := Split(tagStr, ',');
    for i := 0 to |tokens|
      invariant IgnoreTag !in tokens[..i]
    {
      if tokens[i] == IgnoreTag {
        return Err(ErrIgnoreField);
      }
    }
    assert tokens[..|tokens|] == tokens;
    var typeName := TypeNameOf(f.typ);
    return Ok(ColumnArgs(toSnake(f.name), typeName, tagStr));
  }

  /** The type-name switch of parseField. */
  method TypeNameOf(t: TypeDesc) returns (typeName: string)
    ensures typeName == TypeName(t)
  {
    if t.pkgPath != "" {
      var pkgName := t.pkgPath;
      if '/' in pkgName {
        var pkgs := Split(pkgName, '/');
        pkgName := pkgs[|pkgs| - 1];
      }
      typeName := pkgName + "." + t.name;
    } else if t.kind == Pointer {
      typeName := "*" + t.elem;
    } else if t.kind == Slice {
      typeName := "[]" + t.elem;
    } else {
      typeName := t.name;
    }
  }

  /** The column a field contributes: none when it is ignored. */
  function FieldPart(toSnake: string -> string): FieldDesc -> seq<ColumnArgs>
  {
    (f: FieldDesc) => if FieldColumn(f, toSnake).Ok? then [FieldColumn(f, toSnake).value] else []
  }

  /** The columns of a struct: one per field that is not ignored, in field
      order. */
  function Columns(fields: seq<FieldDesc>, toSnake: string -> string): seq<ColumnArgs>
  {
    Gather(FieldPart(toSnake), fields)
  }

  /** The columns of consecutive runs of fields are consecutive. */
  lemma {:induction false} ColumnsAppend(a: seq<FieldDesc>, b: seq<FieldDesc>, toSnake: string -> string)
    ensures Columns(a + b, toSnake) == Columns(a, toSnake) + Columns(b, toSnake)
  {
    GatherAppend(FieldPart(toSnake), a, b);
  }

  /** A struct has no columns exactly when every field is ignored. */
  lemma {:induction false} ColumnsNone(fields: seq<FieldDesc>, toSnake: string -> string)
    ensures Columns(fields, toSnake) == [] <==> forall i :: 0 <= i < |fields| ==> Ignored(fields[i].tag)
  {
    GatherNone(FieldPart(toSnake), fields);
    forall i | 0 <= i < |fields|
      ensures FieldPart(toSnake)(fields[i]) == [] <==> Ignored(fields[i].tag)
    {
    }
  }

  /** When no field is ignored, the columns are the fields' columns one for
      one, in order. */
  lemma {:induction false} ColumnsAllKept(fields: seq<FieldDesc>, toSnake: string -> string)
    requires forall i :: 0 <= i < |fields| ==> !Ignored(fields[i].tag)
    ensures |Columns(fields, toSnake)| == |fields|
    ensures forall i :: 0 <= i < |fields| ==> Columns(fields, toSnake)[i] == FieldColumn(fields[i], toSnake).value
  {
    GatherSingles(FieldPart(toSnake), fields);
  }

  /** The field loop of parse: the columns of the fields that are not
      ignored, in field order. */
  method ParseColumns(fields: seq<FieldDesc>, toSnake: string -> string) returns (columns: seq<ColumnArgs>)
    ensures columns == Columns(fields, toSnake)
  {
    columns := [];
    for i := 0 to |fields|
      invariant columns == Columns(fields[..i], toSnake)
    {
      var column := ParseField(fields[i], toSnake);
      assert fields[..i + 1][..i] == fields[..i];
      if column.Ok? {
        columns := columns + [column.value];
      }
    }
    assert fields[..|fields|] == fields;
  }

  /** parseTable: the table is named after the snake-cased result of
      `Table()` when the struct has it, else after the snake-cased type name;
      each optional part is taken only when the struct provides it. */
  function ParseTable<FK, IX>(s: StructDesc<FK, IX>, columns: seq<ColumnArgs>, toSnake: string -> string): (r: TableArgs<FK, IX>)
    ensures s.table.None? ==> r.name == toSnake(s.name)
    ensures s.table.Some? ==> r.name == toSnake(s.table.value)
    ensures r.columns == columns && r.primaryKey == s.primaryKey
    ensures r.foreignKeys == s.foreignKeys && r.indexes == s.indexes
  {
    var tableName := if s.table.Some? then toSnake(s.table.value) else toSnake(s.name);
    TableArgs(tableName, s.primaryKey, s.foreignKeys, columns, s.indexes)
  }

  /** The table parse builds for one struct. */
  function TableOf<FK, IX>(s: StructDesc<FK, IX>, toSnake: string -> string): TableArgs<FK, IX>
  {
    ParseTable(s, Columns(s.fields, toSnake), toSnake)
  }

  /** The table name does not depend on the type name when `Table()` is
      given, and the columns and optional parts are handed on unchanged. */
  lemma {:induction false} TableOfShape<FK, IX>(s: StructDesc<FK, IX>, s': StructDesc<FK, IX>, toSnake: string -> string)
    requires s.table.Some? && s'.table == s.table
    ensures TableOf(s, toSnake).name == TableOf(s', toSnake).name == toSnake(s.table.value)
    ensures TableOf(s, toSnake).columns == Columns(s.fields, toSnake)
    ensures TableOf(s, toSnake).primaryKey == s.primaryKey
    ensures TableOf(s, toSnake).foreignKeys == s.foreignKeys
    ensures TableOf(s, toSnake).indexes == s.indexes
  {
  }

  /** The tables of `ss`, one per struct, in order. */
  function TablesOf<FK, IX>(ss: seq<StructDesc<FK, IX>>, toSnake: string -> string): seq<TableArgs<FK, IX>>
  {
    Map((s: StructDesc<FK, IX>) => TableOf(s, toSnake), ss)
  }
}
