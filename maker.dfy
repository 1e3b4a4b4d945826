/** The DDL generator (maker.go): MySQL identifier quoting, the text of one
    CREATE TABLE statement, and the `Maker` that collects structs, turns them
    into tables and writes the whole script. */
module Maker {
  import opened Wrappers
  import opened Seqs
  import opened Strings
  import opened Schema
  import opened Io

  // ---------------------------------------------------------------------
  // Identifier quoting (quote, quoteAll)

  /** The text between the backticks of a quoted identifier: `s` with every
      backtick doubled. */
  function Escaped(s: string): (r: string)
    ensures |r| == |s| + Count('`', s)
  {
    if s == [] then "" else (if s[0] == '`' then "``" else [s[0]]) + Escaped(s[1..])
  }

  /** The quoted form of identifier `s` (section 9.2, "Schema Object Names",
      of the MySQL 8.0 Reference Manual). */
  function Quoted(s: string): string
  {
    "`" + Escaped(s) + "`"
  }

  lemma {:induction false} EscapedAppend(a: string, b: string)
    ensures Escaped(a + b) == Escaped(a) + Escaped(b)
  {
    if a != [] {
      assert (a + b)[1..] == a[1..] + b;
      EscapedAppend(a[1..], b);
    } else {
      assert a + b == b;
    }
  }

  /** A quoted identifier is two characters longer than the name, plus one
      for each backtick in it. */
  lemma {:induction false} QuotedLength(s: string)
    ensures |Quoted(s)| == |s| + 2 + Count('`', s)
    ensures Quoted(s)[0] == '`' && Quoted(s)[|Quoted(s)| - 1] == '`'
  {
  }

  /** Reads the identifier after an opening backtick: a doubled backtick
      stands for one backtick, a single one ends the identifier. The
      identifier and the text after it; None when no closing backtick. */
  function ReadBody(t: string): (r: Option<(string, string)>)
    ensures r.Some? ==> |r.value.1| < |t|
    decreases |t|
  {
    if t == [] then None
    else if t[0] == '`' then
      if |t| >= 2 && t[1] == '`' then
        match ReadBody(t[2..])
        case None => None
        case Some(p) => Some(("`" + p.0, p.1))
      else Some(("", t[1..]))
    else
      match ReadBody(t[1..])
      case None => None
      case Some(p) => Some(([t[0]] + p.0, p.1))
  }

  /** Reads a quoted identifier at the start of `t` by MySQL's rule. */
  function ReadQuoted(t: string): (r: Option<(string, string)>)
    ensures r.Some? ==> |r.value.1| < |t|
  {
    if t == [] || t[0] != '`' then None else ReadBody(t[1..])
  }

  lemma {:induction false} ReadBodyEscaped(s: string, rest: string)
    requires rest == [] || rest[0] != '`'
    ensures ReadBody(Escaped(s) + "`" + rest) == Some((s, rest))
  {
    var t := Escaped(s) + "`" + rest;
    if s == [] {
      assert t == "`" + rest;
    } else {
      var piece := if s[0] == '`' then "``" else [s[0]];
      var u := Escaped(s[1..]) + "`" + rest;
      assert Escaped(s) == piece + Escaped(s[1..]);
      Assoc(piece, Escaped(s[1..]), "`");
      Assoc(piece, Escaped(s[1..]) + "`", rest);
      assert t == piece + u;
      DropPrefix(piece, u);
      assert t[..|piece|] == piece;
      ReadBodyEscaped(s[1..], rest);
      assert [s[0]] + s[1..] == s;
    }
  }

  /** Quoting round-trips: reading a quoted identifier gives back the name
      and leaves what follows it untouched, as long as that does not begin
      with a backtick. */
  lemma {:induction false} ReadQuotedRoundTrip(s: string, rest: string)
    requires rest == [] || rest[0] != '`'
    ensures ReadQuoted(Quoted(s) + rest) == Some((s, rest))
  {
    var t := Quoted(s) + rest;
    assert t[1..] == Escaped(s) + "`" + rest;
    ReadBodyEscaped(s, rest);
  }

  /** Different names never quote to the same text. */
  lemma {:induction false} QuotedInjective(a: string, b: string)
    requires Quoted(a) == Quoted(b)
    ensures a == b
  {
    ReadQuotedRoundTrip(a, "");
    ReadQuotedRoundTrip(b, "");
    assert Quoted(a) + "" == Quoted(a) && Quoted(b) + "" == Quoted(b);
  }

  /** Writes one character of an identifier: a backtick twice, any other
      character once. */
  method WriteEscaped(buf: Buffer, c: char)
    modifies buf
    ensures buf.contents == old(buf.contents) + Escaped([c])
  {
    ghost var before := buf.contents;
    assert Escaped([c]) == (if c == '`' then "``" else [c]) + Escaped([]);
    if c == '`' {
      buf.WriteString("`");
    }
    buf.WriteString([c]);
    if c == '`' {
      Assoc(before, "`", [c]);
    }
  }

  /** quote: writes a backtick, each character of `s` (a backtick twice),
      then a closing backtick into a builder. */
  method Quote(s: string) returns (r: string)
    ensures r == Quoted(s)
  {
    var buf := new Buffer();
    buf.WriteString("`");
    var i := 0;
    while i < |s|
      invariant 0 <= i <= |s|
      invariant buf.contents == "`" + Escaped(s[..i])
    {
      WriteEscaped(buf, s[i]);
      assert s[..i + 1] == s[..i] + [s[i]];
      EscapedAppend(s[..i], [s[i]]);
      Assoc("`", Escaped(s[..i]), Escaped([s[i]]));
      i := i + 1;
    }
    assert s[..i] == s;
    buf.WriteString("`");
    r := buf.contents;
  }

  /** Each name quoted, in order. */
  function QuotedAll(xs: seq<string>): (r: seq<string>)
    ensures |r| == |xs|
    ensures forall i :: 0 <= i < |xs| ==> r[i] == Quoted(xs[i])
  {
    if xs == [] then [] else QuotedAll(xs[..|xs| - 1]) + [Quoted(xs[|xs| - 1])]
  }

  /** quoteAll: fills a slice of the same length with the quoted names. */
  method QuoteAll(xs: seq<string>) returns (r: seq<string>)
    ensures r == QuotedAll(xs)
  {
    var ret := new string[|xs|];
    for i := 0 to |xs|
      invariant forall j :: 0 <= j < i ==> ret[j] == Quoted(xs[j])
    {
      ret[i] := Quote(xs[i]);
    }
    r := ret[..];
  }

  /** The column list of an index or primary key: the quoted names joined by
      ", ". */
  function NameList(cols: seq<string>): string
  {
    Join(QuotedAll(cols), ", ")
  }

  /** Reads a list of quoted identifiers separated by ", " up to (not
      including) a closing parenthesis. */
  function ReadNames(t: string): (r: Option<(seq<string>, string)>)
    ensures r.Some? ==> |r.value.1| <= |t|
    decreases |t|
  {
    if t != [] && t[0] == ')' then Some(([], t))
    else
      match ReadQuoted(t)
      case None => None
      case Some(p) =>
        var rest := p.1;
        if |rest| >= 2 && rest[0] == ',' && rest[1] == ' ' then
          match ReadNames(rest[2..])
          case None => None
          case Some(q) => Some(([p.0] + q.0, q.1))
        else if rest != [] && rest[0] == ')' then Some(([p.0], rest))
        else None
  }

  /** Reading a name followed by ", " continues with the next name. */
  lemma {:induction false} ReadNamesNext(t: string, name: string, tail: string, names: seq<string>, after: string)
    requires ReadQuoted(t) == Some((name, ", " + tail))
    requires ReadNames(tail) == Some((names, after))
    ensures ReadNames(t) == Some(([name] + names, after))
  {
    assert t[0] == '`';
    var sep := ", " + tail;
    assert sep[0] == ',' && sep[1] == ' ' && sep[2..] == tail;
  }

  /** Reading a name followed by a closing parenthesis ends the list. */
  lemma {:induction false} ReadNamesLast(t: string, name: string, after: string)
    requires ReadQuoted(t) == Some((name, after))
    requires after != [] && after[0] == ')'
    ensures ReadNames(t) == Some(([name], after))
  {
    assert t[0] == '`';
  }

  /** A column list reads back as the names it was made from. */
  lemma {:induction false} ReadNamesRoundTrip(cols: seq<string>, rest: string)
    ensures ReadNames(NameList(cols) + ")" + rest) == Some((cols, ")" + rest))
    decreases |cols|
  {
    var t := NameList(cols) + ")" + rest;
    Assoc(NameList(cols), ")", rest);
    if |cols| == 0 {
      assert NameList(cols) == "";
      assert t == ")" + rest && t[0] == ')';
    } else if |cols| == 1 {
      assert NameList(cols) == Quoted(cols[0]);
      ReadQuotedRoundTrip(cols[0], ")" + rest);
      ReadNamesLast(t, cols[0], ")" + rest);
      assert [cols[0]] == cols;
    } else {
      var tail := NameList(cols[1..]) + ")" + rest;
      NameListCons(cols, rest);
      ReadQuotedRoundTrip(cols[0], ", " + tail);
      ReadNamesRoundTrip(cols[1..], rest);
      ReadNamesNext(t, cols[0], tail, cols[1..], ")" + rest);
      HeadTail(cols);
    }
  }

  /** A list of two or more names is the first quoted name, ", " and the
      list of the others. */
  lemma {:induction false} NameListCons(cols: seq<string>, rest: string)
    requires |cols| >= 2
    ensures NameList(cols) + ")" + rest == Quoted(cols[0]) + (", " + (NameList(cols[1..]) + ")" + rest))
  {
    var tail := NameList(cols[1..]) + ")" + rest;
    assert QuotedAll(cols[1..]) == QuotedAll(cols)[1..];
    assert NameList(cols) == Quoted(cols[0]) + ", " + NameList(cols[1..]);
    Assoc(Quoted(cols[0]) + ", ", NameList(cols[1..]), ")" + rest);
    Assoc(NameList(cols[1..]), ")", rest);
    Assoc(Quoted(cols[0]), ", ", tail);
  }

  // ---------------------------------------------------------------------
  // The text of a table (generateColumn, generateIndex, generateTable)

  /** The column length in parentheses, or nothing for length 0. */
  function SizeText(size: nat): string
  {
    if size != 0 then "(" + Decimal(size) + ")" else ""
  }

  /** What follows the quoted name on a column line: type, length,
      signedness, nullability and the separating comma. */
  function ColumnAttributes(col: Column): string
  {
    " " + col.typ + SizeText(col.size)
      + (if col.unsigned then " unsigned" else "")
      + (if col.nullable then " NULL" else " NOT NULL") + ",\n"
  }

  /** One column definition line. */
  function ColumnLine(col: Column): string
  {
    "    " + Quoted(col.name) + ColumnAttributes(col)
  }

  /** What follows the quoted name on an index line. */
  function IndexColumns(cols: seq<string>): string
  {
    " (" + NameList(cols) + "),\n"
  }

  /** One plain index line. */
  function IndexLine(idx: Index): string
  {
    "    INDEX " + Quoted(idx.name) + IndexColumns(idx.columns)
  }

  /** The primary key clause: the last line of the definitions, without a
      trailing comma. */
  function PrimaryKeyLine(pk: PrimaryKey): string
  {
    "    PRIMARY KEY (" + NameList(pk.columns) + ")\n"
  }

  const Trailer: string := ") ENGINE=InnoDB DEFAULT CHARACTER SET = 'utf8mb4';\n\n"

  /** The texts of `xs`, one after the other in order. */
  function Concat<T>(text: T -> string, xs: seq<T>): string
  {
    if xs == [] then "" else Concat(text, xs[..|xs| - 1]) + text(xs[|xs| - 1])
  }

  lemma {:induction false} ConcatAppend<T>(text: T -> string, a: seq<T>, b: seq<T>)
    ensures Concat(text, a + b) == Concat(text, a) + Concat(text, b)
    decreases |b|
  {
    if b == [] {
      assert a + b == a;
    } else {
      var init, x := b[..|b| - 1], b[|b| - 1];
      assert (a + b)[..|a + b| - 1] == a + init && (a + b)[|a + b| - 1] == x;
      ConcatAppend(text, a, init);
      assert Concat(text, a + b) == Concat(text, a) + Concat(text, init) + text(x);
      Assoc(Concat(text, a), Concat(text, init), text(x));
    }
  }

  /** One step of a loop that writes the texts of `xs` in order. */
  lemma {:induction false} ConcatStep<T>(text: T -> string, xs: seq<T>, i: nat)
    requires i < |xs|
    ensures Concat(text, xs[..i + 1]) == Concat(text, xs[..i]) + text(xs[i])
  {
    assert xs[..i + 1][..i] == xs[..i];
  }

  function ColumnsText(cols: seq<Column>): string
  {
    Concat(ColumnLine, cols)
  }

  function IndexesText(idxs: seq<Index>): string
  {
    Concat(IndexLine, idxs)
  }

  function DropStatement(name: string): string
  {
    "DROP TABLE IF EXISTS " + Quoted(name) + ";\n\n"
  }

  /** The CREATE TABLE statement: columns in declaration order, plain
      indexes, primary key, trailer. */
  function CreateStatement(t: Table): string
  {
    "CREATE TABLE " + Quoted(t.name) + " (\n"
      + ColumnsText(t.columns) + IndexesText(t.indexes)
      + PrimaryKeyLine(t.primaryKey) + Trailer
  }

  /** The statements for one table. */
  function TableText(t: Table): string
  {
    DropStatement(t.name) + CreateStatement(t)
  }

  const Header: string := "SET foreign_key_checks=0;\n"
  const Footer: string := "SET foreign_key_checks=1;\n"

  function TablesText(ts: seq<Table>): string
  {
    Concat(TableText, ts)
  }

  /** The whole script for `ts`. */
  function Document(ts: seq<Table>): string
  {
    Header + TablesText(ts) + Footer
  }

  /** A column line begins with four spaces and the quoted name, which reads
      back as the column name, and ends with " NULL,\n" for a nullable column
      and " NOT NULL,\n" otherwise. */
  lemma {:induction false} ColumnLineShape(col: Column)
    ensures |ColumnLine(col)| > 4 && ColumnLine(col)[..4] == "    "
    ensures ReadQuoted(ColumnLine(col)[4..]).Some? && ReadQuoted(ColumnLine(col)[4..]).value.0 == col.name
    ensures col.nullable ==> EndsWith(ColumnLine(col), " NULL,\n")
    ensures !col.nullable ==> EndsWith(ColumnLine(col), " NOT NULL,\n")
  {
    ColumnLineStart(col);
    ColumnLineEnd(col);
  }

  lemma {:induction false} ColumnLineStart(col: Column)
    ensures |ColumnLine(col)| > 4 && ColumnLine(col)[..4] == "    "
    ensures ReadQuoted(ColumnLine(col)[4..]) == Some((col.name, ColumnAttributes(col)))
  {
    var q, attrs := Quoted(col.name), ColumnAttributes(col);
    Assoc("    ", q, attrs);
    DropPrefix("    ", q + attrs);
    StartsWithAppend("    ", q + attrs);
    ReadQuotedRoundTrip(col.name, attrs);
  }

  lemma {:induction false} ColumnLineEnd(col: Column)
    ensures EndsWith(ColumnLine(col), (if col.nullable then " NULL" else " NOT NULL") + ",\n")
  {
    var q := Quoted(col.name);
    var nullText := if col.nullable then " NULL" else " NOT NULL";
    var front := " " + col.typ + SizeText(col.size) + (if col.unsigned then " unsigned" else "");
    Assoc(front, nullText, ",\n");
    Assoc("    " + q, front, nullText + ",\n");
    EndsWithAppend("    " + q + front, nullText + ",\n");
  }

  /** An index line reads back as the index name and its column list. */
  lemma {:induction false} IndexLineReadsBack(idx: Index)
    ensures |IndexLine(idx)| > 10 && IndexLine(idx)[..10] == "    INDEX "
    ensures ReadQuoted(IndexLine(idx)[10..]).Some?
    ensures var p := ReadQuoted(IndexLine(idx)[10..]).value;
      p.0 == idx.name && |p.1| >= 2 && p.1[..2] == " ("
      && ReadNames(p.1[2..]) == Some((idx.columns, "),\n"))
  {
    var q, list := Quoted(idx.name), NameList(idx.columns);
    var after := IndexColumns(idx.columns);
    Assoc("    INDEX ", q, after);
    DropPrefix("    INDEX ", q + after);
    StartsWithAppend("    INDEX ", q + after);
    assert IndexLine(idx)[10..] == q + after;
    assert after[0] == ' ';
    ReadQuotedRoundTrip(idx.name, after);
    assert ReadQuoted(IndexLine(idx)[10..]) == Some((idx.name, after));
    Assoc(" (", list, "),\n");
    DropPrefix(" (", list + "),\n");
    StartsWithAppend(" (", list + "),\n");
    assert after[2..] == list + "),\n";
    Assoc(list, ")", ",\n");
    assert ")" + ",\n" == "),\n";
    ReadNamesRoundTrip(idx.columns, ",\n");
  }

  /** The primary key clause reads back as the key's columns, and it is the
      one definition line that does not end with a comma. */
  lemma {:induction false} PrimaryKeyLineReadsBack(pk: PrimaryKey)
    ensures |PrimaryKeyLine(pk)| > 17 && PrimaryKeyLine(pk)[..17] == "    PRIMARY KEY ("
    ensures ReadNames(PrimaryKeyLine(pk)[17..]) == Some((pk.columns, ")\n"))
    ensures !EndsWith(PrimaryKeyLine(pk), ",\n")
  {
    var list := NameList(pk.columns);
    Assoc("    PRIMARY KEY (", list, ")\n");
    DropPrefix("    PRIMARY KEY (", list + ")\n");
    StartsWithAppend("    PRIMARY KEY (", list + ")\n");
    assert PrimaryKeyLine(pk)[17..] == list + ")\n";
    Assoc(list, ")", "\n");
    assert ")" + "\n" == ")\n";
    ReadNamesRoundTrip(pk.columns, "\n");
    EndsWithAppend("    PRIMARY KEY (" + list, ")\n");
    var line := PrimaryKeyLine(pk);
    assert line[|line| - 2] == ')';
  }

  /** The script is the header, each table's text in order, then the footer;
      so the script for `a + b` holds the text of `a` before that of `b`. */
  lemma {:induction false} DocumentOrder(a: seq<Table>, b: seq<Table>)
    ensures Document(a + b) == Header + TablesText(a) + TablesText(b) + Footer
    ensures Document([]) == Header + Footer
  {
    var ta, tb := TablesText(a), TablesText(b);
    ConcatAppend(TableText, a, b);
    assert TablesText(a + b) == ta + tb;
    Assoc(Header, ta, tb);
    assert TablesText([]) == "";
    AppendNil(Header);
  }

  /** Each table's text opens with the DROP statement for its quoted name,
      whose name reads back, and closes with the primary key clause and the
      fixed trailer. */
  lemma {:induction false} TableTextShape(t: Table)
    ensures StartsWith(TableText(t), DropStatement(t.name))
    ensures ReadQuoted(TableText(t)[21..]).Some? && ReadQuoted(TableText(t)[21..]).value.0 == t.name
    ensures EndsWith(TableText(t), PrimaryKeyLine(t.primaryKey) + Trailer)
  {
    var q, create := Quoted(t.name), CreateStatement(t);
    StartsWithAppend(DropStatement(t.name), create);
    Assoc("DROP TABLE IF EXISTS ", q, ";\n\n");
    Assoc("DROP TABLE IF EXISTS ", q + ";\n\n", create);
    Assoc(q, ";\n\n", create);
    DropPrefix("DROP TABLE IF EXISTS ", q + (";\n\n" + create));
    ReadQuotedRoundTrip(t.name, ";\n\n" + create);
    var tail := PrimaryKeyLine(t.primaryKey) + Trailer;
    var front := "CREATE TABLE " + q + " (\n" + ColumnsText(t.columns) + IndexesText(t.indexes);
    Assoc(front, PrimaryKeyLine(t.primaryKey), Trailer);
    Assoc(DropStatement(t.name), front, tail);
    EndsWithAppend(DropStatement(t.name) + front, tail);
  }

  /** NewPrimaryKey: a primary key over `cols`, kept verbatim and in order. */
  function NewPrimaryKey(cols: seq<string>): (pk: PrimaryKey)
    ensures pk.columns == cols
  {
    PrimaryKey(cols)
  }

  // ---------------------------------------------------------------------
  // Parsing all structs (parse)

  /** The position of the first struct `newTable` rejects, or the number of
      structs when it accepts them all. */
  function FirstFailure<S>(newTable: S -> Result<Table, string>, structs: seq<S>, from: nat): (k: nat)
    requires from <= |structs|
    ensures from <= k <= |structs|
    ensures forall j :: from <= j < k ==> newTable(structs[j]).Ok?
    ensures k < |structs| ==> newTable(structs[k]).Err?
    decreases |structs| - from
  {
    if from == |structs| || newTable(structs[from]).Err? then from
    else FirstFailure(newTable, structs, from + 1)
  }

  /** The tables of the first `k` structs, all accepted. */
  function TablesOf<S>(newTable: S -> Result<Table, string>, structs: seq<S>, k: nat): (ts: seq<Table>)
    requires k <= |structs| && forall j :: 0 <= j < k ==> newTable(structs[j]).Ok?
    ensures |ts| == k && forall j :: 0 <= j < k ==> ts[j] == newTable(structs[j]).value
  {
    if k == 0 then [] else TablesOf(newTable, structs, k - 1) + [newTable(structs[k - 1]).value]
  }

  /** The error parse returns: the rejection reason, wrapped. */
  function ParseError(reason: string): string
  {
    "myddlmaker: failed to parse: " + reason
  }

  /** What parsing all of `structs` yields: every table, in order, or the
      wrapped reason of the first struct `newTable` rejects. */
  function ParseAll<S>(newTable: S -> Result<Table, string>, structs: seq<S>): (r: Result<seq<Table>, string>)
    ensures r.Ok? <==> forall j :: 0 <= j < |structs| ==> newTable(structs[j]).Ok?
    ensures r.Ok? ==>
      |r.value| == |structs| && forall j :: 0 <= j < |structs| ==> r.value[j] == newTable(structs[j]).value
  {
    var k := FirstFailure(newTable, structs, 0);
    if k < |structs| then Err(ParseError(newTable(structs[k]).error))
    else Ok(TablesOf(newTable, structs, k))
  }

  /** The tables held in `slots`, all of which are filled. */
  function Present(slots: seq<Option<Table>>): (ts: seq<Table>)
    requires forall j :: 0 <= j < |slots| ==> slots[j].Some?
    ensures |ts| == |slots| && forall j :: 0 <= j < |slots| ==> slots[j] == Some(ts[j])
  {
    if slots == [] then [] else Present(slots[..|slots| - 1]) + [slots[|slots| - 1].value]
  }

  // ---------------------------------------------------------------------
  // The maker

  /** Maker: the structs added so far and the tables parsed from them (None
      where a table was not parsed). Turning a struct into a table is done by
      `newTable`, which is not part of this model and is a parameter here. */
  class Maker<S> {
    var structs: seq<S>
    var tables: seq<Option<Table>>

    constructor ()
      ensures structs == [] && tables == []
    {
      structs, tables := [], [];
    }

    /** AddStructs: appends in argument order, keeping the earlier ones. */
    method AddStructs(ss: seq<S>)
      modifies this
      ensures structs == old(structs) + ss
      ensures tables == old(tables)
    {
      structs := structs + ss;
    }

    /** parse: one table slot per struct; fills them in order and stops at
      the first struct `newTable` rejects, leaving that slot and the later
      ones empty. */
    method Parse(newTable: S -> Result<Table, string>) returns (err: Option<string>)
      modifies this
      ensures structs == old(structs) && |tables| == |structs|
      ensures err.None? <==> ParseAll(newTable, structs).Ok?
      ensures err.Some? ==> err.value == ParseAll(newTable, structs).error
      ensures var k := FirstFailure(newTable, structs, 0);
        forall j :: 0 <= j < |structs| ==>
          tables[j] == if j < k then Some(newTable(structs[j]).value) else None
    {
      tables := seq(|structs|, _ => None);
      var i := 0;
      while i < |structs|
        invariant structs == old(structs)
        invariant 0 <= i <= |structs| && |tables| == |structs|
        invariant FirstFailure(newTable, structs, 0) == FirstFailure(newTable, structs, i)
        invariant forall j :: 0 <= j < |structs| ==>
          tables[j] == if j < i then Some(newTable(structs[j]).value) else None
      {
        var r := newTable(structs[i]);
        if r.Err? {
          assert FirstFailure(newTable, structs, i) == i;
          return Some(ParseError(r.error));
        }
        tables := tables[i := Some(r.value)];
        i := i + 1;
      }
      err := None;
    }

    /** generateColumn: the quoted name, then the attributes piece by
      piece. */
    method GenerateColumn(w: Buffer, col: Column)
      modifies w
      ensures w.contents == old(w.contents) + ColumnLine(col)
    {
      ghost var start := w.contents;
      var q := Quote(col.name);
      w.WriteString("    ");
      w.WriteString(q);
      ghost var head := w.contents;
      Assoc(start, "    ", q);
      // `attrs` is what has been written since the name
      w.WriteString(" ");
      ghost var attrs := " ";
      assert w.contents == head + attrs;
      w.WriteString(col.typ);
      Assoc(head, attrs, col.typ);
      attrs := attrs + col.typ;
      assert w.contents == head + attrs;
      if col.size != 0 {
        w.WriteString("(" + Decimal(col.size) + ")");
        Assoc(head, attrs, SizeText(col.size));
      } else {
        assert attrs + SizeText(col.size) == attrs;
      }
      attrs := attrs + SizeText(col.size);
      assert w.contents == head + attrs;
      if col.unsigned {
        w.WriteString(" unsigned");
        Assoc(head, attrs, " unsigned");
      } else {
        assert attrs + "" == attrs;
      }
      attrs := attrs + (if col.unsigned then " unsigned" else "");
      assert w.contents == head + attrs;
      var nullText := if col.nullable then " NULL" else " NOT NULL";
      if col.nullable {
        w.WriteString(" NULL");
      } else {
        w.WriteString(" NOT NULL");
      }
      Assoc(head, attrs, nullText);
      attrs := attrs + nullText;
      assert w.contents == head + attrs;
      w.WriteString(",\n");
      Assoc(head, attrs, ",\n");
      attrs := attrs + ",\n";
      assert attrs == ColumnAttributes(col);
      Assoc(start, "    " + q, attrs);
    }

    /** generateIndex: one line per plain index, in order. */
    method GenerateIndex(w: Buffer, t: Table)
      modifies w
      ensures w.contents == old(w.contents) + IndexesText(t.indexes)
    {
      ghost var start := w.contents;
      for i := 0 to |t.indexes|
        invariant w.contents == start + IndexesText(t.indexes[..i])
      {
        var idx := t.indexes[i];
        ghost var before := w.contents;
        var q := Quote(idx.name);
        var qs := QuoteAll(idx.columns);
        w.WriteString("    INDEX ");
        w.WriteString(q);
        ghost var head := w.contents;
        Assoc(before, "    INDEX ", q);
        w.WriteString(" (");
        w.WriteString(Join(qs, ", "));
        Assoc(head, " (", Join(qs, ", "));
        w.WriteString("),\n");
        Assoc(head, " (" + Join(qs, ", "), "),\n");
        assert w.contents == head + IndexColumns(idx.columns);
        Assoc(before, "    INDEX " + q, IndexColumns(idx.columns));
        assert w.contents == before + IndexLine(idx);
        ConcatStep(IndexLine, t.indexes, i);
        Assoc(start, IndexesText(t.indexes[..i]), IndexLine(idx));
      }
      assert t.indexes[..|t.indexes|] == t.indexes;
    }

    /** generateTable: the DROP statement, the CREATE TABLE opening, the
      columns in order, the indexes, the primary key and the trailer. */
    method GenerateTable(w: Buffer, t: Table)
      modifies w
      ensures w.contents == old(w.contents) + TableText(t)
    {
      ghost var start := w.contents;
      var q := Quote(t.name);
      w.WriteString("DROP TABLE IF EXISTS " + q + ";\n\n");
      ghost var drop := w.contents;
      w.WriteString("CREATE TABLE " + q + " (\n");
      ghost var head := w.contents;
      for i := 0 to |t.columns|
        invariant w.contents == head + ColumnsText(t.columns[..i])
      {
        GenerateColumn(w, t.columns[i]);
        ConcatStep(ColumnLine, t.columns, i);
        Assoc(head, ColumnsText(t.columns[..i]), ColumnLine(t.columns[i]));
      }
      assert t.columns[..|t.columns|] == t.columns;
      ghost var cols := ColumnsText(t.columns);
      GenerateIndex(w, t);
      ghost var idxs := IndexesText(t.indexes);
      var pk := QuoteAll(t.primaryKey.columns);
      w.WriteString("    PRIMARY KEY (" + Join(pk, ", ") + ")\n");
      w.WriteString(Trailer);
      ghost var create := "CREATE TABLE " + q + " (\n";
      ghost var pkl := PrimaryKeyLine(t.primaryKey);
      // from the opening of CREATE TABLE on, the pieces in order
      Assoc(drop, create, cols);
      Assoc(drop, create + cols, idxs);
      Assoc(drop, create + cols + idxs, pkl);
      Assoc(drop, create + cols + idxs + pkl, Trailer);
      assert w.contents == drop + CreateStatement(t);
      Assoc(start, DropStatement(t.name), CreateStatement(t));
    }

    /** Generate: parses every struct, and on success builds the script in a
      buffer and hands it to `w` in one write. A parse failure writes
      nothing. */
    method Generate(w: Writer, newTable: S -> Result<Table, string>) returns (err: Option<string>)
      modifies this, w
      ensures structs == old(structs) && |tables| == |structs|
      ensures var k := FirstFailure(newTable, structs, 0);
        forall j :: 0 <= j < |structs| ==>
          tables[j] == if j < k then Some(newTable(structs[j]).value) else None
      ensures ParseAll(newTable, structs).Err? ==>
        err == Some(ParseAll(newTable, structs).error) && w.data == old(w.data) && w.room == old(w.room)
      ensures ParseAll(newTable, structs).Ok? ==>
        var doc := Document(ParseAll(newTable, structs).value);
        (err.None? <==> |doc| <= old(w.room))
        && (err.Some? ==> err.value == w.reason)
        && w.data == (if err.None? then old(w.data) + doc else old(w.data))
        && w.room == (if err.None? then old(w.room) - |doc| else old(w.room))
    {
      err := Parse(newTable);
      if err.Some? {
        return;
      }
      assert Present(tables) == ParseAll(newTable, structs).value;
      err := WriteDocument(w);
    }

    /** The second half of Generate: the script of the parsed tables is built
      in a buffer and handed to the writer in one write. */
    method WriteDocument(w: Writer) returns (err: Option<string>)
      requires forall j :: 0 <= j < |tables| ==> tables[j].Some?
      modifies w
      ensures var doc := Document(Present(tables));
        (err.None? <==> |doc| <= old(w.room))
        && (err.Some? ==> err.value == w.reason)
        && w.data == (if err.None? then old(w.data) + doc else old(w.data))
        && w.room == (if err.None? then old(w.room) - |doc| else old(w.room))
    {
      var buf := new Buffer();
      buf.WriteString(Header);
      assert buf.contents == Header by {
        assert "" + Header == Header;
      }
      GenerateTables(buf);
      buf.WriteString(Footer);
      assert buf.contents == Document(Present(tables));
      err := w.Write(buf.contents);
    }

    /** The loop of Generate over the parsed tables, writing each table's
      statements in order. */
    method GenerateTables(buf: Buffer)
      requires forall j :: 0 <= j < |tables| ==> tables[j].Some?
      modifies buf
      ensures buf.contents == old(buf.contents) + TablesText(Present(tables))
    {
      ghost var start := buf.contents;
      ghost var ts := Present(tables);
      for i := 0 to |tables|
        invariant buf.contents == start + TablesText(ts[..i])
      {
        GenerateTable(buf, tables[i].value);
        ConcatStep(TableText, ts, i);
        Assoc(start, TablesText(ts[..i]), TableText(ts[i]));
      }
      assert ts[..|tables|] == ts;
    }
  }
}
