/** The texts of the validator's diagnostics and of the error `Validate`
    returns (validator.go). Names are quoted as Go's `%q` verb quotes
    printable ASCII text. */
module Messages {
  import opened Wrappers
  import opened Strings
  import opened Validator

  /** One character inside a `%q` string: a double quote or a backslash is
      preceded by a backslash, any other character stands for itself. */
  function EscapedChar(c: char): string
  {
    if c == '"' || c == '\\' then ['\\', c] else [c]
  }

  /** The text between the double quotes of a `%q` string. */
  function GoEscaped(s: string): (r: string)
    ensures |r| == |s| + Count('"', s) + Count('\\', s)
  {
    if s == [] then "" else EscapedChar(s[0]) + GoEscaped(s[1..])
  }

  /** `%q` of `s`. */
  function GoQuoted(s: string): (r: string)
    ensures |r| == |s| + 2 + Count('"', s) + Count('\\', s)
    ensures r[0] == '"' && r[|r| - 1] == '"'
  {
    "\"" + GoEscaped(s) + "\""
  }

  /** Reads the text after an opening double quote up to the closing one,
      undoing the escapes. The text and what follows the closing quote; None
      when there is no closing quote. */
  function ReadGoBody(t: string): (r: Option<(string, string)>)
    ensures r.Some? ==> |r.value.1| < |t|
    decreases |t|
  {
    if t == [] then None
    else if t[0] == '"' then Some(("", t[1..]))
    else if t[0] == '\\' then
      if |t| >= 2 then
        match ReadGoBody(t[2..])
        case None => None
        case Some(p) => Some(([t[1]] + p.0, p.1))
      else None
    else
      match ReadGoBody(t[1..])
      case None => None
      case Some(p) => Some(([t[0]] + p.0, p.1))
  }

  /** Reads a `%q` string at the start of `t`. */
  function ReadGoQuoted(t: string): (r: Option<(string, string)>)
    ensures r.Some? ==> |r.value.1| < |t|
  {
    if t == [] || t[0] != '"' then None else ReadGoBody(t[1..])
  }

  lemma {:induction false} ReadGoBodyEscaped(s: string, rest: string)
    ensures ReadGoBody(GoEscaped(s) + "\"" + rest) == Some((s, rest))
  {
    if s == [] {
      assert GoEscaped(s) + "\"" + rest == "\"" + rest;
    } else {
      var u := GoEscaped(s[1..]) + "\"" + rest;
      ReadGoBodyEscaped(s[1..], rest);
      ReadGoBodyStep(s[0], u, s[1..], rest);
      Assoc(EscapedChar(s[0]), GoEscaped(s[1..]), "\"");
      Assoc(EscapedChar(s[0]), GoEscaped(s[1..]) + "\"", rest);
      assert [s[0]] + s[1..] == s;
    }
  }

  /** Reading past one escaped character. */
  lemma {:induction false} ReadGoBodyStep(c: char, u: string, s: string, rest: string)
    requires ReadGoBody(u) == Some((s, rest))
    ensures ReadGoBody(EscapedChar(c) + u) == Some(([c] + s, rest))
  {
    var t := EscapedChar(c) + u;
    if c == '"' || c == '\\' {
      assert t[0] == '\\' && t[1] == c && t[2..] == u;
    } else {
      assert t[0] == c && t[1..] == u;
    }
  }

  /** `%q` round-trips: reading a quoted name gives back the name and leaves
      whatever follows it untouched. */
  lemma {:induction false} ReadGoQuotedRoundTrip(s: string, rest: string)
    ensures ReadGoQuoted(GoQuoted(s) + rest) == Some((s, rest))
  {
    var t := GoQuoted(s) + rest;
    assert t[1..] == GoEscaped(s) + "\"" + rest;
    ReadGoBodyEscaped(s, rest);
  }

  /** Different names never quote to the same text. */
  lemma {:induction false} GoQuotedInjective(a: string, b: string)
    requires GoQuoted(a) == GoQuoted(b)
    ensures a == b
  {
    ReadGoQuotedRoundTrip(a, "");
    ReadGoQuotedRoundTrip(b, "");
    assert GoQuoted(a) + "" == GoQuoted(a) && GoQuoted(b) + "" == GoQuoted(b);
  }

  /** A name with no double quote and no backslash is quoted as it is. */
  lemma {:induction false} GoQuotedPlain(s: string)
    requires '"' !in s && '\\' !in s
    ensures GoQuoted(s) == "\"" + s + "\""
  {
    GoEscapedPlain(s);
  }

  lemma {:induction false} GoEscapedPlain(s: string)
    requires '"' !in s && '\\' !in s
    ensures GoEscaped(s) == s
  {
    if s != [] {
      GoEscapedPlain(s[1..]);
      assert [s[0]] + s[1..] == s;
    }
  }

  /** The "table %q" opening most diagnostics share. */
  function TableText(table: string): string
  {
    "table " + GoQuoted(table)
  }

  /** The ", foreign key %q: " part of the foreign-key diagnostics. */
  function ForeignKeyText(fk: string): string
  {
    ", foreign key " + GoQuoted(fk) + ": "
  }

  function NameKindText(kind: NameKind): string
  {
    match kind
    case ColumnName => "column"
    case IndexName => "index"
    case ForeignKeyName => "foreign key constraint"
  }

  function MismatchText(m: MismatchKind): string
  {
    match m
    case TypeMismatch => "type"
    case CharsetMismatch => "character set"
    case CollateMismatch => "collate"
  }

  /** Where a missing column was named, between the table and the word
      "column". */
  function PlaceText(place: Place): string
  {
    match place
    case InPrimaryKey => ", primary key: "
    case InIndex(i) => ", index " + GoQuoted(i) + ": "
    case InUniqueIndex(i) => ", unique index " + GoQuoted(i) + ": "
    case InForeignKey(fk) => ForeignKeyText(fk)
  }

  const DuplicateTableText: string := "duplicated name of table: "

  /** What follows "table %q" in every diagnostic but the repeated-table
      one. */
  function Detail(d: Diagnostic): string
  {
    match d
    case DuplicateTable(_) => ""
    case DuplicateName(_, kind, name) => ": duplicated name of " + NameKindText(kind) + ": " + GoQuoted(name)
    case ColumnNotFound(_, place, col) => PlaceText(place) + "column " + GoQuoted(col) + " not found"
    case IndexRequired(_, fk, on) => ForeignKeyText(fk) + "index required on table " + GoQuoted(on)
    case ReferencedTableNotFound(_, fk, rt) => ForeignKeyText(fk) + "referenced table " + GoQuoted(rt) + " not found"
    case ReferencedColumnNotFound(_, fk, rt, col) =>
      ForeignKeyText(fk) + "referenced column " + GoQuoted(rt) + "." + GoQuoted(col) + " not found"
    case Mismatch(_, fk, col, rt, rc, m) =>
      ForeignKeyText(fk) + "column " + GoQuoted(col) + " and referenced column "
        + GoQuoted(rt) + "." + GoQuoted(rc) + " " + MismatchText(m) + " mismatch"
  }

  /** The text SaveErrorf formats for each diagnostic: every one names its
      table first. */
  function Message(d: Diagnostic): (r: string)
    ensures StartsWith(r, if d.DuplicateTable? then DuplicateTableText else "table \"")
  {
    if d.DuplicateTable? then DuplicateTableText + GoQuoted(d.table)
    else TableText(d.table) + Detail(d)
  }

  /** The table a diagnostic is about reads back from its message, and what
      follows it is the diagnostic's detail. */
  lemma {:induction false} MessageTableReadsBack(d: Diagnostic)
    ensures var r, k := Message(d), if d.DuplicateTable? then |DuplicateTableText| else |"table "|;
      k <= |r| && ReadGoQuoted(r[k..]) == Some((d.table, Detail(d)))
  {
    var r := Message(d);
    if d.DuplicateTable? {
      assert r[|DuplicateTableText|..] == GoQuoted(d.table) + "";
      ReadGoQuotedRoundTrip(d.table, "");
    } else {
      Assoc("table ", GoQuoted(d.table), Detail(d));
      assert r[|"table "|..] == GoQuoted(d.table) + Detail(d);
      ReadGoQuotedRoundTrip(d.table, Detail(d));
    }
  }

  const ErrorPrefix: string := "myddlmaker: "
  const ErrorSuffix: string := " error(s) found"

  /** validationError.Error: the number of diagnostics, in decimal. */
  function ErrorText(e: ValidationError): string
  {
    ErrorPrefix + Decimal(|e.errs|) + ErrorSuffix
  }

  /** The number in the error text reads back as the number of diagnostics
      the error carries. */
  lemma {:induction false} ErrorTextCount(e: ValidationError)
    ensures var s := ErrorText(e);
      |s| > 27 && StartsWith(s, ErrorPrefix) && EndsWith(s, ErrorSuffix)
      && (forall i :: 12 <= i < |s| - 15 ==> IsDigit(s[i]))
      && DecimalValue(s[12..|s| - 15]) == |e.errs|
  {
    var d := Decimal(|e.errs|);
    var s := ErrorText(e);
    Assoc(ErrorPrefix, d, ErrorSuffix);
    StartsWithAppend(ErrorPrefix, d + ErrorSuffix);
    EndsWithAppend(ErrorPrefix + d, ErrorSuffix);
    assert s[12..|s| - 15] == d;
    DecimalRoundTrip(|e.errs|);
  }

  /** The repeated-table case of the package's validation tests. */
  lemma {:induction false} DuplicateTableExample()
    ensures Message(DuplicateTable("foo11")) == "duplicated name of table: \"foo11\""
  {
    GoQuotedPlain("foo11");
    DuplicateTableFooText();
  }

  lemma {:induction false} DuplicateTableFooText()
    ensures DuplicateTableText + ("\"" + "foo11" + "\"") == "duplicated name of table: \"foo11\""
  {
  }
}
