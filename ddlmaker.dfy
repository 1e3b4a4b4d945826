/** The older front end's DDLMaker (ddlmaker.go, with its parse method from
    parser.go): the structs added so far, the tables parsed from them, and
    the script framed by the foreign-key-checks header and footer. */
module DdlMaker {
  import opened Wrappers
  import opened Seqs
  import opened Io
  import opened Parser
  import Maker

  /** The error AddStruct returns for a nil argument. */
  const ErrNil: string := "nil is not supported"

  /** The key AddStruct compares: the struct's package path and name. */
  function StructName<FK, IX>(s: StructDesc<FK, IX>): string
  {
    s.pkgPath + "." + s.name
  }

  function AlreadyAdded(structName: string): string
  {
    structName + " is already added"
  }

  // ---------------------------------------------------------------------
  // AddStruct

  /** The keys of the non-nil arguments among the first `k` of `ss`. */
  function AddedNames<FK, IX>(ss: seq<Option<StructDesc<FK, IX>>>, k: nat): set<string>
    requires k <= |ss|
  {
    if k == 0 then {}
    else AddedNames(ss, k - 1) + (if ss[k - 1].Some? then {StructName(ss[k - 1].value)} else {})
  }

  /** A key is among the added names exactly when one of those arguments
      has it. */
  lemma {:induction false} AddedNamesMember<FK, IX>(ss: seq<Option<StructDesc<FK, IX>>>, k: nat, n: string)
    requires k <= |ss|
    ensures n in AddedNames(ss, k) <==> exists j :: 0 <= j < k && ss[j].Some? && StructName(ss[j].value) == n
  {
    if k > 0 {
      AddedNamesMember(ss, k - 1, n);
    }
  }

  /** Argument `k` of a call is refused: it is nil, or an earlier argument
      of the same call has its key. */
  predicate Rejected<FK, IX>(ss: seq<Option<StructDesc<FK, IX>>>, k: nat)
    requires k < |ss|
  {
    ss[k].None? || StructName(ss[k].value) in AddedNames(ss, k)
  }

  /** The position of the first refused argument at or after `from`, or the
      number of arguments when none is refused. */
  function FirstRejected<FK, IX>(ss: seq<Option<StructDesc<FK, IX>>>, from: nat): (k: nat)
    requires from <= |ss|
    ensures from <= k <= |ss|
    ensures forall j :: from <= j < k ==> !Rejected(ss, j) && ss[j].Some?
    ensures k < |ss| ==> Rejected(ss, k)
    decreases |ss| - from
  {
    if from == |ss| || Rejected(ss, from) then from else FirstRejected(ss, from + 1)
  }

  /** The structs held by the first `k` arguments, all non-nil. */
  function Values<FK, IX>(ss: seq<Option<StructDesc<FK, IX>>>, k: nat): (vs: seq<StructDesc<FK, IX>>)
    requires k <= |ss| && forall j :: 0 <= j < k ==> ss[j].Some?
  {
    if k == 0 then [] else Values(ss, k - 1) + [ss[k - 1].value]
  }

  /** A refused argument after accepted ones is where the call stops. */
  lemma {:induction false} StopAt<FK, IX>(ss: seq<Option<StructDesc<FK, IX>>>, i: nat)
    requires i < |ss| && Rejected(ss, i)
    requires FirstRejected(ss, 0) == FirstRejected(ss, i)
    ensures FirstRejected(ss, 0) == i
  {
  }

  /** Accepting argument `i` adds its struct and its key. */
  lemma {:induction false} AddStep<FK, IX>(ss: seq<Option<StructDesc<FK, IX>>>, i: nat)
    requires i < |ss| && !Rejected(ss, i)
    requires forall j :: 0 <= j < i ==> ss[j].Some?
    requires FirstRejected(ss, 0) == FirstRejected(ss, i)
    ensures FirstRejected(ss, 0) == FirstRejected(ss, i + 1)
    ensures Values(ss, i + 1) == Values(ss, i) + [ss[i].value]
    ensures AddedNames(ss, i + 1) == AddedNames(ss, i) + {StructName(ss[i].value)}
  {
  }

  /** The error AddStruct returns when it stops at argument `k`. */
  function AddError<FK, IX>(ss: seq<Option<StructDesc<FK, IX>>>, k: nat): Option<string>
    requires k <= |ss|
  {
    if k == |ss| then None
    else if ss[k].None? then Some(ErrNil)
    else Some(AlreadyAdded(StructName(ss[k].value)))
  }

  /** Two non-nil arguments of one call with the same key: the call stops at
      the later one or before it. */
  lemma {:induction false} RepeatRejected<FK, IX>(ss: seq<Option<StructDesc<FK, IX>>>, i: nat, j: nat)
    requires i < j < |ss| && ss[i].Some? && ss[j].Some?
    requires StructName(ss[i].value) == StructName(ss[j].value)
    ensures FirstRejected(ss, 0) <= j
  {
    AddedNamesMember(ss, j, StructName(ss[j].value));
    assert 0 <= i < j && ss[i].Some? && StructName(ss[i].value) == StructName(ss[j].value);
    assert Rejected(ss, j);
  }

  /** A call adds all of its arguments exactly when none is nil and no two
      share a key. */
  lemma {:induction false} AllAccepted<FK, IX>(ss: seq<Option<StructDesc<FK, IX>>>)
    ensures FirstRejected(ss, 0) == |ss| <==>
      (forall j :: 0 <= j < |ss| ==> ss[j].Some?) &&
      (forall i, j :: 0 <= i < j < |ss| && ss[i].Some? && ss[j].Some? ==>
        StructName(ss[i].value) != StructName(ss[j].value))
  {
    var k := FirstRejected(ss, 0);
    if k == |ss| {
      forall i, j | 0 <= i < j < |ss| && ss[i].Some? && ss[j].Some?
        ensures StructName(ss[i].value) != StructName(ss[j].value)
      {
        AddedNamesMember(ss, j, StructName(ss[j].value));
        assert !Rejected(ss, j);
      }
    } else if ss[k].Some? {
      AddedNamesMember(ss, k, StructName(ss[k].value));
      var i :| 0 <= i < k && ss[i].Some? && StructName(ss[i].value) == StructName(ss[k].value);
    }
  }

  /** A nil first argument is refused with "nil is not supported" and adds
      nothing; a call with one non-nil struct always adds it, whatever
      earlier calls added, since keys are compared within one call only. */
  lemma {:induction false} AddStructCases<FK, IX>(s: StructDesc<FK, IX>, rest: seq<Option<StructDesc<FK, IX>>>)
    ensures var ss := [None] + rest;
      FirstRejected(ss, 0) == 0 && Values(ss, 0) == [] && AddError(ss, 0) == Some(ErrNil)
    ensures FirstRejected([Some(s)], 0) == 1 && Values([Some(s)], 1) == [s] && AddError([Some(s)], 1) == None
  {
    var one := [Some(s)];
    assert AddedNames(one, 0) == {};
    assert !Rejected(one, 0);
  }

  // ---------------------------------------------------------------------
  // generate

  function HeaderError(reason: string): string
  {
    "myddlmaker: failed to write the header: " + reason
  }

  function TemplateError(reason: string): string
  {
    "error parse template: " + reason
  }

  function ExecuteError(reason: string): string
  {
    "template execute error: " + reason
  }

  function FooterError(reason: string): string
  {
    "myddlmaker: failed to write the footer: " + reason
  }

  /** The writes generate makes, in order: the header, each table's text and
      the footer. */
  function Pieces<FK, IX>(render: TableArgs<FK, IX> -> string, ts: seq<TableArgs<FK, IX>>): (ps: seq<string>)
    ensures |ps| == |ts| + 2
    ensures ps[0] == Maker.Header && ps[|ts| + 1] == Maker.Footer
    ensures forall i :: 0 <= i < |ts| ==> ps[i + 1] == render(ts[i])
  {
    [Maker.Header] + seq(|ts|, i requires 0 <= i < |ts| => render(ts[i])) + [Maker.Footer]
  }

  /** The first `j + 1` writes of `ps` fit in `room` characters. */
  predicate FitsThrough(ps: seq<string>, room: nat, j: nat)
    requires j < |ps|
  {
    |Flatten(ps[..j + 1])| <= room
  }

  /** How many of the writes `ps`, made in turn, a writer with `room`
      characters of room accepts, counting from `from`: each write is
      accepted while the text so far still fits. */
  function Accepted(ps: seq<string>, room: nat, from: nat): (k: nat)
    requires from <= |ps|
    ensures from <= k <= |ps|
    ensures forall j :: from <= j < k ==> FitsThrough(ps, room, j)
    ensures k < |ps| ==> !FitsThrough(ps, room, k)
    decreases |ps| - from
  {
    if from == |ps| || !FitsThrough(ps, room, from) then from else Accepted(ps, room, from + 1)
  }

  /** Every write is accepted exactly when the whole text fits, and what is
      written is always a prefix of the whole text. */
  lemma {:induction false} AcceptedAll(ps: seq<string>, room: nat)
    ensures Accepted(ps, room, 0) == |ps| <==> |Flatten(ps)| <= room
    ensures Flatten(ps[..Accepted(ps, room, 0)]) <= Flatten(ps)
  {
    var k := Accepted(ps, room, 0);
    FlattenPrefix(ps, k);
    if k < |ps| {
      FlattenPrefix(ps, k + 1);
      assert |Flatten(ps[..k + 1])| <= |Flatten(ps)|;
    } else if ps != [] {
      var n := |ps| - 1;
      assert ps[..n + 1] == ps;
      assert FitsThrough(ps, room, n);
    }
  }

  /** The writes generate attempts: only the header when the template does
      not parse. */
  function Attempted<FK, IX>(render: TableArgs<FK, IX> -> string, ts: seq<TableArgs<FK, IX>>, templateError: Option<string>): seq<string>
  {
    if templateError.Some? then [Maker.Header] else Pieces(render, ts)
  }

  /** The error generate returns after `k` accepted writes. */
  function GenerateError(n: nat, k: nat, reason: string, templateError: Option<string>): Option<string>
  {
    if k == 0 then Some(HeaderError(reason))
    else if templateError.Some? then Some(TemplateError(templateError.value))
    else if k <= n then Some(ExecuteError(reason))
    else if k == n + 1 then Some(FooterError(reason))
    else None
  }

  /** When everything is written, the output is the header, each table's
      text in order and the footer. */
  lemma {:induction false} PiecesText<FK, IX>(render: TableArgs<FK, IX> -> string, ts: seq<TableArgs<FK, IX>>)
    ensures Flatten(Pieces(render, ts)) == Maker.Header + Maker.Concat(render, ts) + Maker.Footer
  {
    var mid := seq(|ts|, i requires 0 <= i < |ts| => render(ts[i]));
    FlattenAppend([Maker.Header] + mid, [Maker.Footer]);
    FlattenAppend([Maker.Header], mid);
    assert Flatten([Maker.Header]) == Maker.Header by {
      assert [Maker.Header][..0] == [];
      AppendNil(Maker.Header);
    }
    assert Flatten([Maker.Footer]) == Maker.Footer by {
      assert [Maker.Footer][..0] == [];
      AppendNil(Maker.Footer);
    }
    RenderedText(render, ts);
  }

  /** A header the writer refuses ends generate at once: nothing is
      written and the error is the header error. */
  lemma {:induction false} HeaderRefused<FK, IX>(render: TableArgs<FK, IX> -> string, ts: seq<TableArgs<FK, IX>>,
                                                 templateError: Option<string>, room: nat, reason: string)
    requires room < |Maker.Header|
    ensures var ps := Attempted(render, ts, templateError);
      Accepted(ps, room, 0) == 0 && Flatten(ps[..0]) == ""
    ensures GenerateError(|ts|, 0, reason, templateError) == Some(HeaderError(reason))
  {
    var ps := Attempted(render, ts, templateError);
    assert ps[0] == Maker.Header;
    FlattenStep(ps, 0);
    assert ps[..0] == [];
    assert !FitsThrough(ps, room, 0);
  }

  /** When the template parses and the whole script fits, generate writes
      the header, each table's text in order and the footer, and returns no
      error. */
  lemma {:induction false} AllWritten<FK, IX>(render: TableArgs<FK, IX> -> string, ts: seq<TableArgs<FK, IX>>,
                                              room: nat, reason: string)
    requires |Maker.Header + Maker.Concat(render, ts) + Maker.Footer| <= room
    ensures var ps := Attempted(render, ts, None);
      var k := Accepted(ps, room, 0);
      k == |ts| + 2 && Flatten(ps[..k]) == Maker.Header + Maker.Concat(render, ts) + Maker.Footer
      && GenerateError(|ts|, k, reason, None) == None
  {
    var ps := Pieces(render, ts);
    PiecesText(render, ts);
    AcceptedAll(ps, room);
    assert ps[..|ps|] == ps;
  }

  lemma {:induction false} RenderedText<FK, IX>(render: TableArgs<FK, IX> -> string, ts: seq<TableArgs<FK, IX>>)
    ensures Flatten(seq(|ts|, i requires 0 <= i < |ts| => render(ts[i]))) == Maker.Concat(render, ts)
    decreases |ts|
  {
    if ts != [] {
      var init := ts[..|ts| - 1];
      RenderedText(render, init);
      var mid := seq(|ts|, i requires 0 <= i < |ts| => render(ts[i]));
      assert mid[..|ts| - 1] == seq(|init|, i requires 0 <= i < |init| => render(init[i]));
    }
  }

  // ---------------------------------------------------------------------
  // The maker

  /** DDLMaker: the structs added so far and the tables parsed from them.
      The configuration and the dialect are not part of this model. */
  class DDLMaker<FK, IX> {
    var structs: seq<StructDesc<FK, IX>>
    var tables: seq<TableArgs<FK, IX>>

    constructor ()
      ensures structs == [] && tables == []
    {
      structs, tables := [], [];
    }

    /** AddStruct: appends the arguments in order until one is nil or repeats
      the key of an earlier argument of the same call; the arguments before
      that one stay added. Keys are compared within one call only. */
    method AddStruct(ss: seq<Option<StructDesc<FK, IX>>>) returns (err: Option<string>)
      modifies this
      ensures tables == old(tables)
      ensures var k := FirstRejected(ss, 0);
        structs == old(structs) + Values(ss, k) && err == AddError(ss, k)
    {
      var pkgs: map<string, bool> := map[];
      for i := 0 to |ss|
        invariant tables == old(tables)
        invariant FirstRejected(ss, 0) == FirstRejected(ss, i)
        invariant forall j :: 0 <= j < i ==> ss[j].Some?
        invariant structs == old(structs) + Values(ss, i)
        invariant forall n :: n in pkgs && pkgs[n] <==> n in AddedNames(ss, i)
      {
        var s := ss[i];
        if s.None? {
          StopAt(ss, i);
          return Some(ErrNil);
        }
        var structName := s.value.pkgPath + "." + s.value.name;
        if structName in pkgs && pkgs[structName] {
          StopAt(ss, i);
          return Some(structName + " is already added");
        }
        AddStep(ss, i);
        AppendAssoc(old(structs), Values(ss, i), [s.value]);
        structs := structs + [s.value];
        pkgs := pkgs[structName := true];
      }
      return None;
    }

    /** parse: appends one table per struct, in order, to the tables already
      held; each table has the columns of its struct's fields that are not
      ignored. */
    method Parse(toSnake: string -> string)
      modifies this
      ensures structs == old(structs)
      ensures tables == old(tables) + TablesOf(structs, toSnake)
    {
      ghost var start := tables;
      for i := 0 to |structs|
        invariant structs == old(structs)
        invariant tables == start + TablesOf(structs[..i], toSnake)
      {
        var s := structs[i];
        var columns := ParseColumns(s.fields, toSnake);
        var table := ParseTable(s, columns, toSnake);
        MapStep((s: StructDesc<FK, IX>) => TableOf(s, toSnake), structs, i);
        AppendAssoc(start, TablesOf(structs[..i], toSnake), [table]);
        tables := tables + [table];
      }
      assert structs[..|structs|] == structs;
    }

    /** generate: writes the header, then (when the dialect's template
      parses) each table's text in order, then the footer, stopping at the
      first write `w` refuses. What `w` received is the accepted writes in
      order; a refused header leaves `w` untouched. */
    method Generate(w: Writer, templateError: Option<string>, render: TableArgs<FK, IX> -> string)
      returns (err: Option<string>)
      modifies w
      ensures var ps := Attempted(render, tables, templateError);
        var k := Accepted(ps, old(w.room), 0);
        w.data == old(w.data) + Flatten(ps[..k])
        && err == GenerateError(|tables|, k, w.reason, templateError)
    {
      ghost var data0, room0 := w.data, w.room;
      ghost var ps := Attempted(render, tables, templateError);
      ghost var k := Accepted(ps, room0, 0);
      assert ps[..0] == [];
      AppendNil(data0);
      err := WritePiece(w, Maker.Header, ps, data0, room0, 0);
      if err.Some? {
        return Some(HeaderError(err.value));
      }
      if templateError.Some? {
        assert k == 1;
        return Some(TemplateError(templateError.value));
      }
      err := WriteTables(w, render, ps, data0, room0);
      if err.Some? {
        return Some(ExecuteError(err.value));
      }
      var e := WritePiece(w, Maker.Footer, ps, data0, room0, |tables| + 1);
      if e.Some? {
        return Some(FooterError(e.value));
      }
      assert k == |tables| + 2;
      assert ps[..k] == ps;
      return None;
    }

    /** The table loop of generate: each table's text in order, stopping at
      the first write `w` refuses. */
    method WriteTables(w: Writer, render: TableArgs<FK, IX> -> string,
                       ghost ps: seq<string>, ghost data0: string, ghost room0: nat)
      returns (e: Option<string>)
      requires |ps| == |tables| + 2
      requires forall i :: 0 <= i < |tables| ==> ps[i + 1] == render(tables[i])
      requires w.data == data0 + Flatten(ps[..1]) && w.room + |Flatten(ps[..1])| == room0
      requires Accepted(ps, room0, 0) == Accepted(ps, room0, 1)
      modifies w
      ensures e.Some? ==>
        var k := Accepted(ps, room0, 0);
        e.value == w.reason && 1 <= k <= |tables| && w.data == data0 + Flatten(ps[..k])
      ensures e.None? ==>
        w.data == data0 + Flatten(ps[..|tables| + 1]) && w.room + |Flatten(ps[..|tables| + 1])| == room0
        && Accepted(ps, room0, 0) == Accepted(ps, room0, |tables| + 1)
    {
      for i := 0 to |tables|
        invariant w.data == data0 + Flatten(ps[..i + 1])
        invariant w.room + |Flatten(ps[..i + 1])| == room0
        invariant Accepted(ps, room0, 0) == Accepted(ps, room0, i + 1)
      {
        e := WritePiece(w, render(tables[i]), ps, data0, room0, i + 1);
        if e.Some? {
          return;
        }
      }
      return None;
    }
  }

  /** One write of generate, the `p`-th of `ps`: when `w` accepts it, the
    text so far grows by it; when `w` refuses it, the writes accepted are
    exactly the first `p`. */
  method WritePiece(w: Writer, s: string, ghost ps: seq<string>, ghost data0: string, ghost room0: nat, ghost p: nat)
    returns (e: Option<string>)
    requires p < |ps| && ps[p] == s
    requires w.data == data0 + Flatten(ps[..p]) && w.room + |Flatten(ps[..p])| == room0
    requires Accepted(ps, room0, 0) == Accepted(ps, room0, p)
    modifies w
    ensures e.Some? ==> e.value == w.reason && w.data == old(w.data) && Accepted(ps, room0, 0) == p
    ensures e.None? ==>
      w.data == data0 + Flatten(ps[..p + 1]) && w.room + |Flatten(ps[..p + 1])| == room0
      && Accepted(ps, room0, 0) == Accepted(ps, room0, p + 1)
  {
    e := w.Write(s);
    FlattenStep(ps, p);
    if e.None? {
      AppendAssoc(data0, Flatten(ps[..p]), s);
    }
  }
}
