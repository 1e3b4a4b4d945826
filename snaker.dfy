/** Acronym-aware conversion of CamelCase Go identifiers to snake_case SQL
    names (snaker.go). Characters stand for runes; letter case is the ASCII
    one. */
module Snaker {
  import opened Strings

  /** The initialisms that are lower-cased as one unit rather than letter by
      letter. */
  const CommonInitialisms: set<string> := {
    "ACL", "API", "ASCII", "CPU", "CSS", "DNS", "EOF", "ETA", "GPU", "GUID",
    "HTML", "HTTP", "HTTPS", "ID", "IP", "JSON", "LHS", "OS", "QPS", "RAM",
    "RHS", "RPC", "SLA", "SMTP", "SQL", "SSH", "TCP", "TLS", "TTL", "UDP",
    "UI", "UID", "UUID", "URI", "URL", "UTF8", "VM", "XML", "XMPP", "XSRF",
    "XSS", "OAuth"
  }

  predicate IsInitialism(w: string) { w in CommonInitialisms }

  predicate IsUpper(c: char) { 'A' <= c <= 'Z' }

  function ToLower(c: char): (l: char)
    ensures !IsUpper(l)
    ensures !IsUpper(c) ==> l == c
  {
    if IsUpper(c) then (c as int - 'A' as int + 'a' as int) as char else c
  }

  /** `strings.ToLower` on ASCII text. */
  function Lower(s: string): (r: string)
    ensures |r| == |s|
    ensures forall i :: 0 <= i < |r| ==> r[i] == ToLower(s[i])
  {
    if s == [] then "" else [ToLower(s[0])] + Lower(s[1..])
  }

  /** Every listed initialism is 2 to 5 characters long and starts with an
      upper-case letter, so only an upper-case letter can begin one. */
  lemma {:induction false} InitialismShape(w: string)
    requires IsInitialism(w)
    ensures 2 <= |w| <= 5 && IsUpper(w[0])
  {
  }

  /** The member of `CommonInitialisms` of length `k` or less (but at least 2)
      that is a prefix of `s`, taking the longest; "" when there is none. */
  function InitialismUpTo(s: string, k: nat): (r: string)
    ensures r == "" || (IsInitialism(r) && 2 <= |r| <= k && r <= s)
    ensures forall j :: |r| < j <= k && j <= |s| ==> !IsInitialism(s[..j])
    decreases k
  {
    if k < 2 then ""
    else if k <= |s| && IsInitialism(s[..k]) then s[..k]
    else InitialismUpTo(s, k - 1)
  }

  /** The longest listed initialism, of length 5 down to 2, that begins `s`. */
  function LongestInitialism(s: string): (r: string)
    ensures r == "" || (IsInitialism(r) && 2 <= |r| <= 5 && r <= s)
    ensures forall j :: |r| < j <= 5 && j <= |s| ==> !IsInitialism(s[..j])
  {
    InitialismUpTo(s, 5)
  }

  /** startsWithCommonInitialisms: tries the prefixes of length 5, 4, 3 and 2
      in turn and returns the first one that is listed. */
  method StartsWithCommonInitialisms(s: string) returns (r: string)
    ensures r == LongestInitialism(s)
  {
    var i := 5;
    while i >= 2
      invariant 1 <= i <= 5
      invariant InitialismUpTo(s, i) == LongestInitialism(s)
    {
      if i <= |s| {
        if IsInitialism(s[..i]) {
          return s[..i];
        }
      }
      i := i - 1;
    }
    return "";
  }

  /** The text camelToSnake builds before it drops a leading underscore. */
  function Converted(s: string): (r: string)
    decreases |s|
  {
    if s == [] then ""
    else if IsUpper(s[0]) then
      var init := LongestInitialism(s);
      if init != "" then "_" + Lower(init) + Converted(s[|init|..])
      else ['_', ToLower(s[0])] + Converted(s[1..])
    else [s[0]] + Converted(s[1..])
  }

  /** camelToSnake's result: the converted text without its first character
      when that is an underscore. */
  function SnakeCase(s: string): (r: string)
    ensures Converted(s) == r || Converted(s) == "_" + r
  {
    DropUnderscore(Converted(s))
  }

  /** `c` without its first character when that is an underscore. */
  function DropUnderscore(c: string): (r: string)
    ensures c == r || c == "_" + r
    ensures r == c <==> c == [] || c[0] != '_'
  {
    if |c| >= 1 && c[0] == '_' then assert c == "_" + c[1..]; c[1..] else c
  }

  /** One step of the conversion at position `i` of `s`: the text produced
      for the character there and the position after what it consumes. */
  lemma {:induction false} ConvertedAt(s: string, i: nat, piece: string, next: nat)
    requires i < |s|
    requires IsUpper(s[i]) && LongestInitialism(s[i..]) != "" ==>
      piece == "_" + Lower(LongestInitialism(s[i..])) && next == i + |LongestInitialism(s[i..])|
    requires IsUpper(s[i]) && LongestInitialism(s[i..]) == "" ==> piece == ['_', ToLower(s[i])] && next == i + 1
    requires !IsUpper(s[i]) ==> piece == [s[i]] && next == i + 1
    ensures i < next <= |s|
    ensures Converted(s[i..]) == piece + Converted(s[next..])
  {
    var t := s[i..];
    assert t[0] == s[i];
    var init := LongestInitialism(t);
    if IsUpper(t[0]) && init != "" {
      assert t[|init|..] == s[next..];
    } else {
      assert t[1..] == s[next..];
    }
  }

  /** The body of camelToSnake's loop at position `i`: an upper-case letter
      becomes an underscore and the lower-cased initialism it begins, or the
      lower-cased letter alone; any other character is copied. */
  method ConvertAt(s: string, i: nat) returns (piece: string, next: nat)
    requires i < |s|
    ensures i < next <= |s|
    ensures Converted(s[i..]) == piece + Converted(s[next..])
  {
    var ch := s[i];
    if IsUpper(ch) {
      var init := StartsWithCommonInitialisms(s[i..]);
      if init != "" {
        piece, next := "_" + Lower(init), i + |init|;
      } else {
        piece, next := ['_', ToLower(ch)], i + 1;
      }
    } else {
      piece, next := [ch], i + 1;
    }
    ConvertedAt(s, i, piece, next);
  }

  /** camelToSnake: converts `s` piece by piece, then drops a leading
      underscore. */
  method CamelToSnake(s: string) returns (r: string)
    ensures r == SnakeCase(s)
  {
    var buf := "";
    var i := 0;
    assert s[0..] == s;
    while i < |s|
      invariant 0 <= i <= |s|
      invariant buf + Converted(s[i..]) == Converted(s)
      decreases |s| - i
    {
      var piece, next := ConvertAt(s, i);
      Assoc(buf, piece, Converted(s[next..]));
      buf, i := buf + piece, next;
    }
    assert s[i..] == [];
    assert buf + [] == buf;
    r := buf;
    if |r| >= 1 && r[0] == '_' {
      r := r[1..];
    }
  }

  /** No upper-case letter survives the conversion. */
  lemma {:induction false} ConvertedHasNoUpper(s: string)
    ensures forall i :: 0 <= i < |Converted(s)| ==> !IsUpper(Converted(s)[i])
    decreases |s|
  {
    if s != [] {
      if IsUpper(s[0]) {
        var init := LongestInitialism(s);
        if init != "" {
          ConvertedHasNoUpper(s[|init|..]);
        } else {
          ConvertedHasNoUpper(s[1..]);
        }
      } else {
        ConvertedHasNoUpper(s[1..]);
      }
    }
  }

  lemma {:induction false} SnakeCaseHasNoUpper(s: string)
    ensures forall i :: 0 <= i < |SnakeCase(s)| ==> !IsUpper(SnakeCase(s)[i])
  {
    ConvertedHasNoUpper(s);
    var c := Converted(s);
    if |c| >= 1 && c[0] == '_' {
      assert forall i :: 0 <= i < |c| - 1 ==> c[1..][i] == c[i + 1];
    }
  }

  /** Text without upper-case letters is copied unchanged and in order. */
  lemma {:induction false} ConvertedKeepsLowerText(s: string)
    requires forall i :: 0 <= i < |s| ==> !IsUpper(s[i])
    ensures Converted(s) == s
  {
    if s != [] {
      ConvertedKeepsLowerText(s[1..]);
    }
  }

  /** Converting a name that is already snake_case changes nothing, as long
      as it does not begin with an underscore (which is dropped). */
  lemma {:induction false} SnakeCaseIdempotent(s: string)
    requires s != [] && s[0] != '_'
    ensures SnakeCase(SnakeCase(s)) == SnakeCase(s)
  {
    var r := SnakeCase(s);
    SnakeCaseHasNoUpper(s);
    ConvertedKeepsLowerText(r);
    if IsUpper(s[0]) {
      var init := LongestInitialism(s);
      if init != "" {
        InitialismShape(init);
        assert r[0] == ToLower(init[0]);
      } else {
        assert r[0] == ToLower(s[0]);
      }
    } else {
      assert r[0] == s[0];
    }
  }

  /** The listed initialisms grouped by length; used to show that a given
      prefix is not one of them. */
  lemma {:induction false} InitialismsByLength(w: string)
    requires IsInitialism(w)
    ensures |w| == 2 ==> w in {"ID", "IP", "OS", "UI", "VM"}
    ensures |w| == 5 ==> w in {"ASCII", "HTTPS", "OAuth"}
    ensures |w| == 3 || |w| == 4 ==> w[0] != 'O' && w[0] != 'N' && w[0] != 'F' && w[0] != 'B'
  {
  }

  /** The conversions pinned by the package's own table of test cases. */
  lemma {:induction false} SnakeCaseShortExamples()
    ensures SnakeCase("") == ""
    ensures SnakeCase("i") == "i"
    ensures SnakeCase("I") == "i"
    ensures SnakeCase("ID") == "id"
  {
    assert "ID"[..2] == "ID";
  }

  lemma {:induction false} ConvertedIdExample()
    ensures Converted("ID") == "_id"
  {
    assert "ID"[..2] == "ID" && IsInitialism("ID");
    assert LongestInitialism("ID") == "ID";
    assert Lower("ID") == "id";
    assert "ID"[2..] == "";
  }

  lemma {:induction false} ConvertedHttpsIdExample()
    ensures Converted("HTTPSID") == "_" + "https_id"
  {
    var s := "HTTPSID";
    assert s[..5] == "HTTPS" && IsInitialism("HTTPS");
    assert LongestInitialism(s) == "HTTPS";
    assert s[5..] == "ID";
    ConvertedIdExample();
    LowerHttpsExample();
    assert Converted(s) == "_" + "https" + "_id";
    Assoc("_", "https", "_id");
    HttpsIdText();
  }

  lemma {:induction false} HttpsIdText()
    ensures "https" + "_id" == "https_id"
  {
  }

  lemma {:induction false} LowerHttpsExample()
    ensures Lower("HTTPS") == "https"
  {
    var r := Lower("HTTPS");
    assert r[0] == 'h' && r[1] == 't' && r[2] == 't' && r[3] == 'p' && r[4] == 's';
  }

  lemma {:induction false} SnakeCaseInitialismExamples()
    ensures SnakeCase("HTTPSID") == "https_id"
  {
    ConvertedHttpsIdExample();
    DropPrefix("_", "https_id");
  }

  /** An upper-case letter that begins no initialism becomes an underscore and
      its lower-case form, letter by letter. */
  lemma {:induction false} SnakeCaseLetterByLetter()
    ensures SnakeCase("ONE") == "o_n_e"
  {
    var on, one, ne := "ONE"[..2], "ONE"[..3], "NE"[..2];
    assert on == "ON" && one == "ONE" && ne == "NE";
    forall w | IsInitialism(w) ensures w != on && w != one && w != ne {
      InitialismsByLength(w);
    }
    assert LongestInitialism("ONE") == "" && LongestInitialism("NE") == "";
    assert "ONE"[1..] == "NE" && "NE"[1..] == "E";
    assert Converted("E") == "_e";
    assert Converted("NE") == "_n_e";
  }

  /** A type named FooBar is given the table name foo_bar (table.go applies
      this conversion to the type name). */
  lemma {:induction false} SnakeCaseTableNameExample()
    ensures SnakeCase("FooBar") == "foo_bar"
  {
    var s := "FooBar";
    NoInitialismAtFoo();
    ConvertedUpperStep(s);
    assert s[1..] == "ooBar" && ToLower(s[0]) == 'f';
    ConvertedOoBarExample();
    FooBarText();
    DropPrefix("_", "foo_bar");
  }

  lemma {:induction false} FooBarText()
    ensures ['_', 'f'] + "oo_bar" == "_" + "foo_bar"
  {
  }

  /** Converting at a lower-case letter copies it. */
  lemma {:induction false} ConvertedLowerStep(s: string)
    requires s != [] && !IsUpper(s[0])
    ensures Converted(s) == [s[0]] + Converted(s[1..])
  {
  }

  /** Converting at an upper-case letter that begins no initialism writes an
      underscore and the letter in lower case. */
  lemma {:induction false} ConvertedUpperStep(s: string)
    requires s != [] && IsUpper(s[0]) && LongestInitialism(s) == ""
    ensures Converted(s) == ['_', ToLower(s[0])] + Converted(s[1..])
  {
  }

  lemma {:induction false} NoInitialismAtFoo()
    ensures LongestInitialism("FooBar") == ""
  {
    var s := "FooBar";
    var p2, p3, p4, p5 := s[..2], s[..3], s[..4], s[..5];
    assert p2 == "Fo" && p3 == "Foo" && p4 == "FooB" && p5 == "FooBa";
    forall w | IsInitialism(w) ensures w != p2 && w != p3 && w != p4 && w != p5 {
      InitialismsByLength(w);
    }
  }

  lemma {:induction false} ConvertedOoBarExample()
    ensures Converted("ooBar") == "oo_bar"
  {
    ConvertedLowerStep("ooBar");
    assert "ooBar"[1..] == "oBar" && "ooBar"[0] == 'o';
    ConvertedLowerStep("oBar");
    assert "oBar"[1..] == "Bar" && "oBar"[0] == 'o';
    ConvertedBarExample();
    OoBarText();
  }

  lemma {:induction false} OoBarText()
    ensures ['o'] + (['o'] + "_bar") == "oo_bar"
  {
  }

  lemma {:induction false} ConvertedBarExample()
    ensures Converted("Bar") == "_bar"
  {
    var t := "Bar";
    var q2, q3 := t[..2], t[..3];
    assert q2 == "Ba" && q3 == "Bar";
    forall w | IsInitialism(w) ensures w != q2 && w != q3 {
      InitialismsByLength(w);
    }
    ConvertedUpperStep(t);
    assert t[1..] == "ar";
    ConvertedLowerStep("ar");
    assert "ar"[1..] == "r";
    ConvertedLowerStep("r");
    assert "r"[1..] == "";
  }

  /** A capitalised word that begins no initialism only loses its capital. */
  lemma {:induction false} SnakeCaseWordExample()
    ensures SnakeCase("One") == "one"
  {
    var s := "One";
    var p2, p3 := s[..2], s[..3];
    assert p2 == "On" && p3 == "One";
    forall w | IsInitialism(w) ensures w != p2 && w != p3 {
      InitialismsByLength(w);
    }
    ConvertedUpperStep(s);
    assert s[1..] == "ne" && ToLower(s[0]) == 'o';
    ConvertedKeepsLowerText("ne");
    OneText();
    DropPrefix("_", "one");
  }

  lemma {:induction false} OneText()
    ensures ['_', 'o'] + "ne" == "_" + "one"
  {
  }

  // ---------------------------------------------------------------------
  // Conversion piece by piece: a capitalised word, an initialism, and the
  // longer cases of the package's own test table built from them.

  /** Every listed initialism has an upper-case second letter (OAuth
      included), and the only ones starting with I are two letters long. */
  lemma {:induction false} InitialismSecondLetter(w: string)
    requires IsInitialism(w)
    ensures |w| >= 2 && IsUpper(w[1])
    ensures w[0] == 'I' ==> |w| == 2
  {
  }

  /** An upper-case letter followed by one that is not upper case begins no
      initialism. */
  lemma {:induction false} NoInitialismBeforeLower(s: string)
    requires |s| >= 2 && !IsUpper(s[1])
    ensures LongestInitialism(s) == ""
  {
    var r := LongestInitialism(s);
    if r != "" {
      InitialismSecondLetter(r);
      assert false;
    }
  }

  /** A run of characters that are not upper case is copied, whatever
      follows it. */
  lemma {:induction false} ConvertedLowerRun(low: string, rest: string)
    requires forall i :: 0 <= i < |low| ==> !IsUpper(low[i])
    ensures Converted(low + rest) == low + Converted(rest)
    decreases |low|
  {
    if low != [] {
      var s := low + rest;
      assert s[0] == low[0] && s[1..] == low[1..] + rest;
      ConvertedLowerStep(s);
      ConvertedLowerRun(low[1..], rest);
      calc {
        Converted(s);
        [low[0]] + Converted(low[1..] + rest);
        [low[0]] + (low[1..] + Converted(rest));
        { Assoc([low[0]], low[1..], Converted(rest)); }
        ([low[0]] + low[1..]) + Converted(rest);
        { assert [low[0]] + low[1..] == low; }
        low + Converted(rest);
      }
    } else {
      assert low + rest == rest;
    }
  }

  /** A capitalised word: the capital becomes "_" and its lower case, the
      rest of the word is copied. */
  lemma {:induction false} ConvertedWord(c: char, low: string, rest: string)
    requires IsUpper(c) && low != []
    requires forall i :: 0 <= i < |low| ==> !IsUpper(low[i])
    ensures Converted([c] + low + rest) == ['_', ToLower(c)] + low + Converted(rest)
  {
    var s := [c] + low + rest;
    assert s[1] == low[0];
    NoInitialismBeforeLower(s);
    ConvertedUpperStep(s);
    assert s[1..] == low + rest;
    ConvertedLowerRun(low, rest);
    Assoc(['_', ToLower(c)], low, Converted(rest));
  }

  /** The longest initialism is lower-cased as one unit after an underscore. */
  lemma {:induction false} ConvertedInitialism(w: string, rest: string)
    requires IsInitialism(w) && LongestInitialism(w + rest) == w
    ensures Converted(w + rest) == "_" + Lower(w) + Converted(rest)
  {
    InitialismShape(w);
    DropPrefix(w, rest);
  }

  /** A listed initialism of five letters is always the longest one. */
  lemma {:induction false} LongestFive(w: string, rest: string)
    requires IsInitialism(w) && |w| == 5
    ensures LongestInitialism(w + rest) == w
  {
    var s := w + rest;
    assert s[..5] == w;
    var r := LongestInitialism(s);
    assert |r| == 5;
    assert r == s[..5];
  }

  /** "ID" is the longest initialism wherever it begins a name. */
  lemma {:induction false} LongestId(rest: string)
    ensures LongestInitialism("ID" + rest) == "ID"
  {
    var s := "ID" + rest;
    assert s[..2] == "ID" && IsInitialism(s[..2]);
    var r := LongestInitialism(s);
    InitialismSecondLetter(r);
    assert r[0] == s[0];
    assert r == s[..2];
  }

  lemma {:induction false} LowerOAuthExample()
    ensures Lower("OAuth") == "oauth"
  {
    var r := Lower("OAuth");
    assert r[0] == 'o' && r[1] == 'a' && r[2] == 'u' && r[3] == 't' && r[4] == 'h';
  }

  lemma {:induction false} LowerIdExample()
    ensures Lower("ID") == "id"
  {
    var r := Lower("ID");
    assert r[0] == 'i' && r[1] == 'd';
  }

  /** OAuth, the one initialism with lower-case letters, is lower-cased as
      one unit: "OAuthClient" gives "oauth_client". */
  lemma {:induction false} SnakeCaseOAuthExample()
    ensures SnakeCase("OAuthClient") == "oauth_client"
  {
    SnakeCaseOAuthClient("OAuthClient");
  }

  lemma {:induction false} SnakeCaseOAuthClient(s: string)
    requires s == "OAuth" + (['C'] + "lient" + "")
    ensures SnakeCase(s) == "oauth_client"
  {
    LongestFive("OAuth", ['C'] + "lient" + "");
    ConvertedInitialism("OAuth", ['C'] + "lient" + "");
    ConvertedWord('C', "lient", "");
    LowerOAuthExample();
    OAuthClientText();
    DropPrefix("_", "oauth_client");
  }

  lemma {:induction false} OAuthClientText()
    ensures "_" + "oauth" + (['_', 'c'] + "lient" + "") == "_" + "oauth_client"
  {
  }

  /** An initialism inside a name: "ThisIDIsFine" gives "this_id_is_fine". */
  lemma {:induction false} SnakeCaseThisIdExample()
    ensures SnakeCase("ThisIDIsFine") == "this_id_is_fine"
  {
    SnakeCaseThisIdIsFine("ThisIDIsFine");
  }

  lemma {:induction false} SnakeCaseThisIdIsFine(s: string)
    requires s == ['T'] + "his" + ("ID" + (['I'] + "s" + (['F'] + "ine" + "")))
    ensures SnakeCase(s) == "this_id_is_fine"
  {
    var tail := "ID" + (['I'] + "s" + (['F'] + "ine" + ""));
    ConvertedWord('T', "his", tail);
    ConvertedIdIsFine(tail);
    ThisIdText();
    DropPrefix("_", "this_id_is_fine");
  }

  lemma {:induction false} ConvertedIdIsFine(t: string)
    requires t == "ID" + (['I'] + "s" + (['F'] + "ine" + ""))
    ensures Converted(t) == "_id_is_fine"
  {
    var fine := ['F'] + "ine" + "";
    var isFine := ['I'] + "s" + fine;
    LongestId(isFine);
    ConvertedInitialism("ID", isFine);
    LowerIdExample();
    ConvertedWord('I', "s", fine);
    ConvertedWord('F', "ine", "");
    IdIsFineText();
  }

  lemma {:induction false} IdIsFineText()
    ensures "_" + "id" + (['_', 'i'] + "s" + (['_', 'f'] + "ine" + "")) == "_id_is_fine"
  {
  }

  lemma {:induction false} ThisIdText()
    ensures ['_', 't'] + "his" + "_id_is_fine" == "_" + "this_id_is_fine"
  {
  }

  /** "HTTPSConnection": the five-letter initialism, then a word. */
  lemma {:induction false} ConvertedHttpsConnection(s: string, rest: string)
    requires s == "HTTPS" + (['C'] + "onnection" + rest)
    ensures Converted(s) == "_https_connection" + Converted(rest)
  {
    LongestFive("HTTPS", ['C'] + "onnection" + rest);
    ConvertedInitialism("HTTPS", ['C'] + "onnection" + rest);
    LowerHttpsExample();
    ConvertedWord('C', "onnection", rest);
    HttpsConnectionText(Converted(rest));
  }

  lemma {:induction false} HttpsConnectionText(t: string)
    ensures "_" + "https" + (['_', 'c'] + "onnection" + t) == "_https_connection" + t
  {
  }

  /** "ThisHTTPSConnection" gives "this_https_connection". */
  lemma {:induction false} SnakeCaseThisHttpsExample()
    ensures SnakeCase("ThisHTTPSConnection") == "this_https_connection"
  {
    SnakeCaseThisHttpsConnection("ThisHTTPSConnection");
  }

  lemma {:induction false} SnakeCaseThisHttpsConnection(s: string)
    requires s == ['T'] + "his" + ("HTTPS" + (['C'] + "onnection" + ""))
    ensures SnakeCase(s) == "this_https_connection"
  {
    var tail := "HTTPS" + (['C'] + "onnection" + "");
    ConvertedWord('T', "his", tail);
    ConvertedHttpsConnection(tail, "");
    ThisHttpsText();
    DropPrefix("_", "this_https_connection");
  }

  lemma {:induction false} ThisHttpsText()
    ensures ['_', 't'] + "his" + ("_https_connection" + "") == "_" + "this_https_connection"
  {
  }

  /** "HelloHTTPSConnectionID" gives "hello_https_connection_id". */
  lemma {:induction false} SnakeCaseHelloHttpsExample()
    ensures SnakeCase("HelloHTTPSConnectionID") == "hello_https_connection_id"
  {
    SnakeCaseHelloHttpsConnectionId("HelloHTTPSConnectionID");
  }

  lemma {:induction false} SnakeCaseHelloHttpsConnectionId(s: string)
    requires s == ['H'] + "ello" + ("HTTPS" + (['C'] + "onnection" + "ID"))
    ensures SnakeCase(s) == "hello_https_connection_id"
  {
    var tail := "HTTPS" + (['C'] + "onnection" + "ID");
    ConvertedWord('H', "ello", tail);
    ConvertedHttpsConnection(tail, "ID");
    ConvertedIdExample();
    HelloHttpsText();
    DropPrefix("_", "hello_https_connection_id");
  }

  lemma {:induction false} HelloHttpsText()
    ensures ['_', 'h'] + "ello" + ("_https_connection" + "_id") == "_" + "hello_https_connection_id"
  {
  }

  /** A long name of capitalised words ending in an initialism:
      "ThisHasToBeConvertedCorrectlyID" gives
      "this_has_to_be_converted_correctly_id". */
  lemma {:induction false} SnakeCaseLongNameExample()
    ensures SnakeCase("ThisHasToBeConvertedCorrectlyID") == "this_has_to_be_converted_correctly_id"
  {
    SnakeCaseLongName("ThisHasToBeConvertedCorrectlyID");
  }

  lemma {:induction false} SnakeCaseLongName(s: string)
    requires s == ['T'] + "his" + (['H'] + "as" + (['T'] + "o" + (['B'] + "e"
      + (['C'] + "onverted" + (['C'] + "orrectly" + "ID")))))
    ensures SnakeCase(s) == "this_has_to_be_converted_correctly_id"
  {
    var r4 := ['C'] + "onverted" + (['C'] + "orrectly" + "ID");
    var r3 := ['B'] + "e" + r4;
    var r2 := ['T'] + "o" + r3;
    var r1 := ['H'] + "as" + r2;
    ConvertedWord('T', "his", r1);
    ConvertedWord('H', "as", r2);
    ConvertedWord('T', "o", r3);
    ConvertedWord('B', "e", r4);
    ConvertedCorrectlyId(r4);
    LongNameText();
    DropPrefix("_", "this_has_to_be_converted_correctly_id");
  }

  lemma {:induction false} ConvertedCorrectlyId(t: string)
    requires t == ['C'] + "onverted" + (['C'] + "orrectly" + "ID")
    ensures Converted(t) == "_converted_correctly_id"
  {
    var u := ['C'] + "orrectly" + "ID";
    ConvertedWord('C', "onverted", u);
    ConvertedCorrectlyIdTail(u);
    ConvertedText();
  }

  lemma {:induction false} ConvertedCorrectlyIdTail(u: string)
    requires u == ['C'] + "orrectly" + "ID"
    ensures Converted(u) == "_correctly_id"
  {
    ConvertedWord('C', "orrectly", "ID");
    ConvertedIdExample();
    CorrectlyIdText();
  }

  lemma {:induction false} CorrectlyIdText()
    ensures ['_', 'c'] + "orrectly" + "_id" == "_correctly_id"
  {
  }

  lemma {:induction false} ConvertedText()
    ensures ['_', 'c'] + "onverted" + "_correctly_id" == "_converted_correctly_id"
  {
  }

  lemma {:induction false} LongNameText()
    ensures ['_', 't'] + "his" + (['_', 'h'] + "as" + (['_', 't'] + "o" + (['_', 'b'] + "e" + "_converted_correctly_id")))
      == "_" + "this_has_to_be_converted_correctly_id"
  {
  }
}
