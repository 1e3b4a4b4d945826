/** Text helpers shared by the generators and the validator: the parts of Go's
    `strings` and `fmt` packages that the core relies on, as functions on
    `seq<char>`. */
module Strings {
  import opened Seqs

  /** Number of occurrences of `c` in `s`. */
  function Count(c: char, s: string): (n: nat)
    ensures n <= |s|
    ensures n == 0 <==> c !in s
  {
    if s == [] then 0 else (if s[0] == c then 1 else 0) + Count(c, s[1..])
  }

  lemma {:induction false} CountAppend(c: char, a: string, b: string)
    ensures Count(c, a + b) == Count(c, a) + Count(c, b)
  {
    if a != [] {
      assert (a + b)[1..] == a[1..] + b;
      CountAppend(c, a[1..], b);
    } else {
      assert a + b == b;
    }
  }

  /** `strings.Join(xs, sep)`. */
  function Join(xs: seq<string>, sep: string): string
  {
    if |xs| == 0 then "" else if |xs| == 1 then xs[0] else xs[0] + sep + Join(xs[1..], sep)
  }

  /** `strings.Split(s, string(sep))` for a one-character separator: the pieces
      between separators, the empty string included, and never an empty list. */
  function Split(s: string, sep: char): (pieces: seq<string>)
    ensures |pieces| == Count(sep, s) + 1
    ensures forall i :: 0 <= i < |pieces| ==> sep !in pieces[i]
  {
    if s == [] then [""]
    else
      var rest := Split(s[1..], sep);
      if s[0] == sep then [""] + rest
      else [[s[0]] + rest[0]] + rest[1..]
  }

  /** Splitting and joining again with the same separator gives back the input. */
  lemma {:induction false} JoinSplit(s: string, sep: char)
    ensures Join(Split(s, sep), [sep]) == s
  {
    if s != [] {
      var rest := Split(s[1..], sep);
      JoinSplit(s[1..], sep);
      assert [s[0]] + s[1..] == s;
      if s[0] == sep {
        var pieces := [""] + rest;
        assert pieces[0] == "" && pieces[1..] == rest;
        assert Join(pieces, [sep]) == "" + [sep] + Join(rest, [sep]);
        assert "" + [sep] == [sep];
      } else {
        var pieces := [[s[0]] + rest[0]] + rest[1..];
        assert pieces[0] == [s[0]] + rest[0] && pieces[1..] == rest[1..];
        if |rest| == 1 {
          assert Join(pieces, [sep]) == [s[0]] + rest[0];
        } else {
          var tail := Join(rest[1..], [sep]);
          assert Join(rest, [sep]) == rest[0] + [sep] + tail;
          assert Join(pieces, [sep]) == [s[0]] + rest[0] + [sep] + tail;
          Assoc([s[0]], rest[0], [sep]);
          Assoc([s[0]], rest[0] + [sep], tail);
        }
      }
    }
  }

  /** Splitting a text that starts with character `c`. */
  lemma {:induction false} SplitCons(c: char, t: string, sep: char)
    ensures var rest := Split(t, sep);
      Split([c] + t, sep) == if c == sep then [""] + rest else [[c] + rest[0]] + rest[1..]
  {
    var s := [c] + t;
    assert s[0] == c && s[1..] == t;
  }

  /** A text without the separator is one piece. */
  lemma {:induction false} SplitNone(s: string, sep: char)
    requires sep !in s
    ensures Split(s, sep) == [s]
    decreases |s|
  {
    if s != [] {
      HeadTail(s);
      SplitCons(s[0], s[1..], sep);
      SplitNone(s[1..], sep);
    }
  }

  /** Splitting at one separator splits the two sides independently. */
  lemma {:induction false} SplitAppend(a: string, b: string, sep: char)
    ensures Split(a + [sep] + b, sep) == Split(a, sep) + Split(b, sep)
    decreases |a|
  {
    var sb := Split(b, sep);
    if a == [] {
      assert a + [sep] + b == [sep] + b;
      SplitCons(sep, b, sep);
    } else {
      var c, u := a[0], a[1..] + [sep] + b;
      assert a + [sep] + b == [c] + u;
      HeadTail(a);
      SplitCons(c, u, sep);
      SplitCons(c, a[1..], sep);
      SplitAppend(a[1..], b, sep);
      var ra := Split(a[1..], sep);
      if c == sep {
        AppendAssoc([""], ra, sb);
      } else {
        AppendHeadTail(ra, sb);
        AppendAssoc([[c] + ra[0]], ra[1..], sb);
      }
    }
  }

  /** The last piece of a split is the part of `s` after its last separator
      (all of `s` when there is none). */
  lemma {:induction false} SplitLast(s: string, sep: char)
    ensures var pieces := Split(s, sep); EndsAfter(s, pieces[|pieces| - 1], sep)
    decreases |s|
  {
    if s != [] {
      SplitLast(s[1..], sep);
      var rest := Split(s[1..], sep);
      if s[0] == sep {
        SplitLastAtSep(s, sep);
      } else if |rest| > 1 {
        SplitLastInside(s, sep);
      } else {
        SplitLastWhole(s, sep);
      }
    }
  }

  lemma {:induction false} SplitLastAtSep(s: string, sep: char)
    requires s != [] && s[0] == sep
    requires var rest := Split(s[1..], sep); EndsAfter(s[1..], rest[|rest| - 1], sep)
    ensures var pieces := Split(s, sep); EndsAfter(s, pieces[|pieces| - 1], sep)
  {
    var rest := Split(s[1..], sep);
    HeadTail(s);
    SplitCons(s[0], s[1..], sep);
    LastOfCons("", rest);
    EndsAfterCons(s, rest[|rest| - 1], sep);
  }

  lemma {:induction false} SplitLastInside(s: string, sep: char)
    requires s != [] && s[0] != sep
    requires var rest := Split(s[1..], sep); |rest| > 1 && EndsAfter(s[1..], rest[|rest| - 1], sep)
    ensures var pieces := Split(s, sep); EndsAfter(s, pieces[|pieces| - 1], sep)
  {
    var t, rest := s[1..], Split(s[1..], sep);
    var last := rest[|rest| - 1];
    HeadTail(s);
    SplitCons(s[0], t, sep);
    LastOfCons([s[0]] + rest[0], rest[1..]);
    EndsAfterWhole(t, last, sep);
    assert sep in t && sep !in last;
    EndsAfterCons(s, last, sep);
  }

  lemma {:induction false} SplitLastWhole(s: string, sep: char)
    requires s != [] && s[0] != sep
    requires var rest := Split(s[1..], sep); |rest| == 1 && EndsAfter(s[1..], rest[0], sep)
    ensures var pieces := Split(s, sep); EndsAfter(s, pieces[|pieces| - 1], sep)
  {
    var t, rest := s[1..], Split(s[1..], sep);
    HeadTail(s);
    SplitCons(s[0], t, sep);
    assert sep !in t;
    EndsAfterWhole(t, rest[0], sep);
    assert Split(s, sep) == [s];
  }

  /** `strings.Replace(s, string(c), "", -1)`: every `c` removed, the rest in order. */
  function Remove(s: string, c: char): (r: string)
    ensures c !in r
    ensures |r| == |s| - Count(c, s)
  {
    if s == [] then "" else (if s[0] == c then "" else [s[0]]) + Remove(s[1..], c)
  }

  /** Removing distributes over concatenation, so removal never joins or
      reorders what surrounds a removed character. */
  lemma {:induction false} RemoveAppend(a: string, b: string, c: char)
    ensures Remove(a + b, c) == Remove(a, c) + Remove(b, c)
  {
    if a != [] {
      assert (a + b)[1..] == a[1..] + b;
      RemoveAppend(a[1..], b, c);
    } else {
      assert a + b == b;
    }
  }

  /** Removing a character that does not occur changes nothing. */
  lemma {:induction false} RemoveNone(s: string, c: char)
    requires c !in s
    ensures Remove(s, c) == s
    decreases |s|
  {
    if s != [] {
      HeadTail(s);
      RemoveNone(s[1..], c);
    }
  }

  /** Removing twice is removing once. */
  lemma {:induction false} RemoveIdempotent(s: string, c: char)
    ensures Remove(Remove(s, c), c) == Remove(s, c)
  {
    if s != [] {
      RemoveIdempotent(s[1..], c);
      RemoveAppend(if s[0] == c then "" else [s[0]], Remove(s[1..], c), c);
    }
  }

  predicate IsDigit(c: char) { '0' <= c <= '9' }

  function DigitValue(c: char): (d: nat)
    requires IsDigit(c)
    ensures d < 10
  {
    c as int - '0' as int
  }

  /** The decimal digits of `n` without sign or leading zeros (`%d` of a
      non-negative integer). */
  function Decimal(n: nat): (s: string)
    ensures |s| >= 1
    ensures forall i :: 0 <= i < |s| ==> IsDigit(s[i])
    ensures |s| > 1 ==> s[0] != '0'
  {
    if n < 10 then [DigitChar(n)] else Decimal(n / 10) + [DigitChar(n % 10)]
  }

  function DigitChar(d: nat): (c: char)
    requires d < 10
    ensures IsDigit(c) && DigitValue(c) == d
  {
    ('0' as int + d) as char
  }

  /** Reads a run of decimal digits back as a number. */
  function DecimalValue(s: string): nat
    requires forall i :: 0 <= i < |s| ==> IsDigit(s[i])
  {
    if s == [] then 0 else 10 * DecimalValue(s[..|s| - 1]) + DigitValue(s[|s| - 1])
  }

  /** The number printed by `Decimal` is recovered by reading it back. */
  lemma {:induction false} DecimalRoundTrip(n: nat)
    ensures DecimalValue(Decimal(n)) == n
  {
    if n >= 10 {
      var s := Decimal(n);
      assert s[..|s| - 1] == Decimal(n / 10);
      DecimalRoundTrip(n / 10);
    }
  }

  lemma {:induction false} Assoc(a: string, b: string, c: string)
    ensures a + b + c == a + (b + c)
  {
  }

  lemma {:induction false} DropPrefix(a: string, b: string)
    ensures (a + b)[|a|..] == b
  {
  }

  predicate StartsWith(s: string, p: string) { p <= s }

  predicate EndsWith(s: string, q: string) { |q| <= |s| && s[|s| - |q|..] == q }

  lemma {:induction false} StartsWithAppend(a: string, b: string)
    ensures StartsWith(a + b, a)
  {
    assert (a + b)[..|a|] == a;
  }

  lemma {:induction false} EndsWithAppend(a: string, b: string)
    ensures EndsWith(a + b, b)
  {
    assert (a + b)[|a|..] == b;
  }
}
