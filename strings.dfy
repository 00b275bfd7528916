/**
 * String helpers with the semantics of the Java and JavaScript library calls
 * the feedback system relies on: `trim`, regular-expression splitting,
 * `join`, decimal rendering of numbers and the CSV quoting of section 2 of
 * RFC 4180.  Strings are sequences of UTF-16 code units (`char`).
 */
module Strings {
  import opened Wrappers

  /** The code units Java's `String.trim()` removes: everything up to and including the space. */
  predicate IsTrimSpace(c: char)
  {
    c <= ' '
  }

  /** The Java regular-expression class `\s`: space, tab, line feed, vertical tab, form feed, carriage return. */
  predicate IsRegexSpace(c: char)
  {
    c == ' ' || c == '\t' || c == '\n' || c == '\U{000B}' || c == '\U{000C}' || c == '\r'
  }

  /** Every character of `s` satisfies `p`. */
  predicate All(s: string, p: char -> bool)
  {
    forall i :: 0 <= i < |s| ==> p(s[i])
  }

  /** `s` without its longest prefix of characters satisfying `p`. */
  function DropWhile(s: string, p: char -> bool): (r: string)
    ensures |r| <= |s| && r == s[|s| - |r|..]
    ensures All(s[..|s| - |r|], p)
    ensures r == [] || !p(r[0])
  {
    if s == [] || !p(s[0]) then s else DropWhile(s[1..], p)
  }

  /** `s` without its longest suffix of characters satisfying `p`. */
  function DropWhileEnd(s: string, p: char -> bool): (r: string)
    ensures |r| <= |s| && r == s[..|r|]
    ensures All(s[|r|..], p)
    ensures r == [] || !p(r[|r| - 1])
  {
    if s == [] || !p(s[|s| - 1]) then s else DropWhileEnd(s[..|s| - 1], p)
  }

  /** `s` without leading and trailing characters satisfying `p`. */
  function Trim(s: string, p: char -> bool): string
  {
    DropWhileEnd(DropWhile(s, p), p)
  }

  /** Java's `String.trim()`. */
  function JavaTrim(s: string): string
  {
    Trim(s, IsTrimSpace)
  }

  /**
   * Hibernate Validator's `@NotBlank` on a present string: `trim()` leaves
   * something, that is, some character lies above the space (see
   * `NotBlankIff`).
   */
  predicate NotBlank(s: string)
  {
    exists i :: 0 <= i < |s| && !IsTrimSpace(s[i])
  }

  /** A trimmed string is empty exactly when every character of the original was trimmable. */
  lemma TrimEmptyIff(s: string, p: char -> bool)
    ensures Trim(s, p) == [] <==> All(s, p)
  {
    var d := DropWhile(s, p);
    if !All(s, p) {
      var i :| 0 <= i < |s| && !p(s[i]);
      assert i >= |s| - |d|;
      assert d[i - (|s| - |d|)] == s[i];
    }
  }

  /** `NotBlank` is the validator's test: the trimmed string is not empty. */
  lemma NotBlankIff(s: string)
    ensures NotBlank(s) <==> JavaTrim(s) != []
  {
    TrimEmptyIff(s, IsTrimSpace);
  }

  /** The ends of a trimmed string are never trimmable. */
  lemma TrimEnds(s: string, p: char -> bool)
    ensures Trim(s, p) == [] || (!p(Trim(s, p)[0]) && !p(Trim(s, p)[|Trim(s, p)| - 1]))
  {
    var d := DropWhile(s, p);
    var r := DropWhileEnd(d, p);
    if r != [] {
      assert r[0] == d[0];
    }
  }

  /** Trimming depends only on how `p` and `q` judge the characters of `s`. */
  lemma {:induction false} TrimAgree(s: string, p: char -> bool, q: char -> bool)
    requires forall c :: c in s ==> (p(c) <==> q(c))
    ensures Trim(s, p) == Trim(s, q)
  {
    DropWhileAgree(s, p, q);
    var d := DropWhile(s, p);
    SuffixMembers(s, d);
    DropWhileEndAgree(d, p, q);
  }

  lemma {:induction false} DropWhileAgree(s: string, p: char -> bool, q: char -> bool)
    requires forall c :: c in s ==> (p(c) <==> q(c))
    ensures DropWhile(s, p) == DropWhile(s, q)
  {
    if s != [] && p(s[0]) {
      SuffixMembers(s, s[1..]);
      DropWhileAgree(s[1..], p, q);
    }
  }

  lemma {:induction false} DropWhileEndAgree(s: string, p: char -> bool, q: char -> bool)
    requires forall c :: c in s ==> (p(c) <==> q(c))
    ensures DropWhileEnd(s, p) == DropWhileEnd(s, q)
  {
    if s != [] && p(s[|s| - 1]) {
      PrefixMembers(s, s[..|s| - 1]);
      DropWhileEndAgree(s[..|s| - 1], p, q);
    }
  }

  lemma SuffixMembers(s: string, t: string)
    requires |t| <= |s| && t == s[|s| - |t|..]
    ensures forall c :: c in t ==> c in s
  {
    forall c | c in t ensures c in s {
      var i :| 0 <= i < |t| && t[i] == c;
      assert s[|s| - |t| + i] == c;
    }
  }

  lemma PrefixMembers(s: string, t: string)
    requires |t| <= |s| && t == s[..|t|]
    ensures forall c :: c in t ==> c in s
  {
    forall c | c in t ensures c in s {
      var i :| 0 <= i < |t| && t[i] == c;
      assert s[i] == c;
    }
  }

  /** `prefix` is a prefix of `s` (Java `startsWith`). */
  predicate StartsWith(s: string, prefix: string)
  {
    |prefix| <= |s| && s[..|prefix|] == prefix
  }

  /** `t` occurs somewhere in `s` (Java `String.contains`). */
  predicate Contains(s: string, t: string)
    decreases |s|
  {
    StartsWith(s, t) || (s != [] && Contains(s[1..], t))
  }

  /** `Contains` holds exactly when `t` occurs at some position of `s`. */
  lemma {:induction false} ContainsIff(s: string, t: string)
    ensures Contains(s, t) <==> exists i :: 0 <= i <= |s| - |t| && StartsWith(s[i..], t)
    decreases |s|
  {
    if StartsWith(s, t) {
      assert s[0..] == s;
    } else if s != [] {
      ContainsIff(s[1..], t);
      if Contains(s[1..], t) {
        var i :| 0 <= i <= |s| - 1 - |t| && StartsWith(s[1..][i..], t);
        assert s[1..][i..] == s[i + 1..];
      }
      if exists i :: 0 <= i <= |s| - |t| && StartsWith(s[i..], t) {
        var i :| 0 <= i <= |s| - |t| && StartsWith(s[i..], t);
        assert i != 0;
        assert s[1..][i - 1..] == s[i..];
      }
    }
  }

  /** A string occurs in any string that has it between a prefix and a suffix. */
  lemma ContainsInside(p: string, t: string, q: string)
    ensures Contains(p + t + q, t)
  {
    var s := p + t + q;
    assert s[|p|..][..|t|] == t;
    ContainsIff(s, t);
  }

  /** A string that occurs in `m` occurs in any text that has `m` inside it. */
  lemma ContainsWithin(p: string, m: string, q: string, t: string)
    requires Contains(m, t)
    ensures Contains(p + m + q, t)
  {
    ContainsIff(m, t);
    var i :| 0 <= i <= |m| - |t| && StartsWith(m[i..], t);
    var s := p + m + q;
    assert s[|p| + i..][..|t|] == m[i..][..|t|];
    ContainsIff(s, t);
  }

  // ---------------------------------------------------------------------------
  // Splitting and joining
  // ---------------------------------------------------------------------------

  /**
   * The pieces of `s` between maximal runs of separator characters, keeping
   * an empty first piece when `s` starts with a separator and an empty last
   * piece when it ends with one: JavaScript's `s.split(/\s+/)` when `sep` is `\s`.
   */
  function SplitRuns(s: string, sep: char -> bool): (r: seq<string>)
    ensures |r| >= 1
    decreases |s|
  {
    if s == [] then [[]]
    else if sep(s[0]) then [[]] + SplitRuns(DropWhile(s[1..], sep), sep)
    else
      var rest := SplitRuns(s[1..], sep);
      [[s[0]] + rest[0]] + rest[1..]
  }

  /** `parts` without its trailing empty strings. */
  function DropTrailingEmpty(parts: seq<string>): (r: seq<string>)
    ensures |r| <= |parts| && r == parts[..|r|]
    ensures r == [] || r[|r| - 1] != []
  {
    if parts == [] || parts[|parts| - 1] != [] then parts
    else DropTrailingEmpty(parts[..|parts| - 1])
  }

  /** No character of `s` is a separator. */
  predicate NoSeparator(s: string, sep: char -> bool)
  {
    forall i :: 0 <= i < |s| ==> !sep(s[i])
  }

  /**
   * Java's `s.split(regex)` for a regular expression matching maximal runs of
   * `sep`: the input itself when nothing matches, otherwise the pieces with
   * trailing empty strings removed.
   */
  function JavaSplit(s: string, sep: char -> bool): seq<string>
  {
    if NoSeparator(s, sep) then [s] else DropTrailingEmpty(SplitRuns(s, sep))
  }

  /** The number of items Java's `text.trim().split("\\s+")` yields: the server's word count. */
  function JavaWordCount(text: string): nat
  {
    |JavaSplit(JavaTrim(text), IsRegexSpace)|
  }

  /** The number of items JavaScript's `text.trim().split(/\s+/)` yields, for whitespace class `ws`. */
  function JsWordCount(text: string, ws: char -> bool): nat
  {
    |SplitRuns(Trim(text, ws), ws)|
  }

  /** Splitting ignores how `p` and `q` differ outside the characters of `s`. */
  lemma {:induction false} SplitRunsAgree(s: string, p: char -> bool, q: char -> bool)
    requires forall c :: c in s ==> (p(c) <==> q(c))
    ensures SplitRuns(s, p) == SplitRuns(s, q)
    decreases |s|
  {
    if s != [] {
      SuffixMembers(s, s[1..]);
      if p(s[0]) {
        DropWhileAgree(s[1..], p, q);
        var d := DropWhile(s[1..], p);
        SuffixMembers(s[1..], d);
        SplitRunsAgree(d, p, q);
      } else {
        SplitRunsAgree(s[1..], p, q);
      }
    }
  }

  /** When `s` does not end with a separator, its last piece is not empty. */
  lemma {:induction false} SplitRunsLastNonEmpty(s: string, sep: char -> bool)
    requires s != [] && !sep(s[|s| - 1])
    ensures SplitRuns(s, sep)[|SplitRuns(s, sep)| - 1] != []
    decreases |s|
  {
    if sep(s[0]) {
      var d := DropWhile(s[1..], sep);
      assert d != [] && d[|d| - 1] == s[|s| - 1];
      SplitRunsLastNonEmpty(d, sep);
    } else if |s[1..]| > 0 {
      assert s[1..][|s[1..]| - 1] == s[|s| - 1];
      SplitRunsLastNonEmpty(s[1..], sep);
    }
  }

  /**
   * The client's and the server's word counts agree on every text whose
   * characters the JavaScript whitespace class `ws`, Java's `trim` and Java's
   * `\s` all classify alike (every text without control characters other
   * than the six `\s` ones, for the standard `ws`).
   */
  lemma WordCountsAgree(text: string, ws: char -> bool)
    requires forall c :: c in text ==> (ws(c) <==> IsRegexSpace(c))
    requires forall c :: c in text ==> (IsTrimSpace(c) <==> IsRegexSpace(c))
    ensures JsWordCount(text, ws) == JavaWordCount(text)
  {
    TrimAgree(text, ws, IsTrimSpace);
    var t := JavaTrim(text);
    TrimMembers(text, IsTrimSpace);
    SplitRunsAgree(t, ws, IsRegexSpace);
    TrimEnds(text, IsTrimSpace);
    assert t == [] || t[|t| - 1] in text;
    JavaSplitOfTrimmed(t, IsRegexSpace);
  }

  lemma TrimMembers(s: string, p: char -> bool)
    ensures forall c :: c in Trim(s, p) ==> c in s
  {
    var d := DropWhile(s, p);
    SuffixMembers(s, d);
    PrefixMembers(d, Trim(s, p));
  }

  /** Java drops no piece of a string that does not end with a separator. */
  lemma JavaSplitOfTrimmed(t: string, sep: char -> bool)
    requires t == [] || !sep(t[|t| - 1])
    ensures JavaSplit(t, sep) == SplitRuns(t, sep)
  {
    if NoSeparator(t, sep) {
      SplitRunsNoSeparator(t, sep);
    } else {
      var parts := SplitRuns(t, sep);
      SplitRunsLastNonEmpty(t, sep);
      assert DropTrailingEmpty(parts) == parts;
    }
  }

  /** Without separators, `s` is a single piece. */
  lemma {:induction false} SplitRunsNoSeparator(s: string, sep: char -> bool)
    requires NoSeparator(s, sep)
    ensures SplitRuns(s, sep) == [s]
    decreases |s|
  {
    if s != [] {
      assert !sep(s[0]);
      assert forall i :: 0 <= i < |s[1..]| ==> s[1..][i] == s[i + 1];
      SplitRunsNoSeparator(s[1..], sep);
      assert [s[0]] + s[1..] == s;
    }
  }

  /** Java's `String.join` and JavaScript's `Array.join`: the parts with `sep` between neighbours. */
  function Join(parts: seq<string>, sep: string): string
  {
    if |parts| == 0 then []
    else if |parts| == 1 then parts[0]
    else parts[0] + sep + Join(parts[1..], sep)
  }

  /** JavaScript's `s.split(c)` for a one-character separator: every piece, empty ones included. */
  function SplitOn(s: string, c: char): (r: seq<string>)
    ensures |r| >= 1
  {
    if s == [] then [[]]
    else if s[0] == c then [[]] + SplitOn(s[1..], c)
    else
      var rest := SplitOn(s[1..], c);
      [[s[0]] + rest[0]] + rest[1..]
  }

  lemma {:induction false} SplitOnAppend(x: string, y: string, c: char)
    requires c !in x
    ensures SplitOn(x + [c] + y, c) == [x] + SplitOn(y, c)
  {
    if x != [] {
      assert (x + [c] + y)[1..] == x[1..] + [c] + y;
      SplitOnAppend(x[1..], y, c);
      assert [x[0]] + x[1..] == x;
    } else {
      assert x + [c] + y == [c] + y;
    }
  }

  lemma {:induction false} SplitOnNone(x: string, c: char)
    requires c !in x
    ensures SplitOn(x, c) == [x]
  {
    if x != [] {
      SplitOnNone(x[1..], c);
      assert [x[0]] + x[1..] == x;
    }
  }

  /** Splitting a join on the same one-character separator gives the parts back. */
  lemma {:induction false} SplitJoinRoundTrip(parts: seq<string>, c: char)
    requires |parts| >= 1
    requires forall i :: 0 <= i < |parts| ==> c !in parts[i]
    ensures SplitOn(Join(parts, [c]), c) == parts
  {
    if |parts| == 1 {
      SplitOnNone(parts[0], c);
    } else {
      SplitJoinRoundTrip(parts[1..], c);
      SplitOnAppend(parts[0], Join(parts[1..], [c]), c);
    }
  }

  // ---------------------------------------------------------------------------
  // Ordering
  // ---------------------------------------------------------------------------

  /**
   * `a` sorts before `b` character by character, a proper prefix first:
   * Java's `a.compareTo(b) < 0`.
   */
  predicate LexLess(a: string, b: string)
    decreases |a|
  {
    if a == [] then b != []
    else if b == [] then false
    else if a[0] != b[0] then a[0] < b[0]
    else LexLess(a[1..], b[1..])
  }

  /** Exactly one of `a < b`, `a == b` and `b < a` holds. */
  lemma {:induction false} LexTrichotomy(a: string, b: string)
    ensures LexLess(a, b) || a == b || LexLess(b, a)
    ensures !(LexLess(a, b) && LexLess(b, a))
    ensures !LexLess(a, a)
    decreases |a|
  {
    if a != [] && b != [] && a[0] == b[0] {
      LexTrichotomy(a[1..], b[1..]);
      if a[1..] == b[1..] {
        assert a == [a[0]] + a[1..] && b == [b[0]] + b[1..];
      }
    }
    if a != [] {
      LexTrichotomy(a[1..], a[1..]);
    }
  }

  lemma {:induction false} LexTransitive(a: string, b: string, c: string)
    requires LexLess(a, b) && LexLess(b, c)
    ensures LexLess(a, c)
    decreases |a|
  {
    if a != [] && a[0] == b[0] && b[0] == c[0] {
      LexTransitive(a[1..], b[1..], c[1..]);
    }
  }

  // ---------------------------------------------------------------------------
  // Decimal rendering
  // ---------------------------------------------------------------------------

  predicate IsDigit(c: char)
  {
    '0' <= c <= '9'
  }

  function DigitChar(d: nat): (c: char)
    requires d < 10
    ensures IsDigit(c)
  {
    (48 + d) as char
  }

  function DigitValue(c: char): nat
    requires IsDigit(c)
  {
    (c as int) - 48
  }

  /** Java's `Long.toString` / JavaScript's `toString` for a non-negative integer. */
  function NatToString(n: nat): (r: string)
    ensures r != [] && All(r, IsDigit)
    decreases n
  {
    if n < 10 then [DigitChar(n)] else NatToString(n / 10) + [DigitChar(n % 10)]
  }

  /** Java's `Integer.toString` / JavaScript's `toString` for any integer. */
  function IntToString(i: int): (r: string)
    ensures r != []
  {
    if i < 0 then "-" + NatToString(-i) else NatToString(i)
  }

  /** Reads a non-empty string of decimal digits. */
  function ParseDigits(s: string): nat
    requires All(s, IsDigit)
  {
    if s == [] then 0 else ParseDigits(s[..|s| - 1]) * 10 + DigitValue(s[|s| - 1])
  }

  /** Reading a rendered number gives the number back. */
  lemma {:induction false} NatToStringRoundTrip(n: nat)
    ensures ParseDigits(NatToString(n)) == n
    decreases n
  {
    var r := NatToString(n);
    if n < 10 {
      assert r[..0] == [];
    } else {
      NatToStringRoundTrip(n / 10);
      assert r[..|r| - 1] == NatToString(n / 10);
    }
  }

  /** Reads a rendered integer: an optional minus sign followed by digits. */
  function ParseInt(s: string): int
    requires s != [] && (if s[0] == '-' then All(s[1..], IsDigit) else All(s, IsDigit))
  {
    if s[0] == '-' then -(ParseDigits(s[1..]) as int) else ParseDigits(s)
  }

  /** Reading a rendered integer gives the integer back. */
  lemma IntToStringRoundTrip(i: int)
    ensures var s := IntToString(i);
      s != [] && (if s[0] == '-' then All(s[1..], IsDigit) else All(s, IsDigit)) && ParseInt(s) == i
  {
    if i < 0 {
      assert IntToString(i)[1..] == NatToString(-i);
      NatToStringRoundTrip(-i);
    } else {
      NatToStringRoundTrip(i);
    }
  }

  /** Distinct integers render as distinct strings. */
  lemma IntToStringInjective(a: int, b: int)
    requires IntToString(a) == IntToString(b)
    ensures a == b
  {
    IntToStringRoundTrip(a);
    IntToStringRoundTrip(b);
  }

  /** A rendered integer never needs CSV quoting: it holds no quote, comma or line break. */
  lemma IntToStringCsvSafe(i: int)
    ensures '"' !in IntToString(i) && ',' !in IntToString(i) && '\n' !in IntToString(i)
  {
    var s := NatToString(if i < 0 then -i else i);
    assert forall k :: 0 <= k < |s| ==> IsDigit(s[k]);
  }

  /** A rendered natural number can stand in a CSV field unquoted. */
  lemma NatToStringBare(n: nat)
    ensures All(NatToString(n), IsBare)
  {
    IntToStringCsvSafe(n);
    var s := NatToString(n);
    assert IntToString(n) == s;
    assert forall i :: 0 <= i < |s| ==> s[i] in s;
  }

  // ---------------------------------------------------------------------------
  // CSV fields (section 2 of RFC 4180)
  // ---------------------------------------------------------------------------

  /** `s` with every double quote doubled (Java `replace("\"", "\"\"")`, JavaScript `replace(/"/g, '""')`). */
  function Escape(s: string): (r: string)
    ensures |r| >= |s|
  {
    if s == [] then []
    else (if s[0] == '"' then "\"\"" else [s[0]]) + Escape(s[1..])
  }

  /** `s` as a quoted CSV field. */
  function Quote(s: string): string
  {
    "\"" + Escape(s) + "\""
  }

  /**
   * Reads the inside of a quoted field up to its closing quote, undoing the
   * doubling of quotes; answers the content and what follows the closing quote.
   */
  function ReadQuotedBody(s: string): (r: Option<(string, string)>)
    ensures r.Some? ==> |r.value.1| < |s|
  {
    if s == [] then None
    else if s[0] == '"' then
      if |s| >= 2 && s[1] == '"' then
        match ReadQuotedBody(s[2..])
        case Some((body, rest)) => Some(("\"" + body, rest))
        case None => None
      else Some(([], s[1..]))
    else
      match ReadQuotedBody(s[1..])
      case Some((body, rest)) => Some(([s[0]] + body, rest))
      case None => None
  }

  /** Reads one quoted CSV field from the front of `s` (rules 5 to 7 of section 2 of RFC 4180). */
  function ReadQuotedField(s: string): (r: Option<(string, string)>)
    ensures r.Some? ==> |r.value.1| < |s|
  {
    if s != [] && s[0] == '"' then ReadQuotedBody(s[1..]) else None
  }

  lemma {:induction false} EscapeBodyRoundTrip(x: string, rest: string)
    requires rest == [] || rest[0] != '"'
    ensures ReadQuotedBody(Escape(x) + "\"" + rest) == Some((x, rest))
  {
    var s := Escape(x) + "\"" + rest;
    if x == [] {
      assert s == "\"" + rest;
      assert s[1..] == rest;
    } else if x[0] == '"' {
      assert s == "\"\"" + (Escape(x[1..]) + "\"" + rest);
      assert s[2..] == Escape(x[1..]) + "\"" + rest;
      EscapeBodyRoundTrip(x[1..], rest);
      assert "\"" + x[1..] == x;
    } else {
      assert s == [x[0]] + (Escape(x[1..]) + "\"" + rest);
      assert s[1..] == Escape(x[1..]) + "\"" + rest;
      EscapeBodyRoundTrip(x[1..], rest);
      assert [x[0]] + x[1..] == x;
    }
  }

  /** A quoted field reads back as the original value, whatever it contains, and leaves what follows. */
  lemma QuoteRoundTrip(x: string, rest: string)
    requires rest == [] || rest[0] != '"'
    ensures ReadQuotedField(Quote(x) + rest) == Some((x, rest))
  {
    assert (Quote(x) + rest)[1..] == Escape(x) + "\"" + rest;
    EscapeBodyRoundTrip(x, rest);
  }

  /** A character that never needs quoting in a field: not a separator, a quote or a line break. */
  predicate IsBare(c: char)
  {
    c != ',' && c != '"' && c != '\n'
  }

  /** `cell` is the field for value `v`: `v` quoted, or `v` itself when nothing in it needs quoting. */
  predicate Renders(cell: string, v: string)
  {
    cell == Quote(v) || (cell == v && All(v, IsBare))
  }

  lemma RendersAppend(c1: seq<string>, v1: seq<string>, c2: seq<string>, v2: seq<string>)
    requires |c1| == |v1| && forall i :: 0 <= i < |c1| ==> Renders(c1[i], v1[i])
    requires |c2| == |v2| && forall i :: 0 <= i < |c2| ==> Renders(c2[i], v2[i])
    ensures |c1 + c2| == |v1 + v2| && forall i :: 0 <= i < |c1 + c2| ==> Renders((c1 + c2)[i], (v1 + v2)[i])
  {
    forall i | 0 <= i < |c1 + c2|
      ensures Renders((c1 + c2)[i], (v1 + v2)[i])
    {
      if i >= |c1| {
        assert (c1 + c2)[i] == c2[i - |c1|] && (v1 + v2)[i] == v2[i - |c1|];
      }
    }
  }

  /** The length of the unquoted field at the front of `s`. */
  function BareLen(s: string): (n: nat)
    ensures n <= |s| && All(s[..n], IsBare)
    ensures n < |s| ==> !IsBare(s[n])
  {
    if s == [] || !IsBare(s[0]) then 0 else 1 + BareLen(s[1..])
  }

  /** Reads one field, quoted or bare, from the front of `s`; answers its value and what follows. */
  function ReadField(s: string): (r: Option<(string, string)>)
    ensures r.Some? ==> |r.value.1| <= |s|
  {
    if s != [] && s[0] == '"' then ReadQuotedField(s)
    else Some((s[..BareLen(s)], s[BareLen(s)..]))
  }

  /** `,c` for every cell `c`, in order. */
  function Fields(cs: seq<string>): string
  {
    if cs == [] then [] else Fields(cs[..|cs| - 1]) + "," + cs[|cs| - 1]
  }

  /** Reads `,field` after `,field` up to the line break; answers the values and what follows the break. */
  function ReadFields(s: string): Option<(seq<string>, string)>
    decreases |s|
  {
    if s != [] && s[0] == '\n' then Some(([], s[1..]))
    else if s != [] && s[0] == ',' then
      match ReadField(s[1..])
      case None => None
      case Some((v, t)) =>
        match ReadFields(t)
        case None => None
        case Some((vs, u)) => Some(([v] + vs, u))
    else None
  }

  /** Reads a whole record: a first field, then `,field` after `,field` up to the line break. */
  function ReadRecord(s: string): Option<(seq<string>, string)>
  {
    match ReadField(s)
    case None => None
    case Some((v, t)) =>
      match ReadFields(t)
      case None => None
      case Some((vs, u)) => Some(([v] + vs, u))
  }

  lemma {:induction false} FieldsAppend(a: seq<string>, b: seq<string>)
    ensures Fields(a + b) == Fields(a) + Fields(b)
    decreases |b|
  {
    if b == [] {
      assert a + b == a;
    } else {
      assert (a + b)[..|a + b| - 1] == a + b[..|b| - 1];
      FieldsAppend(a, b[..|b| - 1]);
    }
  }

  /** A bare value stops at the separator or line break that follows it. */
  lemma {:induction false} BareLenStops(v: string, x: string)
    requires All(v, IsBare) && x != [] && !IsBare(x[0])
    ensures BareLen(v + x) == |v|
    decreases |v|
  {
    if v != [] {
      assert (v + x)[1..] == v[1..] + x;
      BareLenStops(v[1..], x);
    }
  }

  /** A rendered field reads back as its value when a separator or line break follows it. */
  lemma RenderedFieldReadsBack(cell: string, v: string, x: string)
    requires Renders(cell, v) && x != [] && (x[0] == ',' || x[0] == '\n')
    ensures ReadField(cell + x) == Some((v, x))
  {
    if cell == Quote(v) {
      QuoteRoundTrip(v, x);
    } else {
      BareLenStops(v, x);
      assert (v + x)[..|v|] == v && (v + x)[|v|..] == x;
      if v != [] {
        assert IsBare(v[0]);
      }
    }
  }

  /** The first of several fields is written first. */
  lemma FieldsHead(cs: seq<string>)
    requires cs != []
    ensures Fields(cs) == "," + cs[0] + Fields(cs[1..])
  {
    FieldsAppend([cs[0]], cs[1..]);
    assert [cs[0]] + cs[1..] == cs;
    assert [cs[0]][..0] == [];
  }

  /** A line of several fields starts with a separator and the first field. */
  lemma FieldsLineHead(cs: seq<string>, rest: string)
    requires cs != []
    ensures Fields(cs) + "\n" + rest == "," + (cs[0] + (Fields(cs[1..]) + "\n" + rest))
  {
    FieldsHead(cs);
    SeqRegroup(",", cs[0], Fields(cs[1..]), "\n", rest);
  }

  lemma SeqRegroup(a: string, b: string, c: string, d: string, e: string)
    ensures a + b + c + d + e == a + (b + (c + d + e))
  {
  }

  /** Writing `,c` after some fields writes one more field. */
  lemma AppendField(prefix: string, cs: seq<string>, c: string)
    ensures prefix + Fields(cs) + "," + c == prefix + Fields(cs + [c])
  {
    assert (cs + [c])[..|cs|] == cs;
  }

  lemma SeqRegroup3(a: string, b: string, c: string)
    ensures a + b + c == a + (b + c)
  {
  }

  /** What follows a field in a line starts with a separator or the line break. */
  lemma FieldsLineStart(cs: seq<string>, rest: string)
    ensures var tail := Fields(cs) + "\n" + rest; tail != [] && (tail[0] == ',' || tail[0] == '\n')
  {
    if cs != [] {
      FieldsHead(cs);
    }
  }

  /**
   * Fields written one after another, then a line break, read back as
   * their values in order, one per field, and leave what follows the break.
   */
  lemma {:induction false} FieldsRoundTrip(cs: seq<string>, vs: seq<string>, rest: string)
    requires |cs| == |vs| && forall i :: 0 <= i < |cs| ==> Renders(cs[i], vs[i])
    ensures ReadFields(Fields(cs) + "\n" + rest) == Some((vs, rest))
    decreases |cs|
  {
    if cs == [] {
      assert Fields(cs) + "\n" + rest == "\n" + rest;
    } else {
      var tail := Fields(cs[1..]) + "\n" + rest;
      FieldsLineHead(cs, rest);
      FieldsLineStart(cs[1..], rest);
      RenderedFieldReadsBack(cs[0], vs[0], tail);
      FieldsRoundTrip(cs[1..], vs[1..], rest);
      assert [vs[0]] + vs[1..] == vs;
    }
  }

  /** A record written as its first field and then `,field` for the others reads back as the values. */
  lemma RecordRoundTrip(cs: seq<string>, vs: seq<string>, rest: string)
    requires |cs| == |vs| && |cs| > 0 && forall i :: 0 <= i < |cs| ==> Renders(cs[i], vs[i])
    ensures ReadRecord(cs[0] + Fields(cs[1..]) + "\n" + rest) == Some((vs, rest))
  {
    var tail := Fields(cs[1..]) + "\n" + rest;
    FieldsLineStart(cs[1..], rest);
    assert cs[0] + Fields(cs[1..]) + "\n" + rest == cs[0] + tail;
    RenderedFieldReadsBack(cs[0], vs[0], tail);
    FieldsRoundTrip(cs[1..], vs[1..], rest);
    assert [vs[0]] + vs[1..] == vs;
  }

  /** A record's line: its first cell, then `,cell` for every other cell. */
  function RecordLine(cs: seq<string>): string
    requires |cs| > 0
  {
    cs[0] + Fields(cs[1..])
  }

  /** Every line followed by a line break (the text of a file whose last line is terminated). */
  function Terminated(ls: seq<string>): string
  {
    if ls == [] then [] else ls[0] + "\n" + Terminated(ls[1..])
  }

  /** Joining lines with line breaks and adding one more break terminates every line. */
  lemma {:induction false} JoinTerminated(ls: seq<string>)
    requires |ls| >= 1
    ensures Join(ls, "\n") + "\n" == Terminated(ls)
  {
    if |ls| > 1 {
      JoinTerminated(ls[1..]);
      assert Join(ls, "\n") + "\n" == ls[0] + "\n" + (Join(ls[1..], "\n") + "\n");
    } else {
      assert Terminated(ls[1..]) == [];
    }
  }

  /** Reads record after record until the text is used up. */
  function ReadRecords(s: string): Option<seq<seq<string>>>
    decreases |s|
  {
    if s == [] then Some([])
    else match ReadRecord(s)
      case None => None
      case Some((vs, rest)) =>
        if |rest| < |s| then
          match ReadRecords(rest)
          case None => None
          case Some(rs) => Some([vs] + rs)
        else None
  }

  /**
   * Lines of rendered cells, each terminated by a line break, read back as
   * the values the cells render.
   */
  lemma {:induction false} RecordsRoundTrip(cells: seq<seq<string>>, vals: seq<seq<string>>)
    requires |cells| == |vals|
    requires forall i :: 0 <= i < |cells| ==> |cells[i]| == |vals[i]| && |cells[i]| > 0
    requires forall i, j :: 0 <= i < |cells| && 0 <= j < |cells[i]| ==> Renders(cells[i][j], vals[i][j])
    ensures ReadRecords(Terminated(seq(|cells|, i requires 0 <= i < |cells| => RecordLine(cells[i])))) == Some(vals)
  {
    var ls := seq(|cells|, i requires 0 <= i < |cells| => RecordLine(cells[i]));
    if cells != [] {
      var ls' := seq(|cells[1..]|, i requires 0 <= i < |cells[1..]| => RecordLine(cells[1..][i]));
      assert ls[1..] == ls';
      RecordsRoundTrip(cells[1..], vals[1..]);
      var rest := Terminated(ls');
      assert Terminated(ls) == cells[0][0] + Fields(cells[0][1..]) + "\n" + rest;
      RecordRoundTrip(cells[0], vals[0], rest);
      assert [vals[0]] + vals[1..] == vals;
    }
  }

  /** A value without quotes quotes to itself between two quotes. */
  lemma {:induction false} EscapeNoQuote(s: string)
    requires '"' !in s
    ensures Escape(s) == s
    decreases |s|
  {
    if s != [] {
      assert s[1..] == s[1..] && forall c :: c in s[1..] ==> c in s;
      EscapeNoQuote(s[1..]);
    }
  }
}
