/** The string built-ins the data pipeline relies on: String.prototype.trim,
    toUpperCase / toLowerCase (ASCII letters only), split on a one-character
    separator, Array.prototype.join, and the line split on /\r?\n/. */
module Strings {

  /** The code points String.prototype.trim strips: ECMAScript WhiteSpace
      (TAB, VT, FF, ZWNBSP and the Unicode space separators) and LineTerminator. */
  predicate IsWhite(c: char) {
    || c == ' ' || c == '\t' || c == '\n' || c == '\r' || c == '\U{0B}' || c == '\U{0C}'
    || c == '\U{A0}' || c == '\U{1680}' || ('\U{2000}' <= c <= '\U{200A}')
    || c == '\U{2028}' || c == '\U{2029}' || c == '\U{202F}' || c == '\U{205F}'
    || c == '\U{3000}' || c == '\U{FEFF}'
  }

  /** Neither end of s is white space. */
  predicate IsTrimmed(s: string) {
    |s| == 0 || (!IsWhite(s[0]) && !IsWhite(s[|s| - 1]))
  }

  function TrimStart(s: string): (t: string)
    ensures |t| <= |s| && t == s[|s| - |t|..]
    ensures forall i :: 0 <= i < |s| - |t| ==> IsWhite(s[i])
    ensures |t| > 0 ==> !IsWhite(t[0])
  {
    if |s| > 0 && IsWhite(s[0]) then TrimStart(s[1..]) else s
  }

  function TrimEnd(s: string): (t: string)
    ensures |t| <= |s| && t == s[..|t|]
    ensures forall i :: |t| <= i < |s| ==> IsWhite(s[i])
    ensures |t| > 0 ==> !IsWhite(t[|t| - 1])
  {
    if |s| > 0 && IsWhite(s[|s| - 1]) then TrimEnd(s[..|s| - 1]) else s
  }

  /** String.prototype.trim: the longest slice of s with no white space at
      either end, everything cut off being white space. */
  function Trim(s: string): (t: string)
    ensures IsTrimmed(t)
    ensures |t| <= |s|
    ensures t == "" <==> forall i :: 0 <= i < |s| ==> IsWhite(s[i])
  {
    var a := TrimStart(s);
    var t := TrimEnd(a);
    TrimEmptyOnlyIfWhite(s, a, t);
    t
  }

  lemma TrimEmptyOnlyIfWhite(s: string, a: string, t: string)
    requires a == TrimStart(s) && t == TrimEnd(a)
    ensures t == "" ==> forall i :: 0 <= i < |s| ==> IsWhite(s[i])
  {
    if t == "" {
      assert |a| == 0;
    }
  }

  lemma TrimOfTrimmed(s: string)
    requires IsTrimmed(s)
    ensures Trim(s) == s
  {
  }

  function UpperChar(c: char): char {
    if 'a' <= c <= 'z' then (c as int - 32) as char else c
  }

  function LowerChar(c: char): char {
    if 'A' <= c <= 'Z' then (c as int + 32) as char else c
  }

  /** String.prototype.toUpperCase, restricted to the ASCII letters. */
  function Upper(s: string): (u: string)
    ensures |u| == |s|
    ensures forall i :: 0 <= i < |s| ==> u[i] == UpperChar(s[i])
  {
    seq(|s|, i requires 0 <= i < |s| => UpperChar(s[i]))
  }

  /** String.prototype.toLowerCase, restricted to the ASCII letters. */
  function Lower(s: string): (u: string)
    ensures |u| == |s|
    ensures forall i :: 0 <= i < |s| ==> u[i] == LowerChar(s[i])
  {
    seq(|s|, i requires 0 <= i < |s| => LowerChar(s[i]))
  }

  /** Upper-casing does not touch white space, so it keeps a trimmed string trimmed,
      and applying it twice is applying it once. */
  lemma UpperKeepsTrimmed(s: string)
    requires IsTrimmed(s)
    ensures IsTrimmed(Upper(s))
    ensures Upper(Upper(s)) == Upper(s)
  {
  }

  /** Array.prototype.join with a one-character separator. */
  function Join(parts: seq<string>, d: char): string {
    if |parts| == 0 then ""
    else if |parts| == 1 then parts[0]
    else parts[0] + [d] + Join(parts[1..], d)
  }

  /** String.prototype.split with a one-character separator: one piece more than
      there are separators, no piece holds the separator, and joining the
      pieces back with it gives s again. */
  function Split(s: string, d: char): (parts: seq<string>)
    ensures |parts| == multiset(s)[d] + 1
    ensures forall i :: 0 <= i < |parts| ==> d !in parts[i]
    ensures Join(parts, d) == s
    decreases |s|
  {
    if |s| == 0 then [""]
    else
      var rest := Split(s[1..], d);
      SplitCons(s, d, rest);
      ConsPiece(s[0], d, rest)
  }

  /** The pieces of [c] + t from the pieces of t: a separator starts a new
      empty piece, any other character joins the first piece. */
  function ConsPiece(c: char, d: char, rest: seq<string>): seq<string>
    requires |rest| > 0
  {
    if c == d then [""] + rest else [[c] + rest[0]] + rest[1..]
  }

  lemma SplitCons(s: string, d: char, rest: seq<string>)
    requires |s| > 0 && |rest| > 0
    requires |rest| == multiset(s[1..])[d] + 1
    requires forall i :: 0 <= i < |rest| ==> d !in rest[i]
    requires Join(rest, d) == s[1..]
    ensures var parts := ConsPiece(s[0], d, rest);
      && |parts| == multiset(s)[d] + 1
      && (forall i :: 0 <= i < |parts| ==> d !in parts[i])
      && Join(parts, d) == s
  {
    HeadTail(s);
    ConsCount(s, d, rest);
    ConsOmits(s[0], d, rest);
    ConsJoin(s[0], d, rest);
  }

  lemma ConsCount(s: string, d: char, rest: seq<string>)
    requires |s| > 0 && |rest| > 0
    requires |rest| == multiset(s[1..])[d] + 1
    ensures |ConsPiece(s[0], d, rest)| == multiset(s)[d] + 1
  {
    HeadTail(s);
    assert multiset(s) == multiset([s[0]]) + multiset(s[1..]);
  }

  lemma ConsOmits(c: char, d: char, rest: seq<string>)
    requires |rest| > 0
    requires forall i :: 0 <= i < |rest| ==> d !in rest[i]
    ensures var parts := ConsPiece(c, d, rest);
      forall i :: 0 <= i < |parts| ==> d !in parts[i]
  {
    var parts := ConsPiece(c, d, rest);
    if c == d {
      assert parts[1..] == rest;
    } else {
      assert parts[1..] == rest[1..];
    }
  }

  lemma ConsJoin(c: char, d: char, rest: seq<string>)
    requires |rest| > 0
    ensures Join(ConsPiece(c, d, rest), d) == [c] + Join(rest, d)
  {
    var parts := ConsPiece(c, d, rest);
    if c == d {
      assert parts[1..] == rest;
    } else {
      assert parts[1..] == rest[1..];
      if |rest| > 1 {
        assert Join(rest, d) == rest[0] + [d] + Join(rest[1..], d);
      }
    }
  }

  lemma {:induction false} SplitNoSeparator(s: string, d: char)
    requires d !in s
    ensures Split(s, d) == [s]
  {
    var parts := Split(s, d);
    assert multiset(s)[d] == 0;
    assert |parts| == 1;
    assert Join(parts, d) == parts[0];
  }

  lemma SplitStep(s: string, d: char)
    requires |s| > 0
    ensures s[0] == d ==> Split(s, d) == [""] + Split(s[1..], d)
    ensures s[0] != d ==> Split(s, d) == [[s[0]] + Split(s[1..], d)[0]] + Split(s[1..], d)[1..]
  {
    assert Split(s, d) == ConsPiece(s[0], d, Split(s[1..], d));
  }

  lemma {:induction false} SplitAfterPiece(p: string, d: char, t: string)
    requires d !in p
    ensures Split(p + [d] + t, d) == [p] + Split(t, d)
    decreases |p|
  {
    var s := p + [d] + t;
    SplitStep(s, d);
    if |p| == 0 {
      ConcatEmpty(p, d, t);
    } else {
      ConcatTail(p, d, t);
      SplitAfterPiece(p[1..], d, t);
      var rest := [p[1..]] + Split(t, d);
      assert rest[0] == p[1..] && rest[1..] == Split(t, d);
      HeadTail(p);
    }
  }

  lemma ConcatTail<T>(p: seq<T>, x: T, t: seq<T>)
    requires |p| > 0
    ensures (p + [x] + t)[0] == p[0] && (p + [x] + t)[1..] == p[1..] + [x] + t
  {
  }

  lemma ConcatEmpty<T>(p: seq<T>, x: T, t: seq<T>)
    requires |p| == 0
    ensures (p + [x] + t)[0] == x && (p + [x] + t)[1..] == t
  {
    assert p + [x] + t == [x] + t;
  }

  lemma HeadTail<T>(p: seq<T>)
    requires |p| > 0
    ensures [p[0]] + p[1..] == p
  {
  }

  /** Splitting a join gives the pieces back when no piece holds the separator. */
  lemma {:induction false} SplitJoin(parts: seq<string>, d: char)
    requires |parts| >= 1
    requires forall i :: 0 <= i < |parts| ==> d !in parts[i]
    ensures Split(Join(parts, d), d) == parts
    decreases |parts|
  {
    if |parts| == 1 {
      SplitNoSeparator(parts[0], d);
    } else {
      SplitJoin(parts[1..], d);
      assert Join(parts, d) == parts[0] + [d] + Join(parts[1..], d);
      SplitAfterPiece(parts[0], d, Join(parts[1..], d));
      HeadTail(parts);
    }
  }

  /** A join holds the separator only where it joins, or where a piece already holds it. */
  lemma {:induction false} JoinChars(parts: seq<string>, d: char, c: char)
    requires c != d
    requires forall i :: 0 <= i < |parts| ==> c !in parts[i]
    ensures c !in Join(parts, d)
    decreases |parts|
  {
    if |parts| > 1 {
      JoinChars(parts[1..], d, c);
    }
  }

  /** The one carriage return the pattern /\r?\n/ consumes in front of a line feed. */
  function StripCR(l: string): string {
    if |l| > 0 && l[|l| - 1] == '\r' then l[..|l| - 1] else l
  }

  /** text.split(/\r?\n/): split at every line feed, each line but the last
      losing one carriage return that stood right before its line feed. */
  function SplitLines(text: string): (lines: seq<string>)
    ensures |lines| == multiset(text)['\n'] + 1
    ensures forall i :: 0 <= i < |lines| ==> '\n' !in lines[i]
  {
    var parts := Split(text, '\n');
    seq(|parts|, i requires 0 <= i < |parts| => if i < |parts| - 1 then StripCR(parts[i]) else parts[i])
  }

  /** Without carriage returns the lines are the pieces between line feeds. */
  lemma SplitLinesPlain(text: string)
    requires forall i :: 0 <= i < |Split(text, '\n')| ==> '\r' !in Split(text, '\n')[i]
    ensures SplitLines(text) == Split(text, '\n')
  {
    var parts := Split(text, '\n');
    forall i | 0 <= i < |parts|
      ensures SplitLines(text)[i] == parts[i]
    {
      NoCR(parts[i]);
    }
  }

  lemma NoCR(l: string)
    requires '\r' !in l
    ensures StripCR(l) == l
  {
    if |l| > 0 {
      assert l[|l| - 1] in l;
    }
  }

  /** A carriage return that is not followed by a line feed does not end a
      line and stays in it. */
  lemma LoneCarriageReturn(text: string)
    requires '\n' !in text
    ensures SplitLines(text) == [text]
  {
    SplitNoSeparator(text, '\n');
  }

  /** String.prototype.replace(/"/g, '""'). */
  function DoubleQuotes(s: string): (r: string)
    ensures |r| == |s| + multiset(s)['"']
  {
    if |s| == 0 then ""
    else
      HeadTail(s);
      (if s[0] == '"' then "\"\"" else [s[0]]) + DoubleQuotes(s[1..])
  }

  /** The inverse of DoubleQuotes: each doubled quote back to a single one. */
  function UndoubleQuotes(s: string): string
    decreases |s|
  {
    if |s| >= 2 && s[0] == '"' && s[1] == '"' then "\"" + UndoubleQuotes(s[2..])
    else if |s| == 0 then ""
    else [s[0]] + UndoubleQuotes(s[1..])
  }

  lemma {:induction false} UndoubleDoubleQuotes(s: string)
    ensures UndoubleQuotes(DoubleQuotes(s)) == s
    decreases |s|
  {
    if |s| > 0 {
      UndoubleDoubleQuotes(s[1..]);
      var rest := DoubleQuotes(s[1..]);
      if s[0] == '"' {
        assert DoubleQuotes(s) == "\"\"" + rest;
        UndoublePair(rest);
      } else {
        assert DoubleQuotes(s) == [s[0]] + rest;
        UndoubleOther(s[0], rest);
      }
      HeadTail(s);
    }
  }

  lemma UndoublePair(rest: string)
    ensures UndoubleQuotes("\"\"" + rest) == "\"" + UndoubleQuotes(rest)
  {
    assert ("\"\"" + rest)[2..] == rest;
  }

  lemma UndoubleOther(c: char, rest: string)
    requires c != '"'
    ensures UndoubleQuotes([c] + rest) == [c] + UndoubleQuotes(rest)
  {
    assert ([c] + rest)[1..] == rest;
  }

  /** Doubling quotes adds no character but quotes. */
  lemma {:induction false} DoubleQuotesChars(s: string, c: char)
    requires c != '"'
    ensures c in DoubleQuotes(s) <==> c in s
    decreases |s|
  {
    if |s| > 0 {
      DoubleQuotesChars(s[1..], c);
      var rest := DoubleQuotes(s[1..]);
      HeadTail(s);
      if s[0] == '"' {
        assert DoubleQuotes(s) == "\"\"" + rest;
      } else {
        assert DoubleQuotes(s) == [s[0]] + rest;
      }
    }
  }
}
