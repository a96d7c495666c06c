/**
  Snowflake string literals as the portal writes them into statements: a
  value is placed between single quotes, either with its quotes doubled or
  verbatim. The warehouse reads a literal back to the text it denotes: `''`
  and a backslash escape each stand for one character, and a lone quote or a
  trailing backslash ends the literal early, so the statement is rejected.
 */
module Literals {
  import opened Strings
  import opened Tables

  /** `str(details).replace("'", "''")`: every quote doubled, nothing else
      touched. */
  function EscapeQuotes(s: string): (r: string)
    ensures |r| == |s| + CharCount(s, '\'')
  {
    if s == [] then []
    else (if s[0] == '\'' then "''" else [s[0]]) + EscapeQuotes(s[1..])
  }

  /** Text without quotes is its own escape. */
  lemma {:induction false} EscapeQuoteless(s: string)
    requires '\'' !in s
    ensures EscapeQuotes(s) == s
  {
    if s != [] {
      EscapeQuoteless(s[1..]);
      assert s == [s[0]] + s[1..];
    }
  }

  /** Escaping works piece by piece. */
  lemma {:induction false} EscapeSplit(a: string, b: string)
    ensures EscapeQuotes(a + b) == EscapeQuotes(a) + EscapeQuotes(b)
    decreases |a|
  {
    if a == [] {
      assert a + b == b;
    } else {
      EscapeSplit(a[1..], b);
      var head := if a[0] == '\'' then "''" else [a[0]];
      assert (a + b)[0] == a[0] && (a + b)[1..] == a[1..] + b;
      assert EscapeQuotes(a + b) == head + EscapeQuotes(a[1..] + b);
      assert EscapeQuotes(a) == head + EscapeQuotes(a[1..]);
    }
  }

  /** An escaped quote whose quotes are then doubled breaks the literal: the
      backslash takes the first quote of the pair and the second ends the
      literal early. */
  lemma EscapedQuoteDoubled(p: string, q: string)
    requires Plain(p) && (q == [] || q[0] != '\'')
    ensures ReadLiteral(SqlLiteral(EscapeQuotes(p + "\\'" + q))) == None
  {
    var eq := EscapeQuotes(q);
    var s := "\\''" + eq;
    EscapeAroundEscapedQuote(p, q);
    assert q != [] ==> eq[0] == q[0];
    assert s[0] == '\\' && s[1] == '\'' && s[2] == '\'' && (|s| == 3 || s[3] == eq[0]);
    BrokenAfterPlain(p, s);
  }

  lemma EscapeAroundEscapedQuote(p: string, q: string)
    requires '\'' !in p
    ensures EscapeQuotes(p + "\\'" + q) == p + ("\\''" + EscapeQuotes(q))
  {
    var mid := "\\'";
    EscapeBackslashQuote();
    EscapeSplit(p + mid, q);
    EscapeSplit(p, mid);
    EscapeQuoteless(p);
  }

  lemma BrokenAfterPlain(p: string, s: string)
    requires Plain(p) && |s| >= 3 && s[0] == '\\' && s[1] == '\'' && s[2] == '\''
    requires |s| == 3 || s[3] != '\''
    ensures ReadLiteral(SqlLiteral(p + s)) == None
  {
    BreakAfterEscape(s);
    PlainPrefix(p, s);
    LiteralBody(p + s);
  }

  lemma EscapeBackslashQuote()
    ensures EscapeQuotes("\\'") == "\\''"
  {
    var mid := "\\'";
    assert mid[1..] == "'" && mid[1..][1..] == [];
  }

  /** `\''` not followed by a quote: the backslash takes the first quote and
      the second is lone. */
  lemma BreakAfterEscape(s: string)
    requires |s| >= 3 && s[0] == '\\' && s[1] == '\'' && s[2] == '\''
    requires |s| == 3 || s[3] != '\''
    ensures ReadBody(s) == None
  {
    var t := s[2..];
    assert ReadBody(t) == None by {
      assert t[0] == '\'' && (|t| < 2 || t[1] != '\'');
    }
  }

  /** `\'` placed verbatim reads as a quote: a\'b is the text a'b. */
  lemma EscapedQuoteRead()
    ensures Verbatim("a\\'b") == Some("a'b")
  {
    var s := "\\'b";
    assert s[0] == '\\' && s[1] == '\'' && s[2..] == "b";
    PairThenPlain("a", s);
    assert "a" + s == "a\\'b";
    assert "a" + [EscapedChar('\'')] + "b" == "a'b";
  }

  /** After plain text, one escape or doubled quote and then plain text: the
      pair reads as one character. */
  lemma PairThenPlain(p: string, s: string)
    requires Plain(p) && |s| >= 2 && Special(s[0]) && (s[0] == '\'' ==> s[1] == '\'') && Plain(s[2..])
    ensures Verbatim(p + s) == Some(p + [if s[0] == '\'' then '\'' else EscapedChar(s[1])] + s[2..])
  {
    var c := if s[0] == '\'' then '\'' else EscapedChar(s[1]);
    assert ReadBody(s) == Some([c] + s[2..]) by {
      ReadPlain(s[2..]);
    }
    PlainPrefix(p, s);
    LiteralBody(p + s);
    assert Verbatim(p + s) == ReadBody(p + s);
    assert p + ([c] + s[2..]) == p + [c] + s[2..];
  }

  /** What a backslash followed by `c` stands for: `\b`, `\f`, `\n`, `\r`,
      `\t` and `\0` name control characters; before any other character (a
      quote, a backslash, a letter) the backslash is dropped. */
  function EscapedChar(c: char): char {
    if c == 'b' then '\U{8}'
    else if c == 'f' then '\U{C}'
    else if c == 'n' then '\n'
    else if c == 'r' then '\r'
    else if c == 't' then '\t'
    else if c == '0' then '\0'
    else c
  }

  /** The two characters a literal body treats specially. */
  predicate Special(c: char) {
    c == '\'' || c == '\\'
  }

  function Specials(s: string): nat {
    CharCount(s, '\'') + CharCount(s, '\\')
  }

  /** Text that reads back as itself between quotes: no quote, no backslash. */
  predicate Plain(s: string) {
    '\'' !in s && '\\' !in s
  }

  function Prefixed(c: char, o: Option<string>): Option<string> {
    match o
    case Some(t) => Some([c] + t)
    case None => None
  }

  /** Reads the body of a single-quoted literal: `''` stands for one quote, a
      backslash escapes the character after it, and a lone quote or a
      trailing backslash would end the literal early, so the body is
      malformed. */
  function ReadBody(s: string): Option<string>
    decreases |s|
  {
    if s == [] then Some([])
    else if s[0] == '\'' then
      if |s| >= 2 && s[1] == '\'' then Prefixed('\'', ReadBody(s[2..])) else None
    else if s[0] == '\\' then
      if |s| >= 2 then Prefixed(EscapedChar(s[1]), ReadBody(s[2..])) else None
    else Prefixed(s[0], ReadBody(s[1..]))
  }

  /** Collapsing each doubled quote restores escaped text without backslashes. */
  lemma {:induction false} UnescapeEscape(s: string)
    requires '\\' !in s
    ensures ReadBody(EscapeQuotes(s)) == Some(s)
  {
    if s != [] {
      UnescapeEscape(s[1..]);
      var e := EscapeQuotes(s);
      if s[0] == '\'' {
        assert e == "''" + EscapeQuotes(s[1..]);
        assert e[2..] == EscapeQuotes(s[1..]);
      } else {
        assert e == [s[0]] + EscapeQuotes(s[1..]);
        assert e[1..] == EscapeQuotes(s[1..]);
      }
      assert s == [s[0]] + s[1..];
    }
  }

  /** A well-formed body without backslashes is the escape of what it reads as. */
  lemma {:induction false} EscapeUnescape(t: string)
    requires ReadBody(t).Some? && '\\' !in t
    ensures EscapeQuotes(ReadBody(t).value) == t
    decreases |t|
  {
    if t != [] {
      var u := ReadBody(t).value;
      if t[0] == '\'' {
        EscapeUnescape(t[2..]);
        assert u == "'" + ReadBody(t[2..]).value;
        assert u[1..] == ReadBody(t[2..]).value;
        assert t == "''" + t[2..];
      } else {
        EscapeUnescape(t[1..]);
        assert u == [t[0]] + ReadBody(t[1..]).value;
        assert u[1..] == ReadBody(t[1..]).value;
        assert t == [t[0]] + t[1..];
      }
    }
  }

  /** Such a body is longer than its text by one per quote of the text. */
  lemma {:induction false} UnescapeLength(t: string)
    requires ReadBody(t).Some? && '\\' !in t
    ensures |t| == |ReadBody(t).value| + CharCount(ReadBody(t).value, '\'')
  {
    EscapeUnescape(t);
  }

  lemma {:induction false} ReadPlain(x: string)
    requires Plain(x)
    ensures ReadBody(x) == Some(x)
  {
    if x != [] {
      ReadPlain(x[1..]);
      assert x == [x[0]] + x[1..];
    }
  }

  /** A plain prefix is read as itself, whatever follows it. */
  lemma {:induction false} PlainPrefix(a: string, rest: string)
    requires Plain(a)
    ensures ReadBody(a + rest).Some? <==> ReadBody(rest).Some?
    ensures ReadBody(rest).Some? ==> ReadBody(a + rest).value == a + ReadBody(rest).value
    decreases |a|
  {
    if a == [] {
      assert a + rest == rest;
    } else {
      PlainPrefix(a[1..], rest);
      assert (a + rest)[1..] == a[1..] + rest;
      assert a == [a[0]] + a[1..];
    }
  }

  /** The specials of a text, one character at a time. */
  lemma SpecialsCons(c: char, s: string)
    ensures Specials([c] + s) == (if Special(c) then 1 else 0) + Specials(s)
  {
    assert ([c] + s)[1..] == s;
  }

  lemma SpecialsTwo(t: string)
    requires |t| >= 2
    ensures Specials(t) == (if Special(t[0]) then 1 else 0) + (if Special(t[1]) then 1 else 0) + Specials(t[2..])
  {
    assert t == [t[0]] + ([t[1]] + t[2..]);
    SpecialsCons(t[1], t[2..]);
    SpecialsCons(t[0], [t[1]] + t[2..]);
  }

  /** Each escape a body reads takes two characters, at least one of them
      special, and leaves one character that is special only if the escaped
      one was. So the text is shorter than the body by at least half its
      specials, and holds strictly fewer specials whenever the body has any. */
  lemma {:induction false} ReadCounts(t: string)
    requires ReadBody(t).Some?
    ensures 2 * |ReadBody(t).value| + Specials(t) <= 2 * |t|
    ensures Specials(ReadBody(t).value) <= Specials(t)
    ensures Specials(t) > 0 ==> Specials(ReadBody(t).value) < Specials(t)
    decreases |t|
  {
    if t != [] {
      var u := ReadBody(t).value;
      if Special(t[0]) {
        ReadCounts(t[2..]);
        SpecialsTwo(t);
        var c := if t[0] == '\'' then '\'' else EscapedChar(t[1]);
        assert u == [c] + ReadBody(t[2..]).value;
        SpecialsCons(c, ReadBody(t[2..]).value);
      } else {
        ReadCounts(t[1..]);
        SpecialsCons(t[0], t[1..]);
        assert t == [t[0]] + t[1..];
        assert u == [t[0]] + ReadBody(t[1..]).value;
        SpecialsCons(t[0], ReadBody(t[1..]).value);
      }
    }
  }

  lemma PlainSpecials(s: string)
    ensures Plain(s) <==> Specials(s) == 0
  {
    CharCountZero(s, '\'');
    CharCountZero(s, '\\');
  }

  /** A value placed between single quotes, as the f-strings write `'{x}'`. */
  function SqlLiteral(s: string): string {
    "'" + s + "'"
  }

  /** The text a quoted string literal denotes. */
  function ReadLiteral(t: string): Option<string> {
    if |t| >= 2 && t[0] == '\'' && t[|t| - 1] == '\'' then ReadBody(t[1..|t| - 1]) else None
  }

  lemma LiteralBody(x: string)
    ensures ReadLiteral(SqlLiteral(x)) == ReadBody(x)
  {
    var t := SqlLiteral(x);
    assert t[1..|t| - 1] == x;
  }

  /** Quote-escaped text survives the trip through a literal exactly when it
      holds no backslash. */
  lemma EscapedLiteralRoundTrip(s: string)
    ensures ReadLiteral(SqlLiteral(EscapeQuotes(s))) == Some(s) <==> '\\' !in s
  {
    LiteralBody(EscapeQuotes(s));
    if '\\' !in s {
      UnescapeEscape(s);
    } else if ReadBody(EscapeQuotes(s)) == Some(s) {
      ReadCounts(EscapeQuotes(s));
      EscapeCount(s);
      CharCountZero(s, '\\');
    }
  }

  /** Text placed verbatim survives exactly when it holds no quote and no
      backslash. */
  lemma VerbatimLiteral(x: string)
    ensures ReadLiteral(SqlLiteral(x)) == Some(x) <==> Plain(x)
  {
    LiteralBody(x);
    if Plain(x) {
      ReadPlain(x);
    } else if ReadBody(x) == Some(x) {
      ReadCounts(x);
      PlainSpecials(x);
    }
  }

  /** The text that `'{x}'` denotes in a statement, for a value placed
      verbatim; `None` when a quote or backslash in `x` breaks the literal and
      the statement fails. */
  function Verbatim(x: string): (r: Option<string>)
    ensures r == Some(x) <==> Plain(x)
  {
    VerbatimLiteral(x);
    ReadLiteral(SqlLiteral(x))
  }

  /** A well-formed body without backslashes holds its quotes in pairs. */
  lemma {:induction false} QuotesPaired(t: string)
    requires ReadBody(t).Some? && '\\' !in t
    ensures CharCount(t, '\'') % 2 == 0
    decreases |t|
  {
    if t != [] {
      if t[0] == '\'' {
        QuotesPaired(t[2..]);
        assert t[1..][1..] == t[2..];
      } else {
        QuotesPaired(t[1..]);
      }
    }
  }

  /** Text without backslashes and with an odd number of quotes never makes
      a well-formed literal. */
  lemma OddQuotesBreak(x: string)
    requires CharCount(x, '\'') % 2 == 1 && '\\' !in x
    ensures Verbatim(x) == None
  {
    LiteralBody(x);
    if ReadBody(x).Some? {
      QuotesPaired(x);
    }
  }

  /** A quote that is neither doubled nor escaped ends the literal early, so
      the statement fails: the first quote of `a + "'" + b` is lone when `a`
      is plain and `b` does not start with another quote. */
  lemma LoneQuote(a: string, b: string)
    requires Plain(a) && (b == [] || b[0] != '\'')
    ensures Verbatim(a + "'" + b) == None
  {
    LiteralBody(a + "'" + b);
    PlainPrefix(a, "'" + b);
    assert a + "'" + b == a + ("'" + b);
  }

  /** A trailing backslash escapes the closing quote, so the literal never
      ends and the statement fails. */
  lemma TrailingBackslash(a: string)
    requires Plain(a)
    ensures Verbatim(a + "\\") == None
  {
    LiteralBody(a + "\\");
    PlainPrefix(a, "\\");
  }

  /** Escaping doubles every quote and keeps every backslash. */
  lemma {:induction false} EscapeCount(s: string)
    ensures CharCount(EscapeQuotes(s), '\'') == 2 * CharCount(s, '\'')
    ensures CharCount(EscapeQuotes(s), '\\') == CharCount(s, '\\')
  {
    if s != [] {
      EscapeCount(s[1..]);
      var head := if s[0] == '\'' then "''" else [s[0]];
      CharCountAppend(head, EscapeQuotes(s[1..]), '\'');
      CharCountAppend(head, EscapeQuotes(s[1..]), '\\');
    }
  }

  /** Text with a quote or backslash that still makes a well-formed literal
      (ab''cd, pa\b1234) is read back as different text, even after
      stripping both: every escape the literal reads removes a special
      character. */
  lemma VerbatimAltersQuoted(x: string)
    requires !Plain(x) && Verbatim(x).Some?
    ensures Strip(Verbatim(x).value) != Strip(x)
  {
    LiteralBody(x);
    var y := Verbatim(x).value;
    ReadCounts(x);
    PlainSpecials(x);
    SpecialsNotWhitespace();
    CharCountStrip(x, '\'');
    CharCountStrip(y, '\'');
    CharCountStrip(x, '\\');
    CharCountStrip(y, '\\');
  }

  lemma SpecialsNotWhitespace()
    ensures '\'' !in PyWhitespace && '\\' !in PyWhitespace
  {
  }

  /** A doubled quote placed verbatim is read back as a single quote. */
  lemma DoubledQuoteCollapses()
    ensures Verbatim("ab''cd") == Some("ab'cd")
  {
    var s := "''cd";
    assert s[0] == '\'' && s[1] == '\'' && s[2..] == "cd";
    PairThenPlain("ab", s);
    assert "ab" + s == "ab''cd";
    assert "ab" + [('\'')] + "cd" == "ab'cd";
  }

  /** A backslash escape placed verbatim is read as the character it names:
      `pa\b1234` is stored with a backspace. */
  lemma BackslashEscapeRead()
    ensures Verbatim("pa\\b1234") == Some("pa\U{8}1234")
  {
    var s := "\\b1234";
    assert s[0] == '\\' && s[1] == 'b' && s[2..] == "1234";
    PairThenPlain("pa", s);
    assert "pa" + s == "pa\\b1234";
    assert "pa" + [EscapedChar('b')] + "1234" == "pa\U{8}1234";
  }

  /** The escape the details evidently need: backslashes doubled as well as
      quotes. */
  function EscapeLiteral(s: string): (r: string)
    ensures |r| == |s| + Specials(s)
  {
    if s == [] then []
    else
      SpecialsCons(s[0], s[1..]);
      assert s == [s[0]] + s[1..];
      (if s[0] == '\'' then "''" else if s[0] == '\\' then "\\\\" else [s[0]]) + EscapeLiteral(s[1..])
  }

  /** With both doubled, every text survives the literal. */
  lemma {:induction false} EscapeLiteralRoundTrip(s: string)
    ensures ReadLiteral(SqlLiteral(EscapeLiteral(s))) == Some(s)
  {
    LiteralBody(EscapeLiteral(s));
    ReadEscapeLiteral(s);
  }

  lemma {:induction false} ReadEscapeLiteral(s: string)
    ensures ReadBody(EscapeLiteral(s)) == Some(s)
  {
    if s != [] {
      ReadEscapeLiteral(s[1..]);
      var e := EscapeLiteral(s);
      var head := if s[0] == '\'' then "''" else if s[0] == '\\' then "\\\\" else [s[0]];
      assert e == head + EscapeLiteral(s[1..]);
      assert e[|head|..] == EscapeLiteral(s[1..]);
      assert s == [s[0]] + s[1..];
    }
  }
}
