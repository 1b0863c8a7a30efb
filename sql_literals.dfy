/** Character-string literals as the WHERE clause writes them: the value between single
    quotes with every quote inside doubled (section 5.3 of ISO/IEC 9075-2), and the
    comma-separated lists of such literals that an IN predicate holds. A reader for
    both shows that the doubling loses nothing. */
module SqlLiterals {
  import opened Wrappers
  import opened Strings

  const QUOTE: char := '\''

  /** The body of a literal: each quote of `v` written twice. */
  function Escape(v: string): (r: string)
    ensures |r| >= |v|
  {
    if |v| == 0 then ""
    else (if v[0] == QUOTE then [QUOTE, QUOTE] else [v[0]]) + Escape(v[1..])
  }

  /** Doubling quotes one character at a time is what `v.replace(/'/g, "''")` does. */
  lemma {:induction false} EscapeIsReplaceAll(v: string)
    ensures Escape(v) == ReplaceAll(v, [QUOTE], [QUOTE, QUOTE])
  {
    if |v| > 0 {
      EscapeIsReplaceAll(v[1..]);
      if v[0] == QUOTE {
        assert v[..1] == [QUOTE];
      } else {
        assert v[..1] != [QUOTE];
      }
    }
  }

  /** A value without a quote is its own body. */
  lemma {:induction false} EscapeWithoutQuote(v: string)
    requires QUOTE !in v
    ensures Escape(v) == v
  {
    if |v| > 0 {
      assert QUOTE !in v[1..];
      EscapeWithoutQuote(v[1..]);
      assert v == [v[0]] + v[1..];
    }
  }

  /** `'${v.replace(/'/g, "''")}'`. */
  function Quote(v: string): string
  {
    [QUOTE] + Escape(v) + [QUOTE]
  }

  function Quoted(vs: seq<string>): (r: seq<string>)
    ensures |r| == |vs|
    ensures forall i :: 0 <= i < |vs| ==> r[i] == Quote(vs[i])
  {
    seq(|vs|, i requires 0 <= i < |vs| => Quote(vs[i]))
  }

  /** `vs.map(quote).join(',')`. */
  function QuotedList(vs: seq<string>): string
  {
    Join(Quoted(vs), ",")
  }

  /** Read the rest of a literal whose opening quote has been consumed: a doubled quote
      stands for one quote, a single quote closes the literal. The result is the value
      and the text after the closing quote; `None` when the literal is not closed. */
  function ReadBody(s: string): (r: Option<(string, string)>)
    ensures r.Some? ==> |r.value.1| < |s|
  {
    if |s| == 0 then None
    else if s[0] == QUOTE then
      if |s| > 1 && s[1] == QUOTE then
        match ReadBody(s[2..])
        case None => None
        case Some((v, rest)) => Some(([QUOTE] + v, rest))
      else Some(("", s[1..]))
    else
      match ReadBody(s[1..])
      case None => None
      case Some((v, rest)) => Some(([s[0]] + v, rest))
  }

  /** Read one literal from the start of `s`. */
  function ReadLiteral(s: string): (r: Option<(string, string)>)
    ensures r.Some? ==> |r.value.1| < |s|
  {
    if |s| > 0 && s[0] == QUOTE then ReadBody(s[1..]) else None
  }

  /** Read a non-empty comma-separated list of literals that makes up all of `s`. */
  function ReadList(s: string): Option<seq<string>>
    decreases |s|
  {
    match ReadLiteral(s)
    case None => None
    case Some((v, rest)) =>
      if |rest| == 0 then Some([v])
      else if rest[0] == ',' then
        match ReadList(rest[1..])
        case None => None
        case Some(vs) => Some([v] + vs)
      else None
  }

  /** A quote-free body followed by two quotes is never closed: the two quotes read as
      one escaped quote and the text ends. */
  lemma {:induction false} UnclosedBody(a: string)
    requires QUOTE !in a
    ensures ReadBody(a + [QUOTE, QUOTE]) == None
  {
    var s := a + [QUOTE, QUOTE];
    if |a| == 0 {
      assert s == [QUOTE, QUOTE] && s[2..] == [];
    } else {
      assert s[0] == a[0] != QUOTE;
      assert QUOTE !in a[1..];
      assert s[1..] == a[1..] + [QUOTE, QUOTE];
      UnclosedBody(a[1..]);
    }
  }

  /** Reading an escaped body back stops at the closing quote and gives the value, as
      long as the text after it does not itself start with a quote. */
  lemma {:induction false} ReadEscaped(v: string, rest: string)
    requires |rest| == 0 || rest[0] != QUOTE
    ensures ReadBody(Escape(v) + [QUOTE] + rest) == Some((v, rest))
  {
    var s := Escape(v) + [QUOTE] + rest;
    if |v| == 0 {
      assert s == [QUOTE] + rest;
      assert s[1..] == rest;
    } else {
      var tail := Escape(v[1..]) + [QUOTE] + rest;
      ReadEscaped(v[1..], rest);
      if v[0] == QUOTE {
        assert s == [QUOTE, QUOTE] + tail;
        assert s[2..] == tail;
      } else {
        assert s == [v[0]] + tail;
        assert s[1..] == tail;
      }
      assert v == [v[0]] + v[1..];
    }
  }

  /** A quoted literal reads back as its value. */
  lemma ReadQuote(v: string, rest: string)
    requires |rest| == 0 || rest[0] != QUOTE
    ensures ReadLiteral(Quote(v) + rest) == Some((v, rest))
  {
    var s := Quote(v) + rest;
    assert s[1..] == Escape(v) + [QUOTE] + rest;
    ReadEscaped(v, rest);
  }

  /** Two values with the same literal are the same value. */
  lemma QuoteInjective(a: string, b: string)
    requires Quote(a) == Quote(b)
    ensures a == b
  {
    ReadQuote(a, "");
    ReadQuote(b, "");
    assert Quote(a) + "" == Quote(b) + "";
  }

  /** A list of literals reads back as the list of values. */
  lemma {:induction false} ReadQuotedList(vs: seq<string>)
    requires |vs| > 0
    ensures ReadList(QuotedList(vs)) == Some(vs)
  {
    var qs := Quoted(vs);
    if |vs| == 1 {
      ReadQuote(vs[0], "");
      assert QuotedList(vs) == Quote(vs[0]) + "";
      assert ReadLiteral(QuotedList(vs)) == Some((vs[0], ""));
      assert vs == [vs[0]];
    } else {
      var tail := QuotedList(vs[1..]);
      assert Quoted(vs[1..]) == qs[1..];
      assert QuotedList(vs) == Quote(vs[0]) + ("," + tail);
      ReadQuote(vs[0], "," + tail);
      assert ("," + tail)[1..] == tail;
      ReadQuotedList(vs[1..]);
      assert vs == [vs[0]] + vs[1..];
    }
  }
}
