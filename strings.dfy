/** The string operations the query builder relies on: `Array.prototype.join`,
    a global `String.prototype.replace`, ASCII `toUpperCase`, integer rendering by
    template interpolation and `parseInt`. */
module Strings {
  import opened Wrappers

  /** `xs.join(sep)`. */
  function Join(xs: seq<string>, sep: string): string
  {
    if |xs| == 0 then ""
    else if |xs| == 1 then xs[0]
    else xs[0] + sep + Join(xs[1..], sep)
  }

  /** Joining is left-to-right as well: appending an item adds one separator and the item. */
  lemma {:induction false} JoinAppend(xs: seq<string>, y: string, sep: string)
    requires |xs| > 0
    ensures Join(xs + [y], sep) == Join(xs, sep) + sep + y
  {
    if |xs| == 1 {
      assert (xs + [y])[1..] == [y];
    } else {
      assert (xs + [y])[1..] == xs[1..] + [y];
      JoinAppend(xs[1..], y, sep);
    }
  }

  function TotalLength(xs: seq<string>): nat
  {
    if |xs| == 0 then 0 else |xs[0]| + TotalLength(xs[1..])
  }

  /** A join of n items holds the items' characters and n - 1 separators. */
  lemma {:induction false} JoinLength(xs: seq<string>, sep: string)
    requires |xs| > 0
    ensures |Join(xs, sep)| == TotalLength(xs) + (|xs| - 1) * |sep|
  {
    if |xs| > 1 {
      JoinLength(xs[1..], sep);
    }
  }

  /** `s.replace(/pat/g, rep)`: every non-overlapping occurrence of `pat`, scanned
      from the left, is replaced by `rep`. */
  function ReplaceAll(s: string, pat: string, rep: string): string
    requires |pat| > 0
    decreases |s|
  {
    if |s| < |pat| then s
    else if s[..|pat|] == pat then rep + ReplaceAll(s[|pat|..], pat, rep)
    else [s[0]] + ReplaceAll(s[1..], pat, rep)
  }

  /** `pat` occurs in `s` at position `i`. */
  predicate OccursAt(s: string, pat: string, i: nat)
  {
    i + |pat| <= |s| && s[i..i + |pat|] == pat
  }

  /** `pat` occurs nowhere in `s`. */
  ghost predicate Absent(s: string, pat: string)
  {
    forall i: nat :: !OccursAt(s, pat, i)
  }

  /** A pattern whose first character occurs in it only at the start cannot match across
      the end of a piece that does not hold it, when what follows the piece is nothing or
      the pattern itself. */
  lemma {:induction false} ReplaceAllSkipsAbsent(piece: string, tail: string, pat: string, rep: string)
    requires |pat| > 0 && pat[0] !in pat[1..] && Absent(piece, pat)
    requires |tail| == 0 || (|tail| >= |pat| && tail[..|pat|] == pat)
    ensures ReplaceAll(piece + tail, pat, rep) == piece + ReplaceAll(tail, pat, rep)
    decreases |piece|
  {
    var s := piece + tail;
    if |piece| == 0 {
      assert s == tail;
    } else if |s| < |pat| {
      assert s == piece;
    } else {
      NoMatchAtStart(piece, tail, pat);
      assert ReplaceAll(s, pat, rep) == [s[0]] + ReplaceAll(s[1..], pat, rep);
      AbsentTail(piece, pat);
      assert s[0] == piece[0] && s[1..] == piece[1..] + tail;
      ReplaceAllSkipsAbsent(piece[1..], tail, pat, rep);
      assert piece == [piece[0]] + piece[1..];
    }
  }

  /** A non-empty piece without the pattern, followed by nothing or by the pattern, does
      not start with the pattern. */
  lemma NoMatchAtStart(piece: string, tail: string, pat: string)
    requires |pat| > 0 && pat[0] !in pat[1..] && Absent(piece, pat) && |piece| > 0
    requires |tail| == 0 || (|tail| >= |pat| && tail[..|pat|] == pat)
    requires |piece + tail| >= |pat|
    ensures (piece + tail)[..|pat|] != pat
  {
    var s := piece + tail;
    if |piece| >= |pat| {
      assert !OccursAt(piece, pat, 0);
      assert s[..|pat|] == piece[0..|pat|];
    } else {
      var k := |piece|;
      assert s[..|pat|][k] == tail[0] == pat[0];
      assert pat[1..][k - 1] in pat[1..];
      assert pat[k] == pat[1..][k - 1] != pat[0];
    }
  }

  lemma AbsentTail(piece: string, pat: string)
    requires |piece| > 0 && Absent(piece, pat)
    ensures Absent(piece[1..], pat)
  {
    forall i: nat
      ensures !OccursAt(piece[1..], pat, i)
    {
      assert !OccursAt(piece, pat, i + 1);
      if i + |pat| <= |piece[1..]| {
        assert piece[1..][i..i + |pat|] == piece[i + 1..i + 1 + |pat|];
      }
    }
  }

  /** Substitution of a template: when no piece holds the placeholder, and the
      placeholder's first character occurs in it only at the start, replacing every
      placeholder is the same as joining the pieces with the replacement. */
  lemma {:induction false} ReplaceAllJoin(pieces: seq<string>, pat: string, rep: string)
    requires |pat| > 0 && pat[0] !in pat[1..]
    requires forall i :: 0 <= i < |pieces| ==> Absent(pieces[i], pat)
    ensures ReplaceAll(Join(pieces, pat), pat, rep) == Join(pieces, rep)
  {
    if |pieces| == 1 {
      ReplaceAllSkipsAbsent(pieces[0], "", pat, rep);
      assert pieces[0] + "" == pieces[0];
    } else if |pieces| > 1 {
      var rest := Join(pieces[1..], pat);
      assert Join(pieces, pat) == pieces[0] + (pat + rest);
      assert (pat + rest)[..|pat|] == pat;
      ReplaceAllSkipsAbsent(pieces[0], pat + rest, pat, rep);
      assert (pat + rest)[|pat|..] == rest;
      ReplaceAllJoin(pieces[1..], pat, rep);
    }
  }

  /** `s` cut at every occurrence of `pat` found by a left-to-right scan. */
  function SplitOn(s: string, pat: string): (r: seq<string>)
    requires |pat| > 0
    ensures |r| > 0
    decreases |s|
  {
    if |s| < |pat| then [s]
    else if s[..|pat|] == pat then [""] + SplitOn(s[|pat|..], pat)
    else
      var rest := SplitOn(s[1..], pat);
      [[s[0]] + rest[0]] + rest[1..]
  }

  /** The pieces of a split join back to the text; none holds the pattern, and the first
      is a prefix of the text. */
  lemma {:induction false} SplitOnPieces(s: string, pat: string)
    requires |pat| > 0
    ensures Join(SplitOn(s, pat), pat) == s
    ensures forall i :: 0 <= i < |SplitOn(s, pat)| ==> Absent(SplitOn(s, pat)[i], pat)
    ensures |SplitOn(s, pat)[0]| <= |s| && SplitOn(s, pat)[0] == s[..|SplitOn(s, pat)[0]|]
    decreases |s|
  {
    if |s| < |pat| {
      assert SplitOn(s, pat) == [s];
    } else if s[..|pat|] == pat {
      var r := SplitOn(s, pat);
      var t := s[|pat|..];
      SplitOnPieces(t, pat);
      var rest := SplitOn(t, pat);
      assert r == [""] + rest;
      assert r[1..] == rest;
      assert Join(r, pat) == "" + pat + Join(rest, pat);
      assert s == s[..|pat|] + t;
      forall i | 0 <= i < |r|
        ensures Absent(r[i], pat)
      {
        if i > 0 {
          assert r[i] == rest[i - 1];
        }
      }
    } else {
      SplitOnPieces(s[1..], pat);
      SplitAtMiss(s, pat);
    }
  }

  /** Splitting is right on a text that does not start with the pattern when it is right
      on the text after its first character. */
  lemma SplitAtMiss(s: string, pat: string)
    requires |pat| > 0 && |s| >= |pat| && s[..|pat|] != pat
    requires Join(SplitOn(s[1..], pat), pat) == s[1..]
    requires forall i :: 0 <= i < |SplitOn(s[1..], pat)| ==> Absent(SplitOn(s[1..], pat)[i], pat)
    requires |SplitOn(s[1..], pat)[0]| <= |s[1..]| && SplitOn(s[1..], pat)[0] == s[1..][..|SplitOn(s[1..], pat)[0]|]
    ensures Join(SplitOn(s, pat), pat) == s
    ensures forall i :: 0 <= i < |SplitOn(s, pat)| ==> Absent(SplitOn(s, pat)[i], pat)
    ensures |SplitOn(s, pat)[0]| <= |s| && SplitOn(s, pat)[0] == s[..|SplitOn(s, pat)[0]|]
  {
    var r := SplitOn(s, pat);
    var t := s[1..];
    var rest := SplitOn(t, pat);
    var first := [s[0]] + rest[0];
    assert r == [first] + rest[1..];
    JoinConsPrefix(s[0], rest, pat);
    assert s == [s[0]] + t;
    assert first == s[..|first|];
    AbsentCons(s, pat, rest[0]);
    forall i | 0 <= i < |r|
      ensures Absent(r[i], pat)
    {
      if i > 0 {
        assert r[i] == rest[i];
      }
    }
  }

  /** A character that does not start the pattern, put in front of a piece without the
      pattern, gives a piece without it. */
  lemma AbsentCons(s: string, pat: string, piece: string)
    requires |pat| > 0 && |s| >= |pat| && s[..|pat|] != pat
    requires Absent(piece, pat) && |piece| < |s| && [s[0]] + piece == s[..|piece| + 1]
    ensures Absent([s[0]] + piece, pat)
  {
    var first := [s[0]] + piece;
    forall k: nat
      ensures !OccursAt(first, pat, k)
    {
      if k + |pat| <= |first| {
        if k == 0 {
          assert first[0..|pat|] == s[..|pat|];
        } else {
          assert !OccursAt(piece, pat, k - 1);
          assert first[k..k + |pat|] == piece[k - 1..k - 1 + |pat|];
        }
      }
    }
  }

  /** Putting a character in front of the first piece puts it in front of the join. */
  lemma JoinConsPrefix(c: char, xs: seq<string>, sep: string)
    requires |xs| > 0
    ensures Join([[c] + xs[0]] + xs[1..], sep) == [c] + Join(xs, sep)
  {
    var ys := [[c] + xs[0]] + xs[1..];
    if |xs| > 1 {
      assert ys[1..] == xs[1..];
    }
  }

  /** ASCII `toUpperCase` of one character. */
  function UpperChar(c: char): char
  {
    if 'a' <= c <= 'z' then (c as int - 'a' as int + 'A' as int) as char else c
  }

  /** `s.toUpperCase()` on ASCII letters. */
  function Upper(s: string): (r: string)
    ensures |r| == |s|
    ensures forall i :: 0 <= i < |s| ==> r[i] == UpperChar(s[i])
  {
    if |s| == 0 then "" else [UpperChar(s[0])] + Upper(s[1..])
  }

  /** Upper-casing twice is upper-casing once. */
  lemma UpperIdempotent(s: string)
    ensures Upper(Upper(s)) == Upper(s)
  {
    assert forall i :: 0 <= i < |s| ==> UpperChar(UpperChar(s[i])) == UpperChar(s[i]);
  }

  predicate IsDigit(c: char)
  {
    '0' <= c <= '9'
  }

  function DigitChar(d: nat): char
    requires d < 10
  {
    ('0' as int + d) as char
  }

  /** The decimal digits of `n`, most significant first, with no leading zero. */
  function NatToString(n: nat): string
  {
    if n < 10 then [DigitChar(n)] else NatToString(n / 10) + [DigitChar(n % 10)]
  }

  /** The text `${n}` of an integral JavaScript number. */
  function IntToString(n: int): string
  {
    if n < 0 then "-" + NatToString(-n) else NatToString(n)
  }

  function DigitValue(c: char): nat
    requires IsDigit(c)
  {
    c as int - '0' as int
  }

  /** The value of a string of decimal digits. */
  function DigitsValue(ds: string): nat
    requires forall i :: 0 <= i < |ds| ==> IsDigit(ds[i])
  {
    if |ds| == 0 then 0
    else DigitsValue(ds[..|ds| - 1]) * 10 + DigitValue(ds[|ds| - 1])
  }

  /** The longest prefix of `s` made of decimal digits. */
  function DigitPrefix(s: string): (r: string)
    ensures |r| <= |s| && r == s[..|r|]
    ensures forall i :: 0 <= i < |r| ==> IsDigit(r[i])
    ensures |r| < |s| ==> !IsDigit(s[|r|])
  {
    if |s| == 0 || !IsDigit(s[0]) then "" else [s[0]] + DigitPrefix(s[1..])
  }

  predicate IsSpace(c: char)
  {
    c == ' ' || c == '\t' || c == '\n' || c == '\r' || c == '\U{000B}' || c == '\U{000C}'
  }

  function TrimStart(s: string): string
  {
    if |s| > 0 && IsSpace(s[0]) then TrimStart(s[1..]) else s
  }

  /** `parseInt(s)` without a radix, on decimal text: leading white space, an optional
      sign, then the longest run of decimal digits; `None` stands for NaN, when there is
      no digit. A `0x` prefix, which `parseInt` reads as hexadecimal, is not modelled. */
  function ParseInt(s: string): Option<int>
  {
    var t := TrimStart(s);
    var negative := |t| > 0 && t[0] == '-';
    var body := if |t| > 0 && (t[0] == '-' || t[0] == '+') then t[1..] else t;
    var ds := DigitPrefix(body);
    var v: int := DigitsValue(ds);
    if |ds| == 0 then None else Some(if negative then -v else v)
  }

  /** The interpolation `${parseInt(s)}`. */
  function ParsedText(s: string): string
  {
    match ParseInt(s)
    case None => "NaN"
    case Some(n) => IntToString(n)
  }

  lemma {:induction false} NatToStringDigits(n: nat)
    ensures |NatToString(n)| > 0
    ensures forall i :: 0 <= i < |NatToString(n)| ==> IsDigit(NatToString(n)[i])
    ensures DigitsValue(NatToString(n)) == n
  {
    if n >= 10 {
      NatToStringDigits(n / 10);
      var s := NatToString(n);
      assert s[..|s| - 1] == NatToString(n / 10);
    }
  }

  /** The digit run stops where the digits stop. */
  lemma {:induction false} DigitPrefixStops(ds: string, rest: string)
    requires forall i :: 0 <= i < |ds| ==> IsDigit(ds[i])
    requires |rest| == 0 || !IsDigit(rest[0])
    ensures DigitPrefix(ds + rest) == ds
  {
    if |ds| > 0 {
      assert IsDigit(ds[0]);
      assert (ds + rest)[1..] == ds[1..] + rest;
      DigitPrefixStops(ds[1..], rest);
    } else {
      assert ds + rest == rest;
    }
  }

  /** `parseInt` reads the integer at the start of a text and ignores whatever follows
      that is not a digit. */
  lemma ParseIntReadsNumber(n: int, rest: string)
    requires |rest| == 0 || !IsDigit(rest[0])
    ensures ParseInt(IntToString(n) + rest) == Some(n)
  {
    var m: nat := if n < 0 then -n else n;
    var ds := NatToString(m);
    NatToStringDigits(m);
    DigitPrefixStops(ds, rest);
    if n < 0 {
      ParseNegative(ds, rest);
      assert IntToString(n) + rest == "-" + (ds + rest);
    } else {
      ParseUnsigned(ds, rest);
    }
  }

  lemma ParseUnsigned(ds: string, rest: string)
    requires |ds| > 0 && (forall i :: 0 <= i < |ds| ==> IsDigit(ds[i])) && DigitPrefix(ds + rest) == ds
    ensures ParseInt(ds + rest) == Some(DigitsValue(ds) as int)
  {
    var s := ds + rest;
    assert s[0] == ds[0];
    ParseDigitsFirst(s);
  }

  lemma ParseNegative(ds: string, rest: string)
    requires |ds| > 0 && (forall i :: 0 <= i < |ds| ==> IsDigit(ds[i])) && DigitPrefix(ds + rest) == ds
    ensures ParseInt("-" + (ds + rest)) == Some(-(DigitsValue(ds) as int))
  {
    var s := "-" + (ds + rest);
    assert s[0] == '-' && s[1..] == ds + rest;
    ParseSignFirst(s);
  }

  /** A text that starts with a digit is read from its first character. */
  lemma ParseDigitsFirst(s: string)
    requires |s| > 0 && IsDigit(s[0])
    ensures ParseInt(s) == Some(DigitsValue(DigitPrefix(s)) as int)
  {
    assert !IsSpace(s[0]);
    assert TrimStart(s) == s;
    assert s[0] != '-' && s[0] != '+';
    assert |DigitPrefix(s)| > 0;
  }

  /** A text that starts with a minus sign is read, negated, from its second character. */
  lemma ParseSignFirst(s: string)
    requires |s| > 1 && s[0] == '-' && IsDigit(s[1])
    ensures ParseInt(s) == Some(-(DigitsValue(DigitPrefix(s[1..])) as int))
  {
    assert !IsSpace(s[0]);
    assert TrimStart(s) == s;
    assert |DigitPrefix(s[1..])| > 0;
  }

  /** The interpolated `parseInt` of a digit run, with or without a minus sign in front,
      followed by text that does not start with a digit. */
  lemma ParsedDigits(ds: string, rest: string)
    requires |ds| > 0 && forall i :: 0 <= i < |ds| ==> IsDigit(ds[i])
    requires |rest| == 0 || !IsDigit(rest[0])
    ensures ParsedText(ds + rest) == IntToString(DigitsValue(ds))
    ensures ParsedText("-" + (ds + rest)) == IntToString(-(DigitsValue(ds) as int))
  {
    DigitPrefixStops(ds, rest);
    ParsedUnsigned(ds, rest);
    ParsedNegative(ds, rest);
  }

  lemma ParsedUnsigned(ds: string, rest: string)
    requires |ds| > 0 && (forall i :: 0 <= i < |ds| ==> IsDigit(ds[i])) && DigitPrefix(ds + rest) == ds
    ensures ParsedText(ds + rest) == IntToString(DigitsValue(ds))
  {
    ParseUnsigned(ds, rest);
  }

  lemma ParsedNegative(ds: string, rest: string)
    requires |ds| > 0 && (forall i :: 0 <= i < |ds| ==> IsDigit(ds[i])) && DigitPrefix(ds + rest) == ds
    ensures ParsedText("-" + (ds + rest)) == IntToString(-(DigitsValue(ds) as int))
  {
    ParseNegative(ds, rest);
  }

  /** Rendering an integer and reading it back with `parseInt` gives the integer. */
  lemma IntToStringParses(n: int)
    ensures ParseInt(IntToString(n)) == Some(n)
  {
    ParseIntReadsNumber(n, "");
    assert IntToString(n) + "" == IntToString(n);
  }
}
