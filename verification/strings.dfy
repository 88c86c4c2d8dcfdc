/** The JavaScript string operations the application uses, stated over
    `seq<char>`: `String.prototype.trim`, splitting on a delimiter, joining,
    and substring containment. */
module Strings {

  /** ECMAScript WhiteSpace and LineTerminator code points: the characters
      `String.prototype.trim` strips (sections 12.2 and 12.3 of ECMA-262). */
  predicate IsJsWhitespace(c: char) {
    || c == '\t' || c == '\U{B}' || c == '\U{C}' || c == ' ' || c == '\U{A0}' || c == '\U{FEFF}'
    || c == '\U{1680}' || ('\U{2000}' <= c <= '\U{200A}') || c == '\U{202F}' || c == '\U{205F}'
    || c == '\U{3000}' || c == '\n' || c == '\r' || c == '\U{2028}' || c == '\U{2029}'
  }

  predicate AllWhitespace(s: string) {
    forall i :: 0 <= i < |s| ==> IsJsWhitespace(s[i])
  }

  /** `s` with its leading whitespace removed. */
  function TrimStart(s: string): (r: string)
    ensures |r| <= |s| && r == s[|s| - |r|..]
    ensures AllWhitespace(s[..|s| - |r|])
    ensures |r| == 0 || !IsJsWhitespace(r[0])
  {
    if |s| > 0 && IsJsWhitespace(s[0]) then TrimStart(s[1..]) else s
  }

  /** `s` with its trailing whitespace removed. */
  function TrimEnd(s: string): (r: string)
    ensures |r| <= |s| && r == s[..|r|]
    ensures AllWhitespace(s[|r|..])
    ensures |r| == 0 || !IsJsWhitespace(r[|r| - 1])
  {
    if |s| > 0 && IsJsWhitespace(s[|s| - 1]) then TrimEnd(s[..|s| - 1]) else s
  }

  /** `String.prototype.trim`. */
  function Trim(s: string): string {
    TrimEnd(TrimStart(s))
  }

  /** Trimming a text framed by whitespace yields exactly the text, when the
      text itself neither starts nor ends with whitespace. */
  lemma {:induction false} TrimFramed(lead: string, core: string, trail: string)
    requires AllWhitespace(lead) && AllWhitespace(trail)
    requires |core| > 0 && !IsJsWhitespace(core[0]) && !IsJsWhitespace(core[|core| - 1])
    ensures Trim(lead + core + trail) == core
  {
    TrimStartFramed(lead, core + trail);
    assert lead + core + trail == lead + (core + trail);
    TrimEndFramed(core, trail);
  }

  lemma {:induction false} TrimStartFramed(lead: string, rest: string)
    requires AllWhitespace(lead)
    requires |rest| > 0 && !IsJsWhitespace(rest[0])
    ensures TrimStart(lead + rest) == rest
  {
    if |lead| > 0 {
      assert (lead + rest)[1..] == lead[1..] + rest;
      TrimStartFramed(lead[1..], rest);
    } else {
      assert lead + rest == rest;
    }
  }

  lemma {:induction false} TrimEndFramed(core: string, trail: string)
    requires AllWhitespace(trail)
    requires |core| > 0 && !IsJsWhitespace(core[|core| - 1])
    ensures TrimEnd(core + trail) == core
  {
    if |trail| > 0 {
      var t := trail[..|trail| - 1];
      assert (core + trail)[..|core + trail| - 1] == core + t;
      TrimEndFramed(core, t);
    } else {
      assert core + trail == core;
    }
  }

  /** `x` occurs in `s` as a contiguous substring (`s.includes(x)`). */
  predicate IsInfix(x: string, s: string)
    decreases |s|
  {
    x <= s || (|s| > 0 && IsInfix(x, s[1..]))
  }

  lemma {:induction false} InfixOfConcat(a: string, x: string, b: string)
    ensures IsInfix(x, a + x + b)
  {
    if |a| == 0 {
      assert a + x + b == x + b;
    } else {
      assert (a + x + b)[1..] == a[1..] + x + b;
      InfixOfConcat(a[1..], x, b);
    }
  }

  /** A text built from a template with two holes contains both holes' values,
      and starts with the template's opening text. */
  lemma InfixOfTemplate(a: string, x: string, b: string, y: string, c: string)
    ensures a <= a + x + b + y + c
    ensures IsInfix(x, a + x + b + y + c) && IsInfix(y, a + x + b + y + c)
  {
    InfixOfConcat(a, x, b + y + c);
    assert a + x + b + y + c == a + x + (b + y + c);
    InfixOfConcat(a + x + b, y, c);
  }

  /** Splitting on a delimiter: the pieces between consecutive delimiters,
      always at least one. */
  function SplitOn(s: string, d: char): (r: seq<string>)
    ensures |r| >= 1
    ensures forall i :: 0 <= i < |r| ==> d !in r[i]
  {
    if |s| == 0 then [""]
    else
      var rest := SplitOn(s[1..], d);
      if s[0] == d then [""] + rest
      else [[s[0]] + rest[0]] + rest[1..]
  }

  /** The inverse of SplitOn: the pieces separated by one delimiter each. */
  function Join(parts: seq<string>, d: char): string
  {
    if |parts| == 0 then ""
    else if |parts| == 1 then parts[0]
    else parts[0] + [d] + Join(parts[1..], d)
  }

  lemma {:induction false} SplitOnNoDelimiter(s: string, d: char)
    requires d !in s
    ensures SplitOn(s, d) == [s]
  {
    if |s| > 0 {
      SplitOnNoDelimiter(s[1..], d);
      assert [s[0]] + s[1..] == s;
    }
  }

  lemma {:induction false} SplitOnPrefix(p: string, d: char, rest: string)
    requires d !in p
    ensures SplitOn(p + [d] + rest, d) == [p] + SplitOn(rest, d)
  {
    if |p| == 0 {
      assert p + [d] + rest == [d] + rest;
      assert ([d] + rest)[1..] == rest;
    } else {
      assert (p + [d] + rest)[1..] == p[1..] + [d] + rest;
      SplitOnPrefix(p[1..], d, rest);
      assert [p[0]] + p[1..] == p;
    }
  }

  /** Splitting what Join produced gives back the parts, provided no part
      contains the delimiter. */
  lemma {:induction false} SplitJoin(parts: seq<string>, d: char)
    requires |parts| >= 1
    requires forall i :: 0 <= i < |parts| ==> d !in parts[i]
    ensures SplitOn(Join(parts, d), d) == parts
  {
    if |parts| == 1 {
      SplitOnNoDelimiter(parts[0], d);
    } else {
      SplitOnPrefix(parts[0], d, Join(parts[1..], d));
      SplitJoin(parts[1..], d);
      assert [parts[0]] + parts[1..] == parts;
    }
  }

  /** Splitting at the first occurrence of `d`: what precedes it and what
      follows it, or the whole string and "" when `d` does not occur. */
  function SplitFirst(s: string, d: char): (r: (string, string))
    ensures d !in r.0
    ensures d in s ==> s == r.0 + [d] + r.1
    ensures d !in s ==> r == (s, "")
  {
    if |s| == 0 then ("", "")
    else if s[0] == d then ("", s[1..])
    else
      var (a, b) := SplitFirst(s[1..], d);
      assert [s[0]] + s[1..] == s;
      ([s[0]] + a, b)
  }

  /** Splitting at a delimiter that the first part does not contain recovers both parts. */
  lemma {:induction false} SplitFirstAt(n: string, d: char, v: string)
    requires d !in n
    ensures SplitFirst(n + [d] + v, d) == (n, v)
  {
    if |n| == 0 {
      assert n + [d] + v == [d] + v;
      assert ([d] + v)[1..] == v;
    } else {
      assert (n + [d] + v)[1..] == n[1..] + [d] + v;
      SplitFirstAt(n[1..], d, v);
      assert [n[0]] + n[1..] == n;
    }
  }
}
