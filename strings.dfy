/** The ECMAScript string operations the capture pipeline relies on:
    `trim`, `startsWith`, `endsWith`, `includes`, `join`, a global
    replace of one character, and the decimal rendering of a counter. */
module Strings {

  /** ECMAScript WhiteSpace and LineTerminator code points: what
      `String.prototype.trim` removes and what the regular-expression
      class `\s` matches. */
  predicate IsWhitespace(c: char) {
    c == '\t' || c == '\n' || c == '\U{000B}' || c == '\U{000C}' || c == '\r' || c == ' '
    || c == '\U{00A0}' || c == '\U{1680}' || ('\U{2000}' <= c <= '\U{200A}')
    || c == '\U{2028}' || c == '\U{2029}' || c == '\U{202F}' || c == '\U{205F}'
    || c == '\U{3000}' || c == '\U{FEFF}'
  }

  /** `s.trimStart()`: `s` without its leading whitespace. */
  function TrimStart(s: string): (r: string)
    ensures |r| <= |s|
  {
    if s != [] && IsWhitespace(s[0]) then TrimStart(s[1..]) else s
  }

  /** `s.trimEnd()`: `s` without its trailing whitespace. */
  function TrimEnd(s: string): (r: string)
    ensures |r| <= |s|
  {
    if s != [] && IsWhitespace(s[|s| - 1]) then TrimEnd(s[..|s| - 1]) else s
  }

  /** What `trimStart` keeps is the longest suffix of `s` that does not
      start with whitespace; all it cuts off is whitespace. */
  lemma {:induction false} TrimStartFacts(s: string)
    ensures TrimStart(s) == s[|s| - |TrimStart(s)|..]
    ensures TrimStart(s) == [] || !IsWhitespace(TrimStart(s)[0])
    ensures forall k :: 0 <= k < |s| - |TrimStart(s)| ==> IsWhitespace(s[k])
  {
    if s != [] && IsWhitespace(s[0]) {
      TrimStartFacts(s[1..]);
    }
  }

  /** What `trimEnd` keeps is the longest prefix of `s` that does not end
      with whitespace; all it cuts off is whitespace. */
  lemma {:induction false} TrimEndFacts(s: string)
    ensures TrimEnd(s) == s[..|TrimEnd(s)|]
    ensures TrimEnd(s) == [] || !IsWhitespace(TrimEnd(s)[|TrimEnd(s)| - 1])
    ensures forall k :: |TrimEnd(s)| <= k < |s| ==> IsWhitespace(s[k])
  {
    if s != [] && IsWhitespace(s[|s| - 1]) {
      var t := s[..|s| - 1];
      TrimEndFacts(t);
      assert t[..|TrimEnd(t)|] == s[..|TrimEnd(t)|];
      assert forall k :: |TrimEnd(t)| <= k < |t| ==> s[k] == t[k];
    }
  }

  /** `s.trim()`: neither end of the result is whitespace. */
  function Trim(s: string): (r: string)
    ensures |r| <= |s|
    ensures r == [] || (!IsWhitespace(r[0]) && !IsWhitespace(r[|r| - 1]))
  {
    TrimStartFacts(s);
    TrimEndFacts(TrimStart(s));
    TrimEnd(TrimStart(s))
  }

  /** A string with no whitespace at either end is its own trim. */
  lemma TrimmedIsFixed(s: string)
    requires s == [] || (!IsWhitespace(s[0]) && !IsWhitespace(s[|s| - 1]))
    ensures Trim(s) == s
  {
  }

  /** Trimming twice is trimming once. */
  lemma TrimIdempotent(s: string)
    ensures Trim(Trim(s)) == Trim(s)
  {
    TrimmedIsFixed(Trim(s));
  }

  /** Trim only cuts whitespace from the ends: the result is a slice of `s`
      and all that is cut off is whitespace. */
  lemma TrimIsSlice(s: string)
    ensures var i, j := |s| - |TrimStart(s)|, |s| - |TrimStart(s)| + |Trim(s)|;
            j <= |s| && Trim(s) == s[i..j]
            && (forall k :: 0 <= k < i ==> IsWhitespace(s[k]))
            && (forall k :: j <= k < |s| ==> IsWhitespace(s[k]))
  {
    var t := TrimStart(s);
    var i := |s| - |t|;
    var j := i + |Trim(s)|;
    TrimStartFacts(s);
    TrimEndFacts(t);
    forall k | j <= k < |s|
      ensures IsWhitespace(s[k])
    {
      assert IsWhitespace(t[k - i]);
      assert s[k] == t[k - i];
    }
  }

  /** Trim of a string that starts with a non-whitespace character keeps
      that first character in front. */
  lemma TrimKeepsNonBlankStart(p: string, s: string)
    requires p != [] && !IsWhitespace(p[0])
    ensures Trim(p + s) != [] && Trim(p + s)[0] == p[0]
  {
    var ps := p + s;
    assert ps[0] == p[0];
    assert TrimStart(ps) == ps;
    TrimEndFacts(ps);
  }

  lemma {:induction false} TrimStartLeading(lead: string, s: string)
    requires forall k :: 0 <= k < |lead| ==> IsWhitespace(lead[k])
    requires s == [] || !IsWhitespace(s[0])
    ensures TrimStart(lead + s) == s
  {
    if lead == [] {
      assert lead + s == s;
    } else {
      assert (lead + s)[1..] == lead[1..] + s;
      TrimStartLeading(lead[1..], s);
    }
  }

  lemma {:induction false} TrimEndTrailing(s: string, trail: string)
    requires forall k :: 0 <= k < |trail| ==> IsWhitespace(trail[k])
    requires s == [] || !IsWhitespace(s[|s| - 1])
    ensures TrimEnd(s + trail) == s
  {
    if trail == [] {
      assert s + trail == s;
    } else {
      var init := trail[..|trail| - 1];
      assert (s + trail)[..|s + trail| - 1] == s + init;
      TrimEndTrailing(s, init);
    }
  }

  /** Whitespace around a string with no whitespace at either end is
      exactly what trim removes. */
  lemma TrimFramed(lead: string, s: string, trail: string)
    requires forall k :: 0 <= k < |lead| ==> IsWhitespace(lead[k])
    requires forall k :: 0 <= k < |trail| ==> IsWhitespace(trail[k])
    requires s != [] && !IsWhitespace(s[0]) && !IsWhitespace(s[|s| - 1])
    ensures Trim(lead + s + trail) == s
  {
    assert lead + s + trail == lead + (s + trail);
    assert (s + trail)[0] == s[0];
    TrimStartLeading(lead, s + trail);
    TrimEndTrailing(s, trail);
  }

  /** `s.startsWith(p)`. */
  predicate StartsWith(s: string, p: string) {
    p <= s
  }

  /** `s.endsWith(p)`. */
  predicate EndsWith(s: string, p: string) {
    p == [] || (s != [] && s[|s| - 1] == p[|p| - 1] && EndsWith(s[..|s| - 1], p[..|p| - 1]))
  }

  /** `endsWith` holds exactly when `p` is the last `|p|` characters of
      `s`. */
  lemma {:induction false} EndsWithIsSuffix(s: string, p: string)
    ensures EndsWith(s, p) <==> |p| <= |s| && s[|s| - |p|..] == p
  {
    if p != [] && s != [] {
      var s', p' := s[..|s| - 1], p[..|p| - 1];
      EndsWithIsSuffix(s', p');
      if |p| <= |s| {
        assert s[|s| - |p|..] == s'[|s'| - |p'|..] + [s[|s| - 1]];
        assert p == p' + [p[|p| - 1]];
      }
    }
  }

  /** `sub` occurs in `s` at index `k`. */
  predicate OccursAt(s: string, sub: string, k: int) {
    0 <= k && k + |sub| <= |s| && s[k..k + |sub|] == sub
  }

  /** `s.includes(sub)`, computed by scanning `s` from the left. */
  predicate Contains(s: string, sub: string)
  {
    sub <= s || (s != [] && Contains(s[1..], sub))
  }

  /** An occurrence at index `k` is found by the scan. */
  lemma {:induction false} OccursImpliesContains(s: string, sub: string, k: int)
    requires OccursAt(s, sub, k)
    ensures Contains(s, sub)
    decreases k
  {
    if k == 0 {
      assert s[..|sub|] == sub;
    } else {
      var t := s[1..];
      assert t[k - 1..k - 1 + |sub|] == s[k..k + |sub|];
      OccursImpliesContains(t, sub, k - 1);
    }
  }

  /** The scan succeeds only where an occurrence exists. */
  lemma {:induction false} ContainsImpliesOccurs(s: string, sub: string)
    requires Contains(s, sub)
    ensures exists k :: OccursAt(s, sub, k)
  {
    if sub <= s {
      assert OccursAt(s, sub, 0);
    } else {
      ContainsImpliesOccurs(s[1..], sub);
      var k :| OccursAt(s[1..], sub, k);
      assert s[k + 1..k + 1 + |sub|] == s[1..][k..k + |sub|];
      assert OccursAt(s, sub, k + 1);
    }
  }

  /** `Contains` holds exactly when `sub` occurs at some index of `s`. */
  lemma ContainsIff(s: string, sub: string)
    ensures Contains(s, sub) <==> exists k :: OccursAt(s, sub, k)
  {
    if Contains(s, sub) {
      ContainsImpliesOccurs(s, sub);
    }
    if exists k :: OccursAt(s, sub, k) {
      var k :| OccursAt(s, sub, k);
      OccursImpliesContains(s, sub, k);
    }
  }

  /** An occurrence inside the left or right operand of a concatenation is
      an occurrence in the concatenation. */
  lemma ContainsConcat(a: string, b: string, sub: string)
    requires Contains(a, sub) || Contains(b, sub)
    ensures Contains(a + b, sub)
  {
    if Contains(a, sub) {
      ContainsImpliesOccurs(a, sub);
      var k :| OccursAt(a, sub, k);
      assert (a + b)[k..k + |sub|] == a[k..k + |sub|];
      OccursImpliesContains(a + b, sub, k);
    } else {
      ContainsImpliesOccurs(b, sub);
      var k :| OccursAt(b, sub, k);
      assert (a + b)[|a| + k..|a| + k + |sub|] == b[k..k + |sub|];
      OccursImpliesContains(a + b, sub, |a| + k);
    }
  }

  /** `s.replace(/c/g, rep)`: every occurrence of the character `c` is
      replaced by `rep`, the other characters are kept in order. */
  function ReplaceChar(s: string, c: char, rep: string): (r: string)
    ensures c !in rep ==> c !in r
    ensures forall x :: x in r ==> x in s || x in rep
  {
    if s == [] then []
    else (if s[0] == c then rep else [s[0]]) + ReplaceChar(s[1..], c, rep)
  }

  /** Replacing distributes over concatenation. */
  lemma {:induction false} ReplaceCharConcat(a: string, b: string, c: char, rep: string)
    ensures ReplaceChar(a + b, c, rep) == ReplaceChar(a, c, rep) + ReplaceChar(b, c, rep)
  {
    if a != [] {
      assert (a + b)[1..] == a[1..] + b;
      ReplaceCharConcat(a[1..], b, c, rep);
    } else {
      assert a + b == b;
    }
  }

  /** A string without the character is left as it is. */
  lemma {:induction false} ReplaceCharAbsent(s: string, c: char, rep: string)
    requires c !in s
    ensures ReplaceChar(s, c, rep) == s
  {
    if s != [] {
      ReplaceCharAbsent(s[1..], c, rep);
    }
  }

  /** `parts.join(sep)` of ECMAScript arrays. */
  function Join(parts: seq<string>, sep: string): string
  {
    if parts == [] then ""
    else if |parts| == 1 then parts[0]
    else Join(parts[..|parts| - 1], sep) + sep + parts[|parts| - 1]
  }

  /** Appending one part extends the join by the separator and that part. */
  lemma JoinSnoc(parts: seq<string>, p: string, sep: string)
    ensures Join(parts + [p], sep) == if parts == [] then p else Join(parts, sep) + sep + p
  {
    assert (parts + [p])[..|parts|] == parts;
  }

  /** `c.repeat(n)` for a one-character string: `n` copies of `c`. */
  function Repeat(c: char, n: nat): (r: string)
    ensures |r| == n
  {
    if n == 0 then "" else Repeat(c, n - 1) + [c]
  }

  /** Every character of `Repeat(c, n)` is `c`. */
  lemma {:induction false} RepeatChars(c: char, n: nat)
    ensures forall k :: 0 <= k < n ==> Repeat(c, n)[k] == c
  {
    if n > 0 {
      RepeatChars(c, n - 1);
    }
  }

  /** The digit character of `d`. */
  function Digit(d: nat): (c: char)
    requires d < 10
    ensures '0' <= c <= '9' && c as int - '0' as int == d
  {
    ('0' as int + d) as char
  }

  /** The decimal rendering of a natural number, as `${k}` produces it. */
  function DecimalString(k: nat): (r: string)
    ensures r != [] && IsDigits(r)
    ensures r[0] == '0' ==> k == 0
  {
    if k < 10 then [Digit(k)] else DecimalString(k / 10) + [Digit(k % 10)]
  }

  /** Every character of `s` is a decimal digit. */
  predicate IsDigits(s: string) {
    forall i :: 0 <= i < |s| ==> '0' <= s[i] <= '9'
  }

  /** The number a string of decimal digits denotes. */
  function DecimalValue(s: string): nat
    requires IsDigits(s)
  {
    if s == [] then 0
    else DecimalValue(s[..|s| - 1]) * 10 + (s[|s| - 1] as int - '0' as int)
  }

  /** Reading back the rendering of `k` gives `k`. */
  lemma {:induction false} DecimalRoundTrip(k: nat)
    ensures DecimalValue(DecimalString(k)) == k
  {
    if k >= 10 {
      DecimalRoundTrip(k / 10);
      var s := DecimalString(k);
      assert s[..|s| - 1] == DecimalString(k / 10);
    }
  }
}
