/**
 * The QString operations the extractor relies on, as pure functions over
 * `string`, with the Qt 5 semantics of each primitive (negative lengths,
 * out-of-range positions and failed searches included).
 */
module QtString {

  /** `sub` occurs in `s` starting at index `i`. */
  predicate OccursAt(s: string, sub: string, i: nat)
  {
    i + |sub| <= |s| && s[i..i + |sub|] == sub
  }

  /** QString::indexOf(sub, from) for a non-negative `from`: the first index at or
      after `from` where `sub` starts, or -1 when there is none. */
  function IndexOfFrom(s: string, sub: string, from: nat): (r: int)
    ensures r == -1 || (from <= r && OccursAt(s, sub, r))
    ensures r != -1 ==> forall i :: from <= i < r ==> !OccursAt(s, sub, i)
    ensures r == -1 ==> forall i :: from <= i ==> !OccursAt(s, sub, i)
    decreases |s| - from
  {
    if from + |sub| > |s| then -1
    else if OccursAt(s, sub, from) then from
    else IndexOfFrom(s, sub, from + 1)
  }

  /** QString::indexOf(sub). */
  function IndexOf(s: string, sub: string): int
  {
    IndexOfFrom(s, sub, 0)
  }

  /** QString::contains(sub). */
  function Contains(s: string, sub: string): (r: bool)
    ensures r <==> exists i: nat :: OccursAt(s, sub, i)
  {
    IndexOf(s, sub) != -1
  }

  /** QString::left(n): the whole string when `n` is negative or too large. */
  function Left(s: string, n: int): string
  {
    if n < 0 || n >= |s| then s else s[..n]
  }

  /** QString::chop(n): drops the last `n` characters (everything when n >= |s|). */
  function Chop(s: string, n: int): string
  {
    if n <= 0 then s else if n >= |s| then "" else s[..|s| - n]
  }

  /** QString::mid(pos, n); a negative `n` means "up to the end". */
  function Mid(s: string, pos: int, n: int): string
  {
    if pos > |s| then ""
    else if pos < 0 then
      if n < 0 || n + pos >= |s| then s
      else if n + pos <= 0 then ""
      else s[..n + pos]
    else
      var len := if n < 0 || n > |s| - pos then |s| - pos else n;
      s[pos..pos + len]
  }

  /** QString::remove(pos, n). */
  function Remove(s: string, pos: int, n: int): string
  {
    var p := if pos < 0 then pos + |s| else pos;
    if p < 0 || p >= |s| then s
    else if n >= |s| - p then s[..p]
    else if n > 0 then s[..p] + s[p + n..]
    else s
  }

  /** QString::replace(pat, rep): every non-overlapping occurrence of `pat`,
      scanning left to right, is replaced by `rep`. */
  function ReplaceAll(s: string, pat: string, rep: string): string
    requires |pat| > 0
    decreases |s|
  {
    if |s| < |pat| then s
    else if s[..|pat|] == pat then rep + ReplaceAll(s[|pat|..], pat, rep)
    else [s[0]] + ReplaceAll(s[1..], pat, rep)
  }

  /** QString::count(c) for a single character. */
  function CountChar(s: string, c: char): nat
  {
    if s == [] then 0 else (if s[0] == c then 1 else 0) + CountChar(s[1..], c)
  }

  /** The characters QString::toInt ignores around a number. */
  predicate IsSpace(c: char)
  {
    c == ' ' || c == '\t' || c == '\n' || c == '\r' || c == '\U{B}' || c == '\U{C}'
  }

  function TrimStart(s: string): string
  {
    if s != [] && IsSpace(s[0]) then TrimStart(s[1..]) else s
  }

  function TrimEnd(s: string): string
  {
    if s != [] && IsSpace(s[|s| - 1]) then TrimEnd(s[..|s| - 1]) else s
  }

  predicate IsDigit(c: char)
  {
    '0' <= c <= '9'
  }

  predicate AllDigits(s: string)
  {
    forall i :: 0 <= i < |s| ==> IsDigit(s[i])
  }

  /** The value of a string of decimal digits. */
  function DigitsValue(s: string): nat
    requires AllDigits(s)
  {
    if s == [] then 0
    else DigitsValue(s[..|s| - 1]) * 10 + (s[|s| - 1] as int - '0' as int)
  }

  const IntMin: int := -0x8000_0000
  const IntMax: int := 0x7FFF_FFFF

  /** QString::toInt() in base 10: surrounding white space is ignored, one optional
      sign, then decimal digits; anything else, or a value outside the 32-bit
      range, yields 0. */
  function ToInt(s: string): (r: int)
    ensures IntMin <= r <= IntMax
  {
    var t := TrimEnd(TrimStart(s));
    var negative := |t| > 0 && t[0] == '-';
    var digits := if |t| > 0 && (t[0] == '-' || t[0] == '+') then t[1..] else t;
    if |digits| == 0 || !AllDigits(digits) then 0
    else
      var v: int := if negative then -(DigitsValue(digits) as int) else DigitsValue(digits);
      if IntMin <= v <= IntMax then v else 0
  }

  predicate AllSpaces(w: string)
  {
    forall i :: 0 <= i < |w| ==> IsSpace(w[i])
  }

  /** Leading white space is dropped up to the first other character. */
  lemma {:induction false} TrimStartSpaces(w: string, s: string)
    requires AllSpaces(w) && (s == [] || !IsSpace(s[0]))
    ensures TrimStart(w + s) == s
    decreases |w|
  {
    if w != [] {
      assert (w + s)[1..] == w[1..] + s;
      TrimStartSpaces(w[1..], s);
    } else {
      assert w + s == s;
    }
  }

  /** Trailing white space is dropped back to the last other character. */
  lemma {:induction false} TrimEndSpaces(s: string, w: string)
    requires AllSpaces(w) && (s == [] || !IsSpace(s[|s| - 1]))
    ensures TrimEnd(s + w) == s
    decreases |w|
  {
    if w != [] {
      assert (s + w)[..|s + w| - 1] == s + w[..|w| - 1];
      TrimEndSpaces(s, w[..|w| - 1]);
    } else {
      assert s + w == s;
    }
  }

  /** The white space `ToInt` ignores around `t`. */
  lemma {:induction false} TrimAround(lead: string, t: string, trail: string)
    requires AllSpaces(lead) && AllSpaces(trail)
    requires t != [] && !IsSpace(t[0]) && !IsSpace(t[|t| - 1])
    ensures TrimEnd(TrimStart(lead + t + trail)) == t
  {
    assert lead + t + trail == lead + (t + trail);
    TrimStartSpaces(lead, t + trail);
    TrimEndSpaces(t, trail);
  }

  /** Decimal digits, possibly surrounded by white space, give their value when
      it fits in 32 bits, and 0 otherwise. */
  lemma {:induction false} ToIntDecimal(lead: string, d: string, trail: string)
    requires AllSpaces(lead) && AllSpaces(trail)
    requires d != [] && AllDigits(d)
    ensures ToInt(lead + d + trail) == if DigitsValue(d) <= IntMax then DigitsValue(d) else 0
  {
    TrimAround(lead, d, trail);
  }

  /** A leading `-` negates the value, which must still fit in 32 bits. */
  lemma {:induction false} ToIntNegative(lead: string, d: string, trail: string)
    requires AllSpaces(lead) && AllSpaces(trail)
    requires d != [] && AllDigits(d)
    ensures ToInt(lead + "-" + d + trail) == if DigitsValue(d) <= -IntMin then -(DigitsValue(d) as int) else 0
  {
    assert lead + "-" + d + trail == lead + ("-" + d) + trail;
    TrimAround(lead, "-" + d, trail);
    assert ("-" + d)[1..] == d;
  }

  /** Text that is blank, a bare sign, or has a character other than a digit
      after the optional sign gives 0. */
  lemma {:induction false} ToIntRejects(s: string, i: nat)
    requires var t := TrimEnd(TrimStart(s));
      |t| == 0 || (|t| == 1 && (t[0] == '-' || t[0] == '+'))
      || (i < |t| && !IsDigit(t[i]) && (i > 0 || (t[0] != '-' && t[0] != '+')))
    ensures ToInt(s) == 0
  {
    var t := TrimEnd(TrimStart(s));
    if |t| > 0 && (t[0] == '-' || t[0] == '+') && i > 0 && i < |t| && !IsDigit(t[i]) {
      assert !IsDigit(t[1..][i - 1]);
    }
  }

  // ---------------------------------------------------------------------------
  // Facts about the primitives used by the scanners' proofs.
  // ---------------------------------------------------------------------------

  /** A one-character pattern occurs exactly where that character stands. */
  /** A found occurrence lies inside the string. */
  lemma FoundWithin(s: string, sub: string, from: nat)
    requires IndexOfFrom(s, sub, from) != -1
    ensures from <= IndexOfFrom(s, sub, from) && IndexOfFrom(s, sub, from) + |sub| <= |s|
  {
    assert OccursAt(s, sub, IndexOfFrom(s, sub, from));
  }

  lemma CharOccursAt(s: string, c: char, i: nat)
    ensures OccursAt(s, [c], i) <==> i < |s| && s[i] == c
  {
    if i < |s| {
      assert s[i..i + 1] == [s[i]];
    }
  }

  /** The first `c` in `pre + [c] + post` is the one after `pre`, when `pre`
      holds none. */
  lemma {:induction false} FirstCharAfter(pre: string, c: char, post: string, from: nat)
    requires from <= |pre| && c !in pre[from..]
    ensures IndexOfFrom(pre + [c] + post, [c], from) == |pre|
  {
    var s := pre + [c] + post;
    forall i | from <= i < |pre|
      ensures !OccursAt(s, [c], i)
    {
      CharOccursAt(s, c, i);
      assert s[i] == pre[from..][i - from];
    }
    CharOccursAt(s, c, |pre|);
  }

  /** A string holding no `c` from `from` on has no `c` to find there. */
  lemma {:induction false} NoCharFound(s: string, c: char, from: nat)
    requires from <= |s| && c !in s[from..]
    ensures IndexOfFrom(s, [c], from) == -1
  {
    forall i | from <= i
      ensures !OccursAt(s, [c], i)
    {
      CharOccursAt(s, c, i);
      if i < |s| {
        assert s[i] == s[from..][i - from];
      }
    }
  }

  /** Removing occurrences of a pattern never introduces a character. */
  lemma {:induction false} ReplaceByEmptyKeepsChars(s: string, pat: string, c: char)
    requires |pat| > 0
    requires c in ReplaceAll(s, pat, "")
    ensures c in s
    decreases |s|
  {
    if |s| < |pat| {
    } else if s[..|pat|] == pat {
      assert ReplaceAll(s, pat, "") == ReplaceAll(s[|pat|..], pat, "");
      ReplaceByEmptyKeepsChars(s[|pat|..], pat, c);
    } else {
      var rest := ReplaceAll(s[1..], pat, "");
      assert ReplaceAll(s, pat, "") == [s[0]] + rest;
      if c != s[0] {
        ReplaceByEmptyKeepsChars(s[1..], pat, c);
      }
    }
  }

  /** Replacing a single character by nothing removes every copy of it. */
  lemma {:induction false} RemoveCharRemovesAll(s: string, c: char)
    ensures c !in ReplaceAll(s, [c], "")
    decreases |s|
  {
    if |s| < 1 {
    } else if s[..1] == [c] {
      assert ReplaceAll(s, [c], "") == ReplaceAll(s[1..], [c], "");
      RemoveCharRemovesAll(s[1..], c);
    } else {
      assert s[0] != c by { assert s[..1] == [s[0]]; }
      RemoveCharRemovesAll(s[1..], c);
    }
  }

  /** A one-character pattern is contained exactly when that character is. */
  lemma ContainsChar(s: string, c: char)
    ensures Contains(s, [c]) <==> c in s
  {
    if c in s {
      var i :| 0 <= i < |s| && s[i] == c;
      assert OccursAt(s, [c], i);
    }
    if Contains(s, [c]) {
      var i: nat :| OccursAt(s, [c], i);
      assert s[i..i + 1][0] == s[i];
    }
  }

  /** A prefix cut before the first occurrence of `sub` does not contain `sub`. */
  lemma PrefixBeforeFirstOccurrence(s: string, sub: string, n: nat)
    requires n <= |s|
    requires forall i :: 0 <= i < n ==> !OccursAt(s, sub, i)
    requires |sub| > 0
    ensures !Contains(s[..n], sub)
  {
    forall i: nat
      ensures !OccursAt(s[..n], sub, i)
    {
      if i + |sub| <= n {
        assert !OccursAt(s, sub, i);
        assert s[..n][i..i + |sub|] == s[i..i + |sub|];
      }
    }
  }
}
