/**
  The string primitives the Python code leans on — `str.lower`, `str.strip`,
  `str.rstrip(chars)`, `str.split(sep)`, `str.split()`, `in`, `startswith`,
  `int(...)` and `f"{n}"` — restricted to ASCII text.

  Python's versions also fold and trim non-ASCII characters; those are not
  modelled. Whitespace is what `str.isspace` accepts within ASCII:
  tab, newline, vertical tab, form feed, carriage return, the four
  information separators 0x1C-0x1F, and space.
 */
module Strings {
  import opened Wrappers

  predicate IsSpace(c: char) {
    9 <= c as int <= 13 || 28 <= c as int <= 32
  }

  predicate IsUpper(c: char) {
    'A' <= c <= 'Z'
  }

  predicate IsLower(c: char) {
    'a' <= c <= 'z'
  }

  predicate IsDigit(c: char) {
    '0' <= c <= '9'
  }

  /** The characters regular expressions call `\w` (ASCII). */
  predicate IsWordChar(c: char) {
    IsUpper(c) || IsLower(c) || IsDigit(c) || c == '_'
  }

  // ---------------------------------------------------------------------
  // Case folding

  function LowerChar(c: char): (r: char)
    ensures !IsUpper(r)
    ensures IsUpper(c) ==> r as int == c as int + 32
    ensures !IsUpper(c) ==> r == c
  {
    if IsUpper(c) then (c as int + 32) as char else c
  }

  /** `s.lower()` on ASCII text: every upper-case letter replaced, nothing else. */
  function Lower(s: string): (r: string)
    ensures |r| == |s|
    ensures forall k | 0 <= k < |s| :: r[k] == LowerChar(s[k])
  {
    seq(|s|, k requires 0 <= k < |s| => LowerChar(s[k]))
  }

  lemma LowerIdempotent(s: string)
    ensures Lower(Lower(s)) == Lower(s)
  {
  }

  lemma LowerConcat(a: string, b: string)
    ensures Lower(a + b) == Lower(a) + Lower(b)
  {
  }

  /** A capitalised word lower-cases to its first letter lowered, the rest unchanged. */
  lemma LowerCapitalised(c: char, w: string)
    requires forall k | 0 <= k < |w| :: !IsUpper(w[k])
    ensures Lower([c] + w) == [LowerChar(c)] + w
  {
  }

  // ---------------------------------------------------------------------
  // Trimming

  /** Drops the longest prefix whose characters all satisfy `drop`. */
  function TrimStartBy(s: string, drop: char -> bool): (r: string)
    ensures |r| <= |s| && r == s[|s| - |r|..]
    ensures forall k | 0 <= k < |s| - |r| :: drop(s[k])
    ensures r == [] || !drop(r[0])
  {
    if |s| > 0 && drop(s[0]) then TrimStartBy(s[1..], drop) else s
  }

  /** Drops the longest suffix whose characters all satisfy `drop`. */
  function TrimEndBy(s: string, drop: char -> bool): (r: string)
    ensures |r| <= |s| && r == s[..|r|]
    ensures forall k | |r| <= k < |s| :: drop(s[k])
    ensures r == [] || !drop(r[|r| - 1])
  {
    if |s| > 0 && drop(s[|s| - 1]) then TrimEndBy(s[..|s| - 1], drop) else s
  }

  /** `s.strip()`. */
  function Strip(s: string): string {
    TrimEndBy(TrimStartBy(s, IsSpace), IsSpace)
  }

  /** `s.strip(c)` for a one-character argument. */
  function StripChar(s: string, c: char): string {
    TrimEndBy(TrimStartBy(s, x => x == c), x => x == c)
  }

  /** `s.rstrip(c)` for a one-character argument. */
  function RStripChar(s: string, c: char): string {
    TrimEndBy(s, x => x == c)
  }

  lemma TrimStartByNoop(s: string, drop: char -> bool)
    requires s == [] || !drop(s[0])
    ensures TrimStartBy(s, drop) == s
  {
  }

  lemma TrimEndByNoop(s: string, drop: char -> bool)
    requires s == [] || !drop(s[|s| - 1])
    ensures TrimEndBy(s, drop) == s
  {
  }

  /** `repr` of a string without quotes or backslashes in it: the text in single quotes. */
  function StrRepr(s: string): (r: string)
    ensures |r| == |s| + 2 && r[0] == '\'' && r[|r| - 1] == '\'' && r[1..|r| - 1] == s
  {
    "'" + s + "'"
  }

  /** Stripping leaves a string with no whitespace at either end, so a second strip changes nothing. */
  lemma StripIdempotent(s: string)
    ensures Strip(Strip(s)) == Strip(s)
  {
    var t := TrimStartBy(s, IsSpace);
    var r := TrimEndBy(t, IsSpace);
    assert r == [] || !IsSpace(r[0]);
    TrimStartByNoop(r, IsSpace);
    TrimEndByNoop(r, IsSpace);
  }

  lemma TrimStartLower(s: string)
    ensures TrimStartBy(Lower(s), IsSpace) == Lower(TrimStartBy(s, IsSpace))
    decreases |s|
  {
    if |s| > 0 && IsSpace(s[0]) {
      assert Lower(s)[1..] == Lower(s[1..]);
      TrimStartLower(s[1..]);
    }
  }

  lemma TrimEndLower(s: string)
    ensures TrimEndBy(Lower(s), IsSpace) == Lower(TrimEndBy(s, IsSpace))
    decreases |s|
  {
    if |s| > 0 && IsSpace(s[|s| - 1]) {
      assert Lower(s)[..|s| - 1] == Lower(s[..|s| - 1]);
      TrimEndLower(s[..|s| - 1]);
    }
  }

  /** Whitespace is never an upper-case letter, so lowering and stripping commute. */
  lemma StripLower(s: string)
    ensures Strip(Lower(s)) == Lower(Strip(s))
  {
    TrimStartLower(s);
    TrimEndLower(TrimStartBy(s, IsSpace));
  }

  /** `s.lower().strip()`. */
  function LowerStrip(s: string): string {
    Strip(Lower(s))
  }

  /** Lowering and stripping a second time changes nothing. */
  lemma LowerStripIdempotent(s: string)
    ensures LowerStrip(LowerStrip(s)) == LowerStrip(s)
  {
    var t := Strip(Lower(s));
    StripLower(t);
    StripIdempotent(Lower(s));
    LowerIdempotent(s);
    StripLower(Lower(s));
    assert Lower(t) == Strip(Lower(Lower(s)));
  }

  /** Text without capitals or surrounding whitespace is unchanged by `lower().strip()`. */
  lemma LowerStripNoop(s: string)
    requires forall k | 0 <= k < |s| :: !IsUpper(s[k])
    requires |s| > 0 ==> !IsSpace(s[0]) && !IsSpace(s[|s| - 1])
    ensures LowerStrip(s) == s
  {
    assert Lower(s) == s;
    TrimStartByNoop(s, IsSpace);
    TrimEndByNoop(s, IsSpace);
  }

  lemma {:induction false} TrimStartPadded(pre: string, s: string, drop: char -> bool)
    requires forall k | 0 <= k < |pre| :: drop(pre[k])
    ensures TrimStartBy(pre + s, drop) == TrimStartBy(s, drop)
    decreases |pre|
  {
    if |pre| > 0 {
      assert (pre + s)[1..] == pre[1..] + s;
      TrimStartPadded(pre[1..], s, drop);
    } else {
      assert pre + s == s;
    }
  }

  lemma {:induction false} TrimEndPadded(s: string, post: string, drop: char -> bool)
    requires forall k | 0 <= k < |post| :: drop(post[k])
    ensures TrimEndBy(s + post, drop) == TrimEndBy(s, drop)
    decreases |post|
  {
    if |post| > 0 {
      assert (s + post)[..|s + post| - 1] == s + post[..|post| - 1];
      TrimEndPadded(s, post[..|post| - 1], drop);
    } else {
      assert s + post == s;
    }
  }

  /** Surrounding whitespace is ignored by `lower().strip()`. */
  lemma LowerStripPadded(pre: string, s: string, post: string)
    requires forall k | 0 <= k < |pre| :: IsSpace(pre[k])
    requires forall k | 0 <= k < |post| :: IsSpace(post[k])
    ensures LowerStrip(pre + s + post) == LowerStrip(s)
  {
    LowerPadded(pre, s, post);
    StripPadded(pre, Lower(s), post);
  }

  lemma SpacesLower(x: string)
    requires forall k | 0 <= k < |x| :: IsSpace(x[k])
    ensures Lower(x) == x
  {
  }

  lemma LowerPadded(pre: string, s: string, post: string)
    requires forall k | 0 <= k < |pre| :: IsSpace(pre[k])
    requires forall k | 0 <= k < |post| :: IsSpace(post[k])
    ensures Lower(pre + s + post) == pre + Lower(s) + post
  {
    LowerConcat(pre + s, post);
    LowerConcat(pre, s);
    SpacesLower(pre);
    SpacesLower(post);
  }

  /** Surrounding whitespace is ignored by `strip()`. */
  lemma StripPadded(pre: string, x: string, post: string)
    requires forall k | 0 <= k < |pre| :: IsSpace(pre[k])
    requires forall k | 0 <= k < |post| :: IsSpace(post[k])
    ensures Strip(pre + x + post) == Strip(x)
  {
    assert pre + x + post == pre + (x + post);
    TrimStartPadded(pre, x + post, IsSpace);
    TrimStartAppend(x, post);
    TrimEndPadded(TrimStartBy(x, IsSpace), post, IsSpace);
  }

  /** Trimming the start of `s + post` when `s` is not all whitespace touches only `s`. */
  lemma {:induction false} TrimStartAppend(s: string, post: string)
    requires forall k | 0 <= k < |post| :: IsSpace(post[k])
    ensures TrimStartBy(s + post, IsSpace) == TrimStartBy(s, IsSpace) + post
      || (TrimStartBy(s, IsSpace) == [] && TrimStartBy(s + post, IsSpace) == [])
    decreases |s|
  {
    if |s| == 0 {
      assert s + post == post;
      TrimStartPadded(post, [], IsSpace);
      assert post + [] == post;
    } else if IsSpace(s[0]) {
      assert (s + post)[1..] == s[1..] + post;
      TrimStartAppend(s[1..], post);
    }
  }

  // ---------------------------------------------------------------------
  // Substrings

  predicate StartsWith(s: string, p: string) {
    |p| <= |s| && s[..|p|] == p
  }

  /** `p in s`: some position of `s` starts with `p`. */
  predicate Contains(s: string, p: string)
    decreases |s|
  {
    StartsWith(s, p) || (|s| > 0 && Contains(s[1..], p))
  }

  lemma ContainsAt(s: string, p: string, i: nat)
    requires i + |p| <= |s| && s[i..i + |p|] == p
    ensures Contains(s, p)
    decreases i
  {
    if i > 0 {
      assert s[1..][i - 1..i - 1 + |p|] == p;
      ContainsAt(s[1..], p, i - 1);
    }
  }

  lemma ContainsWitness(s: string, p: string) returns (i: nat)
    requires Contains(s, p)
    ensures i + |p| <= |s| && s[i..i + |p|] == p
    decreases |s|
  {
    if StartsWith(s, p) {
      i := 0;
    } else {
      var j := ContainsWitness(s[1..], p);
      assert s[1..][j..j + |p|] == s[j + 1..j + 1 + |p|];
      i := j + 1;
    }
  }

  lemma ContainsInWider(s: string, p: string, pre: string, post: string)
    requires Contains(s, p)
    ensures Contains(pre + s + post, p)
  {
    var i := ContainsWitness(s, p);
    assert (pre + s + post)[|pre| + i..|pre| + i + |p|] == s[i..i + |p|];
    ContainsAt(pre + s + post, p, |pre| + i);
  }

  /** Text shorter than the pattern cannot contain it. */
  lemma {:induction false} NotContainsShorter(s: string, p: string)
    requires |s| < |p|
    ensures !Contains(s, p)
    decreases |s|
  {
    if |s| > 0 {
      NotContainsShorter(s[1..], p);
    }
  }

  /** Text lacking one of the pattern's characters cannot contain it. */
  lemma {:induction false} NotContainsMissingChar(s: string, p: string, k: nat)
    requires k < |p| && p[k] !in s
    ensures !Contains(s, p)
    decreases |s|
  {
    if |s| > 0 {
      NotContainsMissingChar(s[1..], p, k);
    }
  }

  // ---------------------------------------------------------------------
  // Splitting on one separator character

  function IndexOf(s: string, c: char): (r: Option<nat>)
    ensures r.Some? ==> r.value < |s| && s[r.value] == c && c !in s[..r.value]
    ensures r.None? ==> c !in s
  {
    if |s| == 0 then None
    else if s[0] == c then Some(0)
    else match IndexOf(s[1..], c)
      case None => None
      case Some(i) => Some(i + 1)
  }

  /** `s.split(c)`: the pieces between occurrences of `c`; never empty. */
  function Split(s: string, c: char): (parts: seq<string>)
    ensures |parts| >= 1
    ensures forall k | 0 <= k < |parts| :: c !in parts[k]
    decreases |s|
  {
    match IndexOf(s, c)
    case None => [s]
    case Some(i) => [s[..i]] + Split(s[i + 1..], c)
  }

  /** `c.join(parts)`. */
  function Join(parts: seq<string>, c: char): string
  {
    if |parts| == 0 then ""
    else if |parts| == 1 then parts[0]
    else parts[0] + [c] + Join(parts[1..], c)
  }

  /** Splitting and re-joining on the same character restores the string. */
  lemma {:induction false} JoinSplit(s: string, c: char)
    ensures Join(Split(s, c), c) == s
    decreases |s|
  {
    match IndexOf(s, c)
    case None =>
    case Some(i) =>
      var rest := Split(s[i + 1..], c);
      assert Split(s, c) == [s[..i]] + rest;
      assert Join(Split(s, c), c) == s[..i] + [c] + Join(rest, c);
      JoinSplit(s[i + 1..], c);
      assert s == s[..i] + [c] + s[i + 1..];
  }

  /** Joining pieces that avoid the separator and splitting again restores the pieces. */
  lemma {:induction false} SplitJoin(parts: seq<string>, c: char)
    requires |parts| >= 1
    requires forall k | 0 <= k < |parts| :: c !in parts[k]
    ensures Split(Join(parts, c), c) == parts
    decreases |parts|
  {
    if |parts| > 1 {
      var s := Join(parts, c);
      var p := parts[0];
      assert s == p + [c] + Join(parts[1..], c);
      IndexOfAfterFree(p, c, Join(parts[1..], c));
      assert s[..|p|] == p;
      assert s[|p| + 1..] == Join(parts[1..], c);
      SplitJoin(parts[1..], c);
    } else {
      assert Join(parts, c) == parts[0];
    }
  }

  lemma IndexOfAfterFree(p: string, c: char, rest: string)
    requires c !in p
    ensures IndexOf(p + [c] + rest, c) == Some(|p|)
    decreases |p|
  {
    if |p| > 0 {
      assert (p + [c] + rest)[1..] == p[1..] + [c] + rest;
      IndexOfAfterFree(p[1..], c, rest);
    }
  }

  // ---------------------------------------------------------------------
  // Splitting on whitespace runs

  /** Length of the leading run of non-whitespace characters. */
  function WordLength(s: string): (n: nat)
    ensures n <= |s|
    ensures forall k | 0 <= k < n :: !IsSpace(s[k])
    ensures n == |s| || IsSpace(s[n])
  {
    if |s| == 0 || IsSpace(s[0]) then 0 else 1 + WordLength(s[1..])
  }

  predicate IsWord(w: string) {
    |w| > 0 && forall k | 0 <= k < |w| :: !IsSpace(w[k])
  }

  /** `s.split()` with no argument: the maximal runs of non-whitespace characters. */
  function Words(s: string): seq<string>
    decreases |s|
  {
    var t := TrimStartBy(s, IsSpace);
    if |t| == 0 then []
    else
      var n := WordLength(t);
      [t[..n]] + Words(t[n..])
  }

  /** Every piece of `s.split()` is a non-empty run without whitespace. */
  lemma {:induction false} WordsAreWords(s: string)
    ensures forall k | 0 <= k < |Words(s)| :: IsWord(Words(s)[k])
    decreases |s|
  {
    var t := TrimStartBy(s, IsSpace);
    if |t| > 0 {
      var n := WordLength(t);
      assert !IsSpace(t[0]);
      WordsAreWords(t[n..]);
      var rest := Words(t[n..]);
      assert Words(s) == [t[..n]] + rest;
      forall k | 0 <= k < |Words(s)| ensures IsWord(Words(s)[k]) {
        if k > 0 {
          assert Words(s)[k] == rest[k - 1];
        }
      }
    }
  }

  /** Words joined by single spaces split back into the same words. */
  lemma {:induction false} WordsJoin(ws: seq<string>)
    requires forall k | 0 <= k < |ws| :: IsWord(ws[k])
    ensures Words(Join(ws, ' ')) == ws
    decreases |ws|
  {
    if |ws| == 1 {
      var w := ws[0];
      JoinOne(ws, ' ');
      WordsSingle(w);
      SplitHead(ws);
    } else if |ws| > 1 {
      var w, tail := ws[0], ws[1..];
      WordsTail(ws);
      JoinCons(ws, ' ');
      WordsCons(w, Join(tail, ' '));
      WordsJoin(tail);
      SplitHead(ws);
    }
  }

  lemma JoinOne(parts: seq<string>, c: char)
    requires |parts| == 1
    ensures Join(parts, c) == parts[0]
  {
  }

  lemma SplitHead<T>(s: seq<T>)
    requires |s| > 0
    ensures s == [s[0]] + s[1..]
  {
  }

  lemma ConcatHead<T>(a: seq<T>, b: seq<T>)
    requires |a| > 0
    ensures (a + b)[0] == a[0] && (a + b)[1..] == a[1..] + b
  {
  }

  lemma ConsConcat<T>(c: T, a: seq<T>, b: seq<T>)
    ensures [c] + (a + b) == ([c] + a) + b
  {
  }

  lemma WordsTail(ws: seq<string>)
    requires |ws| > 0 && forall k | 0 <= k < |ws| :: IsWord(ws[k])
    ensures IsWord(ws[0]) && forall k | 0 <= k < |ws[1..]| :: IsWord(ws[1..][k])
  {
    forall k | 0 <= k < |ws[1..]| ensures IsWord(ws[1..][k]) {
      assert ws[1..][k] == ws[k + 1];
    }
  }

  lemma JoinCons(parts: seq<string>, c: char)
    requires |parts| > 1
    ensures Join(parts, c) == parts[0] + [c] + Join(parts[1..], c)
  {
  }

  lemma WordsSingle(w: string)
    requires IsWord(w)
    ensures Words(w) == [w]
  {
    TrimStartByNoop(w, IsSpace);
    WordLengthOf(w, "");
    assert w + "" == w;
    assert w[..|w|] == w;
    assert w[|w|..] == [];
    assert Words([]) == [];
  }

  lemma WordsCons(w: string, rest: string)
    requires IsWord(w)
    ensures Words(w + [' '] + rest) == [w] + Words(rest)
  {
    var s := w + [' '] + rest;
    TrimStartByNoop(s, IsSpace);
    assert s == w + ([' '] + rest);
    WordLengthOf(w, [' '] + rest);
    assert s[..|w|] == w;
    assert s[|w|..] == [' '] + rest;
    WordsLeadingSpace(rest);
  }

  lemma WordLengthOf(w: string, rest: string)
    requires IsWord(w)
    requires rest == [] || IsSpace(rest[0])
    ensures WordLength(w + rest) == |w|
    decreases |w|
  {
    if |w| > 1 {
      assert (w + rest)[1..] == w[1..] + rest;
      WordLengthOf(w[1..], rest);
    } else {
      assert (w + rest)[1..] == rest;
    }
  }

  lemma WordsLeadingSpace(rest: string)
    ensures Words([' '] + rest) == Words(rest)
  {
    assert ([' '] + rest)[1..] == rest;
  }

  // ---------------------------------------------------------------------
  // Decimal integers

  predicate AllDigits(s: string) {
    forall k | 0 <= k < |s| :: IsDigit(s[k])
  }

  predicate IsDigits(s: string) {
    |s| > 0 && AllDigits(s)
  }

  function DigitChar(d: nat): (c: char)
    requires d < 10
    ensures IsDigit(c)
  {
    ('0' as int + d) as char
  }

  /** The value of a run of decimal digits, leading zeros allowed. */
  function DigitsValue(s: string): nat
    requires AllDigits(s)
  {
    if |s| == 0 then 0
    else DigitsValue(s[..|s| - 1]) * 10 + (s[|s| - 1] as int - '0' as int)
  }

  /** The canonical decimal spelling of a natural number. */
  function NatToDigits(n: nat): (s: string)
    ensures IsDigits(s)
  {
    if n < 10 then [DigitChar(n)] else NatToDigits(n / 10) + [DigitChar(n % 10)]
  }

  lemma {:induction false} DigitsRoundTrip(n: nat)
    ensures DigitsValue(NatToDigits(n)) == n
  {
    if n >= 10 {
      var s := NatToDigits(n);
      assert s[..|s| - 1] == NatToDigits(n / 10);
      DigitsRoundTrip(n / 10);
    }
  }

  /** `f"{n}"` for an integer. */
  function IntToString(n: int): (s: string)
    ensures |s| > 0 && !IsSpace(s[0]) && !IsSpace(s[|s| - 1])
    ensures '-' !in s[1..] && ' ' !in s
  {
    if n < 0 then "-" + NatToDigits(-n) else NatToDigits(n)
  }

  /** The message of the `ValueError` that `int(s)` raises on text that is not an integer literal. */
  function IntLiteralError(s: string): string {
    "invalid literal for int() with base 10: " + StrRepr(s)
  }

  /**
    `int(s)` for ASCII text: surrounding whitespace, then an optional sign,
    then at least one digit. `None` stands for the `ValueError` Python raises.
   */
  function ParseInt(s: string): (r: Option<int>)
    ensures r.Some? ==> exists k :: 0 <= k < |s| && IsDigit(s[k])
  {
    var t := Strip(s);
    if |t| > 0 && (t[0] == '+' || t[0] == '-') then
      var body := t[1..];
      if IsDigits(body) then
        assert Strip(s) == t;
        StripInside(s);
        var v: int := if t[0] == '-' then -(DigitsValue(body) as int) else DigitsValue(body);
        Some(v)
      else None
    else if IsDigits(t) then
      StripInside(s);
      Some(DigitsValue(t))
    else None
  }

  lemma StripInside(s: string)
    ensures forall k | 0 <= k < |Strip(s)| :: Strip(s)[k] in s
  {
    var t := TrimStartBy(s, IsSpace);
    var r := TrimEndBy(t, IsSpace);
    forall k | 0 <= k < |r| ensures r[k] in s {
      assert r[k] == t[k] == s[|s| - |t| + k];
    }
  }

  /** Printing an integer and parsing it back gives the same integer. */
  lemma ParseIntToString(n: int)
    ensures ParseInt(IntToString(n)) == Some(n)
  {
    if n < 0 {
      DigitsRoundTrip(-n);
      ParseIntNegative(NatToDigits(-n));
    } else {
      DigitsRoundTrip(n);
      ParseIntDigits(NatToDigits(n));
    }
  }

  lemma ParseIntDigits(d: string)
    requires IsDigits(d)
    ensures ParseInt(d) == Some(DigitsValue(d) as int)
  {
    assert !IsSpace(d[0]) && !IsSpace(d[|d| - 1]);
    TrimStartByNoop(d, IsSpace);
    TrimEndByNoop(d, IsSpace);
    assert Strip(d) == d;
    assert d[0] != '+' && d[0] != '-';
  }

  lemma ParseIntNegative(d: string)
    requires IsDigits(d)
    ensures ParseInt("-" + d) == Some(-(DigitsValue(d) as int))
  {
    var s := "-" + d;
    assert s[0] == '-' && s[|s| - 1] == d[|d| - 1];
    TrimStartByNoop(s, IsSpace);
    TrimEndByNoop(s, IsSpace);
    assert Strip(s) == s;
    assert s[1..] == d;
  }
}
