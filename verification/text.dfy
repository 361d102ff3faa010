/** The string operations the clinic's code borrows from JavaScript:
    `includes`, `startsWith`, `trim`, `toLowerCase`, `split`, `join`,
    `parseInt`, number-to-string conversion and the digit-stripping
    `replace(/\D/g, '')`. Strings are sequences of characters; lower-casing
    is ASCII only. */
module Text {
  import opened Wrappers
  import opened Lists

  // ---------------------------------------------------------------------
  // Characters

  predicate IsDigit(c: char) {
    '0' <= c <= '9'
  }

  predicate AllDigits(s: string) {
    forall i :: 0 <= i < |s| ==> IsDigit(s[i])
  }

  /** The characters `String.prototype.trim` and `parseInt` skip: the
      white-space and line-terminator characters of ECMAScript. */
  predicate IsSpace(c: char) {
    c == ' ' || c == '\t' || c == '\n' || c == '\r' || c == '\U{000B}' || c == '\U{000C}'
    || c == '\U{00A0}' || c == '\U{1680}' || ('\U{2000}' <= c <= '\U{200A}')
    || c == '\U{2028}' || c == '\U{2029}' || c == '\U{202F}' || c == '\U{205F}'
    || c == '\U{3000}' || c == '\U{FEFF}'
  }

  /** True of a string that `trim()` turns into the empty (falsy) string. */
  predicate IsBlank(s: string) {
    forall i :: 0 <= i < |s| ==> IsSpace(s[i])
  }

  function LowerChar(c: char): char {
    if 'A' <= c <= 'Z' then (c as int + 32) as char else c
  }

  /** `toLowerCase`, restricted to ASCII letters. */
  function ToLower(s: string): (r: string)
    ensures |r| == |s|
    ensures forall i :: 0 <= i < |s| ==> r[i] == LowerChar(s[i])
  {
    seq(|s|, i requires 0 <= i < |s| => LowerChar(s[i]))
  }

  // ---------------------------------------------------------------------
  // Prefixes and substrings

  predicate StartsWith(s: string, p: string) {
    |p| <= |s| && s[..|p|] == p
  }

  /** `s.includes(sub)`: some position of `s` starts an occurrence of `sub`. */
  predicate Contains(s: string, sub: string)
    decreases |s|
  {
    StartsWith(s, sub) || (|s| > 0 && Contains(s[1..], sub))
  }

  /** An occurrence of `sub` at position `i` of `s`. */
  predicate OccursAt(s: string, sub: string, i: int) {
    0 <= i && i + |sub| <= |s| && s[i..i + |sub|] == sub
  }

  /** `Contains` agrees with the positional reading of `includes`. */
  lemma {:induction false} ContainsIff(s: string, sub: string)
    ensures Contains(s, sub) <==> exists i :: OccursAt(s, sub, i)
    decreases |s|
  {
    if Contains(s, sub) {
      if StartsWith(s, sub) {
        assert OccursAt(s, sub, 0);
      } else {
        ContainsIff(s[1..], sub);
        var i :| OccursAt(s[1..], sub, i);
        assert s[1..][i..i + |sub|] == s[i + 1..i + 1 + |sub|];
        assert OccursAt(s, sub, i + 1);
      }
    }
    if exists i :: OccursAt(s, sub, i) {
      var i :| OccursAt(s, sub, i);
      ContainsAt(s, sub, i);
    }
  }

  lemma {:induction false} ContainsAt(s: string, sub: string, i: int)
    requires OccursAt(s, sub, i)
    ensures Contains(s, sub)
    decreases i
  {
    if i == 0 {
      assert s[..|sub|] == s[0..|sub|];
    } else {
      assert s[1..][i - 1..i - 1 + |sub|] == s[i..i + |sub|];
      ContainsAt(s[1..], sub, i - 1);
    }
  }

  /** Whatever contains `b` in the middle contains `b`. */
  lemma {:induction false} ContainsInfix(a: string, b: string, c: string)
    ensures Contains(a + b + c, b)
  {
    assert (a + b + c)[|a|..|a| + |b|] == b;
    ContainsAt(a + b + c, b, |a|);
  }

  /** Whatever contains a non-empty `sub` contains its first character. */
  lemma {:induction false} ContainsHead(s: string, sub: string)
    requires |sub| > 0
    ensures Contains(s, sub) ==> sub[0] in s
  {
    ContainsIff(s, sub);
    if Contains(s, sub) {
      var i :| OccursAt(s, sub, i);
      assert s[i] == s[i..i + |sub|][0];
    }
  }

  /** Prefixing by characters none of which can begin `sub` creates no
      occurrence of `sub`. */
  lemma {:induction false} ContainsAfterPrefix(p: string, v: string, sub: string)
    requires |sub| > 0 && sub[0] !in p
    ensures Contains(p + v, sub) ==> Contains(v, sub)
  {
    ContainsIff(p + v, sub);
    ContainsIff(v, sub);
    if Contains(p + v, sub) {
      var i :| OccursAt(p + v, sub, i);
      assert forall j :: 0 <= j < |p| ==> (p + v)[j] == p[j] && p[j] in p;
      assert (p + v)[i] == (p + v)[i..i + |sub|][0] == sub[0];
      assert i >= |p|;
      assert (p + v)[|p|..] == v;
      assert (p + v)[i..i + |sub|] == (p + v)[|p|..][i - |p|..i - |p| + |sub|];
      assert OccursAt(v, sub, i - |p|);
    }
  }

  /** An occurrence of `sub` in `x + [c] + y` lies in `x`, lies in `y`, or
      covers the seam character `c`. */
  lemma {:induction false} ContainsAcrossSeam(x: string, c: char, y: string, sub: string)
    ensures Contains(x + [c] + y, sub) ==> Contains(x, sub) || Contains(y, sub) || c in sub
  {
    if Contains(x + [c] + y, sub) {
      ContainsIff(x + [c] + y, sub);
      var i :| OccursAt(x + [c] + y, sub, i);
      SeamOccurrence(x, c, y, sub, i);
    }
  }

  /** An occurrence in `x + [c] + y` lies in `x`, in `y`, or covers `c`. */
  lemma {:induction false} SeamOccurrence(x: string, c: char, y: string, sub: string, i: int)
    requires OccursAt(x + [c] + y, sub, i)
    ensures Contains(x, sub) || Contains(y, sub) || c in sub
  {
    var s := x + [c] + y;
    SeamParts(x, c, y);
    if i + |sub| <= |x| {
      SliceOfSlice(s, 0, x, i, |sub|);
      ContainsAt(x, sub, i);
    } else if i > |x| {
      SliceOfSlice(s, |x| + 1, y, i - |x| - 1, |sub|);
      ContainsAt(y, sub, i - |x| - 1);
    } else {
      SliceOfSlice(s, i, sub, |x| - i, 1);
      assert sub[|x| - i] == sub[|x| - i..|x| - i + 1][0];
    }
  }

  lemma {:induction false} SeamParts(x: string, c: char, y: string)
    ensures (x + [c] + y)[0..|x|] == x && (x + [c] + y)[|x|] == c
    ensures (x + [c] + y)[|x| + 1..|x| + 1 + |y|] == y
  {
  }

  /** A character in neither part is not in their concatenation. */
  lemma {:induction false} NotInJoin(a: string, b: string, c: char)
    requires c !in a && c !in b
    ensures c !in a + b
  {
  }

  /** A slice of an occurrence of `t` at `k` is the same slice of `t`. */
  lemma {:induction false} SliceOfSlice(s: string, k: int, t: string, j: int, n: int)
    requires 0 <= k && k + |t| <= |s| && s[k..k + |t|] == t
    requires 0 <= j && 0 <= n && j + n <= |t|
    ensures s[k + j..k + j + n] == t[j..j + n]
  {
    var a, b := s[k + j..k + j + n], t[j..j + n];
    forall m | 0 <= m < n
      ensures a[m] == b[m]
    {
      assert s[k + j + m] == s[k..k + |t|][j + m];
    }
  }

  /** Whatever contains `a + b` contains `b`. */
  lemma {:induction false} ContainsSuffix(s: string, a: string, b: string)
    ensures Contains(s, a + b) ==> Contains(s, b)
  {
    ContainsIff(s, a + b);
    ContainsIff(s, b);
    if Contains(s, a + b) {
      var i :| OccursAt(s, a + b, i);
      assert s[i + |a|..i + |a| + |b|] == s[i..i + |a + b|][|a|..];
      assert (a + b)[|a|..] == b;
      assert OccursAt(s, b, i + |a|);
    }
  }

  /** A string shorter than `sub` cannot contain it. */
  lemma {:induction false} ContainsLength(s: string, sub: string)
    ensures Contains(s, sub) ==> |sub| <= |s|
  {
    ContainsIff(s, sub);
  }

  // ---------------------------------------------------------------------
  // Trimming

  function TrimStart(s: string): (r: string)
    ensures |r| <= |s| && r == s[|s| - |r|..]
    ensures |r| > 0 ==> !IsSpace(r[0])
    ensures IsBlank(s[..|s| - |r|])
    decreases |s|
  {
    if |s| > 0 && IsSpace(s[0]) then
      var r := TrimStart(s[1..]);
      assert s[..|s| - |r|] == [s[0]] + s[1..][..|s| - 1 - |r|];
      r
    else s
  }

  function TrimEnd(s: string): (r: string)
    ensures |r| <= |s| && r == s[..|r|]
    ensures |r| > 0 ==> !IsSpace(r[|r| - 1])
    ensures IsBlank(s[|r|..])
    decreases |s|
  {
    if |s| > 0 && IsSpace(s[|s| - 1]) then
      var r := TrimEnd(s[..|s| - 1]);
      assert s[|r|..] == s[..|s| - 1][|r|..] + [s[|s| - 1]];
      r
    else s
  }

  /** `s.trim()`: the string without its leading and trailing white space;
      it is empty exactly when `s` is blank. */
  function Trim(s: string): (r: string)
    ensures |r| == 0 <==> IsBlank(s)
    ensures |r| > 0 ==> !IsSpace(r[0]) && !IsSpace(r[|r| - 1])
    ensures !IsBlank(s) ==> Contains(s, r)
  {
    TrimEmpty(s);
    TrimInside(s);
    TrimEnd(TrimStart(s))
  }

  /** A string with no white space at either end is its own trim. */
  lemma {:induction false} TrimKeeps(s: string)
    requires |s| > 0 && !IsSpace(s[0]) && !IsSpace(s[|s| - 1])
    ensures Trim(s) == s
  {
  }

  lemma {:induction false} TrimEmpty(s: string)
    ensures |TrimEnd(TrimStart(s))| == 0 <==> IsBlank(s)
  {
    TrimEmptyBlank(s);
    TrimNonEmpty(s);
  }

  lemma {:induction false} TrimEmptyBlank(s: string)
    ensures |TrimEnd(TrimStart(s))| == 0 ==> IsBlank(s)
  {
    var t := TrimStart(s);
    var lead := s[..|s| - |t|];
    assert s == lead + t;
    if |TrimEnd(t)| == 0 {
      assert t[0..] == t;
      BlankAppend(lead, t);
    }
  }

  lemma {:induction false} TrimNonEmpty(s: string)
    ensures |TrimEnd(TrimStart(s))| > 0 ==> !IsSpace(s[|s| - |TrimStart(s)|])
  {
    var t := TrimStart(s);
    var r := TrimEnd(t);
    if |r| > 0 {
      assert t[0] == r[0];
    }
  }

  lemma {:induction false} BlankAppend(a: string, b: string)
    requires IsBlank(a) && IsBlank(b)
    ensures IsBlank(a + b)
  {
    forall i | 0 <= i < |a + b|
      ensures IsSpace((a + b)[i])
    {
      if i < |a| {
        assert (a + b)[i] == a[i];
      } else {
        assert (a + b)[i] == b[i - |a|];
      }
    }
  }

  lemma {:induction false} TrimInside(s: string)
    ensures var r := TrimEnd(TrimStart(s)); |r| > 0 ==> Contains(s, r)
  {
    var t := TrimStart(s);
    PrefixOfSuffix(s, t, TrimEnd(t));
  }

  /** A prefix of a suffix of `s` occurs in `s`. */
  lemma {:induction false} PrefixOfSuffix(s: string, t: string, r: string)
    requires |t| <= |s| && t == s[|s| - |t|..]
    requires |r| <= |t| && r == t[..|r|]
    ensures Contains(s, r)
  {
    var lead := s[..|s| - |t|];
    assert s == lead + r + t[|r|..];
    ContainsInfix(lead, r, t[|r|..]);
  }

  // ---------------------------------------------------------------------
  // Splitting and joining

  /** `s.split(sep)` for a non-empty separator: the pieces between the
      leftmost non-overlapping occurrences of `sep`. */
  function Split(s: string, sep: string): (r: seq<string>)
    requires |sep| > 0
    ensures |r| > 0
    decreases |s|
  {
    if |s| < |sep| then [s]
    else if s[..|sep|] == sep then [""] + Split(s[|sep|..], sep)
    else
      var rest := Split(s[1..], sep);
      [[s[0]] + rest[0]] + rest[1..]
  }

  /** `parts.join(sep)`. */
  function Join(parts: seq<string>, sep: string): string {
    if |parts| == 0 then ""
    else if |parts| == 1 then parts[0]
    else parts[0] + sep + Join(parts[1..], sep)
  }

  /** A string in which `sep` does not occur is a single piece. */
  lemma {:induction false} SplitWithout(s: string, sep: string)
    requires |sep| > 0 && !Contains(s, sep)
    ensures Split(s, sep) == [s]
    decreases |s|
  {
    if |s| >= |sep| {
      assert !StartsWith(s, sep);
      SplitWithout(s[1..], sep);
      assert [s[0]] + s[1..] == s;
    }
  }

  /** The first piece of `a + sep + b` is `a` when no occurrence of `sep`
      begins inside `a` (the occurrence that begins at the end of `a` is
      the first one). */
  lemma {:induction false} SplitAfter(a: string, sep: string, b: string)
    requires |sep| > 0 && !Contains(a + sep[..|sep| - 1], sep)
    ensures Split(a + sep + b, sep) == [a] + Split(b, sep)
    decreases |a|
  {
    var s := a + sep + b;
    if |a| == 0 {
      assert s[..|sep|] == sep;
      assert s[|sep|..] == b;
    } else {
      var w := a + sep[..|sep| - 1];
      assert s[..|sep|] == w[..|sep|];
      assert !StartsWith(w, sep);
      assert w[1..] == a[1..] + sep[..|sep| - 1];
      SplitAfter(a[1..], sep, b);
      assert s[1..] == a[1..] + sep + b;
      assert [s[0]] + a[1..] == a;
    }
  }

  /** Splitting a join on a one-character separator that no part contains
      recovers the parts. */
  lemma {:induction false} SplitJoin(parts: seq<string>, c: char)
    requires |parts| > 0
    requires forall i :: 0 <= i < |parts| ==> c !in parts[i]
    ensures Split(Join(parts, [c]), [c]) == parts
    decreases |parts|
  {
    ContainsHead(parts[0], [c]);
    if |parts| == 1 {
      SplitWithout(parts[0], [c]);
    } else {
      assert parts[0] + [c][..0] == parts[0];
      SplitAfter(parts[0], [c], Join(parts[1..], [c]));
      SplitJoin(parts[1..], c);
      assert parts == [parts[0]] + parts[1..];
    }
  }

  lemma {:induction false} JoinSnoc(parts: seq<string>, x: string, sep: string)
    requires |parts| > 0
    ensures Join(parts + [x], sep) == Join(parts, sep) + sep + x
    decreases |parts|
  {
    if |parts| > 1 {
      assert (parts + [x])[1..] == parts[1..] + [x];
      JoinSnoc(parts[1..], x, sep);
    }
  }

  /** A join contains `sub` only if some part does, when the separator
      character cannot appear in `sub`. */
  lemma {:induction false} ContainsJoin(parts: seq<string>, c: char, sub: string)
    requires |sub| > 0 && c !in sub
    ensures Contains(Join(parts, [c]), sub) ==> exists i :: 0 <= i < |parts| && Contains(parts[i], sub)
    decreases |parts|
  {
    if |parts| == 0 {
      ContainsLength("", sub);
    } else if |parts| > 1 {
      ContainsJoin(parts[1..], c, sub);
      ContainsAcrossSeam(parts[0], c, Join(parts[1..], [c]), sub);
      if Contains(Join(parts[1..], [c]), sub) {
        var i :| 0 <= i < |parts[1..]| && Contains(parts[1..][i], sub);
        assert Contains(parts[i + 1], sub);
      }
    }
  }

  // ---------------------------------------------------------------------
  // Numbers

  function DigitValue(c: char): nat
    requires IsDigit(c)
  {
    c as int - '0' as int
  }

  function DigitChar(n: nat): (c: char)
    requires n < 10
    ensures IsDigit(c) && DigitValue(c) == n
  {
    ('0' as int + n) as char
  }

  /** The value of a decimal digit string. */
  function DigitsValue(d: string): nat
    requires AllDigits(d)
  {
    if |d| == 0 then 0 else DigitsValue(d[..|d| - 1]) * 10 + DigitValue(d[|d| - 1])
  }

  /** The longest run of digits at the start of `s`. */
  function LeadingDigits(s: string): (d: string)
    ensures AllDigits(d) && StartsWith(s, d)
    ensures |d| < |s| ==> !IsDigit(s[|d|])
    decreases |s|
  {
    if |s| > 0 && IsDigit(s[0]) then [s[0]] + LeadingDigits(s[1..]) else ""
  }

  lemma {:induction false} LeadingDigitsOf(d: string, rest: string)
    requires AllDigits(d)
    requires |rest| == 0 || !IsDigit(rest[0])
    ensures LeadingDigits(d + rest) == d
    decreases |d|
  {
    if |d| > 0 {
      assert (d + rest)[1..] == d[1..] + rest;
      LeadingDigitsOf(d[1..], rest);
      assert [d[0]] + d[1..] == d;
    }
  }

  /** JavaScript `parseInt(s)` in base ten: leading white space, an optional
      sign, then the longest run of digits; `None` stands for `NaN`. */
  function ParseInt(s: string): (r: Option<int>)
    ensures r.None? <==> |LeadingDigits(Unsigned(TrimStart(s)))| == 0
    ensures r.Some? && !IsNegative(TrimStart(s)) ==> r.value >= 0
  {
    var t := TrimStart(s);
    var d := LeadingDigits(Unsigned(t));
    var v: int := if |d| == 0 then 0 else DigitsValue(d);
    if |d| == 0 then None
    else if IsNegative(t) then Some(-v)
    else Some(v)
  }

  predicate IsNegative(t: string) {
    |t| > 0 && t[0] == '-'
  }

  function Unsigned(t: string): string {
    if |t| > 0 && (t[0] == '-' || t[0] == '+') then t[1..] else t
  }

  /** The decimal representation of a natural number (template literal
      `${n}`): digits only, and its value is `n`. */
  function NatToString(n: nat): (s: string)
    ensures |s| > 0 && AllDigits(s)
    ensures DigitsValue(s) == n
    decreases n
  {
    if n < 10 then [DigitChar(n)]
    else
      var p := NatToString(n / 10);
      var s := p + [DigitChar(n % 10)];
      assert s[..|s| - 1] == p;
      s
  }

  /** `parseInt` reads back a printed natural number followed by anything
      that does not continue the digits. */
  lemma {:induction false} ParseIntOfNat(n: nat, rest: string)
    requires |rest| == 0 || !IsDigit(rest[0])
    ensures ParseInt(NatToString(n) + rest) == Some(n)
  {
    ParseIntOfDigits(NatToString(n), rest);
  }

  /** `parseInt` reads a run of digits followed by anything that does not
      continue it as the run's value. */
  lemma {:induction false} ParseIntOfDigits(d: string, rest: string)
    requires |d| > 0 && AllDigits(d)
    requires |rest| == 0 || !IsDigit(rest[0])
    ensures ParseInt(d + rest) == Some(DigitsValue(d))
  {
    var s := d + rest;
    assert s[0] == d[0] && IsDigit(s[0]);
    assert !IsSpace(s[0]);
    assert TrimStart(s) == s;
    assert !IsNegative(s) && Unsigned(s) == s;
    LeadingDigitsOf(d, rest);
  }

  /** `s.replace(/\D/g, '')`: the digits of `s`, in order. */
  function DigitsOnly(s: string): (r: string)
    ensures AllDigits(r)
    ensures |r| <= |s|
    ensures AllDigits(s) ==> r == s
    ensures forall c :: c in r <==> c in s && IsDigit(c)
    decreases |s|
  {
    if |s| == 0 then ""
    else if IsDigit(s[0]) then [s[0]] + DigitsOnly(s[1..])
    else DigitsOnly(s[1..])
  }

  /** Stripping the non-digits is filtering for the digits. */
  lemma {:induction false} DigitsAreFilter(s: string)
    ensures DigitsOnly(s) == Filter(s, IsDigit)
    decreases |s|
  {
    if |s| > 0 {
      DigitsAreFilter(s[1..]);
    }
  }
}
