/** The JavaScript string operations and regular-expression character classes
    the backend and the pages rely on: `\d`, `\s`, `\w`, `[A-Z]`, the `.` of a
    pattern without the `s` flag, `String.prototype.trim`, `toLowerCase`,
    `split(" ")` and `parseInt(s, 10)`. Strings are sequences of characters
    (Unicode scalar values). */
module JsText {
  import opened Wrappers

  predicate IsUpper(c: char) { 'A' <= c <= 'Z' }
  predicate IsLower(c: char) { 'a' <= c <= 'z' }
  /** `\d`: ASCII digits only (no `u` flag). */
  predicate IsDigit(c: char) { '0' <= c <= '9' }
  predicate IsAlnum(c: char) { IsUpper(c) || IsLower(c) || IsDigit(c) }
  /** `\w` */
  predicate IsWordChar(c: char) { IsAlnum(c) || c == '_' }

  /** The line terminators, the characters a `.` in a pattern does not match. */
  predicate IsLineTerminator(c: char) {
    c == '\n' || c == '\r' || c == '\U{2028}' || c == '\U{2029}'
  }

  /** `\s`, which is also the set of characters `trim()` and `parseInt` skip. */
  predicate IsSpace(c: char) {
    || c == '\t' || c == '\n' || c == '\U{B}' || c == '\U{C}' || c == '\r' || c == ' '
    || c == '\U{A0}' || c == '\U{1680}' || ('\U{2000}' <= c <= '\U{200A}')
    || c == '\U{2028}' || c == '\U{2029}' || c == '\U{202F}' || c == '\U{205F}'
    || c == '\U{3000}' || c == '\U{FEFF}'
  }

  predicate HasUpper(s: string) { exists i :: 0 <= i < |s| && IsUpper(s[i]) }
  predicate HasLower(s: string) { exists i :: 0 <= i < |s| && IsLower(s[i]) }
  predicate HasDigit(s: string) { exists i :: 0 <= i < |s| && IsDigit(s[i]) }
  /** `[^A-Za-z0-9]` finds a match in `s`. */
  predicate HasNonAlnum(s: string) { exists i :: 0 <= i < |s| && !IsAlnum(s[i]) }
  predicate HasLineTerminator(s: string) { exists i :: 0 <= i < |s| && IsLineTerminator(s[i]) }
  predicate HasSpace(s: string) { exists i :: 0 <= i < |s| && IsSpace(s[i]) }

  // ---------------------------------------------------------------- trim

  /** Leading white space skipped: what is left does not start with white
      space (see `TrimStartSkipsSpace` for what was removed). */
  function TrimStart(s: string): (r: string)
    ensures |r| <= |s|
    ensures r == [] || !IsSpace(r[0])
  {
    if s != [] && IsSpace(s[0]) then TrimStart(s[1..]) else s
  }

  /** `TrimStart` keeps a suffix of `s` and removes only white space. */
  lemma {:induction false} TrimStartSkipsSpace(s: string)
    ensures var r := TrimStart(s);
            r == s[|s| - |r|..] && forall i :: 0 <= i < |s| - |r| ==> IsSpace(s[i])
  {
    if s != [] && IsSpace(s[0]) {
      TrimStartSkipsSpace(s[1..]);
      var r := TrimStart(s);
      assert r == s[1..][|s| - 1 - |r|..] == s[|s| - |r|..];
      forall i | 0 <= i < |s| - |r| ensures IsSpace(s[i]) {
        if i > 0 { assert s[i] == s[1..][i - 1]; }
      }
    }
  }

  /** Neither starts nor ends with white space. */
  predicate IsTrimmed(s: string)
  {
    s == [] || (!IsSpace(s[0]) && !IsSpace(s[|s| - 1]))
  }

  /** `String.prototype.trim`: what is left starts and ends with a non-space
      (see `TrimEmptyIffAllSpace` and `TrimKeepsInner` for what was removed). */
  function Trim(s: string): (r: string)
    ensures |r| <= |s|
    ensures IsTrimmed(r)
  {
    if s == [] then s
    else if IsSpace(s[0]) then Trim(s[1..])
    else if IsSpace(s[|s| - 1]) then Trim(s[..|s| - 1])
    else s
  }

  /** Only white space lies before position `k` and from `k + n` on. */
  predicate SpaceAround(s: string, k: int, n: int)
  {
    0 <= k && 0 <= n && k + n <= |s|
    && (forall i :: 0 <= i < k ==> IsSpace(s[i]))
    && (forall i :: k + n <= i < |s| ==> IsSpace(s[i]))
  }

  /** `trim` leaves nothing exactly when the input is all white space. */
  lemma {:induction false} TrimEmptyIffAllSpace(s: string)
    ensures Trim(s) == [] <==> forall i :: 0 <= i < |s| ==> IsSpace(s[i])
  {
    if s == [] {
    } else if IsSpace(s[0]) {
      TrimEmptyIffAllSpace(s[1..]);
      assert forall i :: 0 < i < |s| ==> s[i] == s[1..][i - 1];
    } else if IsSpace(s[|s| - 1]) {
      TrimEmptyIffAllSpace(s[..|s| - 1]);
      assert forall i :: 0 <= i < |s| - 1 ==> s[i] == s[..|s| - 1][i];
    }
  }

  /** White space at the front of `s` widens what lies before the kept run. */
  lemma {:induction false} SpaceAroundFront(s: string, k: int, n: int)
    requires s != [] && IsSpace(s[0]) && SpaceAround(s[1..], k, n)
    ensures SpaceAround(s, k + 1, n) && s[1..][k..k + n] == s[k + 1..k + 1 + n]
  {
    forall i | 0 <= i < k + 1 ensures IsSpace(s[i]) {
      if i > 0 { assert s[i] == s[1..][i - 1]; }
    }
    forall i | k + 1 + n <= i < |s| ensures IsSpace(s[i]) {
      assert s[i] == s[1..][i - 1];
    }
  }

  /** White space at the back of `s` widens what lies after the kept run. */
  lemma {:induction false} SpaceAroundBack(s: string, k: int, n: int)
    requires s != [] && IsSpace(s[|s| - 1]) && SpaceAround(s[..|s| - 1], k, n)
    ensures SpaceAround(s, k, n) && s[..|s| - 1][k..k + n] == s[k..k + n]
  {
    forall i | 0 <= i < k ensures IsSpace(s[i]) {
      assert s[i] == s[..|s| - 1][i];
    }
    forall i | k + n <= i < |s| ensures IsSpace(s[i]) {
      if i < |s| - 1 { assert s[i] == s[..|s| - 1][i]; }
    }
  }

  /** What `trim` keeps is a run of `s` with only white space on either side. */
  lemma {:induction false} TrimKeepsInner(s: string)
    ensures exists k :: SpaceAround(s, k, |Trim(s)|) && Trim(s) == s[k..k + |Trim(s)|]
  {
    var r := Trim(s);
    if s == [] {
      assert SpaceAround(s, 0, 0) && r == s[0..0];
    } else if IsSpace(s[0]) {
      TrimKeepsInner(s[1..]);
      var k :| SpaceAround(s[1..], k, |r|) && r == s[1..][k..k + |r|];
      SpaceAroundFront(s, k, |r|);
    } else if IsSpace(s[|s| - 1]) {
      TrimKeepsInner(s[..|s| - 1]);
      var k :| SpaceAround(s[..|s| - 1], k, |r|) && r == s[..|s| - 1][k..k + |r|];
      SpaceAroundBack(s, k, |r|);
    } else {
      assert SpaceAround(s, 0, |s|) && r == s[0..|s|];
    }
  }

  /** A trimmed string is its own trim; so trimming twice is trimming once. */
  lemma {:induction false} TrimmedIsFixed(s: string)
    requires IsTrimmed(s)
    ensures Trim(s) == s
  {
  }

  // ---------------------------------------------------------------- toLowerCase

  function ToLowerChar(c: char): (d: char)
    ensures !IsUpper(d)
    ensures IsUpper(c) ==> IsLower(d) && d as int == c as int + 32
    ensures !IsUpper(c) ==> d == c
  {
    if IsUpper(c) then (c as int + 32) as char else c
  }

  /** `toLowerCase`, restricted to the ASCII letters. */
  function ToLower(s: string): (r: string)
    ensures |r| == |s|
    ensures forall i :: 0 <= i < |s| ==> r[i] == ToLowerChar(s[i])
  {
    seq(|s|, i requires 0 <= i < |s| => ToLowerChar(s[i]))
  }

  /** Lower-casing neither adds nor removes white space. */
  lemma {:induction false} ToLowerKeepsSpace(s: string)
    ensures HasSpace(ToLower(s)) <==> HasSpace(s)
  {
    forall i | 0 <= i < |s| ensures IsSpace(ToLower(s)[i]) <==> IsSpace(s[i]) {
      if IsUpper(s[i]) {
        assert !IsSpace(s[i]) && !IsSpace(ToLower(s)[i]);
      }
    }
  }

  // ---------------------------------------------------------------- split(" ")

  /** `s.split(" ")`: the pieces between single spaces, empty pieces included. */
  function Split(s: string): (parts: seq<string>)
    ensures |parts| >= 1
  {
    if s == [] then [""]
    else if s[0] == ' ' then [""] + Split(s[1..])
    else var rest := Split(s[1..]); [[s[0]] + rest[0]] + rest[1..]
  }

  /** A string without a space is its own only piece. */
  lemma {:induction false} SplitNoSpace(s: string)
    requires ' ' !in s
    ensures Split(s) == [s]
  {
    if s != [] {
      assert ' ' !in s[1..] by {
        forall i | 0 <= i < |s[1..]| ensures s[1..][i] != ' ' { assert s[1..][i] == s[i + 1]; }
      }
      SplitNoSpace(s[1..]);
      assert [s[0]] + s[1..] == s;
    }
  }

  /** The piece before the first space comes first, then the pieces of the rest. */
  lemma {:induction false} SplitAtFirstSpace(a: string, b: string)
    requires ' ' !in a
    ensures Split(a + " " + b) == [a] + Split(b)
  {
    var s := a + " " + b;
    if a == [] {
      assert s == " " + b && s[1..] == b;
    } else {
      assert s[0] == a[0] && a[0] != ' ';
      assert s[1..] == a[1..] + " " + b;
      assert ' ' !in a[1..] by {
        forall i | 0 <= i < |a[1..]| ensures a[1..][i] != ' ' { assert a[1..][i] == a[i + 1]; }
      }
      SplitAtFirstSpace(a[1..], b);
      assert [a[0]] + a[1..] == a;
    }
  }

  // ---------------------------------------------------------------- parseInt(s, 10)

  /** The longest prefix of decimal digits. */
  function DigitPrefix(s: string): (d: string)
    ensures |d| <= |s|
    ensures forall i :: 0 <= i < |d| ==> IsDigit(d[i])
    ensures |d| < |s| ==> !IsDigit(s[|d|])
  {
    if s != [] && IsDigit(s[0]) then [s[0]] + DigitPrefix(s[1..]) else []
  }

  /** The digits read are where they stand in `s`. */
  lemma {:induction false} DigitPrefixIsPrefix(s: string)
    ensures DigitPrefix(s) == s[..|DigitPrefix(s)|]
  {
    if s != [] && IsDigit(s[0]) {
      DigitPrefixIsPrefix(s[1..]);
      var d := DigitPrefix(s[1..]);
      assert s[1..][..|d|] == s[1..|d| + 1];
      assert [s[0]] + s[1..|d| + 1] == s[..|d| + 1];
    }
  }

  function DigitValue(c: char): nat
    requires IsDigit(c)
  {
    c as int - '0' as int
  }

  function DigitsValue(d: string): nat
    requires forall i :: 0 <= i < |d| ==> IsDigit(d[i])
  {
    if d == [] then 0 else 10 * DigitsValue(d[..|d| - 1]) + DigitValue(d[|d| - 1])
  }

  /** `parseInt(s, 10)`: leading white space is skipped, one sign is read, then
      the longest run of digits; no digit at all is `NaN`, written `None`. */
  function ParseInt(s: string): Option<int>
  {
    var t := TrimStart(s);
    var negative := t != [] && t[0] == '-';
    var u := if t != [] && (t[0] == '-' || t[0] == '+') then t[1..] else t;
    match LeadingNumber(u)
    case None => None
    case Some(v) => Some(if negative then -(v as int) else v)
  }

  /** The value of the longest run of digits that starts `u`, if there is one. */
  function LeadingNumber(u: string): Option<nat>
  {
    var d := DigitPrefix(u);
    if d == [] then None else Some(DigitsValue(d))
  }

  function DigitChar(k: nat): (c: char)
    requires k < 10
    ensures IsDigit(c) && DigitValue(c) == k
  {
    ('0' as int + k) as char
  }

  /** Decimal text of a natural number; reading it back gives the number. */
  function NatText(n: nat): (d: string)
    ensures |d| >= 1 && forall i :: 0 <= i < |d| ==> IsDigit(d[i])
    ensures DigitsValue(d) == n
  {
    if n < 10 then [DigitChar(n)]
    else
      var d := NatText(n / 10) + [DigitChar(n % 10)];
      assert d[..|d| - 1] == NatText(n / 10);
      d
  }

  /** Decimal text of an integer, as `String(n)` writes it. */
  function IntText(n: int): string
  {
    if n < 0 then "-" + NatText(-n) else NatText(n)
  }

  lemma {:induction false} DigitPrefixOfDigits(d: string, rest: string)
    requires forall i :: 0 <= i < |d| ==> IsDigit(d[i])
    requires rest == [] || !IsDigit(rest[0])
    ensures DigitPrefix(d + rest) == d
  {
    if d == [] {
      assert d + rest == rest;
    } else {
      assert (d + rest)[0] == d[0];
      assert (d + rest)[1..] == d[1..] + rest;
      DigitPrefixOfDigits(d[1..], rest);
      assert [d[0]] + d[1..] == d;
    }
  }

  lemma {:induction false} TrimStartKeeps(s: string)
    requires s != [] && !IsSpace(s[0])
    ensures TrimStart(s) == s
  {
  }

  /** Text that starts with a digit is read from its first character. */
  lemma {:induction false} ParseIntUnsigned(u: string)
    requires u != [] && IsDigit(u[0])
    ensures ParseInt(u) == match LeadingNumber(u) case None => None case Some(v) => Some(v as int)
  {
    TrimStartKeeps(u);
  }

  /** One minus sign in front of a digit negates what follows. */
  lemma {:induction false} ParseIntNegative(u: string)
    requires u != [] && IsDigit(u[0])
    ensures ParseInt("-" + u) == match LeadingNumber(u) case None => None case Some(v) => Some(-(v as int))
  {
    var s := "-" + u;
    TrimStartKeeps(s);
    assert s[1..] == u;
  }

  /** A run of digits stopped by a non-digit is read as its decimal value. */
  lemma {:induction false} LeadingNumberOfDigits(digits: string, rest: string)
    requires digits != [] && forall i :: 0 <= i < |digits| ==> IsDigit(digits[i])
    requires rest == [] || !IsDigit(rest[0])
    ensures LeadingNumber(digits + rest) == Some(DigitsValue(digits))
  {
    DigitPrefixOfDigits(digits, rest);
  }

  /** `parseInt` reads back the decimal text of any integer, whatever follows
      it as long as it does not continue the digits (as in "13.5"). */
  lemma {:induction false} ParseIntOfText(n: int, rest: string)
    requires rest == [] || !IsDigit(rest[0])
    ensures ParseInt(IntText(n) + rest) == Some(n)
  {
    var m: nat := if n < 0 then -n else n;
    var digits := NatText(m);
    var u := digits + rest;
    LeadingNumberOfDigits(digits, rest);
    assert u[0] == digits[0];
    if n < 0 {
      ParseIntNegative(u);
      assert IntText(n) + rest == "-" + u;
    } else {
      ParseIntUnsigned(u);
      assert IntText(n) + rest == u;
    }
  }



}
