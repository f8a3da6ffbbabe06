/** Byte strings and the few string operations the library leans on.  A `char` stands for one
    byte.  The trimming, splitting and upper-casing helpers of the logging library are defined
    here as small explicit functions; the decimal readers follow `std::stoul` and `std::stoi`. */
module Text {
  import opened Wrappers

  const LF := '\n'
  const CRLF := "\r\n"

  /** One more than the largest `std::size_t`. */
  const SIZE_LIMIT: nat := 0x1_0000_0000_0000_0000

  /** `isspace` in the C locale: blank, HT, LF, VT, FF and CR. */
  predicate IsSpace(c: char) {
    c == ' ' || '\t' <= c <= '\r'
  }

  predicate AllSpace(s: string) {
    forall i :: 0 <= i < |s| ==> IsSpace(s[i])
  }

  // ----- Trimming -------------------------------------------------------------------------

  function TrimLeft(s: string): string {
    if s != "" && IsSpace(s[0]) then TrimLeft(s[1..]) else s
  }

  function TrimRight(s: string): string {
    if s != "" && IsSpace(s[|s| - 1]) then TrimRight(s[..|s| - 1]) else s
  }

  function Trim(s: string): string {
    TrimRight(TrimLeft(s))
  }

  /** No whitespace at either end. */
  predicate Tight(s: string) {
    s == "" || (!IsSpace(s[0]) && !IsSpace(s[|s| - 1]))
  }

  lemma {:induction false} TrimLeftSkips(l: string, m: string)
    requires AllSpace(l) && (m == "" || !IsSpace(m[0]))
    ensures TrimLeft(l + m) == m
  {
    if l == "" {
      assert l + m == m;
    } else {
      assert (l + m)[1..] == l[1..] + m;
      TrimLeftSkips(l[1..], m);
    }
  }

  lemma {:induction false} TrimRightSkips(m: string, r: string)
    requires AllSpace(r) && (m == "" || !IsSpace(m[|m| - 1]))
    ensures TrimRight(m + r) == m
  {
    if r == "" {
      assert m + r == m;
    } else {
      var s := m + r;
      assert s[..|s| - 1] == m + r[..|r| - 1];
      TrimRightSkips(m, r[..|r| - 1]);
    }
  }

  /** Trimming is determined by any split into space, a tight middle and space. */
  lemma TrimUnique(l: string, m: string, r: string)
    requires AllSpace(l) && AllSpace(r) && Tight(m)
    ensures Trim(l + m + r) == m
  {
    if m == "" {
      assert l + m + r == (l + r) + "";
      TrimLeftSkips(l + r, "");
    } else {
      assert l + m + r == l + (m + r);
      TrimLeftSkips(l, m + r);
      TrimRightSkips(m, r);
    }
  }

  lemma {:induction false} TrimLeftParts(s: string) returns (l: string)
    ensures s == l + TrimLeft(s) && AllSpace(l)
    ensures TrimLeft(s) == "" || !IsSpace(TrimLeft(s)[0])
  {
    if s != "" && IsSpace(s[0]) {
      var l' := TrimLeftParts(s[1..]);
      l := [s[0]] + l';
    } else {
      l := "";
    }
  }

  lemma {:induction false} TrimRightParts(s: string) returns (r: string)
    ensures s == TrimRight(s) + r && AllSpace(r)
    ensures TrimRight(s) == "" || !IsSpace(TrimRight(s)[|TrimRight(s)| - 1])
  {
    if s != "" && IsSpace(s[|s| - 1]) {
      var r' := TrimRightParts(s[..|s| - 1]);
      r := r' + [s[|s| - 1]];
    } else {
      r := "";
    }
  }

  lemma TrimParts(s: string) returns (l: string, r: string)
    ensures s == l + Trim(s) + r && AllSpace(l) && AllSpace(r) && Tight(Trim(s))
  {
    l := TrimLeftParts(s);
    r := TrimRightParts(TrimLeft(s));
    assert TrimLeft(s) == Trim(s) + r;
    assert Trim(s) != "" ==> Trim(s)[0] == TrimLeft(s)[0];
  }

  /** Once a growing prefix of `w` trims to what `w` trims to, it keeps doing so. */
  lemma TrimSettles(x: string, y: string, w: string)
    requires x <= y <= w
    requires Trim(x) == Trim(w)
    ensures Trim(y) == Trim(w)
  {
    var l, r := TrimParts(w);
    var m := Trim(w);
    if m == "" {
      assert AllSpace(y) by { assert w == l + r; }
      TrimUnique(y, "", "");
      assert y == y + "" + "";
    } else {
      var l', r' := TrimParts(x);
      MiddleArrived(x, w, l', l, m, r', r);
      PrefixTrims(y, l, m, r);
    }
  }

  /** If both trim to `m`, the prefix reaches at least to the end of the middle of the whole. */
  lemma MiddleArrived(x: string, w: string, l': string, l: string, m: string, r': string, r: string)
    requires m != "" && Tight(m) && AllSpace(l)
    requires x == l' + m + r' && w == l + m + r && x <= w
    ensures |l + m| <= |x|
  {
    assert w[|l'|] == x[|l'|] == m[0];
    assert forall i :: 0 <= i < |l| ==> w[i] == l[i];
  }

  lemma PrefixTrims(y: string, l: string, m: string, r: string)
    requires AllSpace(l) && Tight(m) && AllSpace(r)
    requires y <= l + m + r && |l + m| <= |y|
    ensures Trim(y) == m
  {
    var n := |l + m|;
    assert (l + m) + r[..|y| - n] == y;
    TrimUnique(l, m, r[..|y| - n]);
  }

  lemma TrimPadded(v: string)
    ensures Trim(" " + v + "\r") == Trim(v) && Trim(" " + v) == Trim(v)
  {
    var l, r := TrimParts(v);
    TrimUnique(" " + l, Trim(v), r);
    assert " " + v == (" " + l) + Trim(v) + r;
    TrimUnique(" " + l, Trim(v), r + "\r");
    assert " " + v + "\r" == (" " + l) + Trim(v) + (r + "\r");
  }

  lemma TrimTight(s: string)
    requires Tight(s)
    ensures Trim(s) == s && Trim(s + "\r") == s
  {
    TrimUnique("", s, "");
    assert "" + s + "" == s;
    TrimUnique("", s, "\r");
    assert "" + s + "\r" == s + "\r";
  }

  lemma TrimKeepsOut(s: string, c: char)
    requires c !in s
    ensures c !in Trim(s)
  {
    var l, r := TrimParts(s);
    assert forall i :: 0 <= i < |Trim(s)| ==> Trim(s)[i] == s[|l| + i];
  }

  // ----- Searching and splitting ----------------------------------------------------------

  /** The first index of `c`, or `|s|` when there is none. */
  function IndexOf(s: string, c: char): (n: nat)
    ensures n <= |s| && c !in s[..n]
    ensures n < |s| ==> s[n] == c
  {
    if s == "" || s[0] == c then 0
    else
      var n := 1 + IndexOf(s[1..], c);
      assert s[..n] == [s[0]] + s[1..][..n - 1];
      n
  }

  lemma {:induction false} IndexOfAppend(a: string, c: char, rest: string)
    requires c !in a
    ensures IndexOf(a + rest, c) == |a| + IndexOf(rest, c)
  {
    if a == "" {
      assert a + rest == rest;
    } else {
      assert (a + rest)[1..] == a[1..] + rest;
      IndexOfAppend(a[1..], c, rest);
    }
  }

  lemma {:induction false} IndexOfLeast(s: string, c: char, i: nat)
    requires i < |s| && s[i] == c
    ensures IndexOf(s, c) <= i
  {
    if s[0] != c {
      IndexOfLeast(s[1..], c, i - 1);
    }
  }

  lemma {:induction false} IndexOfExtend(s: string, c: char, t: string)
    requires IndexOf(s, c) < |s|
    ensures IndexOf(s + t, c) == IndexOf(s, c)
  {
    if s[0] != c {
      assert (s + t)[1..] == s[1..] + t;
      IndexOfExtend(s[1..], c, t);
    }
  }

  lemma {:induction false} IndexOfPrefix(s: string, c: char, k: nat)
    requires k <= |s|
    ensures IndexOf(s[..k], c) == if k <= IndexOf(s, c) then k else IndexOf(s, c)
  {
    if k != 0 && s[0] != c {
      assert s[..k][1..] == s[1..][..k - 1];
      IndexOfPrefix(s[1..], c, k - 1);
    }
  }

  lemma CutAt(s: string, n: nat)
    requires n < |s|
    ensures s == s[..n] + ([s[n]] + s[n + 1..])
  {
  }

  /** The pieces between occurrences of `c`; empty pieces are kept. */
  function SplitOn(s: string, c: char): (parts: seq<string>)
    ensures |parts| >= 1
    ensures forall i :: 0 <= i < |parts| ==> c !in parts[i]
    ensures forall i, d :: 0 <= i < |parts| && d in parts[i] ==> d in s
    decreases |s|
  {
    var n := IndexOf(s, c);
    if n == |s| then
      assert s[..n] == s;
      [s]
    else
      assert forall d :: d in s[n + 1..] ==> d in s;
      assert forall d :: d in s[..n] ==> d in s;
      [s[..n]] + SplitOn(s[n + 1..], c)
  }

  lemma {:induction false} SplitOnFirst(a: string, c: char, rest: string)
    requires c !in a
    ensures SplitOn(a + ([c] + rest), c) == [a] + SplitOn(rest, c)
  {
    var s := a + ([c] + rest);
    IndexOfAppend(a, c, [c] + rest);
    assert s[..|a|] == a && s[|a| + 1..] == rest;
  }

  /** Three words with a blank between them. */
  function ThreeWords(a: string, b: string, c: string): string {
    a + (" " + (b + (" " + c)))
  }

  lemma {:induction false} ThreeWordsRead(a: string, b: string, c: string)
    requires a != "" && !IsSpace(a[0]) && ' ' !in a && ' ' !in b
    requires c != "" && !IsSpace(c[|c| - 1])
    ensures Tight(ThreeWords(a, b, c))
    ensures SplitOn(ThreeWords(a, b, c), ' ') == [a] + ([b] + SplitOn(c, ' '))
  {
    SplitOnFirst(b, ' ', c);
    SplitOnFirst(a, ' ', b + (" " + c));
    LastOfAppend(b, " " + c);
    LastOfAppend(a, " " + (b + (" " + c)));
  }

  lemma LastOfAppend(x: string, y: string)
    requires y != ""
    ensures (x + y)[|x + y| - 1] == y[|y| - 1]
  {
  }

  function ToUpperChar(c: char): char {
    if 'a' <= c <= 'z' then (c as int - 32) as char else c
  }

  /** ASCII upper-casing, byte by byte. */
  function ToUpper(s: string): string {
    seq(|s|, i requires 0 <= i < |s| => ToUpperChar(s[i]))
  }

  // ----- Decimal numbers ------------------------------------------------------------------

  predicate IsDigit(c: char) {
    '0' <= c <= '9'
  }

  predicate AllDigits(s: string) {
    forall i :: 0 <= i < |s| ==> IsDigit(s[i])
  }

  function Digit(n: nat): (c: char)
    requires n < 10
    ensures IsDigit(c)
  {
    ('0' as int + n) as char
  }

  /** What `std::to_string` prints for an unsigned number. */
  function Decimal(n: nat): (s: string)
    ensures s != "" && AllDigits(s)
  {
    if n < 10 then [Digit(n)] else Decimal(n / 10) + [Digit(n % 10)]
  }

  function DigitsValue(s: string): nat
    requires AllDigits(s)
  {
    if s == "" then 0
    else 10 * DigitsValue(s[..|s| - 1]) + (s[|s| - 1] as int - '0' as int)
  }

  lemma {:induction false} DecimalValue(n: nat)
    ensures DigitsValue(Decimal(n)) == n
  {
    if n < 10 {
      var s := Decimal(n);
      assert s == [Digit(n)] && s[..|s| - 1] == "";
      assert DigitsValue("") == 0;
    } else {
      var s := Decimal(n);
      assert s[..|s| - 1] == Decimal(n / 10);
      DecimalValue(n / 10);
    }
  }

  function LeadingDigits(s: string): (d: string)
    ensures AllDigits(d)
  {
    if s != "" && IsDigit(s[0]) then [s[0]] + LeadingDigits(s[1..]) else ""
  }

  lemma {:induction false} LeadingDigitsAll(s: string)
    requires AllDigits(s)
    ensures LeadingDigits(s) == s
  {
    if s != "" {
      LeadingDigitsAll(s[1..]);
    }
  }

  datatype Integer = Integer(negative: bool, magnitude: nat)

  /** The part of `strtol` and `strtoul` that reads text: leading whitespace, an optional
      sign, then the longest run of digits; no digits is a failed conversion. */
  function ScanInteger(s: string): Option<Integer> {
    var t := TrimLeft(s);
    var signed := t != "" && (t[0] == '-' || t[0] == '+');
    var digits := LeadingDigits(if signed then t[1..] else t);
    if digits == "" then None
    else Some(Integer(signed && t[0] == '-', DigitsValue(digits)))
  }

  /** `std::stoul` on a 64-bit machine; `None` is an exception.  A minus sign negates modulo
      2^64, as `strtoul` does. */
  function Stoul(s: string): (r: Option<nat>)
    ensures r.Some? ==> r.value < SIZE_LIMIT
  {
    match ScanInteger(s)
    case None => None
    case Some(Integer(negative, m)) =>
      if m >= SIZE_LIMIT then None
      else if negative then Some((SIZE_LIMIT - m) % SIZE_LIMIT)
      else Some(m)
  }

  /** `std::stoi` with a 32-bit `int`; `None` is an exception. */
  function Stoi(s: string): (r: Option<int>)
    ensures r.Some? ==> -0x8000_0000 <= r.value < 0x8000_0000
  {
    match ScanInteger(s)
    case None => None
    case Some(Integer(negative, m)) =>
      var v := if negative then -(m as int) else m as int;
      if -0x8000_0000 <= v < 0x8000_0000 then Some(v) else None
  }

  lemma {:induction false} LeadingDigitsThen(digits: string, tail: string)
    requires AllDigits(digits) && (tail == "" || !IsDigit(tail[0]))
    ensures LeadingDigits(digits + tail) == digits
  {
    if digits == "" {
      assert digits + tail == tail;
    } else {
      assert (digits + tail)[1..] == digits[1..] + tail;
      LeadingDigitsThen(digits[1..], tail);
    }
  }

  predicate SignText(sign: string) {
    sign == "" || sign == "+" || sign == "-"
  }

  /** Leading white space, an optional sign, digits, and any text after them. */
  lemma {:induction false} IntegerRead(space: string, sign: string, digits: string, tail: string)
    requires AllSpace(space) && SignText(sign) && AllDigits(digits) && digits != ""
    requires tail == "" || !IsDigit(tail[0])
    ensures ScanInteger(space + (sign + (digits + tail))) == Some(Integer(sign == "-", DigitsValue(digits)))
  {
    var rest := sign + (digits + tail);
    assert IsDigit(digits[0]);
    TrimLeftSkips(space, rest);
    LeadingDigitsThen(digits, tail);
    if sign == "" {
      assert rest == digits + tail;
    } else {
      assert rest[1..] == digits + tail;
    }
  }

  lemma {:induction false} DigitsSplit(s: string) returns (tail: string)
    ensures s == LeadingDigits(s) + tail && (tail == "" || !IsDigit(tail[0]))
  {
    if s != "" && IsDigit(s[0]) {
      tail := DigitsSplit(s[1..]);
    } else {
      tail := s;
    }
  }

  /** Nothing else is read as a number. */
  lemma {:induction false} IntegerParts(s: string) returns (space: string, sign: string, digits: string, tail: string)
    requires ScanInteger(s).Some?
    ensures s == space + (sign + (digits + tail))
    ensures AllSpace(space) && SignText(sign) && AllDigits(digits) && digits != ""
    ensures tail == "" || !IsDigit(tail[0])
  {
    space := TrimLeftParts(s);
    var t := TrimLeft(s);
    sign := if t != "" && (t[0] == '-' || t[0] == '+') then [t[0]] else "";
    assert t == sign + t[|sign|..];
    digits := LeadingDigits(t[|sign|..]);
    tail := DigitsSplit(t[|sign|..]);
  }

  /** What `std::stoul` and `std::stoi` make of such a text. */
  lemma {:induction false} NumbersRead(space: string, sign: string, digits: string, tail: string)
    requires AllSpace(space) && SignText(sign) && AllDigits(digits) && digits != ""
    requires tail == "" || !IsDigit(tail[0])
    ensures var s := space + (sign + (digits + tail));
            var v: int := DigitsValue(digits);
            && Stoul(s) == (if v >= 0x1_0000_0000_0000_0000 then None
                            else if sign == "-" && v > 0 then Some(0x1_0000_0000_0000_0000 - v)
                            else Some(v))
            && Stoi(s) == (if sign == "-" then (if v <= 0x8000_0000 then Some(-v) else None)
                           else if v < 0x8000_0000 then Some(v) else None)
  {
    IntegerRead(space, sign, digits, tail);
  }

  lemma {:induction false} ScanDecimal(n: nat)
    ensures ScanInteger(Decimal(n)) == Some(Integer(false, n))
  {
    var s := Decimal(n);
    assert IsDigit(s[0]);
    LeadingDigitsAll(s);
    DecimalValue(n);
  }

  /** Printing a number in decimal and reading it back gives the number, if it fits. */
  lemma {:induction false} DecimalRoundTrip(n: nat)
    ensures Tight(Decimal(n)) && ' ' !in Decimal(n) && LF !in Decimal(n)
    ensures n < SIZE_LIMIT ==> Stoul(Decimal(n)) == Some(n)
    ensures n < 0x8000_0000 ==> Stoi(Decimal(n)) == Some(n)
  {
    ScanDecimal(n);
    assert AllDigits(Decimal(n));
  }
}
