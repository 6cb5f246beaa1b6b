/**
 * The JavaScript string built-ins the application relies on, with ECMAScript's exact
 * behaviour: the `\s` character class, `trim`, `indexOf` / `lastIndexOf` / `substring` with
 * their clamping of out-of-range positions, `split('\n')` / `join('\n')`, `parseInt(_, 10)`,
 * `Number.prototype.toString` on integers and `padStart`.
 *
 * A string is a sequence of Dafny characters, which are Unicode scalar values. JavaScript
 * counts UTF-16 code units instead, so a character outside the Basic Multilingual Plane (an
 * emoji, say) is one character here and two in the source.
 */
module JsStrings {
  import opened Wrappers

  /** `\s` in a regular expression, and what `trim()` removes (WhiteSpace and LineTerminator). */
  predicate IsSpace(c: char) {
    c == ' ' || c == '\t' || c == '\n' || c == '\U{B}' || c == '\U{C}' || c == '\r' ||
    c == '\U{A0}' || c == '\U{1680}' || ('\U{2000}' <= c <= '\U{200A}') ||
    c == '\U{2028}' || c == '\U{2029}' || c == '\U{202F}' || c == '\U{205F}' ||
    c == '\U{3000}' || c == '\U{FEFF}'
  }

  /** The characters that `.` does not match and at which a multiline `^` may start. */
  predicate IsLineTerminator(c: char) {
    c == '\n' || c == '\r' || c == '\U{2028}' || c == '\U{2029}'
  }

  /** `\d` */
  predicate IsDigit(c: char) {
    '0' <= c <= '9'
  }

  predicate AllSpace(s: string) {
    forall k :: 0 <= k < |s| ==> IsSpace(s[k])
  }

  predicate AllDigits(s: string) {
    forall k :: 0 <= k < |s| ==> IsDigit(s[k])
  }

  /** No line terminator in s[a..b]: what `.*` can run over. */
  predicate NoTerminator(s: string, a: nat, b: nat)
    requires a <= b <= |s|
  {
    forall k :: a <= k < b ==> !IsLineTerminator(s[k])
  }

  /** `pat` occurs in `s` starting at index `i`. */
  predicate OccursAt(s: string, pat: string, i: int) {
    0 <= i && i + |pat| <= |s| && s[i..i + |pat|] == pat
  }

  /** An occurrence that ends by `c` is an occurrence in the first `c` characters. */
  lemma OccursInPrefix(s: string, pat: string, k: int, c: nat)
    requires OccursAt(s, pat, k) && k + |pat| <= c <= |s|
    ensures OccursAt(s[..c], pat, k)
  {
    assert s[..c][k..k + |pat|] == s[k..k + |pat|];
  }

  /** An occurrence that starts at or after `c` is an occurrence in the text from `c` on. */
  lemma OccursInSuffix(s: string, pat: string, k: int, c: nat)
    requires OccursAt(s, pat, k) && c <= k
    ensures OccursAt(s[c..], pat, k - c)
  {
    assert s[c..][k - c..k - c + |pat|] == s[k..k + |pat|];
  }

  // ---------------------------------------------------------------- trim

  /** `trimStart()` */
  function TrimStart(s: string): (r: string)
    ensures |r| <= |s|
    decreases |s|
  {
    if s != [] && IsSpace(s[0]) then TrimStart(s[1..]) else s
  }

  /** What `trimStart()` removes: exactly the leading run of white space. */
  lemma {:induction false} TrimStartMeaning(s: string)
    ensures var r := TrimStart(s);
            r == s[|s| - |r|..] && (forall k :: 0 <= k < |s| - |r| ==> IsSpace(s[k]))
            && (r == [] || !IsSpace(r[0]))
    decreases |s|
  {
    if s != [] && IsSpace(s[0]) {
      TrimStartMeaning(s[1..]);
    }
  }

  /** `trimEnd()` */
  function TrimEnd(s: string): (r: string)
    ensures |r| <= |s|
    decreases |s|
  {
    if s != [] && IsSpace(s[|s| - 1]) then TrimEnd(s[..|s| - 1]) else s
  }

  /** What `trimEnd()` removes: exactly the trailing run of white space. */
  lemma {:induction false} TrimEndMeaning(s: string)
    ensures var r := TrimEnd(s);
            r == s[..|r|] && (forall k :: |r| <= k < |s| ==> IsSpace(s[k]))
            && (r == [] || !IsSpace(r[|r| - 1]))
    decreases |s|
  {
    if s != [] && IsSpace(s[|s| - 1]) {
      TrimEndMeaning(s[..|s| - 1]);
    }
  }

  /** `trim()`: the text without its leading and trailing white space. */
  function Trim(s: string): (r: string)
    ensures |r| <= |s|
  {
    TrimEnd(TrimStart(s))
  }

  /** The trimmed text is empty exactly for white space, and otherwise starts and ends with a non-space. */
  lemma TrimMeaning(s: string)
    ensures Trim(s) == [] <==> AllSpace(s)
    ensures Trim(s) != [] ==> !IsSpace(Trim(s)[0]) && !IsSpace(Trim(s)[|Trim(s)| - 1])
  {
    var t := TrimStart(s);
    TrimStartMeaning(s);
    TrimEndMeaning(t);
  }

  /** `!s.trim()`: empty or white space only. */
  predicate IsBlank(s: string) {
    Trim(s) == []
  }

  // ---------------------------------------------------------------- case

  /** `toLowerCase()` restricted to ASCII letters. */
  function LowerChar(c: char): char {
    if 'A' <= c <= 'Z' then (c as int + 32) as char else c
  }

  function Lower(s: string): (r: string)
    ensures |r| == |s|
    ensures forall k :: 0 <= k < |s| ==> r[k] == LowerChar(s[k])
  {
    seq(|s|, k requires 0 <= k < |s| => LowerChar(s[k]))
  }

  // ---------------------------------------------------------------- searching

  /** How `indexOf`, `lastIndexOf` and `substring` bring a position into 0..len. */
  function Clamp(x: int, len: nat): (r: nat)
    ensures r <= len
    ensures 0 <= x <= len ==> r == x
  {
    if x < 0 then 0 else if x > len then len else x
  }

  /** The first occurrence of `pat` at or after `i`, or -1. */
  function IndexFrom(s: string, pat: string, i: nat): (r: int)
    requires i <= |s|
    ensures r == -1 || (i <= r && OccursAt(s, pat, r))
    ensures r == -1 ==> forall k :: i <= k ==> !OccursAt(s, pat, k)
    ensures r != -1 ==> forall k :: i <= k < r ==> !OccursAt(s, pat, k)
    decreases |s| - i
  {
    if i + |pat| > |s| then -1
    else if s[i..i + |pat|] == pat then i
    else IndexFrom(s, pat, i + 1)
  }

  /** `s.indexOf(pat, from)` */
  function IndexOf(s: string, pat: string, from: int): int {
    IndexFrom(s, pat, Clamp(from, |s|))
  }

  /** The last occurrence of `pat` starting at or before `i`, or -1. */
  function LastFrom(s: string, pat: string, i: int): (r: int)
    requires i >= -1
    ensures r == -1 || (0 <= r <= i && OccursAt(s, pat, r))
    ensures r == -1 ==> forall k :: 0 <= k <= i ==> !OccursAt(s, pat, k)
    ensures r != -1 ==> forall k :: r < k <= i ==> !OccursAt(s, pat, k)
    decreases i + 1
  {
    if i < 0 then -1
    else if OccursAt(s, pat, i) then i
    else LastFrom(s, pat, i - 1)
  }

  /** `s.lastIndexOf(pat, from)`; `s.lastIndexOf(pat)` is `from` = |s|. */
  function LastIndexOf(s: string, pat: string, from: int): int {
    LastFrom(s, pat, Clamp(from, |s|))
  }

  /** `s.includes(pat)` */
  function Includes(s: string, pat: string): (r: bool)
    ensures r <==> exists k :: OccursAt(s, pat, k)
  {
    var i := IndexOf(s, pat, 0);
    assert i == -1 ==> forall k :: !OccursAt(s, pat, k);
    i != -1
  }

  /** `s.substring(start, end)`: both ends clamped, swapped when out of order. */
  function Substring(s: string, start: int, end: int): string {
    var a, b := Clamp(start, |s|), Clamp(end, |s|);
    if a <= b then s[a..b] else s[b..a]
  }

  // ---------------------------------------------------------------- lines

  /** `s.split('\n')` */
  function Split(s: string): (r: seq<string>)
    ensures |r| >= 1
    ensures forall i :: 0 <= i < |r| ==> '\n' !in r[i]
    decreases |s|
  {
    if s == [] then [""]
    else
      var rest := Split(s[1..]);
      if s[0] == '\n' then [""] + rest
      else [[s[0]] + rest[0]] + rest[1..]
  }

  /** `lines.join('\n')` */
  function Join(lines: seq<string>): string
    decreases |lines|
  {
    if |lines| == 0 then ""
    else if |lines| == 1 then lines[0]
    else lines[0] + "\n" + Join(lines[1..])
  }

  /** Splitting at the newlines and joining again gives back the text. */
  lemma {:induction false} JoinSplit(s: string)
    ensures Join(Split(s)) == s
    decreases |s|
  {
    if s != [] {
      var rest := Split(s[1..]);
      JoinSplit(s[1..]);
      if s[0] == '\n' {
        assert Split(s) == [""] + rest;
        assert ([""] + rest)[1..] == rest;
      } else {
        var r := Split(s);
        assert r == [[s[0]] + rest[0]] + rest[1..];
        if |rest| == 1 {
          assert Join(r) == [s[0]] + rest[0];
        } else {
          assert r[1..] == rest[1..];
          assert Join(r) == [s[0]] + rest[0] + "\n" + Join(rest[1..]);
        }
      }
    }
  }

  lemma {:induction false} SplitLine(x: string, y: string)
    requires '\n' !in x
    ensures Split(x + "\n" + y) == [x] + Split(y)
    decreases |x|
  {
    if x == [] {
      assert x + "\n" + y == "\n" + y;
      assert ("\n" + y)[1..] == y;
    } else {
      SplitLine(x[1..], y);
      assert (x + "\n" + y)[1..] == x[1..] + "\n" + y;
      assert [x[0]] + x[1..] == x;
    }
  }

  lemma {:induction false} SplitSingle(x: string)
    requires '\n' !in x
    ensures Split(x) == [x]
    decreases |x|
  {
    if x != [] {
      SplitSingle(x[1..]);
      assert [x[0]] + x[1..] == x;
    }
  }

  /** Joining lines that hold no newline and splitting again gives back the lines. */
  lemma {:induction false} SplitJoin(lines: seq<string>)
    requires |lines| >= 1
    requires forall i :: 0 <= i < |lines| ==> '\n' !in lines[i]
    ensures Split(Join(lines)) == lines
    decreases |lines|
  {
    if |lines| == 1 {
      SplitSingle(lines[0]);
    } else {
      SplitJoin(lines[1..]);
      SplitLine(lines[0], Join(lines[1..]));
      assert [lines[0]] + lines[1..] == lines;
    }
  }

  /** Joining a line in front of at least one more puts a newline between them. */
  lemma {:induction false} JoinCons(x: string, rest: seq<string>)
    requires |rest| >= 1
    ensures Join([x] + rest) == x + "\n" + Join(rest)
  {
    assert ([x] + rest)[1..] == rest;
  }

  lemma {:induction false} JoinFour(a: string, b: string, c: string, d: string)
    ensures Join([a, b, c, d]) == a + "\n" + b + "\n" + c + "\n" + d
  {
    JoinCons(c, [d]);
    assert [c] + [d] == [c, d];
    JoinCons(b, [c, d]);
    assert [b] + [c, d] == [b, c, d];
    JoinCons(a, [b, c, d]);
    assert [a] + [b, c, d] == [a, b, c, d];
  }

  lemma {:induction false} JoinSix(a: string, b: string, c: string, d: string, e: string, f: string)
    ensures Join([a, b, c, d, e, f]) == a + "\n" + b + "\n" + c + "\n" + d + "\n" + e + "\n" + f
  {
    JoinFour(c, d, e, f);
    JoinCons(b, [c, d, e, f]);
    assert [b] + [c, d, e, f] == [b, c, d, e, f];
    JoinCons(a, [b, c, d, e, f]);
    assert [a] + [b, c, d, e, f] == [a, b, c, d, e, f];
  }

  // ---------------------------------------------------------------- numbers

  function DigitChar(d: nat): (c: char)
    requires d < 10
    ensures IsDigit(c)
  {
    ('0' as int + d) as char
  }

  function DigitValue(c: char): nat
    requires IsDigit(c)
  {
    c as int - '0' as int
  }

  /** The decimal numeral of `n`, without leading zeros. */
  function NatToString(n: nat): (r: string)
    ensures |r| >= 1 && AllDigits(r)
    ensures n > 0 ==> r[0] != '0'
    decreases n
  {
    if n < 10 then [DigitChar(n)] else NatToString(n / 10) + [DigitChar(n % 10)]
  }

  /** `n.toString()` for an integer `n`. */
  function IntToString(n: int): string {
    if n < 0 then "-" + NatToString(-n) else NatToString(n)
  }

  /** The value of a decimal numeral (leading zeros allowed). */
  function DigitsValue(ds: string): nat
    requires AllDigits(ds)
    decreases |ds|
  {
    if ds == [] then 0 else DigitsValue(ds[..|ds| - 1]) * 10 + DigitValue(ds[|ds| - 1])
  }

  /** Reading back a numeral gives the number it was printed from. */
  lemma {:induction false} DigitsValueOfNatToString(n: nat)
    ensures DigitsValue(NatToString(n)) == n
    decreases n
  {
    if n >= 10 {
      DigitsValueOfNatToString(n / 10);
      var r := NatToString(n);
      assert r[..|r| - 1] == NatToString(n / 10);
    }
  }

  /** A leading zero does not change the value of a numeral. */
  lemma {:induction false} DigitsValueLeadingZero(ds: string)
    requires AllDigits(ds)
    ensures AllDigits("0" + ds) && DigitsValue("0" + ds) == DigitsValue(ds)
    decreases |ds|
  {
    if ds != [] {
      DigitsValueLeadingZero(ds[..|ds| - 1]);
      assert ("0" + ds)[..|"0" + ds| - 1] == "0" + ds[..|ds| - 1];
    }
  }

  /** The number of leading decimal digits of `s`. */
  function DigitRun(s: string): (n: nat)
    ensures n <= |s|
    ensures AllDigits(s[..n])
    ensures n < |s| ==> !IsDigit(s[n])
    decreases |s|
  {
    if s != [] && IsDigit(s[0]) then 1 + DigitRun(s[1..]) else 0
  }

  /** The number of decimal digits of `s` from index `p` on, up to the first non-digit. */
  function DigitsFrom(s: string, p: nat): (n: nat)
    requires p <= |s|
    ensures p + n <= |s|
    decreases |s| - p
  {
    if p < |s| && IsDigit(s[p]) then 1 + DigitsFrom(s, p + 1) else 0
  }

  /** The digit count stops exactly at the first non-digit. */
  lemma {:induction false} DigitsFromExact(s: string, p: nat, q: nat)
    requires p <= q < |s| && !IsDigit(s[q])
    requires forall k :: p <= k < q ==> IsDigit(s[k])
    ensures DigitsFrom(s, p) == q - p
    decreases q - p
  {
    if p < q {
      DigitsFromExact(s, p + 1, q);
    }
  }

  /** `parseInt(s, 10)`; `None` is `NaN`. */
  function ParseInt(s: string): Option<int> {
    var t := TrimStart(s);
    var negative := |t| > 0 && t[0] == '-';
    var body := if |t| > 0 && (t[0] == '-' || t[0] == '+') then t[1..] else t;
    var n := DigitRun(body);
    if n == 0 then None
    else if negative then Some(0 - DigitsValue(body[..n]))
    else Some(DigitsValue(body[..n]))
  }

  /** `parseInt(String(n), 10) === n` for every integer. */
  lemma {:induction false} ParseIntOfIntToString(n: int)
    ensures ParseInt(IntToString(n)) == Some(n)
  {
    var m: nat := if n < 0 then -n else n;
    var ds := NatToString(m);
    ParseIntOfDigits(ds);
    DigitsValueOfNatToString(m);
    var s := IntToString(n);
    TrimStartUnspaced(s);
    if n < 0 {
      assert s[1..] == ds;
    }
  }

  /** A digit string reads back as its value. */
  lemma {:induction false} ParseIntOfDigits(ds: string)
    requires |ds| >= 1 && AllDigits(ds)
    ensures DigitRun(ds) == |ds| && ds[..DigitRun(ds)] == ds
  {
    DigitRunAllDigits(ds);
    assert ds[..|ds|] == ds;
  }

  lemma {:induction false} TrimStartUnspaced(s: string)
    requires s != [] && !IsSpace(s[0])
    ensures TrimStart(s) == s
  {
  }

  lemma {:induction false} DigitRunAllDigits(ds: string)
    requires AllDigits(ds)
    ensures DigitRun(ds) == |ds|
    decreases |ds|
  {
    if ds != [] {
      DigitRunAllDigits(ds[1..]);
    }
  }

  /** `n` zero digits. */
  function Zeros(n: nat): (r: string)
    ensures |r| == n && forall k :: 0 <= k < n ==> r[k] == '0'
  {
    seq(n, _ => '0')
  }

  /** `s.padStart(width, "0")` */
  function PadZeros(s: string, width: nat): (r: string)
    ensures |r| == if |s| >= width then |s| else width
    ensures r[|r| - |s|..] == s
    ensures forall k :: 0 <= k < |r| - |s| ==> r[k] == '0'
  {
    if |s| >= width then s
    else
      var z := Zeros(width - |s|);
      assert (z + s)[|z|..] == s;
      z + s
  }

  /** A zero-padded numeral reads back as its number: `parseInt` skips leading zeros. */
  lemma {:induction false} ParseIntOfPadded(n: nat, width: nat)
    ensures ParseInt(PadZeros(NatToString(n), width)) == Some(n)
  {
    var ds := NatToString(n);
    var p := PadZeros(ds, width);
    var k := if |ds| >= width then 0 else width - |ds|;
    assert p == Zeros(k) + ds by {
      if |ds| >= width {
        assert Zeros(0) + ds == ds;
      }
    }
    DigitsValueZeros(k, ds);
    DigitsValueOfNatToString(n);
    ParseIntOfDigitString(p);
  }

  /** An unsigned numeral reads back as its value. */
  lemma {:induction false} ParseIntOfDigitString(ds: string)
    requires |ds| >= 1 && AllDigits(ds)
    ensures ParseInt(ds) == Some(DigitsValue(ds))
  {
    assert IsDigit(ds[0]);
    TrimStartUnspaced(ds);
    ParseIntOfDigits(ds);
  }

  /** Leading zeros do not change the value of a numeral. */
  lemma {:induction false} DigitsValueZeros(k: nat, ds: string)
    requires AllDigits(ds)
    ensures AllDigits(Zeros(k) + ds) && DigitsValue(Zeros(k) + ds) == DigitsValue(ds)
    decreases k
  {
    var z := Zeros(k);
    assert AllDigits(z + ds) by {
      forall i | 0 <= i < |z + ds|
        ensures IsDigit((z + ds)[i])
      {
        if i >= k {
          assert (z + ds)[i] == ds[i - k];
        }
      }
    }
    if k > 0 {
      var t := Zeros(k - 1) + ds;
      DigitsValueZeros(k - 1, ds);
      DigitsValueLeadingZero(t);
      assert z + ds == "0" + t;
    } else {
      assert z + ds == ds;
    }
  }

  /** A number below 100 prints in at most two digits. */
  lemma {:induction false} NatToStringBelowHundred(n: nat)
    requires n < 100
    ensures |NatToString(n)| <= 2
  {
    if n >= 10 {
      assert n / 10 < 10;
    }
  }

  // ---------------------------------------------------------------- arithmetic

  function Abs(x: int): (r: int)
    ensures r >= 0 && (r == x || r == -x)
  {
    if x < 0 then -x else x
  }

  /**
   * JavaScript's `a % b` on integers: the remainder of the division truncated toward zero, so
   * it takes the sign of `a` (Dafny's `%` is Euclidean and never negative).
   */
  function JsRem(a: int, b: int): (r: int)
    requires b != 0
    ensures a >= 0 ==> 0 <= r < Abs(b)
    ensures a <= 0 ==> -Abs(b) < r <= 0
    ensures r == 0 <==> a % Abs(b) == 0
  {
    var m := Abs(b);
    if a >= 0 then a % m
    else
      var q := (-a) % m;
      NegRemZero(-a, m);
      -q
  }

  lemma {:induction false} NegRemZero(x: int, m: int)
    requires x >= 0 && m > 0
    ensures x % m == 0 <==> (-x) % m == 0
  {
    if x % m == 0 {
      MultipleRemZero(-x, m, -(x / m));
    }
    if (-x) % m == 0 {
      MultipleRemZero(x, m, -((-x) / m));
    }
  }

  /** A multiple of `m` leaves no remainder. */
  lemma {:induction false} MultipleRemZero(x: int, m: int, k: int)
    requires m > 0 && x == m * k
    ensures x % m == 0
  {
    var q, r := x / m, x % m;
    assert x == m * q + r && 0 <= r < m;
    assert r == m * (k - q);
    if k - q >= 1 {
      assert false;
    } else if k - q <= -1 {
      assert false;
    }
  }

  /** Past a multiple of `r` by less than `r`, the remainder is the excess. */
  lemma {:induction false} RemOfMultiplePlus(q: int, r: int, i: int)
    requires r >= 1 && 0 <= i < r
    ensures (r * q + i) % r == i
  {
    var x := r * q + i;
    var q2, r2 := x / r, x % r;
    assert x == r * q2 + r2 && 0 <= r2 < r;
    assert r2 - i == r * (q - q2);
    if q - q2 >= 1 {
      assert false;
    } else if q - q2 <= -1 {
      assert false;
    }
  }
}
