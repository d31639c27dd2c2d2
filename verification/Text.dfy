/** JavaScript string operations used by the modelled code, over ASCII letters and digits. */
module Text {
  predicate IsDigit(c: char) {
    '0' <= c <= '9'
  }

  function DigitValue(c: char): (n: nat)
    requires IsDigit(c)
    ensures n < 10
  {
    c as int - '0' as int
  }

  function DigitChar(n: nat): (c: char)
    requires n < 10
    ensures IsDigit(c) && DigitValue(c) == n
  {
    ('0' as int + n) as char
  }

  predicate AllDigits(s: string) {
    forall i :: 0 <= i < |s| ==> IsDigit(s[i])
  }

  function Pow10(k: nat): (p: nat)
    ensures p >= 1
  {
    if k == 0 then 1 else 10 * Pow10(k - 1)
  }

  /** `Number(s)` of a string of digits. */
  function NumberOf(s: string): nat
    requires AllDigits(s)
  {
    if s == "" then 0 else 10 * NumberOf(s[..|s| - 1]) + DigitValue(s[|s| - 1])
  }

  /** The last `k` decimal digits of `n`, zero padded on the left. */
  function Digits(n: nat, k: nat): (s: string)
    ensures |s| == k && AllDigits(s)
  {
    if k == 0 then "" else Digits(n / 10, k - 1) + [DigitChar(n % 10)]
  }

  lemma {:induction false} NumberOfDigits(n: nat, k: nat)
    requires n < Pow10(k)
    ensures NumberOf(Digits(n, k)) == n
  {
    if k > 0 {
      var front, last := Digits(n / 10, k - 1), DigitChar(n % 10);
      NumberOfDigits(n / 10, k - 1);
      assert Digits(n, k) == front + [last];
      hide Digits, Pow10, IsDigit;
      NumberOfSnoc(front, last);
    }
  }

  lemma NumberOfSnoc(front: string, last: char)
    requires AllDigits(front) && IsDigit(last)
    ensures AllDigits(front + [last]) && NumberOf(front + [last]) == 10 * NumberOf(front) + DigitValue(last)
  {
    assert (front + [last])[..|front|] == front;
  }

  lemma {:induction false} DigitsOfNumber(s: string)
    requires AllDigits(s)
    ensures NumberOf(s) < Pow10(|s|)
    ensures Digits(NumberOf(s), |s|) == s
  {
    if s != "" {
      DigitsOfNumber(s[..|s| - 1]);
    }
  }

  /** The relational operator `a < b` on strings: the first differing character decides. */
  predicate TextLess(a: string, b: string) {
    b != "" && (a == "" || a[0] < b[0] || (a[0] == b[0] && TextLess(a[1..], b[1..])))
  }

  lemma {:induction false} NotLessThanItself(s: string)
    ensures !TextLess(s, s)
  {
    if s != "" {
      NotLessThanItself(s[1..]);
    }
  }

  lemma {:induction false} TextLessConcat(p: string, q: string, x: string, y: string)
    requires |p| == |q|
    ensures TextLess(p + x, q + y) <==> TextLess(p, q) || (p == q && TextLess(x, y))
  {
    if p == "" {
      assert p + x == x && q + y == y;
    } else {
      TextLessConcat(p[1..], q[1..], x, y);
      assert (p + x)[1..] == p[1..] + x && (q + y)[1..] == q[1..] + y;
      assert p == [p[0]] + p[1..] && q == [q[0]] + q[1..];
    }
  }

  /** Zero-padded numbers of one width compare as text exactly as they compare as numbers. */
  lemma {:induction false} DigitsOrder(a: nat, b: nat, k: nat)
    requires a < Pow10(k) && b < Pow10(k)
    ensures TextLess(Digits(a, k), Digits(b, k)) <==> a < b
  {
    hide NumberOf, IsDigit;
    if k > 0 {
      DigitsOrder(a / 10, b / 10, k - 1);
      NumberOfDigits(a / 10, k - 1);
      NumberOfDigits(b / 10, k - 1);
      TextLessConcat(Digits(a / 10, k - 1), Digits(b / 10, k - 1), [DigitChar(a % 10)], [DigitChar(b % 10)]);
    }
  }

  /** The first element of a concatenation, and what follows it. */
  lemma RestOfConcat<T>(a: seq<T>, b: seq<T>)
    requires a != []
    ensures (a + b)[0] == a[0] && (a + b)[1..] == a[1..] + b
    ensures [a[0]] + a[1..] == a
  {
    hide *;
  }

  lemma ConcatAssociative<T>(a: seq<T>, b: seq<T>, c: seq<T>)
    ensures (a + b) + c == a + (b + c)
  {
    hide *;
  }

  function Join(parts: seq<string>, separator: string): string {
    if parts == [] then ""
    else if |parts| == 1 then parts[0]
    else parts[0] + separator + Join(parts[1..], separator)
  }

  // ---- white space and letter case ----

  /** What `\s` matches and `trim` strips: the white space and line terminators of ECMA-262. */
  predicate IsSpace(c: char) {
    || c == ' ' || c == '\t' || c == '\n' || c == '\r' || c == '\U{0B}' || c == '\U{0C}'
    || c == '\U{A0}' || c == '\U{1680}' || '\U{2000}' <= c <= '\U{200A}' || c == '\U{2028}' || c == '\U{2029}'
    || c == '\U{202F}' || c == '\U{205F}' || c == '\U{3000}' || c == '\U{FEFF}'
  }

  function TrimStart(s: string): (r: string)
    ensures |r| <= |s|
    ensures r == "" || !IsSpace(r[0])
  {
    if s != "" && IsSpace(s[0]) then TrimStart(s[1..]) else s
  }

  function TrimEnd(s: string): (r: string)
    ensures r <= s
    ensures r == "" || !IsSpace(r[|r| - 1])
  {
    if s != "" && IsSpace(s[|s| - 1]) then TrimEnd(s[..|s| - 1]) else s
  }

  function Trim(s: string): string {
    TrimEnd(TrimStart(s))
  }

  predicate AllSpace(s: string) {
    forall i :: 0 <= i < |s| ==> IsSpace(s[i])
  }

  lemma {:induction false} TrimStartOf(front: string, rest: string)
    requires AllSpace(front) && (rest == "" || !IsSpace(rest[0]))
    ensures TrimStart(front + rest) == rest
  {
    if front == "" {
      assert front + rest == rest;
    } else {
      RestOfConcat(front, rest);
      TrimStartOf(front[1..], rest);
    }
  }

  lemma {:induction false} TrimEndOf(rest: string, back: string)
    requires AllSpace(back) && (rest == "" || !IsSpace(rest[|rest| - 1]))
    ensures TrimEnd(rest + back) == rest
  {
    if back == "" {
      assert rest + back == rest;
    } else {
      var n := |back| - 1;
      assert (rest + back)[..|rest + back| - 1] == rest + back[..n];
      assert (rest + back)[|rest + back| - 1] == back[n];
      TrimEndOf(rest, back[..n]);
    }
  }

  /** Trimming takes off exactly the white space at both ends. */
  lemma TrimOf(front: string, s: string, back: string)
    requires AllSpace(front) && AllSpace(back) && s != "" && !IsSpace(s[0]) && !IsSpace(s[|s| - 1])
    ensures Trim(front + s + back) == s
  {
    hide IsSpace, TrimStart, TrimEnd;
    ConcatAssociative(front, s, back);
    assert (s + back)[0] == s[0];
    TrimStartOf(front, s + back);
    TrimEndOf(s, back);
  }

  /** Blanks, tabs, line ends and the no-break space are white space; letters, digits and fillers are not. */
  lemma SpaceExamples(c: char)
    ensures c in {' ', '\t', '\n', '\r', '\U{A0}', '\U{FEFF}'} ==> IsSpace(c)
    ensures 'a' <= c <= 'z' || 'A' <= c <= 'Z' || '0' <= c <= '9' || c == '<' || c == '-' ==> !IsSpace(c)
  {
  }

  function LowerChar(c: char): char {
    if 'A' <= c <= 'Z' then (c as int + 32) as char else c
  }

  function UpperChar(c: char): char {
    if 'a' <= c <= 'z' then (c as int - 32) as char else c
  }

  function Lower(s: string): (r: string)
    ensures |r| == |s|
    ensures forall i :: 0 <= i < |s| ==> r[i] == LowerChar(s[i])
  {
    seq(|s|, i requires 0 <= i < |s| => LowerChar(s[i]))
  }

  /** The letters pair up: upper case of a small letter is its capital and the other way round; the rest stays. */
  lemma LetterCases()
    ensures LowerChar('A') == 'a' && LowerChar('Z') == 'z' && UpperChar('a') == 'A' && UpperChar('z') == 'Z'
    ensures forall c: char :: 'A' <= c <= 'Z' ==> 'a' <= LowerChar(c) <= 'z' && UpperChar(LowerChar(c)) == c
    ensures forall c: char :: !('A' <= c <= 'Z') ==> LowerChar(c) == c
    ensures forall c: char :: !('a' <= c <= 'z') ==> UpperChar(c) == c
  {
  }

  function Upper(s: string): (r: string)
    ensures |r| == |s|
    ensures forall i :: 0 <= i < |s| ==> r[i] == UpperChar(s[i])
  {
    seq(|s|, i requires 0 <= i < |s| => UpperChar(s[i]))
  }
}
