/** Brazilian CPF numbers: validation by two check digits, and formatting. */
module Cpf {
  import opened Text

  /** `cpfRaw.replace(/\D/g, '')` */
  function Clean(s: string): (r: string)
    ensures AllDigits(r)
    ensures |r| <= |s|
  {
    if s == "" then "" else (if IsDigit(s[0]) then [s[0]] else "") + Clean(s[1..])
  }

  /** `/^(\d)\1{10}$/` */
  predicate Uniform(clean: string) {
    forall i :: 0 <= i < |clean| ==> clean[i] == clean[0]
  }

  /** The weighted sum of the first `n` digits, the first weighing `weight`, each next one less. */
  function WeightedSum(s: string, n: nat, weight: int): int
    requires AllDigits(s) && n <= |s|
  {
    if n == 0 then 0 else WeightedSum(s, n - 1, weight) + DigitValue(s[n - 1]) * (weight - (n - 1))
  }

  /** The check digit for a weighted sum. */
  function CheckDigit(sum: int): (digit: nat)
    ensures digit < 10
  {
    var rev := 11 - sum % 11;
    if rev == 10 || rev == 11 then 0 else rev
  }

  /** The loop of both checks: it adds the digits times their falling weights. */
  method SumDigits(clean: string, n: nat, weight: int) returns (sum: int)
    requires AllDigits(clean) && n <= |clean|
    ensures sum == WeightedSum(clean, n, weight)
  {
    sum := 0;
    for i := 0 to n
      invariant sum == WeightedSum(clean, i, weight)
    {
      sum := sum + DigitValue(clean[i]) * (weight - i);
    }
  }

  predicate ChecksHold(clean: string)
    requires AllDigits(clean) && |clean| == 11
  {
    && CheckDigit(WeightedSum(clean, 9, 10)) == DigitValue(clean[9])
    && CheckDigit(WeightedSum(clean, 10, 11)) == DigitValue(clean[10])
  }

  predicate IsValid(raw: string) {
    var clean := Clean(raw);
    |clean| == 11 && !Uniform(clean) && ChecksHold(clean)
  }

  method ValidateCpf(raw: string) returns (valid: bool)
    ensures valid == IsValid(raw)
  {
    if raw == "" {
      return false;
    }
    var clean := Clean(raw);
    if |clean| != 11 || Uniform(clean) {
      return false;
    }
    var sum := SumDigits(clean, 9, 10);
    var rev := 11 - sum % 11;
    if rev == 10 || rev == 11 {
      rev := 0;
    }
    if rev != DigitValue(clean[9]) {
      return false;
    }
    sum := SumDigits(clean, 10, 11);
    rev := 11 - sum % 11;
    if rev == 10 || rev == 11 {
      rev := 0;
    }
    return rev == DigitValue(clean[10]);
  }

  function FormatCpf(raw: string): string {
    var clean := Clean(raw);
    if |clean| != 11 then raw
    else clean[..3] + "." + clean[3..6] + "." + clean[6..9] + "-" + clean[9..11]
  }

  // ---- formatting ----

  lemma {:induction false} CleanConcat(a: string, b: string)
    ensures Clean(a + b) == Clean(a) + Clean(b)
  {
    if a == "" {
      assert a + b == b;
    } else {
      CleanConcat(a[1..], b);
      RestOfConcat(a, b);
      ConcatAssociative(if IsDigit(a[0]) then [a[0]] else "", Clean(a[1..]), Clean(b));
    }
  }

  lemma {:induction false} CleanOfDigits(s: string)
    requires AllDigits(s)
    ensures Clean(s) == s
  {
    if s != "" {
      CleanOfDigits(s[1..]);
      assert [s[0]] + s[1..] == s;
    }
  }

  lemma CleanAfterMark(s: string, mark: string, t: string)
    requires |mark| == 1 && !IsDigit(mark[0]) && AllDigits(t)
    ensures Clean(s + mark + t) == Clean(s) + t
  {
    CleanOfDigits(t);
    CleanConcat(s + mark, t);
    CleanConcat(s, mark);
    CleanMark(mark);
    hide *;
    assert Clean(s) + "" == Clean(s);
  }

  lemma CleanMark(mark: string)
    requires |mark| == 1 && !IsDigit(mark[0])
    ensures Clean(mark) == ""
  {
    assert mark[1..] == "";
  }

  lemma CleanOfParts(a: string, b: string, c: string, d: string)
    requires AllDigits(a) && AllDigits(b) && AllDigits(c) && AllDigits(d)
    ensures Clean(a + "." + b + "." + c + "-" + d) == a + b + c + d
  {
    CleanOfDigits(a);
    hide Clean;
    CleanAfterMark(a, ".", b);
    CleanAfterMark(a + "." + b, ".", c);
    CleanAfterMark(a + "." + b + "." + c, "-", d);
  }

  lemma PartsOfNumber(clean: string)
    requires |clean| == 11
    ensures clean == clean[..3] + clean[3..6] + clean[6..9] + clean[9..11]
  {
    hide *;
  }

  /** Formatting keeps the digits, changes nothing the second time, and so never changes validity. */
  lemma FormatKeepsDigits(raw: string)
    ensures Clean(FormatCpf(raw)) == Clean(raw)
    ensures FormatCpf(FormatCpf(raw)) == FormatCpf(raw)
    ensures IsValid(FormatCpf(raw)) == IsValid(raw)
  {
    hide Clean, ChecksHold, Uniform;
    var clean := Clean(raw);
    if |clean| == 11 {
      CleanOfParts(clean[..3], clean[3..6], clean[6..9], clean[9..11]);
      PartsOfNumber(clean);
    }
  }

  /** Eleven digits are printed as 000.000.000-00; anything else is returned as it came. */
  lemma FormatShape(raw: string)
    ensures |Clean(raw)| != 11 ==> FormatCpf(raw) == raw
    ensures |Clean(raw)| == 11 ==>
      var r, clean := FormatCpf(raw), Clean(raw);
      && |r| == 14 && r[3] == '.' && r[7] == '.' && r[11] == '-'
      && r[..3] == clean[..3] && r[4..7] == clean[3..6] && r[8..11] == clean[6..9] && r[12..] == clean[9..]
  {
    hide Clean;
  }

  // ---- each base has one valid pair of check digits ----

  lemma {:induction false} SumOfPrefix(s: string, t: string, n: nat, weight: int)
    requires AllDigits(s) && AllDigits(t) && n <= |s| && n <= |t| && s[..n] == t[..n]
    ensures WeightedSum(s, n, weight) == WeightedSum(t, n, weight)
  {
    if n > 0 {
      assert s[..n - 1] == s[..n][..n - 1] == t[..n][..n - 1] == t[..n - 1];
      SumOfPrefix(s, t, n - 1, weight);
      assert s[n - 1] == s[..n][n - 1] == t[..n][n - 1] == t[n - 1];
    }
  }

  function Checks(base: string): (pair: string)
    requires AllDigits(base) && |base| == 9
    ensures |pair| == 2 && AllDigits(pair)
  {
    var first := [DigitChar(CheckDigit(WeightedSum(base, 9, 10)))];
    first + [DigitChar(CheckDigit(WeightedSum(base + first, 10, 11)))]
  }

  lemma SameDigitSameChar(a: char, b: char)
    requires IsDigit(a) && IsDigit(b)
    ensures DigitValue(a) == DigitValue(b) <==> a == b
  {
  }

  /** The two checks pick exactly one pair for every base. */
  lemma ChecksDeterminePair(base: string, pair: string)
    requires AllDigits(base) && |base| == 9 && AllDigits(pair) && |pair| == 2
    ensures ChecksHold(base + pair) <==> pair == Checks(base)
  {
    var s, right := base + pair, Checks(base);
    assert s[..9] == base[..9] && s[9] == pair[0] && s[10] == pair[1];
    SumOfPrefix(s, base, 9, 10);
    SameDigitSameChar(pair[0], right[0]);
    SameDigitSameChar(pair[1], right[1]);
    if pair[0] == right[0] {
      assert s[..10] == (base + right[..1])[..10];
      SumOfPrefix(s, base + right[..1], 10, 11);
      assert right[..1] == [right[0]];
    }
    if pair[0] == right[0] && pair[1] == right[1] {
      assert pair == right;
    }
  }

  lemma UniformSums(s: string)
    requires AllDigits(s) && |s| == 11 && Uniform(s)
    ensures WeightedSum(s, 9, 10) == 54 * DigitValue(s[0]) && WeightedSum(s, 10, 11) == 65 * DigitValue(s[0])
  {
    RepeatedSum(s, 9, 10);
    RepeatedSum(s, 10, 11);
    assert Weights(2, 10) == 19 && Weights(4, 10) == 34 && Weights(6, 10) == 45 && Weights(8, 10) == 52;
    assert Weights(2, 11) == 21 && Weights(4, 11) == 38 && Weights(6, 11) == 51 && Weights(8, 11) == 60;
  }

  function Weights(n: nat, weight: int): int {
    if n == 0 then 0 else Weights(n - 1, weight) + (weight - (n - 1))
  }

  lemma {:induction false} RepeatedSum(s: string, n: nat, weight: int)
    requires AllDigits(s) && Uniform(s) && n <= |s| && s != ""
    ensures WeightedSum(s, n, weight) == Weights(n, weight) * DigitValue(s[0])
  {
    if n > 0 {
      RepeatedSum(s, n - 1, weight);
    }
  }

  /** A number of one repeated digit passes both checks, which is why it is refused separately. */
  lemma UniformPassesChecks(s: string)
    requires AllDigits(s) && |s| == 11 && Uniform(s)
    ensures ChecksHold(s)
  {
    UniformSums(s);
  }

  /** A nine-digit base has exactly one valid completion, unless it repeats one digit: then it has none. */
  lemma OneValidCompletion(base: string, pair: string)
    requires AllDigits(base) && |base| == 9 && AllDigits(pair) && |pair| == 2
    ensures IsValid(base + pair) <==> !Uniform(base) && pair == Checks(base)
  {
    var s := base + pair;
    CleanOfDigits(s);
    ChecksDeterminePair(base, pair);
    assert forall i :: 0 <= i < 9 ==> s[i] == base[i];
    if Uniform(base) {
      var same := base + [base[0], base[0]];
      assert Uniform(same);
      UniformPassesChecks(same);
      ChecksDeterminePair(base, [base[0], base[0]]);
    }
  }

  // ---- one altered digit ----

  lemma Distribute(a: int, b: int, w: int)
    ensures a * w == b * w + (a - b) * w
  {
  }

  lemma {:induction false} SumAltered(s: string, i: nat, c: char, n: nat, weight: int)
    requires AllDigits(s) && i < |s| && n <= |s| && IsDigit(c)
    ensures WeightedSum(s[i := c], n, weight)
      == WeightedSum(s, n, weight) + (if i < n then (DigitValue(c) - DigitValue(s[i])) * (weight - i) else 0)
  {
    if n > 0 {
      SumAltered(s, i, c, n - 1, weight);
      var t := s[i := c];
      assert WeightedSum(t, n, weight) == WeightedSum(t, n - 1, weight) + DigitValue(t[n - 1]) * (weight - (n - 1));
      assert WeightedSum(s, n, weight) == WeightedSum(s, n - 1, weight) + DigitValue(s[n - 1]) * (weight - (n - 1));
      if i == n - 1 {
        hide *;
        Distribute(DigitValue(c), DigitValue(s[i]), weight - i);
      }
    }
  }

  /** A weight from 2 to 10 has an inverse modulo 11, so it times a change is a multiple only if the change is. */
  lemma MultipleOf11(delta: int, w: int, k: int)
    requires 2 <= w <= 10 && delta * w == 11 * k
    ensures delta % 11 == 0
  {
    var inverse := [0, 0, 6, 4, 3, 9, 2, 8, 7, 5, 10][w];
    assert inverse * w % 11 == 1;
    var q := inverse * w / 11;
    assert delta * (inverse * w) == 11 * (k * inverse);
    assert delta * (11 * q + 1) == 11 * (k * inverse);
    assert delta == 11 * (k * inverse - delta * q);
  }

  lemma SmallDelta(x: int, delta: int)
    requires -9 <= delta <= 9 && delta != 0 && x % 11 in {1, 10} && (x + delta) % 11 in {0, 1, 10}
    ensures delta in {1, -1, 2, -2, 9, -9}
  {
    var q, r := x / 11, (x + delta) / 11;
    assert x == 11 * q + x % 11 && x + delta == 11 * r + (x + delta) % 11;
    assert delta == 11 * (r - q) + (x + delta) % 11 - x % 11;
  }

  lemma ByDelta(delta: int, i: nat)
    requires delta in {1, -1, 2, -2, 9, -9} && i < 9
    requires (delta * (10 - i)) % 11 in {1, 10} && (delta * (11 - i)) % 11 in {0, 1, 10}
    ensures (i == 0 && (delta == 1 || delta == -1)) || (i == 5 && delta in {2, -2, 9, -9})
  {
    if delta == 1 {
    } else if delta == -1 {
    } else if delta == 2 {
    } else if delta == -2 {
    } else if delta == 9 {
    }
  }

  /** What a change of one digit by `delta` does to the two sums, modulo 11. */
  lemma WeightedStep(delta: int, i: nat)
    requires -9 <= delta <= 9 && delta != 0 && i < 9
    ensures (delta * (10 - i)) % 11 != 0
    ensures (delta * (10 - i)) % 11 in {1, 10} && (delta * (11 - i)) % 11 in {0, 1, 10} ==>
      (i == 0 && (delta == 1 || delta == -1)) || (i == 5 && delta in {2, -2, 9, -9})
  {
    var x := delta * (10 - i);
    if x % 11 == 0 {
      MultipleOf11(delta, 10 - i, x / 11);
    }
    assert delta * (11 - i) == x + delta;
    if x % 11 in {1, 10} && (x + delta) % 11 in {0, 1, 10} {
      SmallDelta(x, delta);
      ByDelta(delta, i);
    }
  }

  /** Two sums with one check digit: their remainders are equal, or are 0 and 1. */
  lemma SameCheckDigit(a: int, b: int)
    ensures CheckDigit(a) == CheckDigit(b) <==> a % 11 == b % 11 || (a % 11 <= 1 && b % 11 <= 1)
    ensures CheckDigit(a) == CheckDigit(b) ==> (b - a) % 11 in {0, 1, 10}
    ensures a % 11 == b % 11 <==> (b - a) % 11 == 0
  {
  }

  /**
   * Which changes of one digit leave a valid number passing both checks: the first digit up one with first
   * remainder 1, or down one with 0; and the sixth by two or nine where the two remainders swap 0 and 1.
   */
  predicate Unnoticed(i: nat, delta: int, first: int, second: int) {
    || (i == 0 && delta == 1 && first % 11 == 1)
    || (i == 0 && delta == -1 && first % 11 == 0)
    || (i == 5 && delta in {2, -9} && first % 11 == 1 && second % 11 == 0)
    || (i == 5 && delta in {-2, 9} && first % 11 == 0 && second % 11 == 1)
  }

  /** The arithmetic of `AlterationKeepsChecks`, for a change before the check digits. */
  lemma SumsUnnoticed(delta: int, i: nat, first: int, second: int)
    requires -9 <= delta <= 9 && delta != 0 && i < 9
    ensures var first', second' := first + delta * (10 - i), second + delta * (11 - i);
      (CheckDigit(first) == CheckDigit(first') && CheckDigit(second) == CheckDigit(second'))
      <==> Unnoticed(i, delta, first, second)
  {
    hide CheckDigit;
    var x, y := delta * (10 - i), delta * (11 - i);
    WeightedStep(delta, i);
    SameCheckDigit(first, first + x);
    SameCheckDigit(second, second + y);
    if i == 0 && (delta == 1 || delta == -1) {
      assert y == 11 * delta && x == 10 * delta;
    } else if i == 5 && delta in {2, -2, 9, -9} {
      assert x == 5 * delta && y == 6 * delta;
    }
  }

  /** One altered digit keeps both checks exactly in the cases of `Unnoticed`. */
  lemma AlterationKeepsChecks(s: string, i: nat, c: char)
    requires AllDigits(s) && |s| == 11 && ChecksHold(s)
    requires i < 11 && IsDigit(c) && c != s[i]
    ensures ChecksHold(s[i := c])
      <==> Unnoticed(i, DigitValue(c) - DigitValue(s[i]), WeightedSum(s, 9, 10), WeightedSum(s, 10, 11))
  {
    var t := s[i := c];
    var delta := DigitValue(c) - DigitValue(s[i]);
    SameDigitSameChar(c, s[i]);
    SumAltered(s, i, c, 9, 10);
    SumAltered(s, i, c, 10, 11);
    if i < 9 {
      SumsUnnoticed(delta, i, WeightedSum(s, 9, 10), WeightedSum(s, 10, 11));
    } else if i == 9 {
      hide WeightedSum, CheckDigit;
      assert WeightedSum(t, 9, 10) == WeightedSum(s, 9, 10);
    } else {
      hide WeightedSum, CheckDigit;
      assert WeightedSum(t, 10, 11) == WeightedSum(s, 10, 11);
    }
  }

  /** One altered digit of a valid number leaves it valid exactly in the cases of `Unnoticed`. */
  lemma OneAlteredDigit(s: string, i: nat, c: char)
    requires AllDigits(s) && IsValid(s)
    requires i < 11 && |s| == 11 && IsDigit(c) && c != s[i]
    ensures IsValid(s[i := c])
      <==> Unnoticed(i, DigitValue(c) - DigitValue(s[i]), WeightedSum(s, 9, 10), WeightedSum(s, 10, 11))
  {
    var t := s[i := c];
    CleanOfDigits(s);
    CleanOfDigits(t);
    AlterationKeepsChecks(s, i, c);
    if Uniform(t) {
      UniformSums(t);
      UniformPassesChecks(t);
      assert t[i := s[i]] == s;
      AlterationKeepsChecks(t, i, s[i]);
    }
  }

  lemma SumByThrees(s: string, n: nat, weight: int)
    requires AllDigits(s) && 3 <= n <= |s|
    ensures WeightedSum(s, n, weight)
      == WeightedSum(s, n - 3, weight) + DigitValue(s[n - 3]) * (weight - n + 3)
         + DigitValue(s[n - 2]) * (weight - n + 2) + DigitValue(s[n - 1]) * (weight - n + 1)
  {
    assert WeightedSum(s, n - 1, weight) == WeightedSum(s, n - 2, weight) + DigitValue(s[n - 2]) * (weight - (n - 2));
  }

  /** The two sums written out: the published weights 10 to 2 and 11 to 2. */
  lemma SumsWrittenOut(s: string)
    requires AllDigits(s) && |s| == 11
    ensures WeightedSum(s, 9, 10)
      == 10 * DigitValue(s[0]) + 9 * DigitValue(s[1]) + 8 * DigitValue(s[2]) + 7 * DigitValue(s[3])
         + 6 * DigitValue(s[4])
         + 5 * DigitValue(s[5]) + 4 * DigitValue(s[6]) + 3 * DigitValue(s[7]) + 2 * DigitValue(s[8])
    ensures WeightedSum(s, 10, 11)
      == 11 * DigitValue(s[0]) + 10 * DigitValue(s[1]) + 9 * DigitValue(s[2]) + 8 * DigitValue(s[3])
         + 7 * DigitValue(s[4]) + 6 * DigitValue(s[5]) + 5 * DigitValue(s[6]) + 4 * DigitValue(s[7])
         + 3 * DigitValue(s[8]) + 2 * DigitValue(s[9])
  {
    hide WeightedSum;
    NothingSummed(s);
    SumByThrees(s, 9, 10);
    SumByThrees(s, 6, 10);
    SumByThrees(s, 3, 10);
    SumByThrees(s, 10, 11);
    SumByThrees(s, 7, 11);
    SumByThrees(s, 4, 11);
  }

  lemma NothingSummed(s: string)
    requires AllDigits(s) && s != ""
    ensures WeightedSum(s, 0, 10) == 0 && WeightedSum(s, 1, 11) == 11 * DigitValue(s[0])
  {
  }

  lemma ValidWhenChecksHold(s: string)
    requires AllDigits(s) && |s| == 11 && !Uniform(s) && ChecksHold(s)
    ensures IsValid(s)
  {
    CleanOfDigits(s);
  }

  /** Both kinds of exception happen: 0 read as 1 in first place, as 2 or as 9 in sixth place. */
  lemma UnnoticedAlterations()
    ensures IsValid("00090010000") && IsValid("00090010000"[0 := '1']) && IsValid("00090010000"[5 := '2'])
    ensures IsValid("07985000500") && IsValid("07985000500"[5 := '9'])
  {
    hide IsValid, WeightedSum;
    var a, b := "00090010000", "07985000500";
    SumsWrittenOut(a);
    ValidWhenChecksHold(a);
    SumsWrittenOut(a[0 := '1']);
    ValidWhenChecksHold(a[0 := '1']);
    SumsWrittenOut(a[5 := '2']);
    ValidWhenChecksHold(a[5 := '2']);
    SumsWrittenOut(b);
    ValidWhenChecksHold(b);
    SumsWrittenOut(b[5 := '9']);
    ValidWhenChecksHold(b[5 := '9']);
  }
}
