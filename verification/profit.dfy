/**
 * task_2/main.py: `generator_numbers` picks the whitespace-separated words that
 * begin like a decimal number (`\d+\.\d+`) and converts each to a `Decimal`;
 * `sum_profit` adds them up.
 */
module Profit {
  import opened Wrappers
  import opened Text
  import opened Numerals

  /** A finite `Decimal`: the number `coefficient * 10^exponent`, digits and exponent kept apart. */
  datatype Decimal = Decimal(coefficient: nat, exponent: int)

  /** `10^e` as a real, for any integer `e`. */
  function Scale(e: int): real
    decreases if e < 0 then -e else e
  {
    if e == 0 then 1.0 else if e > 0 then 10.0 * Scale(e - 1) else Scale(e + 1) / 10.0
  }

  /** The number a decimal stands for. */
  function Value(d: Decimal): real {
    d.coefficient as real * Scale(d.exponent)
  }

  lemma ScaleStep(e: int)
    ensures Scale(e) == 10.0 * Scale(e - 1)
  {
  }

  /** Raising the exponent from `m` by `k` to `e` multiplies by `10^k`. */
  lemma {:induction false} ScaleShift(m: int, k: nat, e: int)
    requires e == m + k
    ensures Scale(e) == Pow10(k) as real * Scale(m)
  {
    if k == 0 {
      SameScale(e, m);
    } else {
      ScaleShift(m, k - 1, e - 1);
      ScaleShiftStep(m, k, e);
    }
  }

  lemma ScaleShiftStep(m: int, k: nat, e: int)
    requires 1 <= k && e == m + k && Scale(e - 1) == Pow10(k - 1) as real * Scale(m)
    ensures Scale(e) == Pow10(k) as real * Scale(m)
  {
    ScaleStep(e);
    Pow10Real(k);
    assert Scale(e) == 10.0 * Scale(e - 1);
    assert Scale(e - 1) == Pow10(k - 1) as real * Scale(m);
    assert Pow10(k) as real == 10.0 * Pow10(k - 1) as real;
    ShiftStep(Scale(e), Scale(e - 1), Scale(m), Pow10(k) as real, Pow10(k - 1) as real);
  }

  lemma Pow10Real(k: nat)
    requires 1 <= k
    ensures Pow10(k) as real == 10.0 * Pow10(k - 1) as real
  {
  }

  lemma SameScale(a: int, b: int)
    requires a == b
    ensures Scale(a) == Scale(b)
  {
  }

  lemma ShiftStep(a: real, b: real, s: real, p: real, q: real)
    requires a == 10.0 * b && b == q * s && p == 10.0 * q
    ensures a == p * s
  {
  }

  /** Raising the exponent from `m` to `e` multiplies by `10^(e - m)`. */
  lemma ScaleUp(m: int, e: int)
    requires m <= e
    ensures Scale(e) == Pow10(e - m) as real * Scale(m)
  {
    ScaleShift(m, e - m, e);
  }

  lemma Associate(c: real, p: real, s: real, cp: real, t: real)
    requires cp == c * p && t == p * s
    ensures cp * s == c * t
  {
  }

  /** `decimal.InvalidOperation` (ConversionSyntax) raised by `Decimal(word)` on a malformed literal. */
  datatype ConversionSyntax = ConversionSyntax

  // ---------------------------------------------------------------- selecting words

  /** Number of digits that begin `w`. */
  function LeadingDigits(w: string): (n: nat)
    ensures n <= |w|
    ensures forall i | 0 <= i < n :: IsDigit(w[i])
    ensures n < |w| ==> !IsDigit(w[n])
  {
    if w == [] || !IsDigit(w[0]) then 0 else 1 + LeadingDigits(w[1..])
  }

  lemma {:induction false} LeadingDigitsOf(a: string, b: string)
    requires IsDigits(a)
    requires b == [] || !IsDigit(b[0])
    ensures LeadingDigits(a + b) == |a|
    decreases |a|
  {
    if a == [] {
      assert a + b == b;
    } else {
      assert (a + b)[1..] == a[1..] + b;
      LeadingDigitsOf(a[1..], b);
    }
  }

  /** `re.match(r"\d+\.\d+", w)`: digits, a point and a digit begin the word. */
  predicate HasDecimalPrefix(w: string) {
    var n := LeadingDigits(w);
    1 <= n && n + 1 < |w| && w[n] == '.' && IsDigit(w[n + 1])
  }

  /**
   * The prefix test as a grammar: the word is a non-empty run of digits, a point,
   * a non-empty run of digits, and anything after.
   */
  lemma HasDecimalPrefixIff(w: string)
    ensures HasDecimalPrefix(w) <==>
              exists a, b, rest :: a != [] && b != [] && IsDigits(a) && IsDigits(b) && w == a + "." + b + rest
  {
    if HasDecimalPrefix(w) {
      var n := LeadingDigits(w);
      var a, b, rest := w[..n], [w[n + 1]], w[n + 2..];
      assert w == a + "." + b + rest;
    }
    if exists a, b, rest :: a != [] && b != [] && IsDigits(a) && IsDigits(b) && w == a + "." + b + rest {
      var a, b, rest :| a != [] && b != [] && IsDigits(a) && IsDigits(b) && w == a + "." + b + rest;
      assert w == a + ("." + b + rest);
      LeadingDigitsOf(a, "." + b + rest);
    }
  }

  /** Words without a point between two digits do not pass: "100", ".5", "5." and "abc". */
  lemma NotAmounts()
    ensures !HasDecimalPrefix("100") && !HasDecimalPrefix(".5") && !HasDecimalPrefix("5.")
    ensures !HasDecimalPrefix("abc")
  {
    assert LeadingDigits("100") == 3 by {
      LeadingDigitsOf("100", []);
      assert "100" + [] == "100";
    }
    assert LeadingDigits("5.") == 1 by {
      LeadingDigitsOf("5", ".");
      assert "5" + "." == "5.";
    }
  }

  /** The words `generator_numbers` converts: those that pass the prefix test, in order. */
  function Candidates(words: seq<string>): (r: seq<string>)
    ensures |r| <= |words|
    ensures forall k | 0 <= k < |r| :: HasDecimalPrefix(r[k])
  {
    if words == [] then []
    else (if HasDecimalPrefix(words[0]) then [words[0]] else []) + Candidates(words[1..])
  }

  /** Every word that passes the test is kept, as often as it occurs; no other word is. */
  lemma {:induction false} CandidatesCount(words: seq<string>, w: string)
    ensures multiset(Candidates(words))[w] == if HasDecimalPrefix(w) then multiset(words)[w] else 0
  {
    if words != [] {
      CandidatesCount(words[1..], w);
      assert words == [words[0]] + words[1..];
    }
  }

  /** The selection keeps text order: candidates of a concatenation are concatenated candidates. */
  lemma {:induction false} CandidatesAppend(a: seq<string>, b: seq<string>)
    ensures Candidates(a + b) == Candidates(a) + Candidates(b)
  {
    if a == [] {
      assert a + b == b;
    } else {
      var head := if HasDecimalPrefix(a[0]) then [a[0]] else [];
      assert (a + b)[0] == a[0] && (a + b)[1..] == a[1..] + b;
      assert Candidates(a + b) == head + Candidates(a[1..] + b);
      assert Candidates(a) == head + Candidates(a[1..]);
      CandidatesAppend(a[1..], b);
      assert head + (Candidates(a[1..]) + Candidates(b)) == (head + Candidates(a[1..])) + Candidates(b);
    }
  }

  // ---------------------------------------------------------------- converting

  /** The exponent part a literal may end with: nothing, or `[eE][+-]?digits`. */
  predicate IsExponentPart(x: string) {
    x == [] ||
    (|x| >= 2 && (x[0] == 'e' || x[0] == 'E') &&
     ((x[1] == '+' || x[1] == '-') ==> |x| >= 3) &&
     IsDigits(if x[1] == '+' || x[1] == '-' then x[2..] else x[1..]))
  }

  /** The exponent written at the end of a literal; `None` when the text there is not an exponent. */
  function ExponentOf(x: string): (r: Option<int>)
    ensures r.Some? <==> IsExponentPart(x)
  {
    if x == [] then Some(0)
    else if x[0] != 'e' && x[0] != 'E' then None
    else
      var signed := |x| >= 2 && (x[1] == '+' || x[1] == '-');
      var digits := if signed then x[2..] else x[1..];
      if digits == [] || !IsDigits(digits) then None
      else if signed && x[1] == '-' then Some(-(Number(digits) as int))
      else Some(Number(digits))
  }

  /** Each spelling of an exponent has the value written: `e7`, `E7`, `e+7` and `e-7`. */
  lemma ExponentOfDigits(d: string)
    requires d != [] && IsDigits(d)
    ensures ExponentOf("e" + d) == ExponentOf("E" + d) == ExponentOf("e+" + d) == Some(Number(d))
    ensures ExponentOf("e-" + d) == Some(-(Number(d) as int))
  {
    assert ("e" + d)[1..] == d && ("E" + d)[1..] == d;
    assert ("e+" + d)[2..] == d && ("e-" + d)[2..] == d;
  }

  /** `w` is the literal with whole digits `a`, fraction digits `b` and exponent part `x`. */
  ghost predicate IsLiteral(w: string, a: string, b: string, x: string) {
    a != [] && b != [] && IsDigits(a) && IsDigits(b) && IsExponentPart(x) && w == a + "." + b + x
  }

  /**
   * Splits a word at its point: the digits before it, the run of digits after it,
   * and the rest.
   */
  function SplitLiteral(w: string): Option<(string, string, string)> {
    var n := LeadingDigits(w);
    if n == 0 || n + 1 >= |w| || w[n] != '.' then None
    else
      var t := w[n + 1..];
      var f := LeadingDigits(t);
      if f == 0 then None else Some((w[..n], t[..f], t[f..]))
  }

  /**
   * The parts found are digit runs, the first two non-empty, the third not
   * starting with a digit, and together with the point they make up the word.
   */
  lemma SplitLiteralSound(w: string)
    ensures var r := SplitLiteral(w);
      r.Some? ==>
        && r.value.0 != [] && r.value.1 != [] && IsDigits(r.value.0) && IsDigits(r.value.1)
        && (r.value.2 == [] || !IsDigit(r.value.2[0]))
        && w == r.value.0 + "." + r.value.1 + r.value.2
  {
    var n := LeadingDigits(w);
    if SplitLiteral(w).Some? {
      var t := w[n + 1..];
      var f := LeadingDigits(t);
      SplitAt(t, f);
      SplitAround(w, n);
    }
  }

  /** A literal splits into exactly its parts. */
  lemma SplitLiteralOf(a: string, b: string, x: string)
    requires a != [] && b != [] && IsDigits(a) && IsDigits(b) && (x == [] || !IsDigit(x[0]))
    ensures SplitLiteral(a + "." + b + x) == Some((a, b, x))
  {
    var w := a + "." + b + x;
    LiteralLayout(a, b, x, w);
    LeadingDigitsOf(a, w[|a|..]);
    LeadingDigitsOf(b, x);
    Concat(b, x);
    SplitLiteralAt(w, |a|, |b|);
  }

  /** Where the parts of `a.b` followed by `x` lie. */
  lemma LiteralLayout(a: string, b: string, x: string, w: string)
    requires w == a + "." + b + x
    ensures |w| == |a| + 1 + |b| + |x| && w[..|a|] == a && w[|a|] == '.'
    ensures w == a + w[|a|..] && w[|a|..][0] == '.' && w[|a| + 1..] == b + x
  {
    assert w == a + ("." + b + x);
  }

  lemma Concat(a: string, b: string)
    ensures (a + b)[..|a|] == a && (a + b)[|a|..] == b
  {
  }

  /** `SplitLiteral` read off from the length of the digit runs around the point. */
  lemma SplitLiteralAt(w: string, n: nat, f: nat)
    requires LeadingDigits(w) == n && 1 <= n && n + 1 < |w| && w[n] == '.'
    requires LeadingDigits(w[n + 1..]) == f && 1 <= f
    ensures SplitLiteral(w) == Some((w[..n], w[n + 1..][..f], w[n + 1..][f..]))
  {
  }

  /**
   * `Decimal(w)` for a word that passed the prefix test: digits, a point, digits
   * and an optional exponent. The coefficient is all the digits read as one
   * number; the exponent is the written exponent less the number of digits
   * after the point. Anything else after the fraction digits is a syntax error.
   */
  function ToDecimal(w: string): Result<Decimal, ConversionSyntax> {
    match SplitLiteral(w)
    case None => Failure(ConversionSyntax)
    case Some((a, b, x)) =>
      match ExponentOf(x)
      case None => Failure(ConversionSyntax)
      case Some(e) =>
        NumberAppend(a, b);
        Success(Decimal(Number(a + b), e - |b|))
  }

  /**
   * A literal `a.b` with exponent part `x` converts to the digits of `a` and `b`
   * read as one number, with the written exponent lowered by the fraction length.
   */
  lemma ToDecimalOfLiteral(w: string, a: string, b: string, x: string)
    requires IsLiteral(w, a, b, x)
    ensures IsDigits(a + b) && ExponentOf(x).Some?
    ensures ToDecimal(w) == Success(Decimal(Number(a + b), ExponentOf(x).value - |b|))
  {
    SplitLiteralOf(a, b, x);
    assert SplitLiteral(w) == Some((a, b, x));
    NumberAppend(a, b);
  }

  /** Only literals convert: a selected word such as `12.50,` or `3.5kg` raises. */
  lemma ToDecimalSound(w: string)
    ensures ToDecimal(w).Success? ==> exists a, b, x :: IsLiteral(w, a, b, x)
  {
    if ToDecimal(w).Success? {
      SplitLiteralSound(w);
      var (a, b, x) := SplitLiteral(w).value;
      assert IsLiteral(w, a, b, x);
    }
  }

  /**
   * The value of the converted literal is the number written: the whole part `a`
   * at the written exponent `e` plus the fraction digits `b` at `|b|` places below it.
   */
  lemma LiteralValue(a: string, b: string, e: int)
    requires IsDigits(a) && IsDigits(b)
    ensures IsDigits(a + b)
    ensures Value(Decimal(Number(a + b), e - |b|)) == Value(Decimal(Number(a), e)) + Value(Decimal(Number(b), e - |b|))
  {
    NumberAppend(a, b);
    LiteralAsSum(Decimal(Number(a), e), Decimal(Number(b), e - |b|), Decimal(Number(a + b), e - |b|));
  }

  /** The whole part and the fraction digits of a literal, added, give the literal. */
  lemma LiteralAsSum(whole: Decimal, fraction: Decimal, d: Decimal)
    requires fraction.exponent <= whole.exponent && d.exponent == fraction.exponent
    requires d.coefficient == whole.coefficient * Pow10(whole.exponent - fraction.exponent) + fraction.coefficient
    ensures Value(d) == Value(whole) + Value(fraction)
  {
    assert Add(whole, fraction) == d;
  }

  lemma RealProduct(a: int, b: int, c: int)
    requires c == a * b
    ensures c as real == a as real * b as real
  {
  }

  lemma SplitAt(s: string, i: nat)
    requires i <= |s|
    ensures s[..i] + s[i..] == s
  {
  }

  lemma SplitAround(s: string, i: nat)
    requires i < |s|
    ensures s[..i] + [s[i]] + s[i + 1..] == s
  {
  }

  /** Converts every word in order, raising at the first that is not a literal. */
  function ConvertAll(words: seq<string>): (r: Result<seq<Decimal>, ConversionSyntax>)
    ensures r.Success? <==> forall k | 0 <= k < |words| :: ToDecimal(words[k]).Success?
    ensures r.Success? ==>
              |r.value| == |words| && forall k | 0 <= k < |words| :: ToDecimal(words[k]) == Success(r.value[k])
  {
    if words == [] then Success([])
    else match ToDecimal(words[0])
      case Failure(e) => Failure(e)
      case Success(d) =>
        match ConvertAll(words[1..])
        case Failure(e) => Failure(e)
        case Success(ds) => Success([d] + ds)
  }

  /**
   * `generator_numbers(text)` run to the end: one value per word of `text.split()`
   * that passes the prefix test, in text order, or the error the first
   * malformed selected word raises.
   */
  function GeneratorNumbers(text: string): Result<seq<Decimal>, ConversionSyntax> {
    ConvertAll(Candidates(Split(text)))
  }

  /**
   * The prefix test reads only the start of a word, the conversion all of it: an
   * amount followed by punctuation, such as "12.50,", is selected and then fails
   * to convert, and so does the whole text that holds it.
   */
  lemma PunctuatedAmountFails(a: string, b: string, c: char)
    requires a != [] && b != [] && IsDigits(a) && IsDigits(b)
    requires !IsDigit(c) && c != 'e' && c != 'E'
    ensures HasDecimalPrefix(a + "." + b + [c])
    ensures ToDecimal(a + "." + b + [c]) == Failure(ConversionSyntax)
  {
    HasDecimalPrefixIff(a + "." + b + [c]);
    SplitLiteralOf(a, b, [c]);
  }

  /** A text converts only if every selected word does. */
  lemma GeneratorNumbersFails(text: string, w: string)
    requires w in Candidates(Split(text)) && ToDecimal(w).Failure?
    ensures GeneratorNumbers(text).Failure? && SumProfit(text).Failure?
  {
  }

  // ---------------------------------------------------------------- summing

  function Min(x: int, y: int): int {
    if x < y then x else y
  }

  /** Exact decimal addition: the result takes the smaller exponent. */
  function Add(x: Decimal, y: Decimal): (r: Decimal)
    ensures r.exponent == Min(x.exponent, y.exponent)
    ensures Value(r) == Value(x) + Value(y)
  {
    var m := Min(x.exponent, y.exponent);
    var u, v := x.coefficient * Pow10(x.exponent - m), y.coefficient * Pow10(y.exponent - m);
    AlignedValue(x, m, u);
    AlignedValue(y, m, v);
    SameExponentSum(u, v, m);
    Decimal(u + v, m)
  }

  /** At a shared exponent, adding decimals is adding coefficients. */
  lemma SameExponentSum(u: nat, v: nat, m: int)
    ensures Value(Decimal(u + v, m)) == Value(Decimal(u, m)) + Value(Decimal(v, m))
  {
    Distribute(u as real, v as real, Scale(m), (u + v) as real);
  }

  lemma Distribute(u: real, v: real, s: real, w: real)
    requires w == u + v
    ensures w * s == u * s + v * s
  {
  }

  /** Rewriting a decimal at a smaller exponent `m` keeps its value. */
  lemma AlignedValue(d: Decimal, m: int, u: nat)
    requires m <= d.exponent && u == d.coefficient * Pow10(d.exponent - m)
    ensures Value(Decimal(u, m)) == Value(d)
  {
    ScaleUp(m, d.exponent);
    ShiftCoefficient(d.coefficient, Pow10(d.exponent - m), u, Scale(m), Scale(d.exponent));
  }

  lemma ShiftCoefficient(c: nat, p: nat, u: nat, s: real, t: real)
    requires u == c * p && t == p as real * s
    ensures u as real * s == c as real * t
  {
    RealProduct(c, p, u);
    Associate(c as real, p as real, s, u as real, t);
  }

  /** The exact sum of the numbers, as a reference for `Sum`. */
  function Total(values: seq<Decimal>): real {
    if values == [] then 0.0 else Total(values[..|values| - 1]) + Value(values[|values| - 1])
  }

  /**
   * `sum(values)`: left to right, starting from the integer 0. The value is the
   * exact total and the exponent is the smallest among 0 and the summands'.
   */
  function Sum(values: seq<Decimal>): (r: Decimal)
    ensures Value(r) == Total(values)
    ensures r.exponent <= 0 && forall k | 0 <= k < |values| :: r.exponent <= values[k].exponent
    ensures r.exponent == 0 || exists k | 0 <= k < |values| :: r.exponent == values[k].exponent
  {
    if values == [] then Decimal(0, 0)
    else
      var init := values[..|values| - 1];
      var s := Sum(init);
      assert forall k | 0 <= k < |init| :: values[k] == init[k];
      Add(s, values[|values| - 1])
  }

  /** `sum_profit(text, generator_numbers)`: the sum of the numbers the text holds. */
  function SumProfit(text: string): (r: Result<Decimal, ConversionSyntax>)
    ensures r.Success? <==> GeneratorNumbers(text).Success?
    ensures r.Success? ==> Value(r.value) == Total(GeneratorNumbers(text).value)
    ensures Candidates(Split(text)) == [] ==> r == Success(Decimal(0, 0))
  {
    match GeneratorNumbers(text)
    case Failure(e) => Failure(e)
    case Success(values) => Success(Sum(values))
  }

  // ---------------------------------------------------------------- main

  /**
   * The words of the text `main` passes to `sum_profit`, in order: an opening
   * phrase, the first amount, a middle phrase, and the last two amounts with the
   * words between and after them.
   */
  const IncomeWords: seq<string> :=
    Opening + ["1000.01"] + Middle + ["27.45"] + ["i"] + ["324.00"] + ["доларів."]

  const Opening: seq<string> := ["Загальний", "дохід", "працівника", "складається", "з", "декількох", "частин:"]

  const Middle: seq<string> := ["як", "основний", "дохід,", "доповнений", "додатковими", "надходженнями"]

  /** The text itself: those words separated by single spaces. */
  const IncomeText: string := JoinWords(IncomeWords)

  lemma IncomeWordsAreWords()
    ensures forall k | 0 <= k < |IncomeWords| :: IsWord(IncomeWords[k])
  {
    var amounts := ["1000.01", "27.45", "i", "324.00", "доларів."];
    assert IncomeWords == Opening + [amounts[0]] + Middle + amounts[1..];
    PhraseWords();
    assert forall k | 0 <= k < |amounts| :: IsWord(amounts[k]);
    WordsAppend(Opening, [amounts[0]]);
    WordsAppend(Opening + [amounts[0]], Middle);
    WordsAppend(Opening + [amounts[0]] + Middle, amounts[1..]);
  }

  lemma PhraseWords()
    ensures forall k | 0 <= k < |Opening| :: IsWord(Opening[k])
    ensures forall k | 0 <= k < |Middle| :: IsWord(Middle[k])
  {
  }

  lemma WordsAppend(a: seq<string>, b: seq<string>)
    requires forall k | 0 <= k < |a| :: IsWord(a[k])
    requires forall k | 0 <= k < |b| :: IsWord(b[k])
    ensures forall k | 0 <= k < |a + b| :: IsWord((a + b)[k])
  {
  }

  /** Only the three amounts in the text pass the prefix test. */
  lemma IncomeCandidates()
    ensures Candidates(IncomeWords) == ["1000.01", "27.45", "324.00"]
  {
    PhrasesHaveNone();
    AmountsPass();
    NoLeadingDigit("i");
    NoLeadingDigit("доларів.");
    ThreeAmounts(Opening, "1000.01", Middle, "27.45", "i", "324.00", "доларів.");
  }

  /** The shape of the text: amounts `x`, `y`, `z` among words that are not amounts. */
  lemma ThreeAmounts(o: seq<string>, x: string, m: seq<string>, y: string, i: string, z: string, d: string)
    requires Candidates(o) == [] && Candidates(m) == []
    requires HasDecimalPrefix(x) && HasDecimalPrefix(y) && HasDecimalPrefix(z)
    requires !HasDecimalPrefix(i) && !HasDecimalPrefix(d)
    ensures Candidates(o + [x] + m + [y] + [i] + [z] + [d]) == [x, y, z]
  {
    SingleWord(x);
    SingleWord(y);
    SingleWord(i);
    SingleWord(z);
    SingleWord(d);
    var a := o + [x];
    var b := a + m + [y];
    var c := b + [i] + [z];
    CandidatesAppend(o, [x]);
    CandidatesAppend(a, m);
    CandidatesAppend(a + m, [y]);
    CandidatesAppend(b, [i]);
    CandidatesAppend(b + [i], [z]);
    CandidatesAppend(c, [d]);
  }

  /** The two phrases around the first amount hold no amount. */
  lemma PhrasesHaveNone()
    ensures Candidates(Opening) == [] && Candidates(Middle) == []
  {
    forall k | 0 <= k < |Opening| ensures !HasDecimalPrefix(Opening[k]) {
      NoLeadingDigit(Opening[k]);
    }
    forall k | 0 <= k < |Middle| ensures !HasDecimalPrefix(Middle[k]) {
      NoLeadingDigit(Middle[k]);
    }
    CandidatesNone(Opening);
    CandidatesNone(Middle);
  }

  lemma AmountsPass()
    ensures HasDecimalPrefix("1000.01") && HasDecimalPrefix("27.45") && HasDecimalPrefix("324.00")
  {
    PrefixAt("1000.01", 4);
    PrefixAt("27.45", 2);
    PrefixAt("324.00", 3);
  }

  /** A single word is selected exactly when it passes the test. */
  lemma SingleWord(w: string)
    ensures Candidates([w]) == if HasDecimalPrefix(w) then [w] else []
  {
    assert [w][1..] == [];
  }

  /** No word passes the test, so none is selected. */
  lemma {:induction false} CandidatesNone(words: seq<string>)
    requires forall k | 0 <= k < |words| :: !HasDecimalPrefix(words[k])
    ensures Candidates(words) == []
  {
    if words != [] {
      CandidatesNone(words[1..]);
    }
  }

  lemma NoLeadingDigit(w: string)
    requires w != [] && !IsDigit(w[0])
    ensures !HasDecimalPrefix(w)
  {
  }

  /** A word whose first `n` characters are digits followed by a point and a digit passes. */
  lemma PrefixAt(w: string, n: nat)
    requires 1 <= n && n + 1 < |w|
    requires forall i | 0 <= i < n :: IsDigit(w[i])
    requires w[n] == '.' && IsDigit(w[n + 1])
    ensures HasDecimalPrefix(w)
  {
    LeadingDigitsOf(w[..n], w[n..]);
    assert w[..n] + w[n..] == w;
  }


  /** `main`: the three amounts in the text add up to `1351.46`, kept to two places. */
  lemma IncomeTextTotal()
    ensures SumProfit(IncomeText) == Success(Decimal(135146, -2))
  {
    IncomeWordsAreWords();
    SplitJoinWords(IncomeWords);
    IncomeCandidates();
    AmountValues();
    ConvertThree("1000.01", "27.45", "324.00", Decimal(100001, -2), Decimal(2745, -2), Decimal(32400, -2));
    AmountsSum();
  }

  /** Each amount in the text converts to its value in cents, with exponent -2. */
  lemma AmountValues()
    ensures ToDecimal("1000.01") == Success(Decimal(100001, -2))
    ensures ToDecimal("27.45") == Success(Decimal(2745, -2))
    ensures ToDecimal("324.00") == Success(Decimal(32400, -2))
  {
    FirstAmount();
    SecondAmount();
    ThirdAmount();
  }

  lemma FirstAmount()
    ensures ToDecimal("1000.01") == Success(Decimal(100001, -2))
  {
    var w := "1000.01";
    assert w[..4] + w[5..] == "100001";
    assert Digits(100001, 6) == "100001" by {
      assert Digits(1, 1) == "1";
      assert Digits(10, 2) == "10";
      assert Digits(100, 3) == "100";
      assert Digits(1000, 4) == "1000";
      assert Digits(10000, 5) == "10000";
    }
    AmountValue(w, 4, "100001", 100001);
  }

  lemma SecondAmount()
    ensures ToDecimal("27.45") == Success(Decimal(2745, -2))
  {
    var w := "27.45";
    assert w[..2] + w[3..] == "2745" == Digits(2745, 4);
    AmountValue(w, 2, "2745", 2745);
  }

  lemma ThirdAmount()
    ensures ToDecimal("324.00") == Success(Decimal(32400, -2))
  {
    var w := "324.00";
    assert w[..3] + w[4..] == "32400" == Digits(32400, 5);
    AmountValue(w, 3, "32400", 32400);
  }

  /** An amount whose digits `d`, with the point taken out, are those of `n`. */
  lemma AmountValue(w: string, p: nat, d: string, n: nat)
    requires 1 <= p && p + 1 < |w| && w[p] == '.'
    requires w[..p] + w[p + 1..] == d == Digits(n, |d|) && n < Pow10(|d|)
    ensures ToDecimal(w) == Success(Decimal(n, p + 1 - |w|))
  {
    DigitsHalves(w[..p], w[p + 1..]);
    PlainAmount(w, p);
    NumberOfDigits(n, |d|);
  }

  lemma DigitsHalves(a: string, b: string)
    requires IsDigits(a + b)
    ensures IsDigits(a) && IsDigits(b)
  {
    assert forall i | 0 <= i < |a| :: a[i] == (a + b)[i];
    assert forall i | 0 <= i < |b| :: b[i] == (a + b)[|a| + i];
  }

  /** A word of digits with one point inside and no exponent. */
  lemma PlainAmount(w: string, n: nat)
    requires 1 <= n && n + 1 < |w| && w[n] == '.'
    requires IsDigits(w[..n]) && IsDigits(w[n + 1..])
    ensures IsDigits(w[..n] + w[n + 1..])
    ensures ToDecimal(w) == Success(Decimal(Number(w[..n] + w[n + 1..]), n + 1 - |w|))
  {
    var a, b := w[..n], w[n + 1..];
    assert w == a + "." + b + [];
    ToDecimalOfLiteral(w, a, b, []);
  }

  lemma ConvertThree(x: string, y: string, z: string, dx: Decimal, dy: Decimal, dz: Decimal)
    requires ToDecimal(x) == Success(dx) && ToDecimal(y) == Success(dy) && ToDecimal(z) == Success(dz)
    ensures ConvertAll([x, y, z]) == Success([dx, dy, dz])
  {
    ConvertTwo(y, z, dy, dz);
    assert [x, y, z][1..] == [y, z];
    ConvertCons([x, y, z], dx, [dy, dz]);
    assert [dx] + [dy, dz] == [dx, dy, dz];
  }

  lemma ConvertTwo(y: string, z: string, dy: Decimal, dz: Decimal)
    requires ToDecimal(y) == Success(dy) && ToDecimal(z) == Success(dz)
    ensures ConvertAll([y, z]) == Success([dy, dz])
  {
    assert [z][1..] == [];
    ConvertCons([z], dz, []);
    assert [dz] + [] == [dz] && [y, z][1..] == [z];
    ConvertCons([y, z], dy, [dz]);
    assert [dy] + [dz] == [dy, dz];
  }

  /** Converting a list is converting its first word, then the rest. */
  lemma ConvertCons(words: seq<string>, d: Decimal, ds: seq<Decimal>)
    requires words != [] && ToDecimal(words[0]) == Success(d) && ConvertAll(words[1..]) == Success(ds)
    ensures ConvertAll(words) == Success([d] + ds)
  {
  }

  /** 1000.01 + 27.45 + 324.00 is 1351.46, kept to two places. */
  lemma AmountsSum()
    ensures Sum([Decimal(100001, -2), Decimal(2745, -2), Decimal(32400, -2)]) == Decimal(135146, -2)
  {
    var v := [Decimal(100001, -2), Decimal(2745, -2), Decimal(32400, -2)];
    assert v[..2] == [Decimal(100001, -2), Decimal(2745, -2)];
    assert v[..2][..1] == [Decimal(100001, -2)];
    assert v[..2][..1][..0] == [];
  }

}
