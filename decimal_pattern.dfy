/** The directive's default pattern `^-?[0-9]+(\.[0-9]*){0,1}$` as a hand-written
    recognizer, with a declarative reference definition of the same language, and
    the numeric value JavaScript's `Number()` gives the strings of that language. */
module DecimalPattern {
  import opened Wrappers

  predicate IsDigit(c: char) {
    '0' <= c <= '9'
  }

  predicate AllDigits(s: string) {
    forall i :: 0 <= i < |s| ==> IsDigit(s[i])
  }

  // ---------------------------------------------------------------------------
  // The recognizer: a small automaton, one character per recursive step.
  // ---------------------------------------------------------------------------

  /** Accepts what may follow the first integer digit: more digits, then
      optionally a `.` and any number of digits. */
  predicate IntTail(t: string)
    decreases |t|
  {
    t == [] || (IsDigit(t[0]) && IntTail(t[1..])) || (t[0] == '.' && AllDigits(t[1..]))
  }

  /** Accepts `[0-9]+(\.[0-9]*)?`. */
  predicate Unsigned(u: string) {
    u != [] && IsDigit(u[0]) && IntTail(u[1..])
  }

  /** Length of the optional leading minus sign. */
  function SignLength(s: string): nat {
    if s != [] && s[0] == '-' then 1 else 0
  }

  /** Accepts exactly `^-?[0-9]+(\.[0-9]*){0,1}$` (proved in `MatchesIffRegexShape`).
      An accepted string has a digit right after the optional sign, and after the
      sign holds nothing but digits and `.`. */
  predicate Matches(s: string)
    ensures Matches(s) ==> SignLength(s) < |s| && IsDigit(s[SignLength(s)])
    ensures Matches(s) ==> forall i :: SignLength(s) <= i < |s| ==> IsDigit(s[i]) || s[i] == '.'
  {
    var b := SignLength(s);
    IntTailAlphabet(s[b..]);
    assert forall i :: b <= i < |s| ==> s[i] == s[b..][i - b];
    Unsigned(s[b..])
  }

  /** An unsigned numeral is made of digits and `.` only. */
  lemma {:induction false} IntTailAlphabet(t: string)
    ensures IntTail(t) ==> forall i :: 0 <= i < |t| ==> IsDigit(t[i]) || t[i] == '.'
    decreases |t|
  {
    if t != [] {
      IntTailAlphabet(t[1..]);
      assert forall i :: 1 <= i < |t| ==> t[i] == t[1..][i - 1];
    }
  }

  // ---------------------------------------------------------------------------
  // Reference definition: the regular expression read as a split of the string.
  // ---------------------------------------------------------------------------

  /** `t[..j]` are digits, and after them either the end or `.` followed by digits. */
  ghost predicate TailSplitAt(t: string, j: int) {
    0 <= j <= |t| && AllDigits(t[..j]) && (j == |t| || (t[j] == '.' && AllDigits(t[j + 1..])))
  }

  /** After the optional sign, `s[b..k]` is a non-empty run of digits (`[0-9]+`),
      and `s[k..]` is empty or a `.` followed by digits (`(\.[0-9]*){0,1}`). */
  ghost predicate ShapeAt(s: string, k: int) {
    var b := SignLength(s);
    b < k <= |s| && AllDigits(s[b..k]) && (k == |s| || (s[k] == '.' && AllDigits(s[k + 1..])))
  }

  ghost predicate RegexShape(s: string) {
    exists k :: ShapeAt(s, k)
  }

  /** An accepted tail splits into a digit run and an optional fraction. */
  lemma {:induction false} IntTailSplits(t: string) returns (j: int)
    requires IntTail(t)
    ensures TailSplitAt(t, j)
    decreases |t|
  {
    if t == [] {
      j := 0;
    } else if IsDigit(t[0]) && IntTail(t[1..]) {
      var j' := IntTailSplits(t[1..]);
      j := j' + 1;
      assert t[..j] == [t[0]] + t[1..][..j'];
      if j < |t| {
        assert t[j + 1..] == t[1..][j' + 1..];
      }
    } else {
      j := 0;
      assert t[..0] == [];
    }
  }

  /** A digit run followed by an optional fraction is an accepted tail. */
  lemma {:induction false} SplitIsIntTail(t: string, j: int)
    requires TailSplitAt(t, j)
    ensures IntTail(t)
    decreases |t|
  {
    if j > 0 {
      assert IsDigit(t[..j][0]);
      assert t[1..][..j - 1] == t[1..j];
      if j < |t| {
        assert t[1..][j..] == t[j + 1..];
      }
      SplitIsIntTail(t[1..], j - 1);
    }
  }

  lemma IntTailIff(t: string)
    ensures IntTail(t) <==> exists j :: TailSplitAt(t, j)
  {
    if IntTail(t) {
      var j := IntTailSplits(t);
    }
    if j :| TailSplitAt(t, j) {
      SplitIsIntTail(t, j);
    }
  }

  /** A string the recognizer accepts has the regular expression's shape. */
  lemma MatchesHasShape(s: string) returns (k: int)
    requires Matches(s)
    ensures ShapeAt(s, k)
  {
    var b := SignLength(s);
    var u := s[b..];
    assert u != [] && |u| == |s| - b;
    var j := IntTailSplits(u[1..]);
    assert 0 <= j <= |u| - 1;
    k := b + 1 + j;
    forall i | b <= i < k
      ensures IsDigit(s[i])
    {
      if i > b {
        assert s[i] == u[1..][..j][i - b - 1];
      }
    }
    if k < |s| {
      assert s[k] == u[1..][j];
      assert s[k + 1..] == u[1..][j + 1..];
    }
  }

  /** A string with the regular expression's shape is accepted by the recognizer. */
  lemma ShapeIsMatched(s: string, k: int)
    requires ShapeAt(s, k)
    ensures Matches(s)
  {
    var b := SignLength(s);
    var u := s[b..];
    assert b < k <= |s| && |u| == |s| - b;
    assert IsDigit(s[b..k][0]);
    var j := k - b - 1;
    assert u[1..][..j] == s[b + 1..k];
    if k < |s| {
      assert u[1..][j] == s[k];
      assert u[1..][j + 1..] == s[k + 1..];
    }
    SplitIsIntTail(u[1..], j);
  }

  /** The recognizer accepts exactly the language of the default regular expression. */
  lemma MatchesIffRegexShape(s: string)
    ensures Matches(s) <==> RegexShape(s)
  {
    if Matches(s) {
      var k := MatchesHasShape(s);
    }
    if k :| ShapeAt(s, k) {
      ShapeIsMatched(s, k);
    }
  }

  // ---------------------------------------------------------------------------
  // Numeric value, as `Number()` converts the strings of this language.
  // ---------------------------------------------------------------------------

  function DigitValue(c: char): (d: nat)
    ensures d <= 9
  {
    if IsDigit(c) then c as int - '0' as int else 0
  }

  /** The value of a run of decimal digits, most significant first. */
  function DigitsValue(d: string): nat
    decreases |d|
  {
    if d == [] then 0 else 10 * DigitsValue(d[..|d| - 1]) + DigitValue(d[|d| - 1])
  }

  function Pow10(n: nat): (p: nat)
    ensures p >= 1
  {
    if n == 0 then 1 else 10 * Pow10(n - 1)
  }

  /** Index of the first `.` in `t`, or `|t|` when there is none. */
  function DotIndex(t: string): (k: nat)
    ensures k <= |t|
    ensures forall i :: 0 <= i < k ==> t[i] != '.'
    ensures k < |t| ==> t[k] == '.'
    decreases |t|
  {
    if t == [] then 0 else if t[0] == '.' then 0 else 1 + DotIndex(t[1..])
  }

  /** Exact value of `[0-9]+(\.[0-9]*)?`: the integer digits plus the fraction digits
      scaled down by their count. */
  function UnsignedValue(u: string): real {
    var k := DotIndex(u);
    var intPart := DigitsValue(u[..k]) as real;
    if k < |u| then
      var frac := u[k + 1..];
      intPart + (DigitsValue(frac) as real) / (Pow10(|frac|) as real)
    else
      intPart
  }

  /** `Number(s)` for the strings this model gives a value: the empty string is 0
      and every string of the default language has its exact decimal value; every
      other string is NaN (`None`). A value is never positive after a leading minus
      and never negative without one. */
  function Value(s: string): (r: Option<real>)
    ensures r.Some? <==> (s == "" || Matches(s))
    ensures r.Some? && s != "" && s[0] == '-' ==> r.value <= 0.0
    ensures r.Some? && s != "" && s[0] != '-' ==> r.value >= 0.0
  {
    if s == "" then Some(0.0)
    else if !Matches(s) then None
    else if s[0] == '-' then Some(-UnsignedValue(s[1..]))
    else Some(UnsignedValue(s))
  }

  // ---------------------------------------------------------------------------
  // Properties of the value.
  // ---------------------------------------------------------------------------

  lemma {:induction false} IntTailOfDigits(t: string)
    requires AllDigits(t)
    ensures IntTail(t)
    decreases |t|
  {
    if t != [] {
      IntTailOfDigits(t[1..]);
    }
  }

  /** A non-empty run of digits is in the language and converts to its integer value. */
  lemma {:induction false} ValueOfDigits(d: string)
    requires d != "" && AllDigits(d)
    ensures Matches(d)
    ensures Value(d) == Some(DigitsValue(d) as real)
  {
    IntTailOfDigits(d[1..]);
    assert d[..|d|] == d;
  }

  /** Appending one digit to a digit run multiplies its value by ten and adds the digit. */
  lemma DigitsValueAppend(d: string, c: char)
    requires IsDigit(c)
    ensures DigitsValue(d + [c]) == 10 * DigitsValue(d) + (c as int - '0' as int)
  {
    assert (d + [c])[..|d|] == d;
  }

  /** A trailing `.` after an integer keeps the string in the language and does not
      change its value (`Number("5.") == 5`). */
  lemma TrailingDotKeepsValue(d: string)
    requires d != "" && AllDigits(d)
    ensures Matches(d + ".")
    ensures Value(d + ".") == Value(d)
  {
    assert d + "." == d + "." + "";
    assert d + "" == d;
    ValueOfDecimal(d, "");
    ValueOfDigits(d);
  }

  lemma {:induction false} DotIndexOfDigits(d: string, rest: string)
    requires AllDigits(d)
    requires rest != [] && rest[0] == '.'
    ensures DotIndex(d + rest) == |d|
    decreases |d|
  {
    if d == [] {
      assert d + rest == rest;
    } else {
      assert (d + rest)[1..] == d[1..] + rest;
      DotIndexOfDigits(d[1..], rest);
    }
  }

  /** The value of two digit runs written one after the other: the first is shifted
      left by the length of the second. */
  lemma {:induction false} DigitsValueConcat(d: string, f: string)
    ensures DigitsValue(d + f) == DigitsValue(d) * Pow10(|f|) + DigitsValue(f)
    decreases |f|
  {
    if f == [] {
      assert d + f == d;
    } else {
      var f' := f[..|f| - 1];
      assert (d + f)[..|d + f| - 1] == d + f';
      assert (d + f)[|d + f| - 1] == f[|f| - 1];
      DigitsValueConcat(d, f');
      ShiftStep(DigitsValue(d), Pow10(|f'|), DigitsValue(f'), DigitValue(f[|f| - 1]));
    }
  }

  /** One positional step: `10 * (a * p + b) + c == a * (10 * p) + (10 * b + c)`. */
  lemma ShiftStep(a: nat, p: nat, b: nat, c: nat)
    ensures 10 * (a * p + b) + c == a * (10 * p) + (10 * b + c)
  {
  }

  /** Dividing `a * p + b` by a positive `p` gives `a` plus the fraction `b / p`. */
  lemma ScaledSum(a: nat, b: nat, p: nat)
    requires p >= 1
    ensures (a as real) + (b as real) / (p as real) == ((a * p + b) as real) / (p as real)
  {
    assert (a * p + b) as real == (a as real) * (p as real) + (b as real);
  }

  /** A digit run, `.`, and a digit run form a string of the default pattern. */
  lemma DecimalMatches(d: string, f: string)
    requires d != "" && AllDigits(d) && AllDigits(f)
    ensures Matches(d + "." + f)
  {
    var s := d + "." + f;
    assert s[..|d|] == d && s[|d|] == '.' && s[|d| + 1..] == f;
    assert s[0] == d[0];
    assert ShapeAt(s, |d|);
    ShapeIsMatched(s, |d|);
  }

  /** The unsigned value of `d.f` is the integer `d` plus `f` scaled down by its length. */
  lemma DecimalUnsignedValue(d: string, f: string)
    requires AllDigits(d)
    ensures UnsignedValue(d + "." + f)
            == (DigitsValue(d) as real) + (DigitsValue(f) as real) / (Pow10(|f|) as real)
  {
    DecimalSplit(d, f);
  }

  /** In `d.f` the first `.` is the one after `d`, with `d` before it and `f` after. */
  lemma DecimalSplit(d: string, f: string)
    requires AllDigits(d)
    ensures DotIndex(d + "." + f) == |d|
    ensures (d + "." + f)[..|d|] == d
    ensures (d + "." + f)[|d| + 1..] == f
  {
    assert d + "." + f == d + ("." + f);
    DotIndexOfDigits(d, "." + f);
  }

  /** A numeral with a fraction, `d.f`, converts to the digits of `d` and `f` read as
      one integer and divided by ten to the number of fraction digits
      (`Number("0.5") == 0.5`, `Number("12.34") == 12.34`). */
  lemma ValueOfDecimal(d: string, f: string)
    requires d != "" && AllDigits(d) && AllDigits(f)
    ensures Matches(d + "." + f)
    ensures Value(d + "." + f) == Some((DigitsValue(d + f) as real) / (Pow10(|f|) as real))
  {
    DecimalValueIsUnsigned(d, f);
    DecimalUnsignedValue(d, f);
    DigitsValueConcat(d, f);
    ScaledSum(DigitsValue(d), DigitsValue(f), Pow10(|f|));
  }

  /** `d.f` is in the language and, having no sign, converts to its unsigned value. */
  lemma DecimalValueIsUnsigned(d: string, f: string)
    requires d != "" && AllDigits(d) && AllDigits(f)
    ensures Matches(d + "." + f)
    ensures Value(d + "." + f) == Some(UnsignedValue(d + "." + f))
  {
    DecimalMatches(d, f);
    assert (d + "." + f)[0] == d[0];
  }

  /** `Number("0.5") == 0.5`. */
  lemma ValueOfHalf()
    ensures Value("0.5") == Some(0.5)
  {
    assert "0.5" == "0" + "." + "5";
    ValueOfDecimal("0", "5");
    DigitsOf05();
    assert Pow10(1) == 10;
  }

  /** `"0.5"` is in the language of the default pattern. */
  lemma HalfMatches()
    ensures Matches("0.5")
  {
    assert "0.5" == "0" + "." + "5";
    DecimalMatches("0", "5");
  }

  lemma DigitsOf05()
    ensures DigitsValue("0" + "5") == 5
  {
    assert "0" + "5" == "0" + ['5'];
    DigitsValueAppend("0", '5');
    assert "0"[..0] == "";
  }

  /** A single digit converts to its own value. */
  lemma ValueOfSingleDigit(c: char)
    requires IsDigit(c)
    ensures Value([c]) == Some((c as int - '0' as int) as real)
  {
    ValueOfDigits([c]);
    assert [c][..0] == [];
  }

  /** Typing one more digit after an integer multiplies its value by ten and adds the digit. */
  lemma ValueAppendDigit(d: string, c: char)
    requires d != "" && AllDigits(d) && IsDigit(c)
    ensures Value(d).Some?
    ensures Value(d + [c]) == Some(10.0 * Value(d).value + (c as int - '0' as int) as real)
  {
    ValueOfDigits(d);
    ValueOfDigits(d + [c]);
    DigitsValueAppend(d, c);
  }

  /** `Number("150") == 150`. */
  lemma ValueOf150()
    ensures Value("150") == Some(150.0)
  {
    assert "150" == "15" + ['0'] && "15" == "1" + ['5'] && "1" == ['1'];
    ValueOfSingleDigit('1');
    ValueAppendDigit("1", '5');
    ValueAppendDigit("15", '0');
  }

  /** `Number("50") == 50`. */
  lemma ValueOf50()
    ensures Value("50") == Some(50.0)
  {
    assert "50" == "5" + ['0'] && "5" == ['5'];
    ValueOfSingleDigit('5');
    ValueAppendDigit("5", '0');
  }

  /** A lone minus sign is NaN. */
  lemma LoneMinusIsNaN()
    ensures Value("-") == None
  {
    assert "-"[1..] == "";
  }

  /** A leading minus negates the value of the unsigned numeral after it. */
  lemma NegationFlipsValue(u: string)
    requires Unsigned(u)
    ensures Matches("-" + u) && Matches(u)
    ensures Value("-" + u) == Some(-Value(u).value)
  {
    assert ("-" + u)[1..] == u;
  }
}
