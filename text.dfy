/**
 * The string operations the bot relies on: decimal digits, JavaScript's
 * `String(n)`, `parseInt` and `parseFloat` on the forms that occur in the
 * sheet, `split` at a separator, the `/\d+/` match, `padStart(2, "0")`,
 * `toLowerCase` and `includes`.
 */
module Text {
  import opened Wrappers

  predicate IsDigit(c: char) { '0' <= c <= '9' }

  predicate AllDigits(s: string) { forall i :: 0 <= i < |s| ==> IsDigit(s[i]) }

  function DigitChar(d: nat): (c: char)
    requires d < 10
    ensures IsDigit(c)
  {
    ('0' as int + d) as char
  }

  function DigitValue(c: char): (d: nat)
    requires IsDigit(c)
    ensures d < 10 && DigitChar(d) == c
  {
    c as int - '0' as int
  }

  function Pow10(k: nat): (p: nat)
    ensures p > 0
  {
    if k == 0 then 1 else 10 * Pow10(k - 1)
  }

  /** `String(n)` for a non-negative integer: its decimal digits, no leading zero. */
  function Show(n: nat): (s: string)
    ensures |s| > 0 && AllDigits(s)
    ensures n < 10 <==> |s| == 1
  {
    if n < 10 then [DigitChar(n)] else Show(n / 10) + [DigitChar(n % 10)]
  }

  /** The number a string of digits denotes, most significant digit first; "" denotes 0. */
  function DigitsValue(s: string): nat
    requires AllDigits(s)
  {
    if s == [] then 0 else DigitsValue(s[..|s| - 1]) * 10 + DigitValue(s[|s| - 1])
  }

  lemma {:induction false} DigitsValueShow(n: nat)
    ensures DigitsValue(Show(n)) == n
  {
    if n >= 10 {
      var s := Show(n);
      assert s[..|s| - 1] == Show(n / 10);
      DigitsValueShow(n / 10);
    }
  }

  /** Four-digit numbers print as exactly four digits. */
  lemma ShowFourDigits(n: nat)
    requires 1000 <= n <= 9999
    ensures |Show(n)| == 4
  {
    var a := n / 10;
    var b := a / 10;
    var c := b / 10;
    assert 1 <= c < 10 && 10 <= b && 100 <= a;
    assert |Show(b)| == |Show(c)| + 1;
    assert |Show(a)| == |Show(b)| + 1;
  }

  /** Number of decimal digits at the start of `s`. */
  function LeadingDigits(s: string): (k: nat)
    ensures k <= |s| && AllDigits(s[..k])
    ensures k < |s| ==> !IsDigit(s[k])
  {
    if s == [] || !IsDigit(s[0]) then 0
    else
      var k := 1 + LeadingDigits(s[1..]);
      assert s[..k] == [s[0]] + s[1..][..k - 1];
      k
  }

  lemma {:induction false} LeadingDigitsOfDigits(d: string, rest: string)
    requires AllDigits(d)
    requires rest == [] || !IsDigit(rest[0])
    ensures LeadingDigits(d + rest) == |d|
  {
    if d != [] {
      assert (d + rest)[1..] == d[1..] + rest;
      LeadingDigitsOfDigits(d[1..], rest);
    }
  }

  /** `s` without its sign, when it starts with '+' or '-'. */
  function Unsigned(s: string): string
  {
    if |s| > 0 && (s[0] == '+' || s[0] == '-') then s[1..] else s
  }

  predicate Negative(s: string) { |s| > 0 && s[0] == '-' }

  /**
   * `parseInt(s)`: an optional sign followed by at least one digit, read as
   * far as the digits go; anything else is `NaN` (None).
   */
  function ParseIntPrefix(s: string): (r: Option<int>)
    ensures r.Some? <==> |Unsigned(s)| > 0 && IsDigit(Unsigned(s)[0])
  {
    var body := Unsigned(s);
    var k := LeadingDigits(body);
    if k == 0 then None
    else
      var v: int := DigitsValue(body[..k]);
      Some(if Negative(s) then -v else v)
  }

  /** `parseInt` reads a run of digits back, whatever non-digit follows it. */
  lemma ParseIntDigits(d: string, rest: string)
    requires |d| > 0 && AllDigits(d)
    requires rest == [] || !IsDigit(rest[0])
    ensures ParseIntPrefix(d + rest) == Some(DigitsValue(d))
  {
    assert Unsigned(d + rest) == d + rest;
    LeadingDigitsOfDigits(d, rest);
    assert (d + rest)[..|d|] == d;
  }

  /** `parseInt` reads a string of digits as the number it denotes. */
  lemma ParseIntWhole(d: string)
    requires |d| > 0 && AllDigits(d)
    ensures ParseIntPrefix(d) == Some(DigitsValue(d))
  {
    assert d + [] == d;
    ParseIntDigits(d, []);
  }

  /** Zero padding does not change the number a string of digits denotes. */
  lemma DigitsValuePad2(n: nat)
    requires n < 100
    ensures AllDigits(Pad2(Show(n))) && |Pad2(Show(n))| == 2
    ensures DigitsValue(Pad2(Show(n))) == n
  {
    DigitsValueShow(n);
    var p := Pad2(Show(n));
    if n < 10 {
      assert p == ['0', DigitChar(n)];
      assert p[..1] == ['0'];
    } else {
      assert |Show(n / 10)| == 1;
    }
  }

  /**
   * `parseFloat(s)` on plain decimal text: an optional sign, digits, and an
   * optional '.' with more digits, read as far as they go; at least one digit
   * must occur before or after the point, otherwise the result is `NaN` (None).
   */
  function ParseAmount(s: string): (r: Option<real>)
    ensures r.Some? <==> var body := Unsigned(s);
      (|body| > 0 && IsDigit(body[0])) || (|body| > 1 && body[0] == '.' && IsDigit(body[1]))
    ensures r.Some? && !Negative(s) ==> r.value >= 0.0
  {
    match Magnitude(Unsigned(s))
    case None => None
    case Some(m) => Some(if Negative(s) then -m else m)
  }

  /** The unsigned number at the start of `body`: its whole digits plus its fraction digits. */
  function Magnitude(body: string): (m: Option<real>)
    ensures m.Some? ==> m.value >= 0.0
  {
    var k := LeadingDigits(body);
    var f := FractionDigits(body[k..]);
    if k == 0 && f == [] then None else Some(DigitsValue(body[..k]) as real + Fraction(f))
  }

  /** The digits after a leading '.', as far as they go. */
  function FractionDigits(rest: string): (f: string)
    ensures AllDigits(f)
    ensures f != [] <==> |rest| > 1 && rest[0] == '.' && IsDigit(rest[1])
  {
    if |rest| > 0 && rest[0] == '.' then rest[1..][..LeadingDigits(rest[1..])] else []
  }

  /** The value of the digits after a decimal point: each digit counts a tenth of what the one before it does. */
  function Fraction(d: string): (v: real)
    requires AllDigits(d)
    ensures 0.0 <= v < 1.0
  {
    if d == [] then 0.0 else (DigitValue(d[0]) as real + Fraction(d[1..])) / 10.0
  }

  /**
   * A written decimal, whole digits, a point and fraction digits, followed by
   * anything that is not a digit, reads back as its whole part plus its fraction.
   */
  lemma ParseAmountDecimal(w: string, d: string, rest: string)
    requires |w| > 0 && AllDigits(w) && |d| > 0 && AllDigits(d)
    requires rest == [] || !IsDigit(rest[0])
    ensures ParseAmount(w + ("." + (d + rest))) == Some(DigitsValue(w) as real + Fraction(d))
  {
    MagnitudeOfDecimal(w, d, rest);
    ParseAmountPlain(w + ("." + (d + rest)));
  }

  lemma MagnitudeOfDecimal(w: string, d: string, rest: string)
    requires |w| > 0 && AllDigits(w) && |d| > 0 && AllDigits(d)
    requires rest == [] || !IsDigit(rest[0])
    ensures var s := w + ("." + (d + rest));
      IsDigit(s[0]) && Magnitude(s) == Some(DigitsValue(w) as real + Fraction(d))
  {
    WholeDigits(w, "." + (d + rest));
    FractionDigitsOf(d, rest);
  }

  /** Digits followed by a point: the leading digits are exactly the whole part. */
  lemma WholeDigits(w: string, tail: string)
    requires |w| > 0 && AllDigits(w) && |tail| > 0 && tail[0] == '.'
    ensures var s := w + tail;
      IsDigit(s[0]) && LeadingDigits(s) == |w| && s[..|w|] == w && s[|w|..] == tail
  {
    var s := w + tail;
    assert s[0] == w[0];
    LeadingDigitsOfDigits(w, tail);
    assert s[..|w|] == w && s[|w|..] == tail;
  }

  /** Text without a sign reads as its magnitude. */
  lemma ParseAmountPlain(s: string)
    requires |s| > 0 && IsDigit(s[0])
    ensures ParseAmount(s) == Magnitude(s)
  {
  }

  lemma FractionDigitsOf(d: string, rest: string)
    requires |d| > 0 && AllDigits(d)
    requires rest == [] || !IsDigit(rest[0])
    ensures FractionDigits("." + (d + rest)) == d
  {
    var tail := "." + (d + rest);
    assert tail[1..] == d + rest;
    LeadingDigitsOfDigits(d, rest);
    assert tail[1..][..|d|] == d;
  }

  /** Twelve and a half, as a cell holds it, reads back as 12.5. */
  lemma ParseAmountTwelveAndAHalf()
    ensures ParseAmount("12.5") == Some(12.5)
  {
    assert DigitsValue("12") == 12;
    FractionOfDigit('5');
    ParseAmountDecimal("12", "5", "");
    assert "12" + ("." + ("5" + "")) == "12.5";
  }

  /** A single digit after the point counts tenths. */
  lemma FractionOfDigit(c: char)
    requires IsDigit(c)
    ensures Fraction([c]) == DigitValue(c) as real / 10.0
  {
    assert [c][1..] == [];
  }

  /** Text that does not start with a sign, a digit or a point is not a number. */
  lemma ParseAmountRejects(s: string)
    requires |s| > 0 && !IsDigit(s[0]) && s[0] !in "+-."
    ensures ParseAmount(s) == None
  {
  }

  /** A printed whole amount, followed by anything that is not part of a number, reads back exactly. */
  lemma ParseAmountShow(n: nat, rest: string)
    requires rest == [] || (!IsDigit(rest[0]) && rest[0] != '.')
    ensures ParseAmount(Show(n) + rest) == Some(n as real)
  {
    var d := Show(n);
    LeadingDigitsOfDigits(d, rest);
    assert (d + rest)[..|d|] == d;
    assert (d + rest)[|d|..] == rest;
    DigitsValueShow(n);
  }

  /** `s.split(sep)[0]`: the text before the first `sep`, or all of `s`. */
  function BeforeFirst(s: string, sep: char): (r: string)
    ensures |r| <= |s| && r == s[..|r|] && sep !in r
    ensures |r| < |s| ==> s[|r|] == sep
  {
    if s == [] || s[0] == sep then [] else [s[0]] + BeforeFirst(s[1..], sep)
  }

  /** `s.split(sep)[i]`, None where JavaScript gives `undefined`. */
  function Field(s: string, sep: char, i: nat): (r: Option<string>)
    ensures r.Some? ==> sep !in r.value
    ensures i == 0 ==> r == Some(BeforeFirst(s, sep))
  {
    var head := BeforeFirst(s, sep);
    if i == 0 then Some(head)
    else if |head| == |s| then None
    else Field(s[|head| + 1..], sep, i - 1)
  }

  /** Splitting text built with a separator gives back its pieces. */
  lemma FieldsOfJoin(a: string, sep: char, b: string)
    requires sep !in a
    ensures Field(a + [sep] + b, sep, 0) == Some(a)
    ensures Field(a + [sep] + b, sep, 1) == Some(BeforeFirst(b, sep))
  {
    BeforeFirstOfJoin(a, sep, b);
    assert (a + [sep] + b)[|a| + 1..] == b;
  }

  lemma {:induction false} BeforeFirstOfJoin(a: string, sep: char, b: string)
    requires sep !in a
    ensures BeforeFirst(a + [sep] + b, sep) == a
  {
    if a != [] {
      assert (a + [sep] + b)[1..] == a[1..] + [sep] + b;
      BeforeFirstOfJoin(a[1..], sep, b);
    }
  }

  /** `s.match(/\d+/)[0]`: the first run of digits, None where the match is `null`. */
  function FirstDigitRun(s: string): (r: Option<string>)
    ensures r.Some? ==> |r.value| > 0 && AllDigits(r.value)
    ensures r.None? <==> AllNonDigits(s)
  {
    if s == [] then None
    else if IsDigit(s[0]) then Some(s[..LeadingDigits(s)])
    else
      assert forall i :: 1 <= i < |s| ==> s[i] == s[1..][i - 1];
      FirstDigitRun(s[1..])
  }

  predicate AllNonDigits(s: string) { forall i :: 0 <= i < |s| ==> !IsDigit(s[i]) }

  /** `s.padStart(2, "0")`. */
  function Pad2(s: string): (r: string)
    ensures |r| == if |s| >= 2 then |s| else 2
    ensures r == seq(|r| - |s|, _ => '0') + s
  {
    if |s| >= 2 then s else seq(2 - |s|, _ => '0') + s
  }

  /** `toLowerCase` on one character; letters outside A-Z are left as they are. */
  function LowerChar(c: char): char
  {
    if 'A' <= c <= 'Z' then (c as int - 'A' as int + 'a' as int) as char else c
  }

  predicate IsUpper(c: char) { 'A' <= c <= 'Z' }

  /**
   * `toLowerCase` for ASCII letters: the result has no letter A-Z, every
   * other character is kept, and each letter A-Z becomes its lower-case
   * counterpart, at the same position.
   */
  function ToLower(s: string): (r: string)
    ensures |r| == |s|
    ensures forall i :: 0 <= i < |r| ==> !IsUpper(r[i])
    ensures forall i :: 0 <= i < |s| && !IsUpper(s[i]) ==> r[i] == s[i]
    ensures forall i :: 0 <= i < |s| && IsUpper(s[i]) ==> r[i] as int - s[i] as int == 'a' as int - 'A' as int
  {
    seq(|s|, i requires 0 <= i < |s| => LowerChar(s[i]))
  }

  /** Lower-casing twice is lower-casing once. */
  lemma ToLowerIdempotent(s: string)
    ensures ToLower(ToLower(s)) == ToLower(s)
  {
  }

  predicate StartsWith(s: string, p: string) { |p| <= |s| && s[..|p|] == p }

  /** `sub` occurs in `s` starting at position `i`. */
  predicate OccursAt(s: string, sub: string, i: int)
  {
    0 <= i && i + |sub| <= |s| && s[i..i + |sub|] == sub
  }

  /** `s.includes(sub)`. */
  predicate Contains(s: string, sub: string)
  {
    StartsWith(s, sub) || (|s| > 0 && Contains(s[1..], sub))
  }

  /** `Contains` holds exactly when `sub` occurs at some position of `s`. */
  lemma {:induction false} ContainsIff(s: string, sub: string)
    ensures Contains(s, sub) <==> exists i :: OccursAt(s, sub, i)
  {
    if StartsWith(s, sub) {
      assert OccursAt(s, sub, 0);
    } else if |s| > 0 {
      ContainsIff(s[1..], sub);
      if Contains(s[1..], sub) {
        var i :| OccursAt(s[1..], sub, i);
        assert s[i + 1..i + 1 + |sub|] == s[1..][i..i + |sub|];
        assert OccursAt(s, sub, i + 1);
      }
      if i :| OccursAt(s, sub, i) {
        assert i != 0;
        assert s[1..][i - 1..i - 1 + |sub|] == s[i..i + |sub|];
        assert OccursAt(s[1..], sub, i - 1);
      }
    }
  }
}
