/** String helpers with the meaning JavaScript gives them: `Number` of a
    string of decimal digits, the `<` comparison of two strings, and
    `split(":")`. */
module Text {

  predicate IsDigit(c: char) {
    '0' <= c <= '9'
  }

  predicate IsDigits(s: string) {
    forall i :: 0 <= i < |s| ==> IsDigit(s[i])
  }

  function DigitValue(c: char): (v: nat)
    requires IsDigit(c)
    ensures v < 10
  {
    (c as int) - ('0' as int)
  }

  function Pow10(n: nat): (p: nat)
    ensures p >= 1
  {
    if n == 0 then 1 else 10 * Pow10(n - 1)
  }

  /** `Number(s)` for a string of decimal digits (leading zeros allowed,
      the empty string is 0), read most significant digit first. */
  function DigitsValue(s: string): (v: nat)
    requires IsDigits(s)
    ensures v < Pow10(|s|)
  {
    if s == [] then 0
    else
      var d, rest := DigitValue(s[0]), DigitsValue(s[1..]);
      LeadingDigitBound(d, Pow10(|s| - 1), rest);
      d * Pow10(|s| - 1) + rest
  }

  lemma LeadingDigitBound(d: nat, p: nat, rest: nat)
    requires d < 10 && rest < p
    ensures d * p + rest < 10 * p
  {
    assert d * p <= 9 * p;
  }

  /** JavaScript's `a < b` on two strings: lexicographic comparison of the
      characters, a proper prefix being smaller; strict, so never between
      equal strings, and nothing is below the empty string. */
  predicate LexLess(a: string, b: string)
    ensures LexLess(a, b) ==> a != b && b != []
    ensures a == [] ==> (LexLess(a, b) <==> b != [])
  {
    if a == [] then b != []
    else if b == [] then false
    else if a[0] != b[0] then a[0] < b[0]
    else LexLess(a[1..], b[1..])
  }

  lemma DigitsBound(d: nat, e: nat, p: nat, x: nat, y: nat)
    requires d < e && x < p && p >= 1
    ensures d * p + x < e * p + y
  {
    assert (d + 1) * p <= e * p;
  }

  /** For zero-padded digit strings of one length (such as `YYYYMMDD`
      dates) the string order is the numeric order, which is what lets the
      date-range check compare the strings directly. */
  lemma {:induction false} LexLessIsNumericLess(a: string, b: string)
    requires IsDigits(a) && IsDigits(b) && |a| == |b|
    ensures LexLess(a, b) <==> DigitsValue(a) < DigitsValue(b)
  {
    if a != [] {
      var p := Pow10(|a| - 1);
      var da, db := DigitValue(a[0]), DigitValue(b[0]);
      assert DigitsValue(a) == da * p + DigitsValue(a[1..]);
      assert DigitsValue(b) == db * p + DigitsValue(b[1..]);
      if a[0] == b[0] {
        LexLessIsNumericLess(a[1..], b[1..]);
      } else if a[0] < b[0] {
        DigitsBound(da, db, p, DigitsValue(a[1..]), DigitsValue(b[1..]));
      } else {
        DigitsBound(db, da, p, DigitsValue(b[1..]), DigitsValue(a[1..]));
      }
    }
  }

  /** JavaScript's `s.split(":")`: the fields between colons, in order;
      there is always at least one field. */
  function Split(s: string): (fields: seq<string>)
    ensures |fields| >= 1
    ensures forall i :: 0 <= i < |fields| ==> ':' !in fields[i]
  {
    if s == [] then [""]
    else
      var rest := Split(s[1..]);
      if s[0] == ':' then [""] + rest else [[s[0]] + rest[0]] + rest[1..]
  }

  /** `split(":")` gives one more field than the string has colons. */
  lemma {:induction false} SplitCount(s: string)
    ensures |Split(s)| == multiset(s)[':'] + 1
  {
    if s != [] {
      SplitCount(s[1..]);
      assert s == [s[0]] + s[1..];
    }
  }

  lemma {:induction false} SplitNoColon(a: string)
    requires ':' !in a
    ensures Split(a) == [a]
  {
    if a != [] {
      SplitNoColon(a[1..]);
      assert [a[0]] + a[1..] == a;
    }
  }

  /** A field without a colon followed by `:` splits off as the first field. */
  lemma {:induction false} SplitField(a: string, b: string)
    requires ':' !in a
    ensures Split(a + ":" + b) == [a] + Split(b)
  {
    if a == [] {
      assert a + ":" + b == [':'] + b;
      assert ([':'] + b)[1..] == b;
    } else {
      SplitField(a[1..], b);
      assert (a + ":" + b)[1..] == a[1..] + ":" + b;
      assert [a[0]] + a[1..] == a;
    }
  }
}
