/** Character classes and the few string operations the components rely on:
    a regular-expression character-class test (`/[0-9]/.test(s)`),
    `String.prototype.includes`, `Array.prototype.indexOf` and the decimal
    rendering of a number inside a template literal. */
module Text {

  /** The character classes that occur in the components' regular expressions. */
  datatype CharClass =
    | Digit        // [0-9]
    | Capital      // [A-Z]
    | Letter       // [a-zA-Z]
    | Special      // [!@#$%^&*(),.?":{}|<>]
    | LocalPart    // [a-zA-Z0-9._%+-]
    | DomainPart   // [a-zA-Z0-9.-]

  const SpecialChars: string := "!@#$%^&*(),.?\":{}|<>"

  predicate IsDigit(c: char) { '0' <= c <= '9' }
  predicate IsCapital(c: char) { 'A' <= c <= 'Z' }
  predicate IsLetter(c: char) { 'a' <= c <= 'z' || 'A' <= c <= 'Z' }

  predicate InClass(c: char, k: CharClass) {
    match k
    case Digit => IsDigit(c)
    case Capital => IsCapital(c)
    case Letter => IsLetter(c)
    case Special => c in SpecialChars
    case LocalPart => IsLetter(c) || IsDigit(c) || c in "._%+-"
    case DomainPart => IsLetter(c) || IsDigit(c) || c == '.' || c == '-'
  }

  /** `/[k]/.test(s)`: some character of `s` is in class `k`. */
  function Contains(s: string, k: CharClass): (b: bool)
    ensures b <==> exists i :: 0 <= i < |s| && InClass(s[i], k)
  {
    if s == [] then false
    else if InClass(s[0], k) then true
    else
      var b := Contains(s[1..], k);
      assert forall i :: 1 <= i < |s| ==> s[i] == s[1..][i - 1];
      b
  }

  /** `/^[k]*$/.test(s)`: every character of `s` is in class `k`. */
  function All(s: string, k: CharClass): (b: bool)
    ensures b <==> forall i :: 0 <= i < |s| ==> InClass(s[i], k)
  {
    if s == [] then true
    else if !InClass(s[0], k) then false
    else
      var b := All(s[1..], k);
      assert forall i :: 1 <= i < |s| ==> s[i] == s[1..][i - 1];
      b
  }

  /** `sub` occurs in `s` starting at position `i`. */
  predicate OccursAt(s: string, sub: string, i: int) {
    0 <= i && i + |sub| <= |s| && s[i..i + |sub|] == sub
  }

  lemma OccursAtShift(s: string, sub: string, i: int)
    requires s != [] && 0 <= i
    ensures OccursAt(s[1..], sub, i) <==> OccursAt(s, sub, i + 1)
  {
    if 0 <= i && i + |sub| <= |s[1..]| {
      assert s[1..][i..i + |sub|] == s[i + 1..i + 1 + |sub|];
    }
  }

  /** `s.includes(sub)`: the first position is tried, then the rest of `s`. */
  function Includes(s: string, sub: string): (b: bool)
    ensures b <==> exists i :: OccursAt(s, sub, i)
    decreases |s|
  {
    if |sub| <= |s| && s[..|sub|] == sub then
      assert OccursAt(s, sub, 0);
      true
    else if s == [] then
      false
    else
      var b := Includes(s[1..], sub);
      assert b ==> exists i :: OccursAt(s, sub, i) by {
        if b {
          var i :| OccursAt(s[1..], sub, i);
          OccursAtShift(s, sub, i);
        }
      }
      assert (exists i :: OccursAt(s, sub, i)) ==> b by {
        if exists i :: OccursAt(s, sub, i) {
          var i :| OccursAt(s, sub, i);
          assert i != 0;
          OccursAtShift(s, sub, i - 1);
        }
      }
      b
  }

  /** `s.indexOf(x)`: the first position holding `x`, or -1 when there is none. */
  function IndexOf<T(==)>(s: seq<T>, x: T): (r: int)
    ensures -1 <= r < |s|
    ensures r == -1 <==> x !in s
    ensures 0 <= r ==> s[r] == x && x !in s[..r]
  {
    if s == [] then -1
    else if s[0] == x then 0
    else
      var r := IndexOf(s[1..], x);
      assert s == [s[0]] + s[1..];
      if r == -1 then -1
      else
        assert s[..r + 1] == [s[0]] + s[1..][..r];
        r + 1
  }

  /** The length JavaScript's `.length` reports: strings are counted in
      UTF-16 units, so a character above U+FFFF (a surrogate pair) counts twice. */
  function Utf16Length(s: string): (n: nat)
    ensures |s| <= n <= 2 * |s|
    ensures n == |s| <==> forall i :: 0 <= i < |s| ==> s[i] as int <= 0xFFFF
  {
    if s == [] then 0
    else
      var init := s[..|s| - 1];
      assert forall i :: 0 <= i < |init| ==> init[i] == s[i];
      Utf16Length(init) + if s[|s| - 1] as int <= 0xFFFF then 1 else 2
  }

  /** A position holding `x` with no `x` before it is the one `IndexOf` finds. */
  lemma IndexOfIs<T>(s: seq<T>, x: T, k: int)
    requires 0 <= k < |s| && s[k] == x && x !in s[..k]
    ensures IndexOf(s, x) == k
  {
    assert s[k] in s;
  }

  /** The last position holding `x`, or -1 when there is none: the only '.'
      that `\.[a-zA-Z]{2,}$` in the email pattern can use. */
  function LastIndexOf<T(==)>(s: seq<T>, x: T): (r: int)
    ensures -1 <= r < |s|
    ensures r == -1 <==> x !in s
    ensures 0 <= r ==> s[r] == x && x !in s[r + 1..]
  {
    if s == [] then -1
    else if s[|s| - 1] == x then |s| - 1
    else
      var r := LastIndexOf(s[..|s| - 1], x);
      assert s == s[..|s| - 1] + [s[|s| - 1]];
      if r == -1 then -1
      else
        assert s[r + 1..] == s[..|s| - 1][r + 1..] + [s[|s| - 1]];
        r
  }

  /** Any position holding `x` is at or before the one `LastIndexOf` finds. */
  lemma {:induction false} LastIndexOfAtLeast<T>(s: seq<T>, x: T, k: int)
    requires 0 <= k < |s| && s[k] == x
    ensures k <= LastIndexOf(s, x)
  {
    if s[|s| - 1] != x {
      LastIndexOfAtLeast(s[..|s| - 1], x, k);
    }
  }

  function DigitChar(d: nat): (c: char)
    requires d < 10
    ensures IsDigit(c) && c as int - '0' as int == d
  {
    ('0' as int + d) as char
  }

  /** The decimal numeral of `n`, as a template literal renders a non-negative integer. */
  function Decimal(n: nat): (s: string)
    ensures 1 <= |s|
    ensures All(s, Digit)
    ensures 1 < |s| ==> s[0] != '0'
    decreases n
  {
    if n < 10 then [DigitChar(n)] else Decimal(n / 10) + [DigitChar(n % 10)]
  }

  /** The number a string of decimal digits denotes. */
  function DecimalValue(s: string): nat
    requires All(s, Digit)
  {
    if s == [] then 0
    else
      assert All(s[..|s| - 1], Digit);
      DecimalValue(s[..|s| - 1]) * 10 + (s[|s| - 1] as int - '0' as int)
  }

  /** Reading back a rendered numeral gives the number: the rendering loses nothing. */
  lemma {:induction false} DecimalRoundTrip(n: nat)
    ensures DecimalValue(Decimal(n)) == n
  {
    if n >= 10 {
      var s := Decimal(n);
      assert s[..|s| - 1] == Decimal(n / 10);
      DecimalRoundTrip(n / 10);
    }
  }
}
