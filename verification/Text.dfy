/** The string operations the components rely on: trimming, ordering, decimal numerals. */
module Text {
  /** The Unicode `White_Space` property, as `char::is_whitespace` uses it. */
  predicate IsWhitespace(c: char) {
    var n := c as int;
    || 0x9 <= n <= 0xD || n == 0x20 || n == 0x85 || n == 0xA0 || n == 0x1680
    || 0x2000 <= n <= 0x200A || n == 0x2028 || n == 0x2029 || n == 0x202F || n == 0x205F || n == 0x3000
  }

  function TrimStart(s: string): string {
    if s != [] && IsWhitespace(s[0]) then TrimStart(s[1..]) else s
  }

  function TrimEnd(s: string): string {
    if s != [] && IsWhitespace(s[|s| - 1]) then TrimEnd(s[..|s| - 1]) else s
  }

  function Trim(s: string): string { TrimEnd(TrimStart(s)) }

  /** `value.trim().is_empty()`. */
  predicate Blank(s: string) { Trim(s) == [] }

  /** The code points of the property, one by one. */
  lemma WhitespaceTable(c: char)
    ensures IsWhitespace(c) <==>
            (c as int) in {0x09, 0x0A, 0x0B, 0x0C, 0x0D, 0x20, 0x85, 0xA0, 0x1680, 0x2000, 0x2001, 0x2002, 0x2003,
                           0x2004, 0x2005, 0x2006, 0x2007, 0x2008, 0x2009, 0x200A, 0x2028, 0x2029, 0x202F,
                           0x205F, 0x3000}
  {
  }

  ghost predicate AllWhitespace(s: string) { forall c :: c in s ==> IsWhitespace(c) }

  lemma {:induction false} TrimStartCuts(s: string) returns (front: string)
    ensures s == front + TrimStart(s) && AllWhitespace(front)
    ensures TrimStart(s) != [] ==> !IsWhitespace(TrimStart(s)[0])
  {
    if s != [] && IsWhitespace(s[0]) {
      front := TrimStartCuts(s[1..]);
      front := [s[0]] + front;
    } else {
      front := [];
    }
  }

  lemma {:induction false} TrimEndCuts(s: string) returns (back: string)
    ensures s == TrimEnd(s) + back && AllWhitespace(back)
    ensures TrimEnd(s) != [] ==> !IsWhitespace(TrimEnd(s)[|TrimEnd(s)| - 1])
  {
    if s != [] && IsWhitespace(s[|s| - 1]) {
      back := TrimEndCuts(s[..|s| - 1]);
      back := back + [s[|s| - 1]];
    } else {
      back := [];
    }
  }

  /** Trimming cuts white space off both ends and leaves none there. */
  lemma TrimCuts(s: string) returns (front: string, back: string)
    ensures s == front + Trim(s) + back && AllWhitespace(front) && AllWhitespace(back)
    ensures Trim(s) != [] ==> !IsWhitespace(Trim(s)[0]) && !IsWhitespace(Trim(s)[|Trim(s)| - 1])
  {
    front := TrimStartCuts(s);
    back := TrimEndCuts(TrimStart(s));
    if Trim(s) != [] { assert TrimStart(s)[0] == Trim(s)[0]; }
  }

  /** A string is blank exactly when it is white space throughout. */
  lemma BlankIff(s: string)
    ensures Blank(s) <==> AllWhitespace(s)
  {
    var front, back := TrimCuts(s);
    if Trim(s) != [] { assert Trim(s)[0] in s; }
  }

  /** Code-point order, which is the byte order of the UTF-8 encodings. */
  predicate Le(a: string, b: string) {
    a == [] || (b != [] && (a[0] < b[0] || (a[0] == b[0] && Le(a[1..], b[1..]))))
  }

  lemma {:induction false} LeTotal(a: string, b: string)
    ensures Le(a, b) || Le(b, a)
    ensures Le(a, b) && Le(b, a) ==> a == b
  {
    if a != [] && b != [] {
      LeTotal(a[1..], b[1..]);
      assert a == [a[0]] + a[1..] && b == [b[0]] + b[1..];
    }
  }

  lemma {:induction false} LeTransitive(a: string, b: string, c: string)
    requires Le(a, b) && Le(b, c)
    ensures Le(a, c)
  {
    if a != [] && b != [] && c != [] && a[0] == b[0] == c[0] { LeTransitive(a[1..], b[1..], c[1..]); }
  }

  /** A prefix comes first, and otherwise the first difference decides. */
  lemma {:induction false} LeFirstDifference(p: string, a: char, x: string, b: char, y: string)
    requires a < b
    ensures Le(p + [a] + x, p + [b] + y) && !Le(p + [b] + y, p + [a] + x) && Le(p, p + x)
  {
    if p != [] {
      LeFirstDifference(p[1..], a, x, b, y);
      assert (p + [a] + x)[1..] == p[1..] + [a] + x && (p + [b] + y)[1..] == p[1..] + [b] + y;
      assert (p + x)[1..] == p[1..] + x;
    }
  }

  const DIGITS: string := "0123456789"

  /** The decimal numeral `format!` prints. */
  function Decimal(n: nat): (s: string)
    ensures s != [] && forall i :: 0 <= i < |s| ==> s[i] in DIGITS
  {
    if n < 10 then [DIGITS[n]] else Decimal(n / 10) + [DIGITS[n % 10]]
  }

  /** Distinct numbers print distinct numerals. */
  lemma {:induction false} DecimalInjective(m: nat, n: nat)
    requires Decimal(m) == Decimal(n)
    ensures m == n
  {
    var s := Decimal(m);
    assert DIGITS[m % 10] == s[|s| - 1] == DIGITS[n % 10];
    DigitInjective(m % 10, n % 10);
    if m >= 10 && n >= 10 {
      assert Decimal(m / 10) == s[..|s| - 1] == Decimal(n / 10);
      DecimalInjective(m / 10, n / 10);
    }
  }

  lemma DigitInjective(i: nat, j: nat)
    requires i < 10 && j < 10 && DIGITS[i] == DIGITS[j]
    ensures i == j
  {
  }

  /** The number a digit stands for. */
  function Digit(c: char): nat { if '0' <= c <= '9' then c as int - '0' as int else 0 }

  /** The number a numeral stands for. */
  function Value(s: string): nat {
    if s == [] then 0 else 10 * Value(s[..|s| - 1]) + Digit(s[|s| - 1])
  }

  lemma DigitValue(d: nat)
    requires d < 10
    ensures DIGITS[d] as int == '0' as int + d
  {
  }

  /** The numeral printed for a number stands for it, in decimal digits and without leading zeros. */
  lemma {:induction false} DecimalValue(n: nat)
    ensures forall c :: c in Decimal(n) ==> '0' <= c <= '9'
    ensures Value(Decimal(n)) == n && (n > 0 ==> Decimal(n)[0] != '0') && (n == 0 ==> Decimal(n) == "0")
  {
    DigitValue(n % 10);
    if n >= 10 {
      DecimalValue(n / 10);
      var s := Decimal(n);
      assert s[..|s| - 1] == Decimal(n / 10);
      assert s[0] == Decimal(n / 10)[0];
    } else {
      assert Decimal(n)[..0] == [];
    }
  }
}
