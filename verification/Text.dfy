/** Strings as the ledger uses them: base-10 formatting, separators and byte order.
    A Dafny `char` stands for one byte of a Go string. */
module Text {

  function DigitChar(d: nat): char
    requires d < 10
  {
    '0' + d as char
  }

  /** Decimal digits of `n`, most significant first. */
  function Digits(n: nat): (r: string)
    ensures |r| > 0
    ensures forall i :: 0 <= i < |r| ==> '0' <= r[i] <= '9'
  {
    if n < 10 then [DigitChar(n)] else Digits(n / 10) + [DigitChar(n % 10)]
  }

  /** `strconv.FormatInt(v, 10)`. */
  function FormatInt(v: int): (r: string)
    ensures forall i :: 0 <= i < |r| ==> '0' <= r[i] <= '9' || r[i] == '-'
  {
    if v < 0 then "-" + Digits(-v) else Digits(v)
  }

  lemma {:induction false} DigitsInjective(a: nat, b: nat)
    requires Digits(a) == Digits(b)
    ensures a == b
    decreases a
  {
    assert DigitChar(a % 10) == Digits(a)[|Digits(a)| - 1];
    assert DigitChar(b % 10) == Digits(b)[|Digits(b)| - 1];
    if a >= 10 && b >= 10 {
      assert Digits(a / 10) == Digits(a)[..|Digits(a)| - 1];
      assert Digits(b / 10) == Digits(b)[..|Digits(b)| - 1];
      DigitsInjective(a / 10, b / 10);
    }
  }

  lemma FormatIntInjective(a: int, b: int)
    requires FormatInt(a) == FormatInt(b)
    ensures a == b
  {
    var x, y := FormatInt(a), FormatInt(b);
    assert a < 0 <==> x[0] == '-';
    assert b < 0 <==> y[0] == '-';
    if a < 0 {
      assert Digits(-a) == x[1..] && Digits(-b) == y[1..];
      DigitsInjective(-a, -b);
    } else {
      DigitsInjective(a, b);
    }
  }

  /** A field that cannot contain the separator splits off the right end in one way only,
      whatever the rest of the text contains. */
  lemma SplitLastField(x: string, u: string, y: string, v: string, sep: char)
    requires x + [sep] + u == y + [sep] + v
    requires sep !in u && sep !in v
    ensures x == y && u == v
  {
    var s := x + [sep] + u;
    assert s[|x|] == sep && s[|y|] == (y + [sep] + v)[|y|] == sep;
    assert |x| == |y|;
    assert x == s[..|x|] && y == s[..|y|];
    assert u == s[|x| + 1..] && v == s[|y| + 1..];
  }

  /** And off the left end. */
  lemma SplitFirstField(u: string, x: string, v: string, y: string, sep: char)
    requires u + [sep] + x == v + [sep] + y
    requires sep !in u && sep !in v
    ensures u == v && x == y
  {
    var s := u + [sep] + x;
    assert s[|u|] == sep && s[|v|] == (v + [sep] + y)[|v|] == sep;
    assert |u| == |v|;
    assert u == s[..|u|] && v == s[..|v|];
    assert x == s[|u| + 1..] && y == s[|v| + 1..];
  }

  /** Go's `<` on strings: bytewise lexicographic order. */
  predicate Before(a: string, b: string)
  {
    b != [] && (a == [] || a[0] < b[0] || (a[0] == b[0] && Before(a[1..], b[1..])))
  }

  lemma {:induction false} BeforeTotal(a: string, b: string)
    ensures a == b || Before(a, b) || Before(b, a)
  {
    if a != [] && b != [] && a[0] == b[0] {
      BeforeTotal(a[1..], b[1..]);
      assert a == [a[0]] + a[1..] && b == [b[0]] + b[1..];
    }
  }

  lemma {:induction false} BeforeTransitive(a: string, b: string, c: string)
    requires Before(a, b) && Before(b, c)
    ensures Before(a, c)
  {
    if a != [] && a[0] == b[0] == c[0] {
      BeforeTransitive(a[1..], b[1..], c[1..]);
    }
  }

  lemma {:induction false} BeforeIrreflexive(a: string)
    ensures !Before(a, a)
  {
    if a != [] {
      BeforeIrreflexive(a[1..]);
    }
  }
}
