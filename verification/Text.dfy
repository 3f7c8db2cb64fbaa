/** Strings as the source uses them: Go's byte order, joined keys, and decimal numerals. */
module Text {

  /** Go's `a < b` on strings: lexicographic order. */
  predicate Less(a: string, b: string) {
    b != "" && (a == "" || a[0] < b[0] || (a[0] == b[0] && Less(a[1..], b[1..])))
  }

  lemma LessIrreflexive(a: string)
    ensures !Less(a, a)
  {
  }

  lemma {:induction false} LessTransitive(a: string, b: string, c: string)
    requires Less(a, b) && Less(b, c)
    ensures Less(a, c)
  {
    if a != "" && a[0] == b[0] == c[0] {
      LessTransitive(a[1..], b[1..], c[1..]);
    }
  }

  lemma {:induction false} LessTotal(a: string, b: string)
    ensures a == b || Less(a, b) || Less(b, a)
  {
    if a != "" && b != "" && a[0] == b[0] {
      LessTotal(a[1..], b[1..]);
      assert a == [a[0]] + a[1..] && b == [b[0]] + b[1..];
    }
  }

  /** What "less" means: the texts first differ in a smaller character, or the left one ends first. */
  ghost predicate DivergesAt(a: string, b: string, k: nat) {
    && k <= |a| && k < |b| && a[..k] == b[..k]
    && (k == |a| || a[k] < b[k])
  }

  lemma {:induction false} LessMeaning(a: string, b: string)
    ensures Less(a, b) <==> exists k: nat :: DivergesAt(a, b, k)
  {
    if a == "" || b == "" || a[0] != b[0] {
      if Less(a, b) {
        assert DivergesAt(a, b, 0);
      }
    } else {
      LessMeaning(a[1..], b[1..]);
      if k: nat :| DivergesAt(a[1..], b[1..], k) {
        assert a[..k + 1] == [a[0]] + a[1..][..k] && b[..k + 1] == [b[0]] + b[1..][..k];
        assert DivergesAt(a, b, k + 1);
      }
      if k: nat :| DivergesAt(a, b, k) {
        assert k > 0;
        assert a[1..][..k - 1] == a[..k][1..] && b[1..][..k - 1] == b[..k][1..];
        assert DivergesAt(a[1..], b[1..], k - 1);
      }
    }
  }

  /** A separator that does not occur in the left parts makes a join unambiguous. */
  lemma CutUnique(a: string, b: string, c: char, a': string, b': string)
    requires c !in a && c !in a'
    requires a + [c] + b == a' + [c] + b'
    ensures a == a' && b == b'
  {
    var s := a + [c] + b;
    assert s[|a|] == c && s[|a'|] == c;
    assert forall i :: 0 <= i < |a| ==> s[i] == a[i] && a[i] != c;
    assert forall i :: 0 <= i < |a'| ==> s[i] == a'[i] && a'[i] != c;
    assert |a| == |a'|;
    assert a == s[..|a|] && a' == s[..|a'|];
    assert b == s[|a| + 1..] && b' == s[|a'| + 1..];
  }

  /** `strings.Split`. */
  function SplitAt(s: string, c: char): (parts: seq<string>)
    ensures |parts| > 0
  {
    if s == "" then [""]
    else if s[0] == c then [""] + SplitAt(s[1..], c)
    else var rest := SplitAt(s[1..], c); [[s[0]] + rest[0]] + rest[1..]
  }

  lemma {:induction false} SplitWhole(s: string, c: char)
    requires c !in s
    ensures SplitAt(s, c) == [s]
  {
    if s != "" {
      SplitWhole(s[1..], c);
      assert [s[0]] + s[1..] == s;
    }
  }

  lemma {:induction false} SplitJoin(a: string, b: string, c: char)
    requires c !in a
    ensures SplitAt(a + [c] + b, c) == [a] + SplitAt(b, c)
  {
    var s := a + [c] + b;
    if a == "" {
      assert s[1..] == b;
    } else {
      assert s[1..] == a[1..] + [c] + b;
      SplitJoin(a[1..], b, c);
      assert [a[0]] + a[1..] == a;
    }
  }

  /** The text the parts came from. */
  function Join(parts: seq<string>, c: char): string
    requires |parts| > 0
  {
    if |parts| == 1 then parts[0] else parts[0] + [c] + Join(parts[1..], c)
  }

  lemma {:induction false} JoinSplit(s: string, c: char)
    ensures Join(SplitAt(s, c), c) == s
  {
    if s != "" {
      JoinSplit(s[1..], c);
      var rest := SplitAt(s[1..], c);
      if s[0] != c && |rest| > 1 {
        assert ([[s[0]] + rest[0]] + rest[1..])[1..] == rest[1..];
      }
      assert s == [s[0]] + s[1..];
    }
  }

  function Digit(d: nat): char
    requires d < 10
  {
    ('0' as int + d) as char
  }

  function Decimal(n: nat): string {
    if n < 10 then [Digit(n)] else Decimal(n / 10) + [Digit(n % 10)]
  }

  function DecimalValue(s: string): int {
    if s == "" then 0 else DecimalValue(s[..|s| - 1]) * 10 + (s[|s| - 1] as int - '0' as int)
  }

  lemma {:induction false} DecimalRoundTrip(n: nat)
    ensures DecimalValue(Decimal(n)) == n
  {
    if n < 10 {
      assert Decimal(n)[..0] == "";
    } else {
      DecimalRoundTrip(n / 10);
      assert Decimal(n)[..|Decimal(n)| - 1] == Decimal(n / 10);
    }
  }

  lemma {:induction false} DecimalDigitsOnly(n: nat)
    ensures Decimal(n) != "" && forall i :: 0 <= i < |Decimal(n)| ==> '0' <= Decimal(n)[i] <= '9'
  {
    if n >= 10 {
      DecimalDigitsOnly(n / 10);
    }
  }

  /** A numeral as `Decimal` writes it: digits, and no leading zero. */
  predicate IsNumeral(s: string) {
    s != "" && (forall i :: 0 <= i < |s| ==> '0' <= s[i] <= '9') && (s[0] == '0' ==> |s| == 1)
  }

  lemma {:induction false} DecimalIsNumeral(n: nat)
    ensures IsNumeral(Decimal(n)) && (Decimal(n)[0] == '0' <==> n == 0)
  {
    if n >= 10 {
      DecimalIsNumeral(n / 10);
    }
  }

  lemma {:induction false} NumeralValue(s: string)
    requires IsNumeral(s)
    ensures DecimalValue(s) >= 0 && (s[0] != '0' ==> DecimalValue(s) > 0) && Decimal(DecimalValue(s)) == s
  {
    var n := |s| - 1;
    assert s == s[..n] + [s[n]];
    if n > 0 {
      NumeralValue(s[..n]);
    } else {
      assert DecimalValue(s[..n]) == 0;
    }
  }

  /** `strconv.Itoa`. */
  function Itoa(n: int): string {
    if n < 0 then "-" + Decimal(-n) else Decimal(n)
  }

  lemma ItoaSign(n: int)
    ensures n < 0 ==> Itoa(n) != "" && Itoa(n)[0] == '-' && Itoa(n)[1..] == Decimal(-n)
    ensures n >= 0 ==> Itoa(n) == Decimal(n) && Decimal(n) != "" && Decimal(n)[0] != '-'
  {
    if n >= 0 {
      DecimalDigitsOnly(n);
    }
  }

  lemma ItoaInjective(m: int, n: int)
    requires Itoa(m) == Itoa(n)
    ensures m == n
  {
    ItoaSign(m);
    ItoaSign(n);
    if m < 0 {
      DecimalRoundTrip(-m);
      DecimalRoundTrip(-n);
    } else {
      DecimalRoundTrip(m);
      DecimalRoundTrip(n);
    }
  }
}
