/** Decimal numerals as fmt prints them with %d and %04d and strconv reads them back. */
module Decimal {
  predicate IsDigit(c: char) {
    '0' <= c <= '9'
  }

  function Digit(d: nat): char
    requires d < 10
  {
    '0' + d as char
  }

  predicate AllDigits(s: string) {
    forall i :: 0 <= i < |s| ==> IsDigit(s[i])
  }

  function Print(n: nat): (s: string)
    ensures s != "" && AllDigits(s)
  {
    if n < 10 then [Digit(n)] else Print(n / 10) + [Digit(n % 10)]
  }

  function Value(s: string): nat
    requires AllDigits(s)
  {
    if s == "" then 0 else 10 * Value(s[..|s| - 1]) + (s[|s| - 1] - '0') as nat
  }

  function Zeros(k: nat): (s: string)
    ensures |s| == k && AllDigits(s)
  {
    if k == 0 then "" else "0" + Zeros(k - 1)
  }

  /** %0wd: at least w digits. */
  function PrintPadded(n: nat, width: nat): (s: string)
    ensures s != "" && AllDigits(s)
  {
    var s := Print(n);
    if |s| < width then Zeros(width - |s|) + s else s
  }

  lemma ValueSnoc(s: string, c: char)
    requires AllDigits(s) && IsDigit(c)
    ensures AllDigits(s + [c]) && Value(s + [c]) == 10 * Value(s) + (c - '0') as nat
  {
    assert (s + [c])[..|s|] == s;
  }

  /** Reading what was printed gives the number back. */
  lemma {:induction false} PrintValue(n: nat)
    ensures Value(Print(n)) == n
  {
    if n >= 10 {
      PrintValue(n / 10);
      ValueSnoc(Print(n / 10), Digit(n % 10));
    } else {
      ValueSnoc("", Digit(n));
      assert "" + [Digit(n)] == Print(n);
    }
  }

  lemma {:induction false} LeadingZeros(k: nat, s: string)
    requires AllDigits(s)
    ensures AllDigits(Zeros(k) + s) && Value(Zeros(k) + s) == Value(s)
    decreases |s|
  {
    if s == "" {
      assert Zeros(k) + s == Zeros(k);
      ZerosValue(k);
    } else {
      LeadingZeros(k, s[..|s| - 1]);
      ValueSnoc(Zeros(k) + s[..|s| - 1], s[|s| - 1]);
      assert Zeros(k) + s == Zeros(k) + s[..|s| - 1] + [s[|s| - 1]];
    }
  }

  lemma {:induction false} ZerosValue(k: nat)
    ensures Value(Zeros(k)) == 0
  {
    if k > 0 {
      ZerosValue(k - 1);
      ZerosEnd(k);
      ValueSnoc(Zeros(k - 1), '0');
    }
  }

  lemma {:induction false} ZerosEnd(k: nat)
    requires k > 0
    ensures Zeros(k) == Zeros(k - 1) + "0"
  {
    if k > 1 {
      ZerosEnd(k - 1);
    }
  }

  lemma PaddedValue(n: nat, width: nat)
    ensures Value(PrintPadded(n, width)) == n
  {
    PrintValue(n);
    if |Print(n)| < width {
      LeadingZeros(width - |Print(n)|, Print(n));
    }
  }
}
