/** Decimal numbers: printed by C's "%d", read back by Python's int(). */
module Decimal {
  import opened Machine

  function Digit(d: nat): char
    requires d < 10
  {
    '0' + d as char
  }

  predicate IsDigit(c: char) {
    '0' <= c <= '9'
  }

  function DigitValue(c: char): nat
    requires IsDigit(c)
  {
    c as int - '0' as int
  }

  function PrintNat(n: nat): (s: string)
    ensures s != "" && forall c <- s :: IsDigit(c)
  {
    if n < 10 then [Digit(n)] else PrintNat(n / 10) + [Digit(n % 10)]
  }

  /** sprintf("%d", n). */
  function PrintInt(n: int): string {
    if n < 0 then "-" + PrintNat(-n) else PrintNat(n)
  }

  /** Digits with single underscores between them, as int() accepts. */
  function ParseNat(s: string): Option<nat> {
    if s == "" || !IsDigit(s[|s| - 1]) then None
    else
      var last := DigitValue(s[|s| - 1]);
      if |s| == 1 then Some(last)
      else
        var front := ParseNat(if s[|s| - 2] == '_' then s[..|s| - 2] else s[..|s| - 1]);
        if front.None? then None else Some(10 * front.value + last)
  }

  /** int(s) for a word without whitespace: an optional sign, then digits. */
  function ParseInt(s: string): Option<int> {
    if s != "" && (s[0] == '-' || s[0] == '+') then
      var n := ParseNat(s[1..]);
      if n.None? then None else Some(if s[0] == '-' then 0 - n.value else n.value)
    else
      var n := ParseNat(s);
      if n.None? then None else Some(n.value)
  }

  lemma {:induction false} ParsePrintNat(n: nat)
    ensures ParseNat(PrintNat(n)) == Some(n)
  {
    if n >= 10 {
      ParsePrintNat(n / 10);
      var s := PrintNat(n);
      assert s[..|s| - 1] == PrintNat(n / 10);
      assert IsDigit(s[|s| - 2]);
    }
  }

  /** Reading back a printed number gives the number. */
  lemma ParsePrintInt(n: int)
    ensures ParseInt(PrintInt(n)) == Some(n)
  {
    hide PrintNat, ParseNat;
    if n < 0 {
      ParsePrintNat(-n);
      assert PrintInt(n)[1..] == PrintNat(-n);
    } else {
      ParsePrintNat(n);
      assert PrintNat(n)[0] in PrintNat(n);
    }
  }

  /** A 32-bit number prints in at most 11 characters. */
  lemma PrintIntLength(n: int)
    requires -0x8000_0000 <= n < 0x8000_0000
    ensures 1 <= |PrintInt(n)| <= 11
  {
    PrintNatLength(if n < 0 then -n else n, 10, 10_000_000_000);
  }

  lemma {:induction false} PrintNatLength(n: nat, digits: nat, bound: nat)
    requires digits > 0 && n < bound && bound <= TenTo(digits)
    ensures |PrintNat(n)| <= digits
  {
    if n >= 10 {
      PrintNatLength(n / 10, digits - 1, TenTo(digits - 1));
    }
  }

  function TenTo(k: nat): (p: nat)
    ensures p > 0
  {
    if k == 0 then 1 else 10 * TenTo(k - 1)
  }

  /** The digit before the last i ones is that of the i-th power of ten, and no number but 0 begins with 0. */
  lemma {:induction false} DigitAt(n: nat, i: nat)
    requires i < |PrintNat(n)|
    ensures PrintNat(n)[|PrintNat(n)| - 1 - i] == Digit(n / TenTo(i) % 10)
    ensures PrintNat(n)[0] == '0' ==> n == 0
  {
    if n < 10 {
      LastDigit(n);
    } else {
      hide PrintNat, TenTo, Digit;
      LastDigit(n);
      var p, q := PrintNat(n), PrintNat(n / 10);
      assert p[|p| - 1 - i] == if i == 0 then Digit(n % 10) else q[|q| - 1 - (i - 1)];
      assert p[0] == q[0];
      DigitAt(n / 10, if i == 0 then 0 else i - 1);
      if i > 0 {
        TenthPart(n, TenTo(i - 1));
        assert TenTo(i) == 10 * TenTo(i - 1) by { TenTimes(i); }
      }
    }
  }

  lemma TenTimes(i: nat)
    requires i > 0
    ensures TenTo(i) == 10 * TenTo(i - 1)
  {}

  lemma LastDigit(n: nat)
    ensures TenTo(0) == 1 && |PrintNat(n)| >= 1 && PrintNat(n)[|PrintNat(n)| - 1] == Digit(n % 10)
    ensures n >= 10 ==> PrintNat(n) == PrintNat(n / 10) + [Digit(n % 10)]
    ensures n < 10 ==> |PrintNat(n)| == 1
  {}

  lemma TenthPart(n: nat, p: nat)
    requires p > 0
    ensures n / 10 / p == n / (10 * p)
  {
    var q, r := n / 10 / p, n / 10 % p;
    DivMod(n / 10, p);
    DivMod(n, 10);
    assert n == q * (10 * p) + (10 * r + n % 10);
    ModUnique(n, 10 * p, q, 10 * r + n % 10);
  }

  /** A minus sign stands before the digits of a negative number. */
  lemma SignBefore(n: nat)
    requires n > 0
    ensures PrintInt(0 - n) == "-" + PrintInt(n)
  {}

  /** Digits, and underscores only between two digits. */
  predicate IsNumeral(s: string) {
    && s != "" && IsDigit(s[0]) && IsDigit(s[|s| - 1])
    && forall i :: 0 < i < |s| && !IsDigit(s[i]) ==> s[i] == '_' && s[i - 1] != '_'
  }

  lemma {:induction false} ParsesIff(s: string)
    ensures ParseNat(s).Some? <==> IsNumeral(s)
  {
    if |s| <= 1 {
    } else {
      var front := if s[|s| - 2] == '_' then s[..|s| - 2] else s[..|s| - 1];
      ParsesIff(front);
      if IsDigit(s[|s| - 1]) {
        NumeralFront(s, front);
      }
    }
  }

  lemma NumeralFront(s: string, front: string)
    requires |s| >= 2 && IsDigit(s[|s| - 1])
    requires front == if s[|s| - 2] == '_' then s[..|s| - 2] else s[..|s| - 1]
    ensures IsNumeral(front) <==> IsNumeral(s)
  {
    assert forall i :: 0 <= i < |front| ==> front[i] == s[i];
    if IsNumeral(front) {
      forall i | 0 < i < |s| && !IsDigit(s[i]) ensures s[i] == '_' && s[i - 1] != '_' {
        if i >= |front| {
          assert i == |s| - 2 && front[|front| - 1] == s[i - 1];
        } else {
          assert front[i] == s[i] && front[i - 1] == s[i - 1];
        }
      }
    }
    if IsNumeral(s) {
      assert |front| > 0 && IsDigit(front[|front| - 1]);
      assert forall i :: 0 < i < |front| && !IsDigit(front[i]) ==> s[i] == '_' && s[i - 1] != '_';
    }
  }

  /** One digit more, with or without an underscore before it, makes ten times the number and the digit. */
  lemma OneDigitMore(s: string, v: nat, c: char)
    requires ParseNat(s) == Some(v) && IsDigit(c)
    ensures ParseNat(s + [c]) == ParseNat(s + ['_', c]) == Some(10 * v + (c as int - '0' as int))
  {
    var a, b := s + [c], s + ['_', c];
    assert s != "" && IsDigit(s[|s| - 1]);
    assert a[..|a| - 1] == s && b[..|b| - 2] == s && a[|a| - 2] == s[|s| - 1] && b[|b| - 2] == '_';
  }

  /** One sign is read, and only a minus counts. */
  lemma SignsRead(s: string, v: nat)
    requires ParseNat(s) == Some(v)
    ensures ParseInt(s) == ParseInt("+" + s) == Some(v) && ParseInt("-" + s) == Some(0 - v)
  {
    hide ParseNat;
    ParsesIff(s);
    assert ("+" + s)[1..] == s && ("-" + s)[1..] == s;
  }
}
