/**
 * `validarCpf`: the two mod-11 check digits of a Brazilian CPF number.
 * The method follows the source's two accumulating loops; the predicate
 * CpfValid is its specification, and the lemmas below say what it accepts.
 */
module CpfChecksum {
  import opened Text

  /** Sum over j < n of digit(d[j]) * (top - j): the loops' accumulator `soma`. */
  function WeightedSum(d: string, n: nat, top: int): int
    requires n <= |d| && AllDigits(d)
  {
    if n == 0 then 0 else WeightedSum(d, n - 1, top) + DigitValue(d[n - 1]) * (top - (n - 1))
  }

  /** Check digit of d[..n] with weights n + 1 down to 2: `r < 2 ? 0 : 11 - r`, r the sum mod 11. */
  function CheckDigit(d: string, n: nat): (c: nat)
    requires n <= |d| && AllDigits(d)
    ensures c <= 9
  {
    var r := WeightedSum(d, n, n + 1) % 11;
    if r < 2 then 0 else 11 - r
  }

  /** `/^(\d)\1{10}$/` on a string of digits: every character repeats the first. */
  predicate AllSame(d: string) {
    forall i :: 0 <= i < |d| ==> d[i] == d[0]
  }

  /** The checks that follow the stripping of non-digits. */
  predicate ValidDigits(d: string) {
    && |d| == 11 && AllDigits(d)
    && !AllSame(d)
    && DigitValue(d[9]) == CheckDigit(d, 9)
    && DigitValue(d[10]) == CheckDigit(d, 10)
  }

  predicate CpfValid(cpf: string) {
    ValidDigits(Digits(cpf))
  }

  /** `validarCpf(cpf)`. */
  method ValidateCpf(cpf: string) returns (ok: bool)
    ensures ok == CpfValid(cpf)
    ensures |Digits(cpf)| != 11 ==> !ok
    ensures AllSame(Digits(cpf)) ==> !ok
  {
    var d := Digits(cpf);
    if |d| != 11 {
      return false;
    }
    if AllSame(d) {
      return false;
    }
    var soma := 0;
    var peso := 10;
    for i := 0 to 9
      invariant peso == 10 - i
      invariant soma == WeightedSum(d, i, 10)
    {
      soma := soma + DigitValue(d[i]) * peso;
      peso := peso - 1;
    }
    var digito1 := if soma % 11 < 2 then 0 else 11 - soma % 11;
    if digito1 != DigitValue(d[9]) {
      return false;
    }
    soma := 0;
    peso := 11;
    for i := 0 to 10
      invariant peso == 11 - i
      invariant soma == WeightedSum(d, i, 11)
    {
      soma := soma + DigitValue(d[i]) * peso;
      peso := peso - 1;
    }
    var digito2 := if soma % 11 < 2 then 0 else 11 - soma % 11;
    if digito2 != DigitValue(d[10]) {
      return false;
    }
    return true;
  }

  /** The weighted sum reads only the first n digits. */
  lemma {:induction false} WeightedSumPrefix(a: string, b: string, n: nat, top: int)
    requires n <= |a| && n <= |b| && AllDigits(a) && AllDigits(b)
    requires a[..n] == b[..n]
    ensures WeightedSum(a, n, top) == WeightedSum(b, n, top)
  {
    if n > 0 {
      assert a[n - 1] == a[..n][n - 1] == b[..n][n - 1] == b[n - 1];
      assert a[..n - 1] == a[..n][..n - 1] == b[..n][..n - 1] == b[..n - 1];
      WeightedSumPrefix(a, b, n - 1, top);
    }
  }

  /** Sum of the weights top, top - 1, ..., top - n + 1. */
  function WeightTotal(n: nat, top: int): int {
    if n == 0 then 0 else WeightTotal(n - 1, top) + (top - (n - 1))
  }

  lemma {:induction false} WeightedSumConstant(d: string, n: nat, top: int, c: char)
    requires n <= |d| && AllDigits(d) && IsDigit(c)
    requires forall j :: 0 <= j < n ==> d[j] == c
    ensures WeightedSum(d, n, top) == DigitValue(c) * WeightTotal(n, top)
  {
    if n > 0 {
      WeightedSumConstant(d, n - 1, top, c);
      calc {
        WeightedSum(d, n, top);
        DigitValue(c) * WeightTotal(n - 1, top) + DigitValue(c) * (top - (n - 1));
        { assert DigitValue(c) * WeightTotal(n - 1, top) + DigitValue(c) * (top - (n - 1))
                 == DigitValue(c) * (WeightTotal(n - 1, top) + (top - (n - 1))); }
        DigitValue(c) * WeightTotal(n, top);
      }
    }
  }

  /** For v a digit, both `54 v` and `65 v` leave a remainder whose check digit is v. */
  lemma RepdigitRemainders(v: nat)
    requires v <= 9
    ensures var r := (v * 54) % 11; (if r < 2 then 0 else 11 - r) == v
    ensures var r := (v * 65) % 11; (if r < 2 then 0 else 11 - r) == v
  {
    assert v == 0 || v == 1 || v == 2 || v == 3 || v == 4 || v == 5 || v == 6 || v == 7 || v == 8 || v == 9;
  }

  /**
   * Eleven equal digits satisfy both check digits, so the repeated-digit
   * test of line 119 is what rejects them.
   */
  lemma {:induction false} RepdigitPassesCheckDigits(d: string)
    requires |d| == 11 && AllDigits(d) && AllSame(d)
    ensures DigitValue(d[9]) == CheckDigit(d, 9) && DigitValue(d[10]) == CheckDigit(d, 10)
    ensures !ValidDigits(d)
  {
    var c := d[0];
    WeightedSumConstant(d, 9, 10, c);
    WeightedSumConstant(d, 10, 11, c);
    assert WeightTotal(9, 10) == 54;
    assert WeightTotal(10, 11) == 65;
    RepdigitRemainders(DigitValue(c));
  }

  /** The 11 digits generated from 9 leading digits by appending both check digits. */
  function Complete(base: string): (d: string)
    requires |base| == 9 && AllDigits(base)
    ensures |d| == 11 && AllDigits(d) && d[..9] == base
  {
    var d10 := base + [DigitChar(CheckDigit(base, 9))];
    d10 + [DigitChar(CheckDigit(d10, 10))]
  }

  /** Nine equal leading digits complete to eleven equal digits. */
  lemma CompleteOfRepdigit(base: string)
    requires |base| == 9 && AllDigits(base) && AllSame(base)
    ensures AllSame(Complete(base))
  {
    var c := base[0];
    WeightedSumConstant(base, 9, 10, c);
    assert WeightTotal(9, 10) == 54;
    RepdigitRemainders(DigitValue(c));
    assert DigitChar(DigitValue(c)) == c;
    var d10 := base + [DigitChar(CheckDigit(base, 9))];
    assert forall j :: 0 <= j < 10 ==> d10[j] == c;
    WeightedSumConstant(d10, 10, 11, c);
    assert WeightTotal(10, 11) == 65;
  }

  /** Every completed number satisfies both check digits. */
  lemma CompleteCheckDigits(base: string)
    requires |base| == 9 && AllDigits(base)
    ensures var d := Complete(base);
      DigitValue(d[9]) == CheckDigit(d, 9) && DigitValue(d[10]) == CheckDigit(d, 10)
  {
    var d := Complete(base);
    var d10 := base + [DigitChar(CheckDigit(base, 9))];
    WeightedSumPrefix(d, base, 9, 10);
    WeightedSumPrefix(d, d10, 10, 11);
  }

  /**
   * The checksum as a generator: an 11-digit string is valid exactly when it
   * is the completion of its first nine digits and those are not all equal.
   */
  lemma ValidDigitsIffComplete(d: string)
    requires |d| == 11 && AllDigits(d)
    ensures ValidDigits(d) <==> d == Complete(d[..9]) && !AllSame(d[..9])
  {
    var base := d[..9];
    var e := Complete(base);
    CompleteCheckDigits(base);
    WeightedSumPrefix(d, e, 9, 10);
    if ValidDigits(d) {
      assert d[9] == e[9] by {
        assert DigitChar(DigitValue(d[9])) == d[9];
        assert DigitChar(DigitValue(e[9])) == e[9];
      }
      assert d[..10] == e[..10] by {
        assert d[..10] == base + [d[9]];
        assert e[..10] == base + [e[9]];
      }
      WeightedSumPrefix(d, e, 10, 11);
      assert d[10] == e[10] by {
        assert DigitChar(DigitValue(d[10])) == d[10];
        assert DigitChar(DigitValue(e[10])) == e[10];
      }
      assert d == e by {
        assert d == d[..10] + [d[10]];
        assert e == e[..10] + [e[10]];
      }
      if AllSame(base) {
        CompleteOfRepdigit(base);
      }
    }

  }

  /** Completing nine leading digits yields a valid CPF unless all nine are equal. */
  lemma CompleteValid(base: string)
    requires |base| == 9 && AllDigits(base)
    ensures ValidDigits(Complete(base)) <==> !AllSame(base)
  {
    ValidDigitsIffComplete(Complete(base));
  }

  /** Replacing either check digit of a valid number by another digit invalidates it. */
  lemma AlteredCheckDigitRejected(d: string, k: nat, c: char)
    requires ValidDigits(d) && (k == 9 || k == 10)
    requires IsDigit(c) && c != d[k]
    ensures !ValidDigits(d[k := c])
  {
    var e := d[k := c];
    assert d[..k] == e[..k];
    WeightedSumPrefix(d, e, k, k + 1);
    assert DigitChar(DigitValue(c)) == c && DigitChar(DigitValue(d[k])) == d[k];
  }

  /** The result depends only on the digits: a separator inserted anywhere changes nothing. */
  lemma SeparatorIrrelevant(s: string, i: nat, c: char)
    requires i <= |s| && !IsDigit(c)
    ensures CpfValid(s[..i] + [c] + s[i..]) == CpfValid(s)
  {
    calc {
      Digits(s[..i] + [c] + s[i..]);
      { DigitsConcat(s[..i] + [c], s[i..]); }
      Digits(s[..i] + [c]) + Digits(s[i..]);
      { DigitsConcat(s[..i], [c]); DigitsOfSeparator(c); }
      Digits(s[..i]) + Digits(s[i..]);
      { DigitsConcat(s[..i], s[i..]); assert s[..i] + s[i..] == s; }
      Digits(s);
    }
  }

  /** Worked example: the digits 111444777 complete to the valid 11144477735. */
  lemma ExampleValid()
    ensures ValidDigits("11144477735")
  {
    assert !AllSame("11144477735") by {
      assert "11144477735"[3] != "11144477735"[0];
    }
    assert CheckDigit("11144477735", 9) == 3 by {
      assert WeightedSum("11144477735", 9, 10) == 162;
    }
    assert CheckDigit("11144477735", 10) == 5 by {
      assert WeightedSum("11144477735", 10, 11) == 204;
    }
  }
}
