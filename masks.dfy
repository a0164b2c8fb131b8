/**
 * `maskCpf` and `maskCep`: the string the input box is rewritten to on
 * every keystroke. Each regex replacement of the source is modelled as
 * written (first match only, leftmost start), and the chains are proved
 * equal to an explicit layout of the digits, from which the shape,
 * idempotence and checksum properties follow.
 */
module Masks {
  import opened Wrappers
  import opened Text
  import opened CpfChecksum
  import opened Schema

  /** `len` consecutive digits start at index j of s. */
  predicate DigitRunAt(s: string, j: nat, len: nat) {
    j + len <= |s| && AllDigits(s[j..j + len])
  }

  /** The leftmost index at or after `from` where `len` consecutive digits start. */
  function FindDigitRun(s: string, len: nat, from: nat): (r: Option<nat>)
    decreases |s| - from
    ensures r.Some? ==> from <= r.value && DigitRunAt(s, r.value, len)
    ensures forall j: nat :: from <= j && DigitRunAt(s, j, len) ==> r.Some? && r.value <= j
  {
    if from + len > |s| then None
    else if AllDigits(s[from..from + len]) then Some(from)
    else FindDigitRun(s, len, from + 1)
  }

  /**
   * `s.replace(/(\d{3})(\d)/, '$1' + sep + '$2')`: sep goes after the first
   * three of the first four-digit run. The string changes exactly when it
   * holds a run of four digits, and then by one character.
   */
  function InsertAfterThree(s: string, sep: char): (r: string)
    ensures r == s <==> forall j: nat :: !DigitRunAt(s, j, 4)
    ensures r != s ==> |r| == |s| + 1
    ensures r != s ==> exists i: nat :: DigitRunAt(s, i, 4) && (forall j: nat :: j < i ==> !DigitRunAt(s, j, 4))
                                 && r == s[..i + 3] + [sep] + s[i + 3..]
  {
    match FindDigitRun(s, 4, 0)
    case None => s
    case Some(i) =>
      var r := s[..i + 3] + [sep] + s[i + 3..];
      assert |r| == |s| + 1;
      r
  }

  /**
   * `s.replace(/(\d{3})(\d{1,2})$/, '$1-$2')`. A match must run to the end
   * of s over four or five digits; the leftmost start is tried first, so a
   * five-digit tail wins and `-` precedes its last two digits. The string
   * changes exactly when it ends in four digits, and then by one character.
   */
  function DashBeforeTail(s: string): (r: string)
    ensures r == s <==> !(|s| >= 4 && AllDigits(s[|s| - 4..]))
    ensures r != s ==> |r| == |s| + 1
    ensures r != s ==> exists i :: |s| - 2 <= i <= |s| - 1 && r == s[..i] + "-" + s[i..]
  {
    if |s| >= 5 && AllDigits(s[|s| - 5..]) then
      assert AllDigits(s[|s| - 4..]) by {
        assert forall i :: |s| - 4 <= i < |s| ==> s[i] == s[|s| - 5..][i - (|s| - 5)];
      }
      var r := s[..|s| - 2] + "-" + s[|s| - 2..];
      assert |r| == |s| + 1;
      r
    else if |s| >= 4 && AllDigits(s[|s| - 4..]) then
      var r := s[..|s| - 1] + "-" + s[|s| - 1..];
      assert |r| == |s| + 1;
      r
    else s
  }

  /**
   * `s.replace(/^(\d{5})(\d)/, '$1-$2')`: the string changes exactly when it
   * starts with six digits, and then by one character.
   */
  function DashAfterFive(s: string): (r: string)
    ensures r == s <==> !(|s| >= 6 && AllDigits(s[..6]))
    ensures r != s ==> |r| == |s| + 1 && r == s[..5] + "-" + s[5..]
  {
    if |s| >= 6 && AllDigits(s[..6]) then
      s[..5] + "-" + s[5..]
    else s
  }

  /** `maskCpf`: strip, keep at most 11 digits, then the three replacements; at most 14 characters result. */
  function MaskCpf(raw: string): (r: string)
    ensures |r| <= 14
  {
    var value := Take(Digits(raw), 11);
    DashBeforeTail(InsertAfterThree(InsertAfterThree(value, '.'), '.'))
  }

  /** `maskCep`: strip, keep at most 8 digits, then the one replacement; at most 9 characters result. */
  function MaskCep(raw: string): (r: string)
    ensures |r| <= 9
  {
    DashAfterFive(Take(Digits(raw), 8))
  }

  /** Reference layout: `.` after digits 3 and 6 and `-` after digit 9, each only when a further digit follows. */
  function CpfLayout(d: string): string
    requires |d| <= 11
  {
    if |d| <= 3 then d
    else if |d| <= 6 then d[..3] + "." + d[3..]
    else if |d| <= 9 then d[..3] + "." + d[3..6] + "." + d[6..]
    else d[..3] + "." + d[3..6] + "." + d[6..9] + "-" + d[9..]
  }

  /** Reference layout: `-` after digit 5 when a further digit follows. */
  function CepLayout(d: string): string
    requires |d| <= 8
  {
    if |d| <= 5 then d else d[..5] + "-" + d[5..]
  }

  lemma RunWithSeparator(s: string, k: nat, j: nat)
    requires k < |s| && !IsDigit(s[k]) && j <= k < j + 4
    ensures !DigitRunAt(s, j, 4)
  {
    if j + 4 <= |s| {
      assert s[j..j + 4][k - j] == s[k];
    }
  }

  /** The first replacement on a string of digits puts `.` after the third digit, if a fourth follows. */
  lemma FirstDot(d: string)
    requires AllDigits(d)
    ensures InsertAfterThree(d, '.') == if |d| < 4 then d else d[..3] + "." + d[3..]
  {
    if |d| >= 4 {
      assert DigitRunAt(d, 0, 4);
    }
  }

  /** The second replacement skips the `.` and puts another after the sixth digit, if a seventh follows. */
  lemma SecondDot(d: string)
    requires AllDigits(d) && |d| >= 4
    ensures var s1 := d[..3] + "." + d[3..];
      InsertAfterThree(s1, '.') == if |d| < 7 then s1 else d[..3] + "." + d[3..6] + "." + d[6..]
  {
    var s1 := d[..3] + "." + d[3..];
    assert s1[3] == '.';
    forall j: nat | j <= 3
      ensures !DigitRunAt(s1, j, 4)
    {
      RunWithSeparator(s1, 3, j);
    }
    if |d| < 7 {
      assert FindDigitRun(s1, 4, 0) == None;
    } else {
      assert s1[4..8] == d[3..7];
      assert DigitRunAt(s1, 4, 4);
      assert FindDigitRun(s1, 4, 0) == Some(4);
    }
  }

  /** With one `.` and at most six digits no four- or five-digit tail exists. */
  lemma NoDashAfterOneDot(d: string)
    requires AllDigits(d) && 4 <= |d| <= 6
    ensures var s1 := d[..3] + "." + d[3..]; DashBeforeTail(s1) == s1
  {
    var s1 := d[..3] + "." + d[3..];
    assert s1[|s1| - 4..][3 - (|s1| - 4)] == s1[3];
    if |s1| >= 5 {
      assert s1[|s1| - 5..][3 - (|s1| - 5)] == s1[3];
    }
  }

  /** With two dots the dash appears exactly when the third group is followed by one or two digits. */
  lemma DashAfterTwoDots(d: string)
    requires AllDigits(d) && 7 <= |d| <= 11
    ensures DashBeforeTail(d[..3] + "." + d[3..6] + "." + d[6..]) == CpfLayout(d)
  {
    var s2 := d[..3] + "." + d[3..6] + "." + d[6..];
    assert |s2| == |d| + 2 && s2[7] == '.';
    if |d| < 10 {
      assert s2[|s2| - 4..][7 - (|s2| - 4)] == s2[7];
      assert s2[|s2| - 5..][7 - (|s2| - 5)] == s2[7];
    } else {
      var head := d[..3] + "." + d[3..6] + "." + d[6..9];
      assert s2 == head + d[9..];
      assert s2[..11] == head && s2[11..] == d[9..];
      if |d| == 10 {
        assert s2[|s2| - 5..][7 - (|s2| - 5)] == s2[7];
        assert s2[|s2| - 4..] == d[6..];
        assert DashBeforeTail(s2) == s2[..11] + "-" + s2[11..];
      } else {
        assert s2[|s2| - 5..] == d[6..];
        assert DashBeforeTail(s2) == s2[..11] + "-" + s2[11..];
      }
    }
  }

  /** The regex chain of maskCpf lays the kept digits out as CpfLayout does. */
  lemma MaskCpfIsLayout(raw: string)
    ensures var d := Take(Digits(raw), 11); MaskCpf(raw) == CpfLayout(d)
  {
    var d := Take(Digits(raw), 11);
    assert AllDigits(d);
    FirstDot(d);
    if |d| < 4 {
      FirstDot(d);
    } else {
      SecondDot(d);
      if |d| < 7 {
        NoDashAfterOneDot(d);
      } else {
        DashAfterTwoDots(d);
      }
    }
  }

  lemma MaskCepIsLayout(raw: string)
    ensures var d := Take(Digits(raw), 8); MaskCep(raw) == CepLayout(d)
  {
    var d := Take(Digits(raw), 8);
    assert AllDigits(d);
    if |d| >= 6 {
      assert AllDigits(d[..6]);
    }
  }

  /** A separator between two strings contributes no digit. */
  lemma DigitsAround(a: string, c: char, b: string)
    requires !IsDigit(c)
    ensures Digits(a + [c] + b) == Digits(a) + Digits(b)
  {
    DigitsConcat(a + [c], b);
    DigitsConcat(a, [c]);
    DigitsOfSeparator(c);
  }

  /** Digit groups joined by separators strip back to the groups themselves. */
  lemma DigitsOfGroups(p: string, c: char, q: string)
    requires AllDigits(p) && AllDigits(q) && !IsDigit(c)
    ensures Digits(p + [c] + q) == p + q
  {
    DigitsAround(p, c, q);
    DigitsIdentity(p);
    DigitsIdentity(q);
  }

  lemma CpfLayoutDigits(d: string)
    requires AllDigits(d) && |d| <= 11
    ensures Digits(CpfLayout(d)) == d
  {
    if |d| <= 3 {
      DigitsIdentity(d);
    } else if |d| <= 6 {
      DigitsOfGroups(d[..3], '.', d[3..]);
      assert d[..3] + d[3..] == d;
    } else {
      var p1, p2 := d[..3], d[3..6];
      var ab := p1 + "." + p2;
      assert Digits(ab) == p1 + p2 by {
        DigitsOfGroups(p1, '.', p2);
      }
      if |d| <= 9 {
        var p3 := d[6..];
        assert Digits(ab + "." + p3) == p1 + p2 + p3 by {
          DigitsAround(ab, '.', p3);
          DigitsIdentity(p3);
        }
        assert p1 + p2 + p3 == d;
      } else {
        var p3, p4 := d[6..9], d[9..];
        assert Digits(ab + "." + p3) == p1 + p2 + p3 by {
          DigitsAround(ab, '.', p3);
          DigitsIdentity(p3);
        }
        assert Digits(ab + "." + p3 + "-" + p4) == p1 + p2 + p3 + p4 by {
          DigitsAround(ab + "." + p3, '-', p4);
          DigitsIdentity(p4);
        }
        assert p1 + p2 + p3 + p4 == d;
      }
    }
  }

  /** The layout has the schema's CPF shape exactly when all eleven digits are present. */
  lemma CpfLayoutShape(d: string)
    requires AllDigits(d) && |d| <= 11
    ensures Matches(CpfLayout(d), CpfShape) <==> |d| == 11
  {
    if |d| == 11 {
      var s := CpfLayout(d);
      forall i | 0 <= i < 14
        ensures SlotAccepts(CpfShape[i], s[i])
      {
        if i < 3 { assert s[i] == d[i]; }
        else if 3 < i < 7 { assert s[i] == d[i - 1]; }
        else if 7 < i < 11 { assert s[i] == d[i - 2]; }
        else if 11 < i { assert s[i] == d[i - 3]; }
      }
    }
  }

  /** The digits of a string of the CPF shape are its four digit groups. */
  lemma ShapedCpfDigits(s: string)
    requires Matches(s, CpfShape)
    ensures Digits(s) == s[..3] + s[4..7] + s[8..11] + s[12..]
  {
    var p1, p2, p3, p4 := s[..3], s[4..7], s[8..11], s[12..];
    assert AllDigits(p1) && AllDigits(p2) && AllDigits(p3) && AllDigits(p4) by {
      assert forall i :: 0 <= i < 14 && i != 3 && i != 7 && i != 11 ==> IsDigit(s[i]);
    }
    var ab := p1 + [s[3]] + p2;
    var abc := ab + [s[7]] + p3;
    assert s == abc + [s[11]] + p4;
    assert Digits(ab) == p1 + p2 by {
      DigitsOfGroups(p1, s[3], p2);
    }
    assert Digits(abc) == p1 + p2 + p3 by {
      DigitsAround(ab, s[7], p3);
      DigitsIdentity(p3);
    }
    DigitsAround(abc, s[11], p4);
    DigitsIdentity(p4);
  }

  /** The layout of eleven digits given as groups of 3, 3, 3 and 2 puts the separators between the groups. */
  lemma CpfLayoutOfGroups(p1: string, p2: string, p3: string, p4: string)
    requires |p1| == 3 && |p2| == 3 && |p3| == 3 && |p4| == 2
    ensures CpfLayout(p1 + p2 + p3 + p4) == p1 + "." + p2 + "." + p3 + "-" + p4
  {
    var d := p1 + p2 + p3 + p4;
    assert d[..3] == p1 && d[3..6] == p2 && d[6..9] == p3 && d[9..] == p4;
  }

  /** A string of the CPF shape is the layout of its own eleven digits. */
  lemma ShapedCpfIsLayout(s: string)
    requires Matches(s, CpfShape)
    ensures |Digits(s)| == 11 && CpfLayout(Digits(s)) == s
  {
    var p1, p2, p3, p4 := s[..3], s[4..7], s[8..11], s[12..];
    ShapedCpfDigits(s);
    CpfLayoutOfGroups(p1, p2, p3, p4);
    assert s[3] == '.' && s[7] == '.' && s[11] == '-';
    assert s == p1 + "." + p2 + "." + p3 + "-" + p4;
  }

  /** The digits of the masked CPF are the first (at most eleven) digits typed. */
  lemma MaskCpfDigits(raw: string)
    ensures Digits(MaskCpf(raw)) == Take(Digits(raw), 11)
  {
    MaskCpfIsLayout(raw);
    CpfLayoutDigits(Take(Digits(raw), 11));
  }

  /** The masked CPF has the schema's shape exactly when at least eleven digits were typed. */
  lemma MaskCpfShape(raw: string)
    ensures Matches(MaskCpf(raw), CpfShape) <==> |Digits(raw)| >= 11
  {
    MaskCpfIsLayout(raw);
    CpfLayoutShape(Take(Digits(raw), 11));
  }

  lemma MaskCpfIdempotent(raw: string)
    ensures MaskCpf(MaskCpf(raw)) == MaskCpf(raw)
  {
    MaskCpfDigits(raw);
    MaskCpfIsLayout(raw);
    MaskCpfIsLayout(MaskCpf(raw));
  }

  /** A value already in the CPF shape is left as it is. */
  lemma MaskCpfFixesShaped(s: string)
    requires Matches(s, CpfShape)
    ensures MaskCpf(s) == s
  {
    ShapedCpfIsLayout(s);
    MaskCpfIsLayout(s);
  }

  /** Masking a value of at most eleven digits never changes the checksum verdict. */
  lemma MaskCpfKeepsVerdict(raw: string)
    requires |Digits(raw)| <= 11
    ensures CpfValid(MaskCpf(raw)) == CpfValid(raw)
  {
    MaskCpfDigits(raw);
  }

  /** The masked CPF passes both schema rules exactly when its first eleven digits form a valid CPF. */
  lemma MaskedCpfPassesSchema(raw: string)
    ensures Matches(MaskCpf(raw), CpfShape) && CpfValid(MaskCpf(raw))
        <==> |Digits(raw)| >= 11 && ValidDigits(Digits(raw)[..11])
  {
    var d, m := Digits(raw), MaskCpf(raw);
    MaskCpfShape(raw);
    MaskCpfDigits(raw);
    assert CpfValid(m) == ValidDigits(Take(d, 11));
    if |d| >= 11 {
      assert Take(d, 11) == d[..11];
    } else {
      assert !Matches(m, CpfShape);
    }
  }

  lemma {:induction false} CepLayoutDigits(d: string)
    requires AllDigits(d) && |d| <= 8
    ensures Digits(CepLayout(d)) == d
  {
    DigitsIdentity(d);
    if |d| > 5 {
      DigitsAround(d[..5], '-', d[5..]);
      DigitsIdentity(d[..5]);
      DigitsIdentity(d[5..]);
      assert d[..5] + d[5..] == d;
    }
  }

  /** The layout has the schema's CEP shape exactly when all eight digits are present. */
  lemma CepLayoutShape(d: string)
    requires AllDigits(d) && |d| <= 8
    ensures Matches(CepLayout(d), CepShape) <==> |d| == 8
  {
    if |d| == 8 {
      var s := CepLayout(d);
      forall i | 0 <= i < 9
        ensures SlotAccepts(CepShape[i], s[i])
      {
        if i < 5 { assert s[i] == d[i]; }
        else if 5 < i { assert s[i] == d[i - 1]; }
      }
    }
  }

  /** A string of the CEP shape is the layout of its own eight digits. */
  lemma ShapedCepIsLayout(s: string)
    requires Matches(s, CepShape)
    ensures |Digits(s)| == 8 && CepLayout(Digits(s)) == s
  {
    assert AllDigits(s[..5]) && AllDigits(s[6..]) by {
      assert forall i :: 0 <= i < 9 && i != 5 ==> IsDigit(s[i]);
    }
    assert s == s[..5] + [s[5]] + s[6..];
    DigitsAround(s[..5], s[5], s[6..]);
    DigitsIdentity(s[..5]);
    DigitsIdentity(s[6..]);
  }

  /** The digits of the masked CEP are the first (at most eight) digits typed. */
  lemma MaskCepDigits(raw: string)
    ensures Digits(MaskCep(raw)) == Take(Digits(raw), 8)
  {
    MaskCepIsLayout(raw);
    CepLayoutDigits(Take(Digits(raw), 8));
  }

  /** The masked CEP has the schema's shape exactly when at least eight digits were typed. */
  lemma MaskCepShape(raw: string)
    ensures Matches(MaskCep(raw), CepShape) <==> |Digits(raw)| >= 8
  {
    MaskCepIsLayout(raw);
    CepLayoutShape(Take(Digits(raw), 8));
  }

  lemma MaskCepIdempotent(raw: string)
    ensures MaskCep(MaskCep(raw)) == MaskCep(raw)
  {
    MaskCepDigits(raw);
    MaskCepIsLayout(raw);
    MaskCepIsLayout(MaskCep(raw));
  }

  /** A value already in the CEP shape is left as it is. */
  lemma MaskCepFixesShaped(s: string)
    requires Matches(s, CepShape)
    ensures MaskCep(s) == s
  {
    ShapedCepIsLayout(s);
    MaskCepIsLayout(s);
  }

  /** Worked example: typing 11144477735 shows 111.444.777-35. */
  lemma ExampleCpfMask()
    ensures MaskCpf("11144477735") == "111.444.777-35"
  {
    var raw := "11144477735";
    assert Digits(raw) == raw && |raw| == 11 && CpfLayout(raw) == "111.444.777-35" by {
      DigitsIdentity(raw);
    }
    MaskCpfIsLayout(raw);
  }

  /** ... and the masked value is a valid CPF. */
  lemma ExampleCpfValid()
    ensures CpfValid(MaskCpf("11144477735"))
  {
    var raw := "11144477735";
    assert Digits(raw) == raw && |raw| == 11 by {
      DigitsIdentity(raw);
    }
    ExampleValid();
    MaskCpfKeepsVerdict(raw);
  }

  /** Worked example: typing 01310930 shows 01310-930. */
  lemma ExampleCep()
    ensures MaskCep("01310930") == "01310-930"
  {
    DigitsIdentity("01310930");
    MaskCepIsLayout("01310930");
    assert CepLayout("01310930") == "01310-930";
  }
}
