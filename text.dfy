/**
 * Character-level vocabulary shared by the masks, the checksum and the
 * schema: ECMAScript's `\d`, `\D` and `\s` classes, the `.length` of a
 * JavaScript string, and fixed-width shapes such as `^\d{5}-\d{3}$`.
 */
module Text {

  /** ECMAScript `\d`: the ten ASCII digits. */
  predicate IsDigit(c: char) {
    '0' <= c <= '9'
  }

  predicate AllDigits(s: string) {
    forall i :: 0 <= i < |s| ==> IsDigit(s[i])
  }

  /** `parseInt` of a one-digit string. */
  function DigitValue(c: char): (v: nat)
    requires IsDigit(c)
    ensures v <= 9
  {
    c as int - '0' as int
  }

  /** The digit character whose value is v. */
  function DigitChar(v: nat): (c: char)
    requires v <= 9
    ensures IsDigit(c) && DigitValue(c) == v
  {
    ('0' as int + v) as char
  }

  /** `s.replace(/\D/g, '')`: the digit characters of s, in their order. */
  function Digits(s: string): (d: string)
    ensures AllDigits(d) && |d| <= |s|
  {
    if s == [] then [] else (if IsDigit(s[0]) then [s[0]] else []) + Digits(s[1..])
  }

  lemma {:induction false} DigitsConcat(a: string, b: string)
    ensures Digits(a + b) == Digits(a) + Digits(b)
  {
    if a == [] {
      assert a + b == b;
    } else {
      var h := if IsDigit(a[0]) then [a[0]] else [];
      calc {
        Digits(a + b);
        { assert (a + b)[0] == a[0]; }
        h + Digits((a + b)[1..]);
        { assert (a + b)[1..] == a[1..] + b; }
        h + Digits(a[1..] + b);
        { DigitsConcat(a[1..], b); }
        h + (Digits(a[1..]) + Digits(b));
      }
    }
  }

  /** Stripping non-digits changes a string exactly when it holds a non-digit. */
  lemma {:induction false} DigitsIdentity(s: string)
    ensures Digits(s) == s <==> AllDigits(s)
  {
    if s != [] {
      DigitsIdentity(s[1..]);
      if !IsDigit(s[0]) {
        assert |Digits(s)| < |s|;
      }
    }
  }

  lemma DigitsOfSeparator(c: char)
    requires !IsDigit(c)
    ensures Digits([c]) == []
  {
  }

  /** `value.substring(0, n)` guarded by `value.length > n`. */
  function Take(s: string, n: nat): (t: string)
    ensures |t| <= n && t <= s
    ensures |s| <= n ==> t == s
    ensures |s| > n ==> t == s[..n]
  {
    if |s| > n then s[..n] else s
  }

  /**
   * JavaScript's `.length`: the number of UTF-16 code units. A Dafny char
   * is a Unicode scalar value; those at or above U+10000 take two units.
   */
  function Utf16Length(s: string): (n: nat)
    ensures |s| <= n <= 2 * |s|
  {
    if s == [] then 0 else (if s[0] as int >= 0x1_0000 then 2 else 1) + Utf16Length(s[1..])
  }

  /** On the Basic Multilingual Plane `.length` counts characters. */
  lemma {:induction false} Utf16LengthBmp(s: string)
    requires forall i :: 0 <= i < |s| ==> s[i] as int < 0x1_0000
    ensures Utf16Length(s) == |s|
  {
    if s != [] {
      Utf16LengthBmp(s[1..]);
    }
  }

  /**
   * ECMAScript `\s`: WhiteSpace (TAB, VT, FF, SP, NBSP, ZWNBSP and the
   * other Zs characters) and LineTerminator (LF, CR, LS, PS).
   */
  predicate IsJsWhitespace(c: char) {
    var n := c as int;
    || 0x09 <= n <= 0x0D
    || n == 0x20 || n == 0xA0 || n == 0x1680
    || 0x2000 <= n <= 0x200A
    || n == 0x2028 || n == 0x2029 || n == 0x202F || n == 0x205F
    || n == 0x3000 || n == 0xFEFF
  }

  /** One position of a fixed-width regular expression: `\d` or a literal. */
  datatype Slot = AnyDigit | Literal(c: char)

  predicate SlotAccepts(p: Slot, c: char) {
    match p
    case AnyDigit => IsDigit(c)
    case Literal(l) => c == l
  }

  /** `^…$` over a pattern of single-character slots. */
  predicate Matches(s: string, pattern: seq<Slot>) {
    |s| == |pattern| && forall i :: 0 <= i < |s| ==> SlotAccepts(pattern[i], s[i])
  }
}
