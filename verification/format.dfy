/** The parts of C's printf and ctype that the renderers rely on and whose
    output is fixed by the C standard: isprint in the C locale, and the
    unsigned octal (%o), unsigned lowercase hexadecimal (%x) and signed
    decimal (%d) conversions of a 32-bit word. Each conversion comes with
    a parser proving that the printed digits determine the value. */
module Format {
  import opened Machine

  /** isprint() in the C locale: space through tilde. Values outside
      0..255 (a whole stack word passed as a char) are not printable. */
  predicate IsPrint(c: int)
  {
    0x20 <= c <= 0x7e
  }

  /** The digit printed for value d (lowercase, as %x prints). */
  function DigitChar(d: nat): char
    requires d < 16
  {
    if d < 10 then ('0' as int + d) as char else ('a' as int + d - 10) as char
  }

  /** The value of a digit character, in any base up to 16. */
  function DigitValue(c: char): nat
  {
    if '0' <= c <= '9' then c as int - '0' as int
    else if 'a' <= c <= 'f' then c as int - 'a' as int + 10
    else 0
  }

  /** Unsigned conversion of n in the given base, most significant digit
      first, with no leading zeros ("0" for zero). */
  function Digits(n: nat, base: nat): (r: string)
    requires 2 <= base <= 16
    decreases n
  {
    if n < base then [DigitChar(n)] else Digits(n / base, base) + [DigitChar(n % base)]
  }

  /** Reads back an unsigned digit string. */
  function ParseDigits(s: string, base: nat): nat
  {
    if s == [] then 0 else ParseDigits(s[..|s| - 1], base) * base + DigitValue(s[|s| - 1])
  }

  /** A lowercase digit character. */
  predicate IsDigitChar(c: char)
  {
    '0' <= c <= '9' || 'a' <= c <= 'f'
  }

  /** What printf prints for an unsigned conversion: at least one digit,
      every character a lowercase digit below the base, and no leading
      zero unless the whole text is "0". */
  predicate IsDigitString(s: string, base: nat)
  {
    && |s| >= 1
    && (forall i :: 0 <= i < |s| ==> IsDigitChar(s[i]) && DigitValue(s[i]) < base)
    && (|s| == 1 || s[0] != '0')
  }

  /** Euclidean division by the base, as Digits uses it. */
  lemma DivStep(n: nat, base: nat)
    requires 2 <= base <= 16 && n >= base
    ensures n == (n / base) * base + n % base
    ensures 0 <= n % base < base && n / base < n
  {
  }

  /** %o, %x and the magnitude part of %d print digits that parse back to
      the value printed. */
  lemma {:induction false} DigitsRoundTrip(n: nat, base: nat)
    requires 2 <= base <= 16
    ensures IsDigitString(Digits(n, base), base)
    ensures ParseDigits(Digits(n, base), base) == n
    decreases n
  {
    if n >= base {
      var q, d := n / base, n % base;
      DivStep(n, base);
      DigitsRoundTrip(q, base);
      var p := Digits(q, base);
      var s := p + [DigitChar(d)];
      assert s == Digits(n, base);
      assert s[..|s| - 1] == p;
      assert DigitValue(DigitChar(d)) == d;
      assert ParseDigits(s, base) == ParseDigits(p, base) * base + d;
      forall i | 0 <= i < |s|
        ensures IsDigitChar(s[i]) && DigitValue(s[i]) < base
      {
        if i < |p| { assert s[i] == p[i]; }
      }
      assert s[0] == p[0];
    }
  }

  /** The signed value %d prints for a 32-bit word (two's complement). */
  function ToInt32(w: Word): int
  {
    if w < 0x8000_0000 then w else w - 0x1_0000_0000
  }

  /** %d of a word passed as unsigned int: the word reinterpreted as signed. */
  function SignedDecimal(w: Word): string
  {
    if w < 0x8000_0000 then Digits(w, 10) else "-" + Digits(0x1_0000_0000 - w, 10)
  }

  /** Reads back an optionally negative decimal. */
  function ParseSigned(s: string): int
  {
    if |s| > 0 && s[0] == '-' then 0 - ParseDigits(s[1..], 10) else ParseDigits(s, 10)
  }

  /** %d prints exactly the two's-complement value of the word: a minus
      sign exactly when that value is negative, then canonical decimal
      digits of its magnitude. */
  lemma SignedDecimalRoundTrip(w: Word)
    ensures var s := SignedDecimal(w);
      && |s| >= 1 && (s[0] == '-' <==> ToInt32(w) < 0)
      && IsDigitString(if s[0] == '-' then s[1..] else s, 10)
      && ParseSigned(s) == ToInt32(w)
  {
    if w < 0x8000_0000 {
      DigitsRoundTrip(w, 10);
      assert SignedDecimal(w)[0] != '-';
    } else {
      DigitsRoundTrip(0x1_0000_0000 - w, 10);
      assert SignedDecimal(w)[1..] == Digits(0x1_0000_0000 - w, 10);
    }
  }

  /** Concatenation regroups freely; spelled out for the solver. */
  lemma Associate(a: string, b: string, c: string)
    ensures a + b + c == a + (b + c)
  {
  }

  lemma EmptyConcat(a: string)
    ensures "" + a == a && a + "" == a
  {
  }
}
