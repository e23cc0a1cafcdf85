/**
  * Text primitives shared by the whole listing pipeline: Rust's `Ordering`,
  * the ordinal (code point) comparison that `str::cmp` performs, decimal
  * rendering of unsigned integers, UTF-8 byte length (`str::len`), the
  * space padding of `format!("{:<w$}")` / `format!("{:>w$}")`, and the
  * case folding used when a configuration keyword is matched.
  */
module Strings {

  /** Rust's `std::cmp::Ordering`. */
  datatype Ordering = Less | Equal | Greater {
    /** `Ordering::reverse`: what the comparison says with its arguments swapped. */
    function Reverse(): (r: Ordering)
      ensures (r == Less) == (this == Greater) && (r == Greater) == (this == Less)
    {
      match this
      case Less => Greater
      case Equal => Equal
      case Greater => Less
    }
  }

  /** `Ord::cmp` on integers. */
  function CmpInt(a: int, b: int): (r: Ordering)
    ensures r == Less <==> a < b
    ensures r == Equal <==> a == b
    ensures r == Greater <==> a > b
  {
    if a < b then Less else if a == b then Equal else Greater
  }

  /**
    * `str::cmp`: lexicographic comparison of code points. UTF-8 byte order and
    * code point order agree, so this is exactly Rust's byte-wise string order;
    * it is case-sensitive ('A' < 'Z' < 'a').
    */
  function StrCmp(a: string, b: string): Ordering
  {
    if a == [] then (if b == [] then Equal else Less)
    else if b == [] then Greater
    else if a[0] < b[0] then Less
    else if b[0] < a[0] then Greater
    else StrCmp(a[1..], b[1..])
  }

  /** Swapping the arguments reverses the answer. */
  lemma {:induction false} StrCmpReverse(a: string, b: string)
    ensures StrCmp(b, a) == StrCmp(a, b).Reverse()
  {
    if a != [] && b != [] && a[0] == b[0] {
      StrCmpReverse(a[1..], b[1..]);
    }
  }

  /** Two strings compare `Equal` exactly when they are the same string. */
  lemma {:induction false} StrCmpEqual(a: string, b: string)
    ensures StrCmp(a, b) == Equal <==> a == b
  {
    if a != [] && b != [] && a[0] == b[0] {
      StrCmpEqual(a[1..], b[1..]);
      assert a == [a[0]] + a[1..] && b == [b[0]] + b[1..];
    }
  }

  /** "Not greater" is transitive. */
  lemma {:induction false} StrCmpTransitive(a: string, b: string, c: string)
    requires StrCmp(a, b) != Greater && StrCmp(b, c) != Greater
    ensures StrCmp(a, c) != Greater
  {
    if a != [] && b != [] && c != [] && a[0] == b[0] && b[0] == c[0] {
      StrCmpTransitive(a[1..], b[1..], c[1..]);
    }
  }

  /** A string that is a proper prefix of another sorts before it. */
  lemma {:induction false} StrCmpPrefix(a: string, b: string)
    requires |a| < |b| && a == b[..|a|]
    ensures StrCmp(a, b) == Less
  {
    if a != [] {
      assert a[1..] == b[1..][..|a| - 1];
      StrCmpPrefix(a[1..], b[1..]);
    }
  }

  /** `n` copies of `c` (`" ".repeat(n)` for `c == ' '`). */
  function Repeat(c: char, n: nat): (r: string)
    ensures |r| == n && forall i :: 0 <= i < n ==> r[i] == c
  {
    seq(n, _ => c)
  }

  predicate IsDigit(c: char) { '0' <= c <= '9' }

  function DigitChar(d: nat): (c: char)
    requires d < 10
    ensures IsDigit(c) && c as int - '0' as int == d
  {
    ('0' as int + d) as char
  }

  /** `format!("{}", n)` for an unsigned integer: its decimal digits, most significant first. */
  function NatToString(n: nat): string
  {
    if n < 10 then [DigitChar(n)] else NatToString(n / 10) + [DigitChar(n % 10)]
  }

  /** Reading decimal digits back, most significant first: the partner of `NatToString`. */
  function DecimalValue(s: string): nat
    requires forall i :: 0 <= i < |s| ==> IsDigit(s[i])
  {
    if s == [] then 0
    else
      assert IsDigit(s[|s| - 1]);
      10 * DecimalValue(s[..|s| - 1]) + (s[|s| - 1] as int - '0' as int)
  }

  /** The decimal rendering is made of digits, has no leading zero, and reads back as `n`. */
  lemma {:induction false} NatToStringRoundTrip(n: nat)
    ensures |NatToString(n)| >= 1
    ensures forall i :: 0 <= i < |NatToString(n)| ==> IsDigit(NatToString(n)[i])
    ensures |NatToString(n)| > 1 ==> NatToString(n)[0] != '0'
    ensures DecimalValue(NatToString(n)) == n
  {
    if n >= 10 {
      NatToStringRoundTrip(n / 10);
      var s := NatToString(n);
      assert s[..|s| - 1] == NatToString(n / 10);
    }
  }

  /** `10` to the power `k`. */
  function Pow10(k: nat): (p: nat)
    ensures p >= 1
  {
    if k == 0 then 1 else 10 * Pow10(k - 1)
  }

  /**
    * The rendering has exactly as many digits as the number needs: `k` digits
    * for `10^(k-1) <= n < 10^k`, and one digit for zero.
    */
  lemma {:induction false} NatToStringLength(n: nat)
    ensures n < Pow10(|NatToString(n)|)
    ensures n >= 1 ==> Pow10(|NatToString(n)| - 1) <= n
  {
    if n >= 10 {
      var q := n / 10;
      NatToStringLength(q);
      var k := |NatToString(q)|;
      assert |NatToString(n)| == k + 1;
      assert Pow10(k + 1) == 10 * Pow10(k);
      assert k >= 1 && Pow10(k) == 10 * Pow10(k - 1);
      assert n == 10 * q + n % 10;
    }
  }

  /** Number of bytes of the UTF-8 encoding of one code point. */
  function Utf8Width(c: char): (k: nat)
    ensures 1 <= k <= 4
    ensures k == 1 <==> c as int < 0x80
  {
    if c as int < 0x80 then 1
    else if c as int < 0x800 then 2
    else if c as int < 0x1_0000 then 3
    else 4
  }

  /** `str::len`: the UTF-8 byte length of a string. */
  function Utf8Len(s: string): nat
  {
    if s == [] then 0 else Utf8Len(s[..|s| - 1]) + Utf8Width(s[|s| - 1])
  }

  predicate IsAscii(s: string) { forall i :: 0 <= i < |s| ==> s[i] as int < 0x80 }

  /** A string has at least as many bytes as characters, and exactly as many iff it is ASCII. */
  lemma {:induction false} Utf8LenCountsBytes(s: string)
    ensures Utf8Len(s) >= |s|
    ensures Utf8Len(s) == |s| <==> IsAscii(s)
  {
    if s != [] {
      var init := s[..|s| - 1];
      Utf8LenCountsBytes(init);
      if IsAscii(s) {
        assert IsAscii(init) by {
          forall i | 0 <= i < |init| ensures init[i] as int < 0x80 { assert init[i] == s[i]; }
        }
      } else if IsAscii(init) {
        assert s[|s| - 1] as int >= 0x80 by {
          if s[|s| - 1] as int < 0x80 {
            forall i | 0 <= i < |s| ensures s[i] as int < 0x80 {
              if i < |s| - 1 { assert s[i] == init[i]; }
            }
          }
        }
      }
    }
  }

  /** The decimal rendering of a number is ASCII. */
  lemma NatToStringAscii(n: nat)
    ensures IsAscii(NatToString(n))
  {
    NatToStringRoundTrip(n);
  }

  /**
    * `format!("{:<width$}", s)`: `s` followed by spaces up to `width`
    * characters. Rust counts characters here, not bytes and not display columns.
    */
  function PadEnd(s: string, width: nat): (r: string)
    ensures |r| == if |s| < width then width else |s|
    ensures r[..|s|] == s
    ensures forall i :: |s| <= i < |r| ==> r[i] == ' '
  {
    if |s| < width then s + Repeat(' ', width - |s|) else s
  }

  /** `format!("{:>width$}", s)`: spaces up to `width` characters, then `s`. */
  function PadStart(s: string, width: nat): (r: string)
    ensures |r| == if |s| < width then width else |s|
    ensures r[|r| - |s|..] == s
    ensures forall i :: 0 <= i < |r| - |s| ==> r[i] == ' '
  {
    if |s| < width then Repeat(' ', width - |s|) + s else s
  }

  /**
    * Case folding for keyword matching (`to_lowercase` followed by a comparison
    * with an ASCII keyword). Besides 'A'..'Z', the only character whose
    * lowercase is ASCII is U+212A KELVIN SIGN, which lowercases to 'k'; every
    * other character is kept. A folded string therefore equals an ASCII
    * keyword exactly when Rust's `to_lowercase` of it does.
    */
  function FoldChar(c: char): (r: char)
    ensures 'A' <= c <= 'Z' ==> r as int == c as int + 32
    ensures c == '\U{212A}' ==> r == 'k'
    ensures !('A' <= c <= 'Z') && c != '\U{212A}' ==> r == c
  {
    if 'A' <= c <= 'Z' then (c as int + 32) as char
    else if c == '\U{212A}' then 'k'
    else c
  }

  function FoldCase(s: string): (r: string)
    ensures |r| == |s| && forall i :: 0 <= i < |s| ==> r[i] == FoldChar(s[i])
  {
    seq(|s|, i requires 0 <= i < |s| => FoldChar(s[i]))
  }

  /** Characters that folding leaves alone: everything but 'A'..'Z' and the Kelvin sign. */
  predicate IsFolded(s: string)
  {
    forall i :: 0 <= i < |s| ==> !('A' <= s[i] <= 'Z') && s[i] != '\U{212A}'
  }

  /** Folding yields a folded string, and folding twice is folding once. */
  lemma FoldCaseIdempotent(s: string)
    ensures IsFolded(FoldCase(s))
    ensures FoldCase(FoldCase(s)) == FoldCase(s)
  {
  }

  /** `str::starts_with(c)`. */
  predicate StartsWith(s: string, c: char) { |s| > 0 && s[0] == c }
}
