/**
  Octal text of permission modes: the parse `int(mode, 8)` that `chmod`
  performs (main.py:148) and the rendering `oct(p)[-3:]` that `list_dir`
  shows (main.py:103).

  Python's `int(s, 8)` also accepts a sign, surrounding whitespace,
  underscores between digits, a "0o" prefix and non-ASCII Unicode decimal
  digits (fullwidth "７００" is 0o700); here only strings of ASCII octal
  digits parse, and everything else is an invalid mode.
*/
module Octal {

  import opened Wrappers

  predicate IsOctalDigit(c: char)
  {
    '0' <= c <= '7'
  }

  predicate AllOctal(s: string)
  {
    forall i :: 0 <= i < |s| ==> IsOctalDigit(s[i])
  }

  function DigitChar(d: nat): (c: char)
    requires d < 8
    ensures IsOctalDigit(c) && c as int == 48 + d
  {
    (48 + d) as char
  }

  function DigitValue(c: char): (d: nat)
    requires IsOctalDigit(c)
    ensures d < 8 && DigitChar(d) == c
  {
    (c as int - 48) as nat
  }

  /** The number that a string of octal digits denotes, most significant first. */
  function Value(s: string): (v: nat)
    requires AllOctal(s)
    ensures v < Pow8(|s|)
    decreases |s|
  {
    if s == [] then 0
    else
      var t := s[..|s| - 1];
      assert AllOctal(t) by {
        forall i | 0 <= i < |t| ensures IsOctalDigit(t[i]) { assert t[i] == s[i]; }
      }
      Value(t) * 8 + DigitValue(s[|s| - 1])
  }

  /** `int(s, 8)` on a string: a number when `s` is a non-empty run of
      octal digits, and then below `8^|s|`, so a three-digit mode is at
      most 0o777. */
  function ParseOctal(s: string): (r: Option<nat>)
    ensures r.Some? <==> s != [] && forall i :: 0 <= i < |s| ==> '0' <= s[i] <= '7'
    ensures r.Some? ==> r.value < Pow8(|s|)
  {
    if s != [] && AllOctal(s) then Some(Value(s)) else None
  }

  /** The digits of `n` in base 8, without leading zeros ("0" for zero),
      as `oct(n)` writes them after its "0o" prefix. */
  function OctalText(n: nat): (s: string)
    ensures |s| >= 1 && AllOctal(s)
    ensures s[|s| - 1] == DigitChar(n % 8)
    decreases n
  {
    if n < 8 then [DigitChar(n)] else OctalText(n / 8) + [DigitChar(n % 8)]
  }

  /** `oct(p)[-3:]`: the last three characters of "0o" followed by the
      digits; always three characters, the last being the lowest digit. */
  function PermText(p: nat): (r: string)
    ensures |r| == 3 && r[2] == DigitChar(p % 8)
  {
    var s := "0o" + OctalText(p);
    s[|s| - 3..]
  }

  /** `8^k`: the number of values that `k` octal digits can write. */
  function Pow8(k: nat): nat
  {
    if k == 0 then 1 else 8 * Pow8(k - 1)
  }

  // ---------------------------------------------------------------------
  // Lemmas
  // ---------------------------------------------------------------------

  /** Parsing what `oct` writes gives the number back. */
  lemma {:induction false} ParseOctalText(n: nat)
    ensures ParseOctal(OctalText(n)) == Some(n)
    decreases n
  {
    var s := OctalText(n);
    if n < 8 {
      assert s[..0] == [];
      assert Value(s) == Value([]) * 8 + DigitValue(DigitChar(n));
    } else {
      ParseOctalText(n / 8);
      assert s[..|s| - 1] == OctalText(n / 8);
    }
  }

  /** From 0o100 up, the listing shows the last three octal digits. */
  lemma PermTextDigits(p: nat)
    requires p >= 64
    ensures PermText(p) == [DigitChar(p / 64 % 8), DigitChar(p / 8 % 8), DigitChar(p % 8)]
  {
    var h := OctalText(p / 64);
    assert OctalText(p / 8) == h + [DigitChar(p / 8 % 8)] by {
      assert p / 8 / 8 == p / 64;
    }
    assert OctalText(p) == h + [DigitChar(p / 8 % 8), DigitChar(p % 8)];
    var s := "0o" + OctalText(p);
    assert s[|s| - 3] == h[|h| - 1];
  }

  /** Below 0o10, the listing shows "0o" and the single digit. */
  lemma PermTextSmall(p: nat)
    requires p < 8
    ensures PermText(p) == ['0', 'o', DigitChar(p)]
  {
  }

  /** From 0o10 to 0o77, the listing shows "o" and the two digits: after
      `chmod 10` a file is listed as "-o10". */
  lemma PermTextMiddle(p: nat)
    requires 8 <= p < 64
    ensures PermText(p) == ['o', DigitChar(p / 8), DigitChar(p % 8)]
  {
    assert OctalText(p) == OctalText(p / 8) + [DigitChar(p % 8)];
    assert OctalText(p / 8) == [DigitChar(p / 8)];
  }

  /** A mode from 0o100 to 0o777, listed and typed back into `chmod`, is the same mode. */
  lemma PermTextRoundTrip(p: nat)
    requires 64 <= p < 512
    ensures ParseOctal(PermText(p)) == Some(p)
  {
    assert OctalText(p / 8) == OctalText(p / 64) + [DigitChar(p / 8 % 8)] by {
      assert p / 8 / 8 == p / 64;
    }
    assert |OctalText(p)| == 3;
    var s := "0o" + OctalText(p);
    assert s[|s| - 3..] == OctalText(p);
    ParseOctalText(p);
  }
}
