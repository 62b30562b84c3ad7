/**
 * Decimal text as .NET's String.Format writes it ("{0}" and the custom
 * zero-padded "{0:000000000}"), and ordinal string order.
 */
module Formatting {

  function DigitChar(d: nat): char
    requires d < 10
  {
    ('0' as int + d) as char
  }

  function Pow10(k: nat): (p: nat)
    ensures p >= 1
  {
    if k == 0 then 1 else 10 * Pow10(k - 1)
  }

  /** The last `width` decimal digits of n, most significant first. */
  function Pad(n: nat, width: nat): (s: string)
    ensures |s| == width
    ensures forall i :: 0 <= i < |s| ==> '0' <= s[i] <= '9'
  {
    if width == 0 then "" else Pad(n / 10, width - 1) + [DigitChar(n % 10)]
  }

  /** How many digits n is written with (0 is written "0"). */
  function NumDigits(n: nat): (k: nat)
    ensures k >= 1 && n < Pow10(k)
  {
    if n < 10 then 1 else 1 + NumDigits(n / 10)
  }

  /** String.Format("{0}", n) for a non-negative int. */
  function NatToString(n: nat): string {
    Pad(n, NumDigits(n))
  }

  /** String.Format("{0}", v) for an int. */
  function IntToString(v: int): string {
    if v < 0 then "-" + NatToString(-v) else NatToString(v)
  }

  function Max(a: nat, b: nat): nat {
    if a < b then b else a
  }

  /** String.Format("{0:000000000}", v): at least nine digits, with a sign if negative. */
  function Format9(v: int): string {
    if v < 0 then "-" + Pad(-v, Max(9, NumDigits(-v))) else Pad(v, Max(9, NumDigits(v)))
  }

  /** Ordinal (char by char) string order, a prefix coming first. */
  predicate LexLe(s: string, t: string) {
    if s == [] then true
    else if t == [] then false
    else if s[0] != t[0] then s[0] < t[0]
    else LexLe(s[1..], t[1..])
  }

  lemma {:induction false} LexLeTotal(s: string, t: string)
    ensures LexLe(s, t) || LexLe(t, s)
  {
    if s != [] && t != [] && s[0] == t[0] {
      LexLeTotal(s[1..], t[1..]);
    }
  }

  lemma {:induction false} LexLeTransitive(s: string, t: string, u: string)
    requires LexLe(s, t) && LexLe(t, u)
    ensures LexLe(s, u)
  {
    if s != [] && t != [] && u != [] && s[0] == t[0] == u[0] {
      LexLeTransitive(s[1..], t[1..], u[1..]);
    }
  }

  lemma {:induction false} LexLeAntisymmetric(s: string, t: string)
    requires LexLe(s, t) && LexLe(t, s)
    ensures s == t
  {
    if s != [] && t != [] {
      LexLeAntisymmetric(s[1..], t[1..]);
      assert s == [s[0]] + s[1..] && t == [t[0]] + t[1..];
    }
  }

  /** Comparing two concatenations whose first parts have equal length: the first parts decide unless they are equal. */
  lemma {:induction false} LexLeConcat(p: string, s: string, q: string, t: string)
    requires |p| == |q|
    ensures LexLe(p + s, q + t) <==> (p != q && LexLe(p, q)) || (p == q && LexLe(s, t))
  {
    if p != [] {
      assert (p + s)[1..] == p[1..] + s && (p + t)[1..] == p[1..] + t;
      assert (q + t)[1..] == q[1..] + t;
      LexLeConcat(p[1..], s, q[1..], t);
      assert p == [p[0]] + p[1..] && q == [q[0]] + q[1..];
    } else {
      assert p + s == s && q + t == t;
    }
  }

  /** Zero-padded numbers of the same width compare as strings exactly as they compare as numbers. */
  lemma {:induction false} PadOrder(a: nat, b: nat, width: nat)
    requires a < Pow10(width) && b < Pow10(width)
    ensures LexLe(Pad(a, width), Pad(b, width)) <==> a <= b
    ensures Pad(a, width) == Pad(b, width) <==> a == b
  {
    if width > 0 {
      PadOrder(a / 10, b / 10, width - 1);
      var da, db := DigitChar(a % 10), DigitChar(b % 10);
      LexLeConcat(Pad(a / 10, width - 1), [da], Pad(b / 10, width - 1), [db]);
      assert LexLe([da], [db]) <==> da <= db;
      assert da <= db <==> a % 10 <= b % 10;
      assert Pad(a, width) == Pad(b, width) ==> Pad(a / 10, width - 1) == Pad(b / 10, width - 1) && da == db by {
        if Pad(a, width) == Pad(b, width) {
          assert Pad(a, width)[..width - 1] == Pad(a / 10, width - 1);
          assert Pad(b, width)[..width - 1] == Pad(b / 10, width - 1);
          assert Pad(a, width)[width - 1] == da && Pad(b, width)[width - 1] == db;
        }
      }
    }
  }

  /** Nine-digit padding of a number below 10^9 is exactly nine digits. */
  lemma Format9Small(v: int)
    requires 0 <= v < Pow10(9)
    ensures Format9(v) == Pad(v, 9)
  {
    assert Pow10(9) == 1_000_000_000;
    if NumDigits(v) > 9 {
      NumDigitsBound(v, 9);
    }
  }

  lemma {:induction false} NumDigitsBound(n: nat, k: nat)
    requires n < Pow10(k)
    ensures NumDigits(n) <= Max(k, 1)
  {
    if n >= 10 {
      assert k >= 2;
      NumDigitsBound(n / 10, k - 1);
    }
  }
}
