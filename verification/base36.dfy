/** Ruby's `Integer#to_s(36).upcase` and the zero-padded, right-truncated fields built
    from it, with a decoder to state what the encoding preserves. */
module Base36 {

  /** Upper-case base-36 digit of `d`: `0`-`9` then `A`-`Z`. */
  function Digit(d: nat): char
    requires d < 36
  {
    if d < 10 then ('0' as int + d) as char else ('A' as int + d - 10) as char
  }

  predicate IsDigit(c: char) {
    '0' <= c <= '9' || 'A' <= c <= 'Z'
  }

  function DigitValue(c: char): nat
    requires IsDigit(c)
  {
    if c <= '9' then c as int - '0' as int else c as int - 'A' as int + 10
  }

  function Pow36(k: nat): (p: nat)
    ensures p >= 1
  {
    if k == 0 then 1 else 36 * Pow36(k - 1)
  }

  /** `n.to_s(36).upcase`: most significant digit first, no leading zero except for 0. */
  function Encode(n: nat): (s: string)
    ensures |s| >= 1
    ensures forall k :: 0 <= k < |s| ==> IsDigit(s[k])
  {
    if n < 36 then [Digit(n)] else Encode(n / 36) + [Digit(n % 36)]
  }

  /** Value of a string of base-36 digits, most significant first. */
  function Decode(s: string): nat
    requires forall k :: 0 <= k < |s| ==> IsDigit(s[k])
  {
    if |s| == 0 then 0 else 36 * Decode(s[..|s| - 1]) + DigitValue(s[|s| - 1])
  }

  /** `width` zero digits. */
  function Zeros(width: nat): (z: string)
    ensures |z| == width
    ensures forall k :: 0 <= k < width ==> z[k] == '0'
  {
    if width == 0 then "" else Zeros(width - 1) + "0"
  }

  /** `(zeros + n.to_s(36))[-width..-1].upcase`: the last `width` characters of `n` in
      base 36 after `width` zeros have been put in front of it. */
  function Padded(n: nat, width: nat): (s: string)
    ensures |s| == width
    ensures forall k :: 0 <= k < |s| ==> IsDigit(s[k])
  {
    var t := Zeros(width) + Encode(n);
    t[|t| - width..]
  }

  lemma {:induction false} DecodeEncode(n: nat)
    ensures Decode(Encode(n)) == n
  {
    if n >= 36 {
      DecodeEncode(n / 36);
      var s := Encode(n);
      assert s[..|s| - 1] == Encode(n / 36);
    }
  }

  /** A number below 36^k has at most k digits. */
  lemma {:induction false} EncodeLength(n: nat, k: nat)
    requires k >= 1 && n < Pow36(k)
    ensures |Encode(n)| <= k
  {
    if n >= 36 {
      assert k >= 2;
      assert n / 36 < Pow36(k - 1);
      EncodeLength(n / 36, k - 1);
    }
  }

  /** Leading zero digits do not change a value. */
  lemma {:induction false} DecodeLeadingZeros(z: nat, s: string)
    requires forall k :: 0 <= k < |s| ==> IsDigit(s[k])
    ensures forall k :: 0 <= k < |Zeros(z) + s| ==> IsDigit((Zeros(z) + s)[k])
    ensures Decode(Zeros(z) + s) == Decode(s)
    decreases |s|
  {
    var t := Zeros(z) + s;
    if |s| == 0 {
      assert t == Zeros(z);
      ZerosDecodeToZero(z);
    } else {
      assert t[..|t| - 1] == Zeros(z) + s[..|s| - 1];
      DecodeLeadingZeros(z, s[..|s| - 1]);
    }
  }

  lemma {:induction false} ZerosDecodeToZero(z: nat)
    ensures Decode(Zeros(z)) == 0
  {
    if z > 0 {
      ZerosDecodeToZero(z - 1);
      assert Zeros(z)[..z - 1] == Zeros(z - 1);
    }
  }

  /** When `n` fits in `width` digits the truncation of `Padded` drops only padding:
      the field decodes back to `n`. */
  lemma PaddedKeepsValue(n: nat, width: nat)
    requires width >= 1 && n < Pow36(width)
    ensures Decode(Padded(n, width)) == n
  {
    var e := Encode(n);
    EncodeLength(n, width);
    var t := Zeros(width) + e;
    var z := width - |e|;
    assert t[|t| - width..] == Zeros(z) + e by {
      assert Zeros(width) == Zeros(z) + Zeros(width - z) by { ZerosSplit(z, width - z); }
    }
    DecodeLeadingZeros(z, e);
    DecodeEncode(n);
  }

  lemma {:induction false} ZerosSplit(a: nat, b: nat)
    ensures Zeros(a + b) == Zeros(a) + Zeros(b)
  {
    if b > 0 {
      ZerosSplit(a, b - 1);
    }
  }
}
