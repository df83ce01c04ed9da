/**
 * Text renderings the crawler produces from bytes: the decimal form of a
 * non-negative integer (Go's strconv.Itoa) and lower-case hexadecimal (Go's
 * hex.EncodeToString). Each comes with a reader that inverts it, so that the
 * renderings are shown to lose nothing.
 */
module Text {
  import opened Wrappers
  import opened Bencode

  predicate IsDigit(c: char) {
    '0' <= c <= '9'
  }

  function DigitChar(d: nat): (c: char)
    requires d < 10
    ensures IsDigit(c)
  {
    ('0' as int + d) as char
  }

  function DigitValue(c: char): (d: nat)
    requires IsDigit(c)
    ensures d < 10
  {
    c as int - '0' as int
  }

  /** strconv.Itoa of a non-negative integer: its digits, most significant first. */
  function Decimal(n: nat): (r: string)
    ensures |r| > 0
    ensures forall i :: 0 <= i < |r| ==> IsDigit(r[i])
    ensures r[0] == '0' ==> n == 0
  {
    if n < 10 then [DigitChar(n)] else Decimal(n / 10) + [DigitChar(n % 10)]
  }

  /** The value of a string of decimal digits, most significant first. */
  function DigitsValue(s: string): (v: nat)
    requires forall i :: 0 <= i < |s| ==> IsDigit(s[i])
  {
    if s == [] then 0 else DigitsValue(s[..|s| - 1]) * 10 + DigitValue(s[|s| - 1])
  }

  lemma {:induction false} DecimalValue(n: nat)
    ensures DigitsValue(Decimal(n)) == n
  {
    if n >= 10 {
      var r := Decimal(n);
      assert r[..|r| - 1] == Decimal(n / 10);
      DecimalValue(n / 10);
    }
  }

  /** The length of the longest run of digits at the front of `s`. */
  function LeadingDigits(s: string): (k: nat)
    ensures k <= |s|
    ensures forall i :: 0 <= i < k ==> IsDigit(s[i])
    ensures k < |s| ==> !IsDigit(s[k])
  {
    if s == [] || !IsDigit(s[0]) then 0 else 1 + LeadingDigits(s[1..])
  }

  /** Reads the decimal number at the front of `s` and returns it with what follows. */
  function ReadNumber(s: string): (r: Option<(nat, string)>) {
    var k := LeadingDigits(s);
    if k == 0 then None else Some((DigitsValue(s[..k]), s[k..]))
  }

  /** Reading back a rendered number gives the number, when no digit follows it. */
  lemma ReadDecimal(n: nat, rest: string)
    requires rest == [] || !IsDigit(rest[0])
    ensures ReadNumber(Decimal(n) + rest) == Some((n, rest))
  {
    var ds := Decimal(n);
    var s := ds + rest;
    var k := LeadingDigits(s);
    assert forall i :: 0 <= i < |ds| ==> s[i] == ds[i];
    assert |ds| < |s| ==> s[|ds|] == rest[0];
    assert k == |ds|;
    assert s[..k] == ds;
    assert s[k..] == rest;
    DecimalValue(n);
  }

  /** The digit hex.EncodeToString writes for a nibble: 0-9, then a-f. */
  function HexDigit(v: nat): (c: char)
    requires v < 16
    ensures '0' <= c <= '9' || 'a' <= c <= 'f'
  {
    if v < 10 then ('0' as int + v) as char else ('a' as int + v - 10) as char
  }

  /** The nibble a lower-case hexadecimal digit stands for. */
  function HexValue(c: char): (r: Option<nat>)
    ensures r.Some? ==> r.value < 16
  {
    if '0' <= c <= '9' then Some(c as int - '0' as int)
    else if 'a' <= c <= 'f' then Some(c as int - 'a' as int + 10)
    else None
  }

  /** hex.EncodeToString: two lower-case digits per byte, high nibble first. */
  function Hex(bs: seq<byte>): (r: string)
    ensures |r| == 2 * |bs|
  {
    if bs == [] then [] else [HexDigit(bs[0] / 16), HexDigit(bs[0] % 16)] + Hex(bs[1..])
  }

  /** Byte k of the input is rendered at positions 2k (high nibble) and 2k+1 (low nibble). */
  lemma {:induction false} HexAt(bs: seq<byte>, k: nat)
    requires k < |bs|
    ensures Hex(bs)[2 * k] == HexDigit(bs[k] / 16)
    ensures Hex(bs)[2 * k + 1] == HexDigit(bs[k] % 16)
  {
    if k > 0 {
      HexAt(bs[1..], k - 1);
      assert Hex(bs)[2..] == Hex(bs[1..]);
    }
  }

  /** Reads lower-case hexadecimal back into bytes; the left inverse of Hex. */
  function Unhex(s: string): (r: Option<seq<byte>>)
    decreases |s|
  {
    if s == [] then Some([])
    else if |s| == 1 then None
    else match (HexValue(s[0]), HexValue(s[1]), Unhex(s[2..]))
      case (Some(hi), Some(lo), Some(rest)) => Some([hi * 16 + lo] + rest)
      case _ => None
  }

  lemma {:induction false} HexRoundTrip(bs: seq<byte>)
    ensures Unhex(Hex(bs)) == Some(bs)
  {
    if bs != [] {
      var h := Hex(bs);
      var b := bs[0];
      assert h[2..] == Hex(bs[1..]);
      assert HexValue(h[0]) == Some(b / 16);
      assert HexValue(h[1]) == Some(b % 16);
      HexRoundTrip(bs[1..]);
      assert [b / 16 * 16 + b % 16] + bs[1..] == bs;
    }
  }

  /** Every character of a Hex rendering is a lower-case hexadecimal digit. */
  lemma HexIsLowerCase(bs: seq<byte>)
    ensures forall i :: 0 <= i < |Hex(bs)| ==> var c := Hex(bs)[i]; '0' <= c <= '9' || 'a' <= c <= 'f'
  {
    var h := Hex(bs);
    forall i | 0 <= i < |h|
      ensures '0' <= h[i] <= '9' || 'a' <= h[i] <= 'f'
    {
      HexAt(bs, i / 2);
    }
  }
}
