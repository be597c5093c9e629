/** Digits and powers of 256, used by the text and the byte formats alike. */
module Numerals {

  predicate IsDigit(c: char) { '0' <= c <= '9' }

  /** The end of the digits that begin at p. */
  function DigitsEnd(t: string, p: nat): (q: nat)
    ensures p <= q && (p <= |t| ==> q <= |t|)
    decreases |t| - p
  {
    if p < |t| && IsDigit(t[p]) then DigitsEnd(t, p + 1) else p
  }

  predicate IsHexDigit(c: char) { '0' <= c <= '9' || 'a' <= c <= 'f' || 'A' <= c <= 'F' }

  function HexDigitValue(c: char): (v: nat)
    ensures v < 16
  {
    if '0' <= c <= '9' then c as int - 48
    else if 'a' <= c <= 'f' then c as int - 87
    else if 'A' <= c <= 'F' then c as int - 55
    else 0
  }

  /** The hexadecimal digits in either case, and no other character. */
  lemma HexDigitsAre(c: char)
    ensures IsHexDigit(c) <==> c in "0123456789abcdef" || c in "0123456789ABCDEF"
    ensures IsHexDigit(c) ==>
              var v := HexDigitValue(c); "0123456789abcdef"[v] == c || "0123456789ABCDEF"[v] == c
  {
    if IsHexDigit(c) {
      var v := HexDigitValue(c);
      assert "0123456789abcdef"[v] == c || "0123456789ABCDEF"[v] == c;
    }
  }

  function Power256(k: nat): (p: nat)
    ensures p > 0
  {
    if k == 0 then 1 else 256 * Power256(k - 1)
  }
}
