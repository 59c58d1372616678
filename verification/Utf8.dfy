/** Byte offsets of the runes of a text in UTF-8. */
module Utf8 {
  function RuneLength(r: char): nat {
    if r as int < 0x80 then 1 else if r as int < 0x800 then 2 else if r as int < 0x10000 then 3 else 4
  }

  /** Where rune k begins; for k = |text|, the length in bytes. */
  function Offset(text: string, k: nat): nat
    requires k <= |text|
  {
    if k == 0 then 0 else Offset(text, k - 1) + RuneLength(text[k - 1])
  }

  lemma {:induction false} OffsetsAscend(text: string, i: nat, k: nat)
    requires i <= k <= |text|
    ensures Offset(text, i) + (k - i) <= Offset(text, k)
    decreases k - i
  {
    if i < k { OffsetsAscend(text, i, k - 1); }
  }

  lemma {:induction false} OffsetOfPrefix(a: string, b: string, k: nat)
    requires k <= |a|
    ensures Offset(a + b, k) == Offset(a, k)
  {
    if k > 0 { OffsetOfPrefix(a, b, k - 1); }
  }
}
