/** Gateway message ids: `m` followed by a number in base 36, at least seven digits wide. */
module GatewayIds {
  import opened Wrappers

  const UINT64_MAX: nat := 0xFFFF_FFFF_FFFF_FFFF
  const ID_WIDTH := 7
  const ID_LIMIT: nat := 78_364_164_096 // 36^7

  function DigitChar(d: nat): char
    requires d < 36
  {
    if d < 10 then '0' + d as char else 'a' + (d - 10) as char
  }

  function DigitValue(c: char): Option<nat> {
    if '0' <= c <= '9' then Some((c - '0') as nat)
    else if 'a' <= c <= 'z' then Some((c - 'a') as nat + 10)
    else if 'A' <= c <= 'Z' then Some((c - 'A') as nat + 10)
    else None
  }

  /** Digits of n in base 36, without leading zeros. */
  function FormatBase36(n: nat): string {
    if n < 36 then [DigitChar(n)] else FormatBase36(n / 36) + [DigitChar(n % 36)]
  }

  function ZeroPad(s: string, width: nat): string {
    seq(if |s| < width then width - |s| else 0, _ => '0') + s
  }

  /** Refused once the number needs more than seven digits. */
  function NewGatewayId(n: nat): Result<string> {
    var encoded := FormatBase36(n);
    if |encoded| > ID_WIDTH then Err else Ok("m" + ZeroPad(encoded, ID_WIDTH))
  }

  /** Unsigned parse; empty text, a digit out of range or overflow of 64 bits is an error. */
  function ParseUint(s: string, base: nat): Result<nat>
    requires base == 10 || base == 36
  {
    if s == [] then Err
    else
      var high := if |s| == 1 then Ok(0) else ParseUint(s[..|s| - 1], base);
      var d := DigitValue(s[|s| - 1]);
      if high.Err? || d.None? || d.value >= base then Err
      else
        var n := high.value * base + d.value;
        if n > UINT64_MAX then Err else Ok(n)
  }

  /** Current ids are `m` in base 36; older ones are `g` in base 10. */
  function ParseGatewaySeq(id: string): Result<nat> {
    if |id| < 2 then Err
    else if id[0] == 'g' then ParseUint(id[1..], 10)
    else if id[0] == 'm' then ParseUint(id[1..], 36)
    else Err
  }

  lemma {:induction false} ParseZeros(k: nat)
    requires k > 0
    ensures ParseUint(seq(k, _ => '0'), 36) == Ok(0)
  {
    var s := seq(k, _ => '0');
    if k > 1 {
      assert s[..k - 1] == seq(k - 1, _ => '0');
      ParseZeros(k - 1);
    }
  }

  lemma {:induction false} ParseAfterZeros(k: nat, n: nat)
    requires n <= UINT64_MAX
    ensures ParseUint(seq(k, _ => '0') + FormatBase36(n), 36) == Ok(n)
  {
    var zeros := seq(k, _ => '0');
    var s := zeros + FormatBase36(n);
    if n < 36 {
      assert s[..|s| - 1] == zeros;
      if k > 0 { ParseZeros(k); }
    } else {
      ParseAfterZeros(k, n / 36);
      assert s[..|s| - 1] == zeros + FormatBase36(n / 36);
    }
  }

  lemma {:induction false} FormatLength(n: nat, width: nat, bound: nat)
    requires width > 0 && bound == Power36(width)
    ensures |FormatBase36(n)| <= width <==> n < bound
  {
    if width > 1 && n >= 36 {
      FormatLength(n / 36, width - 1, Power36(width - 1));
    } else if n >= 36 {
      assert |FormatBase36(n / 36)| >= 1;
    }
  }

  function Power36(k: nat): (p: nat)
    ensures p >= 1
  {
    if k == 0 then 1 else 36 * Power36(k - 1)
  }

  /** An `m` and small letters and digits. */
  predicate Readable(id: string) {
    id != [] && id[0] == 'm' && forall i :: 0 < i < |id| ==> '0' <= id[i] <= '9' || 'a' <= id[i] <= 'z'
  }

  lemma {:induction false} DigitsReadable(n: nat)
    ensures forall i :: 0 <= i < |FormatBase36(n)| ==>
              '0' <= FormatBase36(n)[i] <= '9' || 'a' <= FormatBase36(n)[i] <= 'z'
  {
    if n >= 36 { DigitsReadable(n / 36); }
  }

  /** Parsing inverts printing on every number that still fits; all others are refused. */
  lemma GatewayIdRoundTrip(n: nat)
    ensures NewGatewayId(n).Ok? <==> n < ID_LIMIT
    ensures n < ID_LIMIT ==> ParseGatewaySeq(NewGatewayId(n).value) == Ok(n)
    ensures n < ID_LIMIT ==> |NewGatewayId(n).value| == 8 && Readable(NewGatewayId(n).value)
  {
    assert Power36(7) == ID_LIMIT by {
      assert Power36(1) == 36 && Power36(2) == 1296 && Power36(3) == 46656;
      assert Power36(4) == 1679616 && Power36(5) == 60466176;
    }
    FormatLength(n, ID_WIDTH, ID_LIMIT);
    if n < ID_LIMIT {
      var encoded := FormatBase36(n);
      var id := NewGatewayId(n).value;
      ParseAfterZeros(ID_WIDTH - |encoded|, n);
      assert id[1..] == ZeroPad(encoded, ID_WIDTH);
      DigitsReadable(n);
    }
  }
}
