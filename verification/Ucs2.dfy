/**
  The UCS-2 data coding: UTF-16 code units in network byte order, with surrogate pairs
  (section 3 of RFC 2781).
 */
module Ucs2Text {
  import opened Octets
  import opened Wrappers

  const REPLACEMENT: char := '\U{FFFD}'

  predicate High(u: Word) { 0xD800 <= u < 0xDC00 }

  predicate Low(u: Word) { 0xDC00 <= u < 0xE000 }

  function RuneUnits(r: char): (u: seq<Word>)
    ensures 1 <= |u| <= 2
  {
    var n := r as int;
    if n < 0x10000 then [n] else [0xD800 + (n - 0x10000) / 0x400, 0xDC00 + (n - 0x10000) % 0x400]
  }

  function Units(text: string): seq<Word> {
    if text == [] then [] else RuneUnits(text[0]) + Units(text[1..])
  }

  function Paired(high: Word, low: Word): char
    requires High(high) && Low(low)
  {
    (0x10000 + (high - 0xD800) * 0x400 + (low - 0xDC00)) as char
  }

  function UnitRune(u: Word): char {
    if High(u) || Low(u) then REPLACEMENT else u as char
  }

  function Runes(units: seq<Word>): string {
    if units == [] then []
    else if |units| > 1 && High(units[0]) && Low(units[1]) then [Paired(units[0], units[1])] + Runes(units[2..])
    else [UnitRune(units[0])] + Runes(units[1..])
  }

  /** Every surrogate belongs to a pair. */
  predicate AllPaired(units: seq<Word>) {
    if units == [] then true
    else if |units| > 1 && High(units[0]) && Low(units[1]) then AllPaired(units[2..])
    else !High(units[0]) && !Low(units[0]) && AllPaired(units[1..])
  }

  lemma PairedUnits(r: char)
    requires r as int >= 0x10000
    ensures var u := RuneUnits(r); High(u[0]) && Low(u[1]) && Paired(u[0], u[1]) == r
  {
    var v := r as int - 0x10000;
    assert v / 0x400 * 0x400 + v % 0x400 == v;
  }

  /** A rune beyond the first plane is its twenty bits above that, ten in each unit, behind 110110 and 110111. */
  lemma SurrogateBits(r: char)
    requires r as int >= 0x10000
    ensures var u := RuneUnits(r);
            |u| == 2
            && var high: int, low: int := u[0], u[1];
               high / 0x400 == 0x36 && low / 0x400 == 0x37
               && 0x10000 + high % 0x400 * 0x400 + low % 0x400 == r as int
  {
    PairedUnits(r);
  }

  lemma UnitsPaired(high: Word, low: Word)
    requires High(high) && Low(low)
    ensures RuneUnits(Paired(high, low)) == [high, low]
  {
  }

  lemma {:induction false} RunesOfUnits(text: string)
    ensures Runes(Units(text)) == text && AllPaired(Units(text))
  {
    if text != [] {
      RunesOfUnits(text[1..]);
      var r, rest, u := text[0], Units(text[1..]), Units(text);
      if r as int >= 0x10000 {
        PairedUnits(r);
        assert u[2..] == rest;
      } else {
        assert u[1..] == rest && !High(u[0]) && !Low(u[0]);
      }
      assert text == [r] + text[1..];
    }
  }

  /** Decoding loses nothing exactly on unit sequences without a lone surrogate. */
  lemma {:induction false} UnitsOfRunes(units: seq<Word>)
    ensures Units(Runes(units)) == units <==> AllPaired(units)
  {
    var text := Runes(units);
    if units != [] {
      if |units| > 1 && High(units[0]) && Low(units[1]) {
        UnitsOfRunes(units[2..]);
        UnitsPaired(units[0], units[1]);
        assert text[1..] == Runes(units[2..]);
        assert units == [units[0], units[1]] + units[2..];
        assert Units(text) == [units[0], units[1]] + Units(text[1..]);
        assert Units(text)[2..] == Units(text[1..]);
      } else {
        UnitsOfRunes(units[1..]);
        assert text[1..] == Runes(units[1..]);
        assert units == [units[0]] + units[1..];
        assert Units(text) == RuneUnits(UnitRune(units[0])) + Units(text[1..]);
        assert Units(text)[1..] == Units(text[1..]);
      }
    }
  }

  // ----- octets

  function ToOctets(units: seq<Word>): (b: seq<Octet>)
    ensures |b| == 2 * |units|
  {
    if units == [] then [] else Big(units[0]) + ToOctets(units[1..])
  }

  function FromOctets(body: seq<Octet>): (u: seq<Word>)
    requires |body| % 2 == 0
    ensures |u| == |body| / 2
  {
    if body == [] then [] else [FromBig(body[0], body[1])] + FromOctets(body[2..])
  }

  lemma {:induction false} OctetsInvert(units: seq<Word>)
    ensures FromOctets(ToOctets(units)) == units
  {
    if units != [] {
      OctetsInvert(units[1..]);
      assert ToOctets(units)[2..] == ToOctets(units[1..]);
    }
  }

  function Encode(text: string): seq<Octet> {
    ToOctets(Units(text))
  }

  /** None: an odd number of octets, which the decoder hands over unread. */
  function Decode(body: seq<Octet>): Option<string> {
    if |body| % 2 != 0 then None else Some(Runes(FromOctets(body)))
  }

  lemma Ucs2RoundTrip(text: string)
    ensures Decode(Encode(text)) == Some(text)
  {
    OctetsInvert(Units(text));
    RunesOfUnits(text);
  }

  // ----- the loops

  lemma {:induction false} FromOctetsAt(body: seq<Octet>, i: nat)
    requires |body| % 2 == 0 && 2 * i < |body|
    ensures FromOctets(body)[i] == FromBig(body[2 * i], body[2 * i + 1])
  {
    if i > 0 { FromOctetsAt(body[2..], i - 1); }
  }

  lemma {:induction false} ToOctetsAt(units: seq<Word>, i: nat)
    requires i < |units|
    ensures ToOctets(units)[2 * i] == units[i] / 256 && ToOctets(units)[2 * i + 1] == units[i] % 256
  {
    if i > 0 {
      ToOctetsAt(units[1..], i - 1);
      assert ToOctets(units)[2 * i] == ToOctets(units[1..])[2 * (i - 1)];
      assert ToOctets(units)[2 * i + 1] == ToOctets(units[1..])[2 * (i - 1) + 1];
    }
  }

  method EncodeUcs2(text: string) returns (r: seq<Octet>)
    ensures r == Encode(text)
  {
    var units := Units(text);
    var out := new Octet[2 * |units|](_ => 0);
    for i := 0 to |units|
      invariant forall k :: 0 <= k < 2 * i ==> out[k] == ToOctets(units)[k]
    {
      ToOctetsAt(units, i);
      out[2 * i] := units[i] / 256;
      out[2 * i + 1] := units[i] % 256;
    }
    r := out[..];
  }

  method DecodeUcs2(body: seq<Octet>) returns (r: Option<string>)
    ensures r == Decode(body)
  {
    if |body| % 2 != 0 { return None; }
    var units := new Word[|body| / 2](_ => 0);
    for i := 0 to units.Length
      invariant forall k :: 0 <= k < i ==> units[k] == FromOctets(body)[k]
    {
      FromOctetsAt(body, i);
      units[i] := FromBig(body[2 * i], body[2 * i + 1]);
    }
    assert units[..] == FromOctets(body);
    r := Some(Runes(units[..]));
  }
}
