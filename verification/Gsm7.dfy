/**
  The GSM 7-bit default alphabet with its extension table, and the packing of septets into
  octets (sections 6.2.1 and 6.1.2.1 of 3GPP TS 23.038). Text is a sequence of characters.
 */
module Gsm7 {
  import opened Collections
  import opened Wrappers

  // ----- alphabet

  const ROW0 := "@\U{A3}$\U{A5}\U{E8}\U{E9}\U{F9}\U{EC}\U{F2}\U{C7}\n\U{D8}\U{F8}\r\U{C5}\U{E5}"
  const ROW1 := "\U{394}_\U{3A6}\U{393}\U{39B}\U{3A9}\U{3A0}\U{3A8}\U{3A3}\U{398}\U{39E}\0\U{C6}\U{E6}\U{DF}\U{C9}"
  const ROW2 := " !\"#\U{A4}%&'()*+,-./"
  const ROW3 := "0123456789:;<=>?"
  const ROW4 := "\U{A1}ABCDEFGHIJKLMNO"
  const ROW5 := "PQRSTUVWXYZ\U{C4}\U{D6}\U{D1}\U{DC}\U{A7}"
  const ROW6 := "\U{BF}abcdefghijklmno"
  const ROW7 := "pqrstuvwxyz\U{E4}\U{F6}\U{F1}\U{FC}\U{E0}"

  const DEFAULT_RUNES: string := ROW0 + ROW1 + ROW2 + ROW3 + ROW4 + ROW5 + ROW6 + ROW7

  const ESCAPE: bv8 := 0x1B

  function ExtRune(code: bv8): Option<char> {
    if code == 0x0A then Some('\U{0C}')
    else if code == 0x14 then Some('^')
    else if code == 0x28 then Some('{')
    else if code == 0x29 then Some('}')
    else if code == 0x2F then Some('\\')
    else if code == 0x3C then Some('[')
    else if code == 0x3D then Some('~')
    else if code == 0x3E then Some(']')
    else if code == 0x40 then Some('|')
    else if code == 0x65 then Some('\U{20AC}')
    else None
  }

  function ExtCode(r: char): Option<bv8> {
    if r == '\U{0C}' then Some(0x0A)
    else if r == '^' then Some(0x14)
    else if r == '{' then Some(0x28)
    else if r == '}' then Some(0x29)
    else if r == '\\' then Some(0x2F)
    else if r == '[' then Some(0x3C)
    else if r == '~' then Some(0x3D)
    else if r == ']' then Some(0x3E)
    else if r == '|' then Some(0x40)
    else if r == '\U{20AC}' then Some(0x65)
    else None
  }

  /** Last position of r among the first n runes of a table, or -1. */
  function LastPosition(table: string, r: char, n: nat): (i: int)
    requires n <= |table|
    ensures -1 <= i < n
    ensures i >= 0 ==> table[i] == r
    ensures forall k :: i < k < n ==> table[k] != r
  {
    if n == 0 then -1 else if table[n - 1] == r then n - 1 else LastPosition(table, r, n - 1)
  }

  /** A letter or digit without accent. */
  predicate Plain(p: int) {
    'A' as int <= p <= 'Z' as int || 'a' as int <= p <= 'z' as int || '0' as int <= p <= '9' as int
  }

  /**
    What the packing relies on: where '@', '?' and the escape stand, and that no extension rune is listed. Letters and
    digits stand where they do in ASCII.
   */
  ghost predicate EntryGood(p: int, r: char) {
    && (p == 0 <==> r == '@') && (p == 0x3F <==> r == '?') && (p == 0x1B ==> r == '\0') && ExtCode(r).None?
    && (Plain(p) || Plain(r as int) ==> p == r as int)
  }

  ghost predicate Good(table: string) {
    |table| == 128 && forall p :: 0 <= p < 128 ==> EntryGood(p, table[p])
  }

  type Alphabet = t: string | |t| == 128 witness seq(128, _ => '\0')

  /** The code start-up assigns to a rune: its position in the table; NUL marks an unused position. */
  function DefaultCode(t: Alphabet, r: char): (c: Option<bv8>)
    ensures c.Some? ==> c.value < 128
  {
    var i := LastPosition(t, r, 128);
    if r == '\0' || i < 0 then None else Some(i as bv8)
  }

  /** A code below 128 names the rune at its position, unless that is unused. */
  function DefaultRune(t: Alphabet, code: bv8): Option<char>
    requires code < 128
  {
    var r := t[code as int];
    if r == '\0' then None else Some(r)
  }

  predicate InAlphabet(t: Alphabet, r: char) {
    DefaultCode(t, r).Some? || ExtCode(r).Some?
  }

  ghost predicate RowGood(row: string, k: int) {
    |row| == 16 && forall i :: 0 <= i < 16 ==> EntryGood(16 * k + i, row[i])
  }

  lemma Row0Good()
    ensures RowGood(ROW0, 0)
  {
  }

  lemma Row1Good()
    ensures RowGood(ROW1, 1)
  {
  }

  lemma Row2Good()
    ensures RowGood(ROW2, 2)
  {
  }

  lemma Row3Good()
    ensures RowGood(ROW3, 3)
  {
  }

  lemma Row4Good()
    ensures RowGood(ROW4, 4)
  {
  }

  lemma Row5Good()
    ensures RowGood(ROW5, 5)
  {
  }

  lemma Row6Good()
    ensures RowGood(ROW6, 6)
  {
  }

  lemma Row7Good()
    ensures RowGood(ROW7, 7)
  {
  }

  lemma RowsJoin(a: string, b: string, n: nat)
    requires |a| == 16 * n && (forall p :: 0 <= p < |a| ==> EntryGood(p, a[p])) && RowGood(b, n)
    ensures |a + b| == 16 * (n + 1) && forall p :: 0 <= p < |a + b| ==> EntryGood(p, (a + b)[p])
  {
    forall p | 0 <= p < |a + b|
      ensures EntryGood(p, (a + b)[p])
    {
      if p >= |a| { assert EntryGood(16 * n + (p - |a|), b[p - |a|]); }
    }
  }

  lemma RowsMakeTable(r0: string, r1: string, r2: string, r3: string, r4: string, r5: string, r6: string, r7: string)
    requires RowGood(r0, 0) && RowGood(r1, 1) && RowGood(r2, 2) && RowGood(r3, 3)
    requires RowGood(r4, 4) && RowGood(r5, 5) && RowGood(r6, 6) && RowGood(r7, 7)
    ensures Good(r0 + r1 + r2 + r3 + r4 + r5 + r6 + r7)
  {
    RowsJoin([], r0, 0);
    assert [] + r0 == r0;
    RowsJoin(r0, r1, 1);
    RowsJoin(r0 + r1, r2, 2);
    RowsJoin(r0 + r1 + r2, r3, 3);
    RowsJoin(r0 + r1 + r2 + r3, r4, 4);
    RowsJoin(r0 + r1 + r2 + r3 + r4, r5, 5);
    RowsJoin(r0 + r1 + r2 + r3 + r4 + r5, r6, 6);
    RowsJoin(r0 + r1 + r2 + r3 + r4 + r5 + r6, r7, 7);
  }

  /** The table of the source meets those needs. */
  lemma DefaultTableGood()
    ensures Good(DEFAULT_RUNES)
  {
    Row0Good();
    Row1Good();
    Row2Good();
    Row3Good();
    Row4Good();
    Row5Good();
    Row6Good();
    Row7Good();
    RowsMakeTable(ROW0, ROW1, ROW2, ROW3, ROW4, ROW5, ROW6, ROW7);
  }

  lemma ExtensionInverts(r: char)
    ensures ExtCode(r).Some? ==> ExtRune(ExtCode(r).value) == Some(r) && ExtCode(r).value < 128 && ExtCode(r).value != 0
  {
  }

  lemma QuestionMark(t: Alphabet)
    requires Good(t)
    ensures DefaultCode(t, '?') == Some(0x3F)
  {
    assert EntryGood(0x3F, t[0x3F]);
    var q := LastPosition(t, '?', 128);
    assert q >= 0 ==> EntryGood(q, t[q]);
  }

  lemma DefaultInverts(t: Alphabet, r: char)
    requires Good(t) && DefaultCode(t, r).Some?
    ensures DefaultRune(t, DefaultCode(t, r).value) == Some(r) && DefaultCode(t, r).value != ESCAPE
    ensures ExtCode(r).None? && (DefaultCode(t, r).value == 0 <==> r == '@')
  {
    var i := LastPosition(t, r, 128);
    assert EntryGood(i, t[i]);
    assert (i as bv8) as int == i;
  }

  /** Letters and digits are sent as their ASCII codes. */
  lemma PlainIsAscii(r: char)
    requires Plain(r as int)
    ensures Septets(DEFAULT_RUNES, [r]) == [r as bv8]
  {
    DefaultTableGood();
    assert EntryGood(r as int, DEFAULT_RUNES[r as int]);
    var i := LastPosition(DEFAULT_RUNES, r, 128);
    assert EntryGood(i, DEFAULT_RUNES[i]);
    SeptetsOne(DEFAULT_RUNES, r);
  }

  lemma AtSign(t: Alphabet)
    requires Good(t)
    ensures DefaultCode(t, '@').Some?
  {
    assert EntryGood(0, t[0]);
  }

  lemma CodesInvert(t: Alphabet, r: char)
    requires Good(t)
    ensures DefaultCode(t, r).Some? ==>
              DefaultRune(t, DefaultCode(t, r).value) == Some(r) && DefaultCode(t, r).value != ESCAPE
    ensures ExtCode(r).Some? ==> ExtRune(ExtCode(r).value) == Some(r) && ExtCode(r).value < 128 && ExtCode(r).value != 0
    ensures ExtCode(r).Some? ==> DefaultCode(t, r).None?
    ensures DefaultCode(t, r) == Some(0) <==> r == '@'
    ensures DefaultCode(t, '?') == Some(0x3F)
  {
    ExtensionInverts(r);
    QuestionMark(t);
    AtSign(t);
    if DefaultCode(t, r).Some? { DefaultInverts(t, r); }
  }

  // ----- text to septets and back

  /** The septets of one rune; a rune outside the alphabet is sent as a question mark. */
  function RuneSeptets(t: Alphabet, r: char): (s: seq<bv8>)
    ensures 1 <= |s| <= 2
  {
    if DefaultCode(t, r).Some? then [DefaultCode(t, r).value]
    else if ExtCode(r).Some? then [ESCAPE, ExtCode(r).value]
    else [0x3F]
  }

  /** What each rune gives, end to end. */
  function Each<T>(f: char -> seq<T>, text: string): seq<T> {
    if text == [] then [] else f(text[0]) + Each(f, text[1..])
  }

  lemma {:induction false} EachAppend<T>(f: char -> seq<T>, a: string, b: string)
    ensures Each(f, a + b) == Each(f, a) + Each(f, b)
  {
    if a == [] { assert a + b == b; }
    else {
      var rest := a[1..];
      EachAppend(f, rest, b);
      assert Each(f, a + b) == f(a[0]) + Each(f, rest + b) by { assert (a + b)[1..] == rest + b; }
      Regroup(f(a[0]), Each(f, rest), Each(f, b));
    }
  }

  function Septets(t: Alphabet, text: string): seq<bv8> {
    Each(r => RuneSeptets(t, r), text)
  }

  lemma SeptetsFirst(t: Alphabet, text: string)
    requires text != []
    ensures Septets(t, text) == RuneSeptets(t, text[0]) + Septets(t, text[1..])
  {
  }

  lemma SeptetsOne(t: Alphabet, r: char)
    ensures Septets(t, [r]) == RuneSeptets(t, r)
  {
    SeptetsFirst(t, [r]);
    assert [r][1..] == [];
  }

  function Substitute(t: Alphabet, text: string): (u: string)
    ensures |u| == |text|
  {
    seq(|text|, i requires 0 <= i < |text| => if InAlphabet(t, text[i]) then text[i] else '?')
  }

  /** An escape takes the next septet with it; unused positions and unknown extensions vanish. */
  function Runes(t: Alphabet, septets: seq<bv8>): string
    requires forall i :: 0 <= i < |septets| ==> septets[i] < 128
  {
    if septets == [] then []
    else if septets[0] == ESCAPE && |septets| > 1 then
      (if ExtRune(septets[1]).Some? then [ExtRune(septets[1]).value] else []) + Runes(t, septets[2..])
    else
      (if DefaultRune(t, septets[0]).Some? then [DefaultRune(t, septets[0]).value] else []) + Runes(t, septets[1..])
  }

  lemma {:induction false} SeptetsSmall(t: Alphabet, text: string)
    requires Good(t)
    ensures forall i :: 0 <= i < |Septets(t, text)| ==> Septets(t, text)[i] < 128
  {
    if text != [] {
      SeptetsFirst(t, text);
      SeptetsSmall(t, text[1..]);
      CodesInvert(t, text[0]);
    }
  }

  lemma {:induction false} RunesOfSeptets(t: Alphabet, text: string)
    requires Good(t)
    ensures forall i :: 0 <= i < |Septets(t, text)| ==> Septets(t, text)[i] < 128
    ensures Runes(t, Septets(t, text)) == Substitute(t, text)
  {
    SeptetsSmall(t, text);
    if text != [] {
      RunesOfSeptets(t, text[1..]);
      SeptetsFirst(t, text);
      CodesInvert(t, text[0]);
      var rest := Septets(t, text[1..]);
      if DefaultCode(t, text[0]).None? && ExtCode(text[0]).Some? {
        assert Septets(t, text)[2..] == rest;
      } else {
        assert Septets(t, text)[1..] == rest;
      }
      assert Substitute(t, text) == Substitute(t, text[..1]) + Substitute(t, text[1..]);
    }
  }

  // ----- septets to octets and back

  function Shl(x: bv8, k: nat): bv8
    requires k < 8
  {
    if k == 0 then x else if k == 1 then x << 1 else if k == 2 then x << 2 else if k == 3 then x << 3
    else if k == 4 then x << 4 else if k == 5 then x << 5 else if k == 6 then x << 6 else x << 7
  }

  function Shr(x: bv8, k: nat): bv8
    requires k < 8
  {
    if k == 0 then x else if k == 1 then x >> 1 else if k == 2 then x >> 2 else if k == 3 then x >> 3
    else if k == 4 then x >> 4 else if k == 5 then x >> 5 else if k == 6 then x >> 6 else x >> 7
  }

  /** Octet j starts inside septet 8j/7, r bits into it, and ends inside the next one. */
  function Straddle(a: bv8, b: bv8, r: nat): bv8
    requires r < 7
  {
    Shr(a, r) | Shl(b, 7 - r)
  }

  function SeptetOr0(septets: seq<bv8>, k: nat): bv8 {
    if k < |septets| then septets[k] else 0
  }

  function PackedOctet(septets: seq<bv8>, j: nat): bv8 {
    Straddle(SeptetOr0(septets, 8 * j / 7), SeptetOr0(septets, 8 * j / 7 + 1), 8 * j % 7)
  }

  function PackedLength(n: nat): nat {
    (n * 7 + 7) / 8
  }

  function Pack(septets: seq<bv8>): seq<bv8> {
    seq(PackedLength(|septets|), j requires 0 <= j => PackedOctet(septets, j))
  }

  /** Seven bits from octet b on; the next octet counts only when they reach into it. */
  function SevenBits(body: seq<bv8>, b: nat, shift: nat): bv8
    requires b < |body| && shift < 8
  {
    var value := Shr(body[b], shift) & 0x7F;
    if shift > 1 && b + 1 < |body| then value | (Shl(body[b + 1], 8 - shift) & 0x7F) else value
  }

  /** The septet at bit 7i. */
  function UnpackedSeptet(body: seq<bv8>, i: nat): bv8
    requires 7 * i / 8 < |body|
  {
    SevenBits(body, 7 * i / 8, 7 * i % 8)
  }

  lemma UnpackInRange(n: nat, i: nat)
    requires i < n * 8 / 7
    ensures 7 * i / 8 < n
  {
  }

  function Unpack(body: seq<bv8>): seq<bv8> {
    seq(|body| * 8 / 7, i requires 0 <= i < |body| * 8 / 7 => UnpackInRange(|body|, i); UnpackedSeptet(body, i))
  }

  /** A padding septet looks like '@'; a zero at the end of a whole number of 7-octet groups is taken for it. */
  function DropPadding(body: seq<bv8>, septets: seq<bv8>): seq<bv8> {
    if |body| % 7 == 0 && septets != [] && septets[|septets| - 1] == 0 then septets[..|septets| - 1] else septets
  }

  lemma UnpackSmall(body: seq<bv8>)
    ensures forall i :: 0 <= i < |Unpack(body)| ==> Unpack(body)[i] < 128
  {
  }

  function EncodePacked(t: Alphabet, text: string): seq<bv8> {
    Pack(Septets(t, text))
  }

  function DecodePacked(t: Alphabet, body: seq<bv8>): string {
    UnpackSmall(body);
    Runes(t, DropPadding(body, Unpack(body)))
  }

  // where octets and septets meet: septet 8q+k and octet 7q+k
  lemma OctetPlace(q: nat, k: nat)
    requires k < 7
    ensures 8 * (7 * q + k) / 7 == 8 * q + k && 8 * (7 * q + k) % 7 == k
  {
    assert 8 * (7 * q + k) == 7 * (8 * q + k) + k;
  }

  lemma SeptetPlace(q: nat, k: nat)
    requires k < 8
    ensures k == 0 ==> 7 * (8 * q + k) / 8 == 7 * q && 7 * (8 * q + k) % 8 == 0
    ensures k > 0 ==> 7 * (8 * q + k) / 8 == 7 * q + k - 1 && 7 * (8 * q + k) % 8 == 8 - k
  {
    if k > 0 { assert 7 * (8 * q + k) == 8 * (7 * q + k - 1) + (8 - k); }
  }

  lemma PackedPlace(n: nat, q: nat, k: nat)
    requires k < 8 && n == 8 * q + k
    ensures PackedLength(n) == 7 * q + k
  {
  }

  // The two octets a septet was spread over give it back, at each of the eight alignments:
  // septet b, with a before it and c after it.

  lemma Survives0(b: bv8, c: bv8)
    requires b < 128
    ensures Shr(Straddle(b, c, 0), 0) & 0x7F == b
  {
  }

  lemma Survives7(a: bv8, b: bv8)
    requires a < 128 && b < 128
    ensures Shr(Straddle(a, b, 6), 1) & 0x7F == b
  {
  }

  lemma Survives1(a: bv8, b: bv8, c: bv8)
    requires a < 128 && b < 128
    ensures (Shr(Straddle(a, b, 0), 7) & 0x7F) | (Shl(Straddle(b, c, 1), 1) & 0x7F) == b
  {
  }

  lemma Survives2(a: bv8, b: bv8, c: bv8)
    requires a < 128 && b < 128
    ensures (Shr(Straddle(a, b, 1), 6) & 0x7F) | (Shl(Straddle(b, c, 2), 2) & 0x7F) == b
  {
  }

  lemma Survives3(a: bv8, b: bv8, c: bv8)
    requires a < 128 && b < 128
    ensures (Shr(Straddle(a, b, 2), 5) & 0x7F) | (Shl(Straddle(b, c, 3), 3) & 0x7F) == b
  {
  }

  lemma Survives4(a: bv8, b: bv8, c: bv8)
    requires a < 128 && b < 128
    ensures (Shr(Straddle(a, b, 3), 4) & 0x7F) | (Shl(Straddle(b, c, 4), 4) & 0x7F) == b
  {
  }

  lemma Survives5(a: bv8, b: bv8, c: bv8)
    requires a < 128 && b < 128
    ensures (Shr(Straddle(a, b, 4), 3) & 0x7F) | (Shl(Straddle(b, c, 5), 5) & 0x7F) == b
  {
  }

  lemma Survives6(a: bv8, b: bv8, c: bv8)
    requires a < 128 && b < 128
    ensures (Shr(Straddle(a, b, 5), 2) & 0x7F) | (Shl(Straddle(b, c, 6), 6) & 0x7F) == b
  {
  }

  lemma Survives(a: bv8, b: bv8, c: bv8, k: nat)
    requires a < 128 && b < 128 && 0 < k < 7
    ensures (Shr(Straddle(a, b, k - 1), 8 - k) & 0x7F) | (Shl(Straddle(b, c, k), k) & 0x7F) == b
  {
    if k == 1 { Survives1(a, b, c); }
    else if k == 2 { Survives2(a, b, c); }
    else if k == 3 { Survives3(a, b, c); }
    else if k == 4 { Survives4(a, b, c); }
    else if k == 5 { Survives5(a, b, c); }
    else { Survives6(a, b, c); }
  }

  lemma OctetAt(s: seq<bv8>, q: nat, k: nat)
    requires k < 7 && 7 * q + k < |Pack(s)|
    ensures Pack(s)[7 * q + k] == Straddle(SeptetOr0(s, 8 * q + k), SeptetOr0(s, 8 * q + k + 1), k)
  {
    OctetPlace(q, k);
  }

  lemma PackedReaches(n: nat, q: nat, k: nat)
    requires k < 8 && 8 * q + k < n
    ensures 7 * q < PackedLength(n) && (k > 0 ==> 7 * q + k - 1 < PackedLength(n))
            && (k < 7 ==> 7 * q + k < PackedLength(n))
  {
  }

  lemma FirstOfGroup(s: seq<bv8>, q: nat)
    requires 8 * q < |s| && s[8 * q] < 128
    ensures 7 * q < |Pack(s)| && SevenBits(Pack(s), 7 * q, 0) == s[8 * q]
  {
    PackedReaches(|s|, q, 0);
    OctetAt(s, q, 0);
    Survives0(s[8 * q], SeptetOr0(s, 8 * q + 1));
  }

  lemma FromStraddles(body: seq<bv8>, at: nat, a: bv8, b: bv8, c: bv8, k: nat)
    requires 0 < k < 7 && at + 1 < |body| && a < 128 && b < 128
    requires body[at] == Straddle(a, b, k - 1) && body[at + 1] == Straddle(b, c, k)
    ensures SevenBits(body, at, 8 - k) == b
  {
    Survives(a, b, c, k);
  }

  lemma LaterInGroup(s: seq<bv8>, q: nat, k: nat)
    requires 0 < k < 8 && 8 * q + k < |s| && s[8 * q + k - 1] < 128 && s[8 * q + k] < 128
    ensures 7 * q + k - 1 < |Pack(s)| && SevenBits(Pack(s), 7 * q + k - 1, 8 - k) == s[8 * q + k]
  {
    var a, b := s[8 * q + k - 1], s[8 * q + k];
    PackedReaches(|s|, q, k);
    OctetAt(s, q, k - 1);
    if k == 7 { Survives7(a, b); }
    else {
      OctetAt(s, q, k);
      FromStraddles(Pack(s), 7 * q + k - 1, a, b, SeptetOr0(s, 8 * q + k + 1), k);
    }
  }

  lemma UnpackedAt(body: seq<bv8>, i: nat, b: nat, shift: nat)
    requires b == 7 * i / 8 < |body| && shift == 7 * i % 8
    ensures UnpackedSeptet(body, i) == SevenBits(body, b, shift)
  {
  }

  lemma SeptetComesBackAt(s: seq<bv8>, q: nat, k: nat, i: nat)
    requires k < 8 && i == 8 * q + k < |s| && forall j :: 0 <= j < |s| ==> s[j] < 128
    ensures 7 * i / 8 < |Pack(s)| && UnpackedSeptet(Pack(s), i) == s[i]
  {
    SeptetPlace(q, k);
    if k == 0 {
      FirstOfGroup(s, q);
      UnpackedAt(Pack(s), i, 7 * q, 0);
    } else {
      LaterInGroup(s, q, k);
      UnpackedAt(Pack(s), i, 7 * q + k - 1, 8 - k);
    }
  }

  lemma SeptetComesBack(s: seq<bv8>, i: nat)
    requires i < |s| && forall k :: 0 <= k < |s| ==> s[k] < 128
    ensures 7 * i / 8 < |Pack(s)| && UnpackedSeptet(Pack(s), i) == s[i]
  {
    SeptetComesBackAt(s, i / 8, i % 8, i);
  }

  lemma UnpackedLength(n: nat)
    ensures PackedLength(n) * 8 / 7 == if n % 8 == 7 then n + 1 else n
    ensures PackedLength(n) % 7 == 0 <==> n % 8 == 0 || n % 8 == 7
  {
    PackedPlace(n, n / 8, n % 8);
  }

  lemma PaddingIsZero(s: seq<bv8>)
    requires |s| % 8 == 7 && forall k :: 0 <= k < |s| ==> s[k] < 128
    ensures |Unpack(Pack(s))| == |s| + 1 && Unpack(Pack(s))[|s|] == 0
  {
    var q, a := |s| / 8, s[|s| - 1];
    UnpackedLength(|s|);
    SeptetPlace(q, 7);
    PackedReaches(|s|, q, 6);
    OctetAt(s, q, 6);
    Survives7(a, 0);
    assert SevenBits(Pack(s), 7 * q + 6, 1) == 0;
  }

  /** Unpacking gives the septets back; the padding rule costs exactly a zero in the last place of a full group. */
  lemma UnpackPack(s: seq<bv8>)
    requires forall k :: 0 <= k < |s| ==> s[k] < 128
    ensures DropPadding(Pack(s), Unpack(Pack(s)))
         == if s != [] && |s| % 8 == 0 && s[|s| - 1] == 0 then s[..|s| - 1] else s
  {
    var u := Unpack(Pack(s));
    UnpackedLength(|s|);
    forall i | 0 <= i < |s|
      ensures u[i] == s[i]
    {
      SeptetComesBack(s, i);
    }
    if |s| % 8 == 7 {
      PaddingIsZero(s);
      assert u[..|s|] == s;
    } else {
      assert u == s;
    }
  }

  // ----- the round trip

  lemma SeptetsAppend(t: Alphabet, a: string, b: string)
    ensures Septets(t, a + b) == Septets(t, a) + Septets(t, b)
  {
    EachAppend(r => RuneSeptets(t, r), a, b);
  }

  /** The text fills its last group of eight septets and ends in '@'. */
  predicate EndsLikePadding(t: Alphabet, text: string) {
    text != [] && text[|text| - 1] == '@' && |Septets(t, text)| % 8 == 0
  }

  lemma LastSeptet(t: Alphabet, text: string)
    requires Good(t) && text != []
    ensures var s := Septets(t, text); s != [] && (s[|s| - 1] == 0 <==> text[|text| - 1] == '@')
    ensures text[|text| - 1] == '@' ==> Septets(t, text)[..|Septets(t, text)| - 1] == Septets(t, text[..|text| - 1])
  {
    var m := |text| - 1;
    assert text == text[..m] + [text[m]];
    SeptetsAppend(t, text[..m], [text[m]]);
    SeptetsOne(t, text[m]);
    CodesInvert(t, text[m]);
  }

  /** Decoding inverts encoding on every text, up to '?' for foreign runes, except that one final '@' is lost. */
  lemma PackedRoundTrip(t: Alphabet, text: string)
    requires Good(t)
    ensures DecodePacked(t, EncodePacked(t, text))
         == if EndsLikePadding(t, text) then Substitute(t, text)[..|text| - 1] else Substitute(t, text)
  {
    var s := Septets(t, text);
    SeptetsSmall(t, text);
    UnpackPack(s);
    RunesOfSeptets(t, text);
    if text != [] {
      LastSeptet(t, text);
      if EndsLikePadding(t, text) {
        RunesOfSeptets(t, text[..|text| - 1]);
        assert Substitute(t, text[..|text| - 1]) == Substitute(t, text)[..|text| - 1];
      }
    }
  }

  /** So on the alphabet of the source the text comes back, exactly when that last '@' is not in the way. */
  lemma AlphabetRoundTrip(text: string)
    requires forall i :: 0 <= i < |text| ==> InAlphabet(DEFAULT_RUNES, text[i])
    ensures DecodePacked(DEFAULT_RUNES, EncodePacked(DEFAULT_RUNES, text)) == text
            <==> !EndsLikePadding(DEFAULT_RUNES, text)
    ensures EndsLikePadding(DEFAULT_RUNES, text) ==>
              DecodePacked(DEFAULT_RUNES, EncodePacked(DEFAULT_RUNES, text)) == text[..|text| - 1]
  {
    DefaultTableGood();
    PackedRoundTrip(DEFAULT_RUNES, text);
    assert Substitute(DEFAULT_RUNES, text) == text;
  }

  lemma {:induction false} AtsCount(t: Alphabet, text: string)
    requires Good(t) && forall i :: 0 <= i < |text| ==> text[i] == '@'
    ensures |Septets(t, text)| == |text|
  {
    if text != [] {
      SeptetsFirst(t, text);
      CodesInvert(t, '@');
      AtsCount(t, text[1..]);
    }
  }

  /** And it does get in the way: eight '@' come back as seven. */
  lemma LastAtLost()
    ensures EndsLikePadding(DEFAULT_RUNES, "@@@@@@@@")
    ensures DecodePacked(DEFAULT_RUNES, EncodePacked(DEFAULT_RUNES, "@@@@@@@@")) == "@@@@@@@"
  {
    DefaultTableGood();
    var text := "@@@@@@@@";
    forall i | 0 <= i < |text| ensures text[i] == '@' {}
    AtsCount(DEFAULT_RUNES, text);
    CodesInvert(DEFAULT_RUNES, '@');
    AlphabetRoundTrip(text);
    assert text[..7] == "@@@@@@@";
  }

  // ----- the loops

  method ToSeptets(t: Alphabet, text: string) returns (septets: seq<bv8>)
    ensures septets == Septets(t, text)
  {
    septets := [];
    for i := 0 to |text|
      invariant septets == Septets(t, text[..i])
    {
      var r := text[i];
      assert text[..i + 1] == text[..i] + [r];
      SeptetsAppend(t, text[..i], [r]);
      SeptetsOne(t, r);
      if DefaultCode(t, r).Some? { septets := septets + [DefaultCode(t, r).value]; }
      else if ExtCode(r).Some? { septets := septets + [ESCAPE, ExtCode(r).value]; }
      else { septets := septets + [0x3F]; }
    }
    assert text[..|text|] == text;
  }

  ghost predicate PackedSoFar(out: seq<bv8>, septets: seq<bv8>, i: nat) {
    i <= |septets| && |out| == PackedLength(|septets|)
    && forall j :: 0 <= j < |out| ==> out[j] == PackedOctet(septets[..i], j)
  }

  method EncodeGsm7Packed(t: Alphabet, text: string) returns (r: seq<bv8>)
    ensures r == EncodePacked(t, text)
  {
    var septets := ToSeptets(t, text);
    r := PackSeptets(septets);
  }

  method PackSeptets(septets: seq<bv8>) returns (r: seq<bv8>)
    ensures r == Pack(septets)
  {
    var out := new bv8[PackedLength(|septets|)](_ => 0);
    NothingPackedYet(out[..], septets);
    for i := 0 to |septets|
      invariant PackedSoFar(out[..], septets, i)
    {
      SeptetFits(|septets|, i);
      ghost var before := out[..];
      OrSeptet(out, septets[i], i);
      OneSeptetMore(before, out[..], septets, i);
    }
    assert septets[..|septets|] == septets;
    r := out[..];
    assert r == Pack(septets);
  }

  lemma SeptetFits(n: nat, i: nat)
    requires i < n
    ensures 7 * i / 8 < PackedLength(n)
  {
    PackedReaches(n, i / 8, i % 8);
    SeptetPlace(i / 8, i % 8);
  }

  method OrSeptet(out: array<bv8>, s: bv8, i: nat)
    requires 7 * i / 8 < out.Length
    modifies out
    ensures out[..] == WithSeptet(old(out[..]), s, i)
  {
    var b, shift := 7 * i / 8, 7 * i % 8;
    out[b] := out[b] | Shl(s, shift);
    if shift > 1 && b + 1 < out.Length {
      out[b + 1] := out[b + 1] | Shr(s, 8 - shift);
    }
  }

  lemma NothingPackedYet(out: seq<bv8>, septets: seq<bv8>)
    requires |out| == PackedLength(|septets|) && forall j :: 0 <= j < |out| ==> out[j] == 0
    ensures PackedSoFar(out, septets, 0)
  {
    forall j | 0 <= j < |out|
      ensures PackedOctet(septets[..0], j) == 0
    {
      NothingPacked(8 * j % 7);
    }
  }

  lemma NothingPacked(r: nat)
    requires r < 7
    ensures Straddle(0, 0, r) == 0
  {
  }

  /** OR-ing a septet into the two octets it touches. */
  function WithSeptet(out: seq<bv8>, s: bv8, i: nat): seq<bv8>
    requires 7 * i / 8 < |out|
  {
    var b, shift := 7 * i / 8, 7 * i % 8;
    var out1 := out[b := out[b] | Shl(s, shift)];
    if shift > 1 && b + 1 < |out| then out1[b + 1 := out1[b + 1] | Shr(s, 8 - shift)] else out1
  }

  lemma OneSeptetMore(before: seq<bv8>, after: seq<bv8>, septets: seq<bv8>, i: nat)
    requires PackedSoFar(before, septets, i) && i < |septets|
    requires 7 * i / 8 < |before| && after == WithSeptet(before, septets[i], i)
    ensures PackedSoFar(after, septets, i + 1)
  {
    forall j | 0 <= j < |after|
      ensures after[j] == PackedOctet(septets[..i + 1], j)
    {
      OctetStep(septets, i, j);
    }
  }

  /** What septet i adds to octet j. */
  lemma OctetStep(septets: seq<bv8>, i: nat, j: nat)
    requires i < |septets|
    ensures var b, shift := 7 * i / 8, 7 * i % 8;
            PackedOctet(septets[..i + 1], j)
            == if j == b then PackedOctet(septets[..i], j) | Shl(septets[i], shift)
               else if j == b + 1 && shift > 1 then PackedOctet(septets[..i], j) | Shr(septets[i], 8 - shift)
               else PackedOctet(septets[..i], j)
  {
    var q, k, p, m := i / 8, i % 8, j / 7, j % 7;
    SeptetPlace(q, k);
    OctetPlace(p, m);
    var a := 8 * p + m;
    var x, y := SeptetOr0(septets[..i], a), SeptetOr0(septets[..i], a + 1);
    if a == i {
      assert x == 0 && y == 0 && m == k && p == q;
      FillFirst(septets[i], m);
    } else if a + 1 == i {
      assert y == 0 && k == m + 1 && p == q;
      FillSecond(x, septets[i], m);
    }
  }

  lemma FillFirst(s: bv8, r: nat)
    requires r < 7
    ensures Straddle(s, 0, r) == Straddle(0, 0, r) | Shr(s, r) && Shr(s, 0) == Shl(s, 0)
  {
  }

  lemma FillSecond(a: bv8, s: bv8, r: nat)
    requires r < 7
    ensures Straddle(a, s, r) == Straddle(a, 0, r) | Shl(s, 7 - r)
  {
  }

  method DecodeGsm7Packed(t: Alphabet, body: seq<bv8>) returns (text: string)
    ensures text == DecodePacked(t, body)
  {
    UnpackSmall(body);
    if body == [] {
      assert Unpack(body) == [];
      return "";
    }
    var septets := UnpackOctets(body);
    if |body| % 7 == 0 && |septets| > 0 && septets[|septets| - 1] == 0 {
      septets := septets[..|septets| - 1];
    }
    text := ToRunes(t, septets);
  }

  method UnpackOctets(body: seq<bv8>) returns (septets: seq<bv8>)
    ensures septets == Unpack(body)
  {
    septets := [];
    for i := 0 to |body| * 8 / 7
      invariant |septets| == i && septets == Unpack(body)[..i]
    {
      UnpackInRange(|body|, i);
      var value := ReadSeptet(body, i);
      septets := septets + [value];
    }
  }

  method ReadSeptet(body: seq<bv8>, i: nat) returns (value: bv8)
    requires 7 * i / 8 < |body|
    ensures value == UnpackedSeptet(body, i)
  {
    var b, shift := 7 * i / 8, 7 * i % 8;
    value := Shr(body[b], shift) & 0x7F;
    if shift > 1 && b + 1 < |body| {
      value := value | (Shl(body[b + 1], 8 - shift) & 0x7F);
    }
  }

  function Shown(r: Option<char>): string {
    if r.Some? then [r.value] else []
  }

  /** What one round of the rune loop reads, and where the next one starts. */
  function NextRune(t: Alphabet, septets: seq<bv8>, i: nat): (string, nat)
    requires i < |septets| && septets[i] < 128
  {
    if septets[i] == ESCAPE && i + 1 < |septets| then (Shown(ExtRune(septets[i + 1])), i + 2)
    else (Shown(DefaultRune(t, septets[i])), i + 1)
  }

  lemma RunesFrom(t: Alphabet, septets: seq<bv8>, i: nat)
    requires i < |septets| && forall k :: 0 <= k < |septets| ==> septets[k] < 128
    ensures var (shown, next) := NextRune(t, septets, i);
            next <= |septets| && Runes(t, septets[i..]) == shown + Runes(t, septets[next..])
  {
    var s := septets[i..];
    if i + 1 < |septets| { assert s[2..] == septets[i + 2..]; }
    assert s[1..] == septets[i + 1..];
  }

  method ToRunes(t: Alphabet, septets: seq<bv8>) returns (out: string)
    requires forall i :: 0 <= i < |septets| ==> septets[i] < 128
    ensures out == Runes(t, septets)
  {
    out := [];
    var i := 0;
    while i < |septets|
      invariant 0 <= i <= |septets|
      invariant out + Runes(t, septets[i..]) == Runes(t, septets)
    {
      RunesFrom(t, septets, i);
      ghost var (shown, next) := NextRune(t, septets, i);
      assert (out + shown) + Runes(t, septets[next..]) == out + (shown + Runes(t, septets[next..]));
      if septets[i] == ESCAPE && i + 1 < |septets| {
        i := i + 1;
        out := out + Shown(ExtRune(septets[i]));
      } else {
        out := out + Shown(DefaultRune(t, septets[i]));
      }
      i := i + 1;
    }
  }

  // ----- the order of the bits

  function BitMask(k: nat): bv8
    requires k < 8
  {
    Shl(1, k)
  }

  predicate BitOf(x: bv8, k: nat)
    requires k < 8
  {
    x & BitMask(k) != 0
  }

  lemma MaskOfOr(x: bv8, y: bv8, mask: bv8)
    ensures (x | y) & mask != 0 <==> x & mask != 0 || y & mask != 0
  {
  }

  lemma ShrBit(x: bv8, r: nat, k: nat)
    requires x < 128 && r < 7 && k < 8
    ensures BitOf(Shr(x, r), k) == (r + k < 7 && BitOf(x, r + k))
  {
    if r < 3 { ShrBitLow(x, r, k); } else { ShrBitHigh(x, r, k); }
  }

  lemma ShrBitLow(x: bv8, r: nat, k: nat)
    requires x < 128 && r < 3 && k < 8
    ensures BitOf(Shr(x, r), k) == (r + k < 7 && BitOf(x, r + k))
  {
  }

  lemma ShrBitHigh(x: bv8, r: nat, k: nat)
    requires x < 128 && 3 <= r < 7 && k < 8
    ensures BitOf(Shr(x, r), k) == (r + k < 7 && BitOf(x, r + k))
  {
  }

  lemma ShlBit(x: bv8, m: nat, k: nat)
    requires 1 <= m < 8 && k < 8
    ensures BitOf(Shl(x, m), k) == (k >= m && BitOf(x, k - m))
  {
    if m < 4 { ShlBitLow(x, m, k); } else { ShlBitHigh(x, m, k); }
  }

  lemma ShlBitLow(x: bv8, m: nat, k: nat)
    requires 1 <= m < 4 && k < 8
    ensures BitOf(Shl(x, m), k) == (k >= m && BitOf(x, k - m))
  {
  }

  lemma ShlBitHigh(x: bv8, m: nat, k: nat)
    requires 4 <= m < 8 && k < 8
    ensures BitOf(Shl(x, m), k) == (k >= m && BitOf(x, k - m))
  {
  }

  lemma StraddleBit(a: bv8, b: bv8, r: nat, k: nat)
    requires a < 128 && r < 7 && k < 8
    ensures BitOf(Straddle(a, b, r), k) == if r + k < 7 then BitOf(a, r + k) else BitOf(b, r + k - 7)
  {
    MaskOfOr(Shr(a, r), Shl(b, 7 - r), BitMask(k));
    ShrBit(a, r, k);
    ShlBit(b, 7 - r, k);
  }

  /** Where bit n lies, by octets and by septets. */
  lemma BitPlace(n: nat, length: nat, a: nat, r: nat)
    requires n < 7 * length && a == 8 * (n / 8) / 7 && r == 8 * (n / 8) % 7
    ensures n / 8 < PackedLength(length)
    ensures if r + n % 8 < 7 then n / 7 == a && n % 7 == r + n % 8 else n / 7 == a + 1 && n % 7 == r + n % 8 - 7
  {
    assert n == 7 * a + r + n % 8;
  }

  /** Bit n of the octets, counted from the lowest bit of the first, is bit n of the septets counted the same way. */
  lemma BitsInOrder(septets: seq<bv8>, n: nat)
    requires n < 7 * |septets| && forall i :: 0 <= i < |septets| ==> septets[i] < 128
    ensures n / 8 < |Pack(septets)| && BitOf(Pack(septets)[n / 8], n % 8) == BitOf(septets[n / 7], n % 7)
  {
    var j, k := n / 8, n % 8;
    var a, r := 8 * j / 7, 8 * j % 7;
    BitPlace(n, |septets|, a, r);
    SpreadBit(septets, j, k, a, r);
  }

  lemma SpreadBit(septets: seq<bv8>, j: nat, k: nat, a: nat, r: nat)
    requires a == 8 * j / 7 && r == 8 * j % 7 && k < 8 && j < PackedLength(|septets|)
    requires forall i :: 0 <= i < |septets| ==> septets[i] < 128
    ensures BitOf(Pack(septets)[j], k)
            == if r + k < 7 then BitOf(SeptetOr0(septets, a), r + k) else BitOf(SeptetOr0(septets, a + 1), r + k - 7)
  {
    StraddleBit(SeptetOr0(septets, a), SeptetOr0(septets, a + 1), r, k);
  }
}
