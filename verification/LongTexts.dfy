/**
  Long texts from end to end: split into segments, encoded, built into requests, parsed by the provider, read and
  joined again.
 */
module LongTexts {
  import opened Octets
  import opened Relay
  import opened Smpp
  import opened SmppClient
  import opened SmppFields
  import opened Wrappers
  import Gsm7
  import Segmentation
  import Ucs2Text

  // ----- what arrives

  /**
    What the provider makes of part number part of n: text and coding, and the numbers under the common reference, from
    parameters or from a header, whose reference has one octet.
   */
  ghost predicate Arrives(r: Result<SubmitSm>, coding: Octet, payload: seq<Octet>, bySar: bool, reference: nat,
                          part: int, n: nat) {
    (r.Ok? <==> n == 1 || ValidPart(n % 256, part % 256))
    && (r.Ok? ==>
          r.value.payload == payload && r.value.dataCoding == coding
          && (n == 1 ==> r.value.concat.None? && r.value.udh == [])
          && (n > 1 ==>
                r.value.concat.Some? && r.value.concat.value.part == part % 256
                && r.value.concat.value.total == n % 256
                && r.value.concat.value.reference == (if bySar then reference % 65536 else reference % 256)
                && (r.value.udh == [] <==> bySar)))
  }

  lemma PlainArrives(cfg: Config, msg: Outgoing, coding: Octet, s: Segmentation.Segment, payload: seq<Octet>,
                     bySar: bool)
    requires NoNuls(cfg, msg) && InRange(cfg, msg) && |payload| <= 1000
    ensures Arrives(Parsed(Request(cfg, msg, coding, Part(0, payload, [], []))), coding, payload, bySar, s.reference,
                    s.part, 1)
  {
    NothingAdded(Registered(cfg, msg), coding, payload);
    RequestParsed(cfg, msg, coding, Part(0, payload, [], []), Ok(Message([], payload, None)));
  }

  lemma SarArrives(cfg: Config, msg: Outgoing, coding: Octet, s: Segmentation.Segment, n: nat, payload: seq<Octet>)
    requires NoNuls(cfg, msg) && InRange(cfg, msg) && |payload| <= 1000 && n > 1
    ensures Arrives(Parsed(Request(cfg, msg, coding, Part(0, payload, [], ConcatTlvs(s.reference, n, s.part)))),
                    coding, payload, true, s.reference, s.part, n)
  {
    var sar := Sar(Big(s.reference % 65536), [n % 256], [s.part % 256]);
    SarFound(sar, []);
    assert SarTlvs(sar) + PayloadTlv([]) == SarTlvs(sar);
    var info := SarOf(SarTlvs(sar));
    SarMeaning(sar, Registered(cfg, msg), coding, payload, info);
    RequestParsed(cfg, msg, coding, Part(0, payload, [], SarTlvs(sar)),
                  if info.Some? then Ok(Message([], payload, info)) else Err);
  }

  lemma HeaderArrives(cfg: Config, msg: Outgoing, coding: Octet, s: Segmentation.Segment, n: nat, payload: seq<Octet>)
    requires NoNuls(cfg, msg) && InRange(cfg, msg) && |payload| <= 1000 && n > 1
    requires s.udh == Segmentation.ConcatUdh(s.reference, s.part, n)
    ensures Arrives(Parsed(Request(cfg, msg, coding, Part(0x40, s.udh + payload, [], []))), coding, payload, false,
                    s.reference, s.part, n)
  {
    HeaderMeaning(s.reference, s.part, n, payload);
    PlainMeaning(0x40, Registered(cfg, msg), coding, s.udh + payload, []);
    assert s.udh + payload + [] == s.udh + payload;
    var c := ContentOf(Registered(cfg, msg), coding, s.udh + payload, [], []);
    RequestParsed(cfg, msg, coding, Part(0x40, s.udh + payload, [], []), Meaning(0x40, c.short, c.tlvs));
  }

  /** Parts are numbered by parameters, not by a header. */
  predicate BySar(cfg: Config, always: bool) {
    cfg.mode.BySar? && !always
  }

  lemma SegmentArrives(cfg: Config, msg: Outgoing, always: bool, coding: Octet, s: Segmentation.Segment, n: nat)
    requires NoNuls(cfg, msg) && InRange(cfg, msg) && |EncodeText(s.text, coding, cfg.packed)| <= 1000 && n > 0
    requires always ==> n > 1
    requires n > 1 ==> s == Segmentation.Segment(s.reference, s.part, n, s.text,
                                                 Segmentation.ConcatUdh(s.reference, s.part, n))
    ensures Arrives(Parsed(Request(cfg, msg, coding, SegmentPart(cfg, coding, always, s, n))), coding,
                    EncodeText(s.text, coding, cfg.packed), BySar(cfg, always), s.reference, s.part, n)
  {
    var payload := EncodeText(s.text, coding, cfg.packed);
    if n <= 1 {
      PlainArrives(cfg, msg, coding, s, payload, BySar(cfg, always));
    } else if cfg.mode.BySar? && !always {
      SarArrives(cfg, msg, coding, s, n, payload);
    } else {
      HeaderArrives(cfg, msg, coding, s, n, payload);
    }
  }

  lemma {:induction false} WeightBounds(c: Segmentation.Coding, text: string)
    ensures |text| <= Segmentation.Weight(c, text) <= 2 * |text|
  {
    if text != [] { WeightBounds(c, text[1..]); }
  }

  lemma PayloadBound(text: string, coding: Octet, packed: bool)
    ensures |EncodeText(text, coding, packed)| <= 4 * |text|
  {
    Segmentation.WeightIsUnits(text);
    WeightBounds(Segmentation.Ucs2, text);
    Gsm7.DefaultTableGood();
    Segmentation.WeightIsSeptets(Gsm7.DEFAULT_RUNES, text);
    WeightBounds(Segmentation.Gsm7Bit, text);
  }

  /** Every part is number i + 1 and has at most 160 runes. */
  lemma SplitPart(c: Segmentation.Coding, text: string, reference: nat, segments: seq<Segmentation.Segment>, i: nat)
    requires Segmentation.IsSplit(c, text, reference, segments) && i < |segments|
    ensures segments[i].part == i + 1 && |segments[i].text| <= 160
  {
    if Segmentation.Weight(c, text) > Segmentation.SingleLimit(c) {
      assert Segmentation.Numbered(segments[i], reference, i + 1, |segments|);
      assert Segmentation.Texts(segments)[i] == segments[i].text;
    }
    WeightBounds(c, segments[i].text);
  }

  /** A part of a split travels in a part that can be written. */
  lemma SegmentPartFits(cfg: Config, coding: Octet, always: bool, c: Segmentation.Coding, text: string, reference: nat,
                        segments: seq<Segmentation.Segment>, i: nat)
    requires Segmentation.IsSplit(c, text, reference, segments) && i < |segments|
    ensures PartFits(SegmentPart(cfg, coding, always, segments[i], |segments|))
  {
    SplitPart(c, text, reference, segments, i);
    PayloadBound(segments[i].text, coding, cfg.packed);
    if Segmentation.Weight(c, text) > Segmentation.SingleLimit(c) {
      assert Segmentation.Numbered(segments[i], reference, i + 1, |segments|);
    }
  }

  /** Header and packed octets of each part are within the 140 of one short message, under the data coding announced. */
  lemma SubmitFits(msg: Outgoing, reference: nat, segments: seq<Segmentation.Segment>, i: nat)
    requires Segmentation.IsSplit(SplitCoding(msg), msg.text, reference, segments) && i < |segments|
    requires DataCoding(msg) == 3 || DataCoding(msg) == 8 || Encoding(msg).Gsm7Bit?
    ensures |segments[i].udh| + |EncodeText(segments[i].text, DataCoding(msg), true)| <= 140
  {
    Segmentation.SegmentsFit(SplitCoding(msg), msg.text, reference, segments, i);
  }

  /**
    Whole or in segments, however long: every request built for a message that the provider accepts is from the
    message's source to its destination, wrapped as configured.
   */
  lemma SubmitAddressed(cfg: Config, msg: Outgoing, reference: nat, parts: seq<seq<Octet>>, i: nat)
    requires NoNuls(cfg, msg) && IsBuilt(cfg, msg, reference, parts) && i < |parts| && Parsed(parts[i]).Ok?
    requires PlanFor(cfg, msg).Whole? ==> PartFits(PlanFor(cfg, msg).part)
    ensures AddressedAs(cfg, msg, Parsed(parts[i]).value) && WrappedAs(cfg, parts[i])
  {
    match PlanFor(cfg, msg)
    case Whole(p) => RequestAddressed(cfg, msg, DataCoding(msg), p);
    case Segmented(always) =>
      var c, coding := SplitCoding(msg), DataCoding(msg);
      var segments :| Segmentation.IsSplit(c, msg.text, reference, segments)
                      && SegmentRequests(cfg, msg, always, segments, parts);
      SegmentPartFits(cfg, coding, always, c, msg.text, reference, segments, i);
      RequestAddressed(cfg, msg, coding, SegmentPart(cfg, coding, always, segments[i], |segments|));
  }

  ghost predicate AllArrive(coding: Octet, packed: bool, bySar: bool, reference: nat,
                            segments: seq<Segmentation.Segment>, parts: seq<seq<Octet>>) {
    |parts| == |segments|
    && forall i :: 0 <= i < |parts| ==>
         Arrives(Parsed(parts[i]), coding, EncodeText(segments[i].text, coding, packed), bySar, reference, i + 1,
                 |segments|)
  }

  lemma PartArrives(cfg: Config, msg: Outgoing, always: bool, c: Segmentation.Coding, reference: nat,
                    segments: seq<Segmentation.Segment>, parts: seq<seq<Octet>>, i: nat)
    requires NoNuls(cfg, msg) && InRange(cfg, msg) && Segmentation.IsSplit(c, msg.text, reference, segments)
    requires SegmentRequests(cfg, msg, always, segments, parts) && i < |parts| && (always ==> |segments| > 1)
    ensures Arrives(Parsed(parts[i]), DataCoding(msg), EncodeText(segments[i].text, DataCoding(msg), cfg.packed),
                    BySar(cfg, always), reference, i + 1, |segments|)
  {
    SplitPart(c, msg.text, reference, segments, i);
    PayloadBound(segments[i].text, DataCoding(msg), cfg.packed);
    if |segments| > 1 { assert Segmentation.Numbered(segments[i], reference, i + 1, |segments|); }
    SegmentArrives(cfg, msg, always, DataCoding(msg), segments[i], |segments|);
  }

  lemma PartsArrive(cfg: Config, msg: Outgoing, always: bool, c: Segmentation.Coding, reference: nat,
                    segments: seq<Segmentation.Segment>, parts: seq<seq<Octet>>)
    requires NoNuls(cfg, msg) && InRange(cfg, msg) && Segmentation.IsSplit(c, msg.text, reference, segments)
    requires SegmentRequests(cfg, msg, always, segments, parts) && (always ==> |segments| > 1)
    ensures AllArrive(DataCoding(msg), cfg.packed, BySar(cfg, always), reference, segments, parts)
  {
    forall i | 0 <= i < |parts|
      ensures Arrives(Parsed(parts[i]), DataCoding(msg), EncodeText(segments[i].text, DataCoding(msg), cfg.packed),
                      BySar(cfg, always), reference, i + 1, |segments|)
    {
      PartArrives(cfg, msg, always, c, reference, segments, parts, i);
    }
  }

  // ----- which arrive

  ghost predicate AllAccepted(parts: seq<seq<Octet>>) {
    forall i :: 0 <= i < |parts| ==> Parsed(parts[i]).Ok?
  }

  /** Part 256 wraps to 0, so one octet numbers at most 255 parts. */
  lemma NumbersFit(n: nat)
    ensures n <= 255 ==> forall p :: 1 <= p <= n ==> ValidPart(n % 256, p % 256)
    ensures n > 255 ==> !ValidPart(n % 256, 256 % 256)
  {
  }

  lemma AcceptedIff(coding: Octet, packed: bool, bySar: bool, reference: nat, segments: seq<Segmentation.Segment>,
                    parts: seq<seq<Octet>>)
    requires AllArrive(coding, packed, bySar, reference, segments, parts)
    ensures AllAccepted(parts) <==> |segments| <= 255
  {
    NumbersFit(|segments|);
    if |segments| > 255 {
      assert Arrives(Parsed(parts[255]), coding, EncodeText(segments[255].text, coding, packed), bySar, reference, 256,
                     |segments|);
    }
  }

  // ----- what is read

  function Bytes(octets: seq<Octet>): seq<bv8> {
    seq(|octets|, i requires 0 <= i < |octets| => octets[i] as bv8)
  }

  function LatinRunes(octets: seq<Octet>): string {
    seq(|octets|, i requires 0 <= i < |octets| => octets[i] as char)
  }

  /** UCS-2 and Latin-1 by their data codings, anything else as packed GSM 7-bit. */
  function ReadText(s: SubmitSm): string {
    if s.dataCoding == 8 then
      var text := Ucs2Text.Decode(s.payload);
      if text.Some? then text.value else ""
    else if s.dataCoding == 3 then LatinRunes(s.payload)
    else Gsm7.DecodePacked(Gsm7.DEFAULT_RUNES, Bytes(s.payload))
  }

  /** A received part as Join sees it. */
  function ReadPart(s: SubmitSm): Segmentation.Segment {
    var info := if s.concat.Some? then s.concat.value else ConcatInfo(0, 1, 1);
    Segmentation.Segment(info.reference, info.part, info.total, ReadText(s), s.udh)
  }

  ghost function Arrived(parts: seq<seq<Octet>>): seq<Segmentation.Segment>
    requires AllAccepted(parts)
  {
    seq(|parts|, i requires 0 <= i < |parts| => ReadPart(Parsed(parts[i]).value))
  }

  /** The text that comes back for a segment's text. */
  ghost function ComesBack(coding: Octet, text: string): string {
    if coding == 8 then text
    else if coding == 3 then seq(|text|, i requires 0 <= i < |text| => if text[i] <= '\U{FF}' then text[i] else '?')
    else if Gsm7.EndsLikePadding(Gsm7.DEFAULT_RUNES, text) then text[..|text| - 1]
    else text
  }

  lemma BytesOfOctets(s: seq<bv8>)
    ensures Bytes(OctetsOf(s)) == s
  {
  }

  /** UCS-2, or with packing Latin-1, or GSM 7-bit with a text in its alphabet. */
  ghost predicate Readable(coding: Octet, packed: bool, text: string) {
    coding == 8
    || (packed && (coding == 3 || forall i :: 0 <= i < |text| ==> Gsm7.InAlphabet(Gsm7.DEFAULT_RUNES, text[i])))
  }

  lemma ReadBack(r: SubmitSm, packed: bool, text: string)
    requires r.payload == EncodeText(text, r.dataCoding, packed) && Readable(r.dataCoding, packed, text)
    ensures ReadText(r) == ComesBack(r.dataCoding, text)
  {
    if r.dataCoding == 8 { Ucs2Text.Ucs2RoundTrip(text); }
    else if r.dataCoding != 3 {
      BytesOfOctets(Gsm7.EncodePacked(Gsm7.DEFAULT_RUNES, text));
      Gsm7.AlphabetRoundTrip(text);
    }
  }

  ghost function AllBack(coding: Octet, segments: seq<Segmentation.Segment>): seq<string> {
    seq(|segments|, i requires 0 <= i < |segments| => ComesBack(coding, segments[i].text))
  }

  lemma ReadAsSent(r: SubmitSm, packed: bool, text: string, bySar: bool, reference: nat, part: int, n: nat)
    requires Arrives(Ok(r), r.dataCoding, EncodeText(text, r.dataCoding, packed), bySar, reference, part, n)
    requires 1 <= part <= n <= 255
    requires Readable(r.dataCoding, packed, text)
    ensures ReadPart(r).part == part && ReadPart(r).text == ComesBack(r.dataCoding, text)
  {
    ReadBack(r, packed, text);
  }

  lemma ArrivedPart(coding: Octet, packed: bool, bySar: bool, reference: nat, segments: seq<Segmentation.Segment>,
                    parts: seq<seq<Octet>>, i: nat)
    requires AllArrive(coding, packed, bySar, reference, segments, parts) && AllAccepted(parts) && i < |parts| <= 255
    requires Readable(coding, packed, segments[i].text)
    ensures Arrived(parts)[i].part == i + 1 && Arrived(parts)[i].text == ComesBack(coding, segments[i].text)
  {
    assert Arrives(Parsed(parts[i]), coding, EncodeText(segments[i].text, coding, packed), bySar, reference, i + 1,
                   |segments|);
    ReadAsSent(Parsed(parts[i]).value, packed, segments[i].text, bySar, reference, i + 1, |segments|);
  }

  lemma ArrivedInOrder(coding: Octet, packed: bool, bySar: bool, reference: nat, segments: seq<Segmentation.Segment>,
                       parts: seq<seq<Octet>>)
    requires AllArrive(coding, packed, bySar, reference, segments, parts) && AllAccepted(parts)
    requires forall i :: 0 <= i < |segments| ==> Readable(coding, packed, segments[i].text)
    ensures Segmentation.Distinct(Arrived(parts))
    ensures Segmentation.Texts(Arrived(parts)) == AllBack(coding, segments)
  {
    AcceptedIff(coding, packed, bySar, reference, segments, parts);
    forall i | 0 <= i < |parts|
      ensures Arrived(parts)[i].part == i + 1 && Arrived(parts)[i].text == ComesBack(coding, segments[i].text)
    {
      ArrivedPart(coding, packed, bySar, reference, segments, parts, i);
    }
  }

  lemma SortedToOrder(received: seq<Segmentation.Segment>, ordered: seq<Segmentation.Segment>)
    requires multiset(received) == multiset(ordered) && Segmentation.Distinct(ordered)
    ensures Segmentation.Sorted(received) == ordered
  {
    Segmentation.SortedKeeps(received);
    Segmentation.SameLength(Segmentation.Sorted(received), ordered);
    Segmentation.OneOrder(Segmentation.Sorted(received), ordered);
  }

  lemma SplitConcat(c: Segmentation.Coding, text: string, reference: nat, segments: seq<Segmentation.Segment>)
    requires Segmentation.IsSplit(c, text, reference, segments)
    ensures Segmentation.Concat(Segmentation.Texts(segments)) == text
  {
    if Segmentation.Weight(c, text) <= Segmentation.SingleLimit(c) {
      assert Segmentation.Texts(segments) == [text] && [text][1..] == [];
    }
  }

  /** Parts that come back no longer than they were give the whole exactly when each is itself. */
  lemma {:induction false} ConcatSame(xs: seq<string>, ys: seq<string>)
    requires |xs| == |ys| && forall i :: 0 <= i < |xs| ==> |ys[i]| <= |xs[i]|
    ensures |Segmentation.Concat(ys)| <= |Segmentation.Concat(xs)|
    ensures Segmentation.Concat(ys) == Segmentation.Concat(xs) <==> ys == xs
  {
    if xs != [] {
      ConcatSame(xs[1..], ys[1..]);
      assert xs == [xs[0]] + xs[1..] && ys == [ys[0]] + ys[1..];
      SplitSame(xs[0], Segmentation.Concat(xs[1..]), ys[0], Segmentation.Concat(ys[1..]));
    }
  }

  lemma SplitSame(a: string, b: string, c: string, d: string)
    requires |c| <= |a| && |d| <= |b|
    ensures c + d == a + b <==> c == a && d == b
  {
    if c + d == a + b {
      assert |c + d| == |c| + |d|;
      assert (c + d)[..|c|] == c && (a + b)[..|a|] == a && (c + d)[|c|..] == d && (a + b)[|a|..] == b;
    }
  }

  ghost predicate NoneCut(coding: Octet, segments: seq<Segmentation.Segment>) {
    forall i :: 0 <= i < |segments| ==> ComesBack(coding, segments[i].text) == segments[i].text
  }

  lemma BackIff(c: Segmentation.Coding, text: string, reference: nat, segments: seq<Segmentation.Segment>,
                coding: Octet)
    requires Segmentation.IsSplit(c, text, reference, segments)
    ensures Segmentation.Concat(AllBack(coding, segments)) == text <==> NoneCut(coding, segments)
  {
    SplitConcat(c, text, reference, segments);
    ConcatSame(Segmentation.Texts(segments), AllBack(coding, segments));
    if NoneCut(coding, segments) { assert AllBack(coding, segments) == Segmentation.Texts(segments); }
    else {
      var i :| 0 <= i < |segments| && ComesBack(coding, segments[i].text) != segments[i].text;
      assert AllBack(coding, segments)[i] != Segmentation.Texts(segments)[i];
    }
  }

  /**
    Every part of a split text is accepted if and only if there are at most 255 of them. Then the parts, received in any
    order and joined by part number, are the text if and only if no part comes back cut short.
   */
  lemma EndToEnd(cfg: Config, msg: Outgoing, always: bool, c: Segmentation.Coding, reference: nat,
                 segments: seq<Segmentation.Segment>, parts: seq<seq<Octet>>, received: seq<Segmentation.Segment>)
    requires NoNuls(cfg, msg) && InRange(cfg, msg) && Segmentation.IsSplit(c, msg.text, reference, segments)
    requires SegmentRequests(cfg, msg, always, segments, parts) && (always ==> |segments| > 1)
    requires forall i :: 0 <= i < |segments| ==> Readable(DataCoding(msg), cfg.packed, segments[i].text)
    ensures AllAccepted(parts) <==> |segments| <= 255
    ensures AllAccepted(parts) && multiset(received) == multiset(Arrived(parts)) ==>
              (Segmentation.Concat(Segmentation.Texts(Segmentation.Sorted(received))) == msg.text
               <==> NoneCut(DataCoding(msg), segments))
  {
    var coding := DataCoding(msg);
    PartsArrive(cfg, msg, always, c, reference, segments, parts);
    AcceptedIff(coding, cfg.packed, BySar(cfg, always), reference, segments, parts);
    BackIff(c, msg.text, reference, segments, coding);
    if AllAccepted(parts) && multiset(received) == multiset(Arrived(parts)) {
      ArrivedInOrder(coding, cfg.packed, BySar(cfg, always), reference, segments, parts);
      SortedToOrder(received, Arrived(parts));
    }
  }

  // ----- by coding

  /** For whatever a segmented build of a UCS-2 text returns: up to 255 parts, and the text comes back. */
  lemma Ucs2SubmitArrives(cfg: Config, msg: Outgoing, always: bool, reference: nat, parts: seq<seq<Octet>>,
                          received: seq<Segmentation.Segment>)
    requires DataCoding(msg) == 8 && NoNuls(cfg, msg) && InRange(cfg, msg)
    requires PlanFor(cfg, msg) == Segmented(always) && IsSegmented(cfg, msg, always, reference, parts)
    requires always ==> |parts| > 1
    ensures AllAccepted(parts) <==> |parts| <= 255
    ensures AllAccepted(parts) && multiset(received) == multiset(Arrived(parts)) ==>
              Segmentation.Concat(Segmentation.Texts(Segmentation.Sorted(received))) == msg.text
  {
    var segments :| Segmentation.IsSplit(SplitCoding(msg), msg.text, reference, segments)
                    && SegmentRequests(cfg, msg, always, segments, parts);
    EndToEnd(cfg, msg, always, SplitCoding(msg), reference, segments, parts, received);
  }

  /** A part of the split ends in '@' and fills its last group of eight septets. */
  ghost predicate SomeEndsLikePadding(segments: seq<Segmentation.Segment>) {
    exists i :: 0 <= i < |segments| && Gsm7.EndsLikePadding(Gsm7.DEFAULT_RUNES, segments[i].text)
  }

  /**
    A text of the GSM 7-bit alphabet, sent packed: up to 255 parts are accepted, and the text comes back if and only if
    no part ends like padding.
   */
  lemma Gsm7SubmitArrives(cfg: Config, msg: Outgoing, always: bool, reference: nat, segments: seq<Segmentation.Segment>,
                          parts: seq<seq<Octet>>, received: seq<Segmentation.Segment>)
    requires DataCoding(msg) !in {3, 8} && cfg.packed && NoNuls(cfg, msg) && InRange(cfg, msg)
    requires forall i :: 0 <= i < |msg.text| ==> Gsm7.InAlphabet(Gsm7.DEFAULT_RUNES, msg.text[i])
    requires Segmentation.IsSplit(SplitCoding(msg), msg.text, reference, segments)
    requires SegmentRequests(cfg, msg, always, segments, parts) && (always ==> |segments| > 1)
    ensures AllAccepted(parts) <==> |parts| <= 255
    ensures AllAccepted(parts) && multiset(received) == multiset(Arrived(parts)) ==>
              (Segmentation.Concat(Segmentation.Texts(Segmentation.Sorted(received))) == msg.text
               <==> !SomeEndsLikePadding(segments))
  {
    SplitConcat(SplitCoding(msg), msg.text, reference, segments);
    forall i | 0 <= i < |segments|
      ensures Readable(DataCoding(msg), cfg.packed, segments[i].text)
    {
      PartOf(Segmentation.Texts(segments), msg.text, i);
      assert Segmentation.Texts(segments)[i] == segments[i].text;
    }
    EndToEnd(cfg, msg, always, SplitCoding(msg), reference, segments, parts, received);
    CutIff(DataCoding(msg), segments);
  }

  /**
    Left to the gateway, every text is sent so that it can be read: as GSM 7-bit when its runes allow, which comes back
    unless a part ends like padding, and otherwise as UCS-2, which always does.
   */
  lemma AutoSubmitArrives(cfg: Config, msg: Outgoing, always: bool, reference: nat, segments: seq<Segmentation.Segment>,
                          parts: seq<seq<Octet>>, received: seq<Segmentation.Segment>)
    requires msg.encoding.None? && msg.coding == 0 && msg.raw.None?
    requires cfg.packed && NoNuls(cfg, msg) && InRange(cfg, msg)
    requires Segmentation.IsSplit(SplitCoding(msg), msg.text, reference, segments)
    requires SegmentRequests(cfg, msg, always, segments, parts) && (always ==> |segments| > 1)
    ensures AllAccepted(parts) <==> |parts| <= 255
    ensures AllAccepted(parts) && multiset(received) == multiset(Arrived(parts)) ==>
              (Segmentation.Concat(Segmentation.Texts(Segmentation.Sorted(received))) == msg.text
               <==> !(AllGsm7(msg.text) && SomeEndsLikePadding(segments)))
  {
    if AllGsm7(msg.text) {
      Gsm7SubmitArrives(cfg, msg, always, reference, segments, parts, received);
    } else {
      EndToEnd(cfg, msg, always, SplitCoding(msg), reference, segments, parts, received);
    }
  }

  lemma CutIff(coding: Octet, segments: seq<Segmentation.Segment>)
    requires coding !in {3, 8}
    ensures NoneCut(coding, segments) <==> !SomeEndsLikePadding(segments)
  {
    if i :| 0 <= i < |segments| && Gsm7.EndsLikePadding(Gsm7.DEFAULT_RUNES, segments[i].text) {
      assert ComesBack(coding, segments[i].text) != segments[i].text;
    }
  }

  /** A Latin-1 text comes back if and only if all its runes have an octet; the others come back as question marks. */
  lemma LatinSubmitArrives(cfg: Config, msg: Outgoing, always: bool, reference: nat,
                           segments: seq<Segmentation.Segment>, parts: seq<seq<Octet>>,
                           received: seq<Segmentation.Segment>)
    requires DataCoding(msg) == 3 && cfg.packed && NoNuls(cfg, msg) && InRange(cfg, msg)
    requires Segmentation.IsSplit(SplitCoding(msg), msg.text, reference, segments)
    requires SegmentRequests(cfg, msg, always, segments, parts) && (always ==> |segments| > 1)
    ensures AllAccepted(parts) <==> |parts| <= 255
    ensures AllAccepted(parts) && multiset(received) == multiset(Arrived(parts)) ==>
              (Segmentation.Concat(Segmentation.Texts(Segmentation.Sorted(received))) == msg.text
               <==> forall i :: 0 <= i < |msg.text| ==> msg.text[i] <= '\U{FF}')
  {
    EndToEnd(cfg, msg, always, SplitCoding(msg), reference, segments, parts, received);
    SplitConcat(SplitCoding(msg), msg.text, reference, segments);
    LatinIff(segments, msg.text);
  }

  lemma LatinIff(segments: seq<Segmentation.Segment>, text: string)
    requires Segmentation.Concat(Segmentation.Texts(segments)) == text
    ensures NoneCut(3, segments) <==> forall i :: 0 <= i < |text| ==> text[i] <= '\U{FF}'
  {
    var texts := Segmentation.Texts(segments);
    LatinParts(texts);
    if NoneCut(3, segments) {
      forall k | 0 <= k < |texts|
        ensures AllLatin(texts[k])
      {
        assert texts[k] == segments[k].text == ComesBack(3, segments[k].text);
      }
    } else {
      var k :| 0 <= k < |segments| && ComesBack(3, segments[k].text) != segments[k].text;
      assert !AllLatin(texts[k]);
    }
  }

  predicate AllLatin(text: string) {
    forall i :: 0 <= i < |text| ==> text[i] <= '\U{FF}'
  }

  lemma {:induction false} LatinParts(texts: seq<string>)
    ensures AllLatin(Segmentation.Concat(texts)) <==> forall k :: 0 <= k < |texts| ==> AllLatin(texts[k])
  {
    if texts != [] {
      LatinParts(texts[1..]);
      var head, rest := texts[0], Segmentation.Concat(texts[1..]);
      assert Segmentation.Concat(texts) == head + rest;
      assert forall i :: 0 <= i < |head| ==> (head + rest)[i] == head[i];
      assert forall i :: 0 <= i < |rest| ==> (head + rest)[|head| + i] == rest[i];
      assert forall k :: 0 < k < |texts| ==> texts[k] == texts[1..][k - 1];
    }
  }

  /** Every rune of a part is a rune of the text. */
  lemma {:induction false} PartOf(parts: seq<string>, text: string, i: nat)
    requires Segmentation.Concat(parts) == text && i < |parts|
    ensures forall k :: 0 <= k < |parts[i]| ==> parts[i][k] in text
  {
    if i > 0 { PartOf(parts[1..], Segmentation.Concat(parts[1..]), i - 1); }
  }

  /** A part before the last ends like padding exactly when it ends in '@' one septet short of full. */
  lemma PaddingInside(text: string, reference: nat, segments: seq<Segmentation.Segment>, i: nat)
    requires Segmentation.IsSplit(Segmentation.Gsm7Bit, text, reference, segments) && i + 1 < |segments|
    ensures var part := segments[i].text;
            part != []
            && (Gsm7.EndsLikePadding(Gsm7.DEFAULT_RUNES, part)
                <==> part[|part| - 1] == '@' && Segmentation.Weight(Segmentation.Gsm7Bit, part) == 152)
  {
    var texts := Segmentation.Texts(segments);
    assert texts[i] == segments[i].text;
    assert Segmentation.FullAt(Segmentation.Gsm7Bit, 153, texts, i);
    Gsm7.DefaultTableGood();
    Segmentation.WeightIsSeptets(Gsm7.DEFAULT_RUNES, segments[i].text);
  }

  // ----- without packing

  /** Whatever its data coding but UCS-2, a text sent unpacked is its septets, one to an octet. */
  lemma UnpackedReads(text: string, coding: Octet)
    requires coding != 8
    ensures var octets := Bytes(EncodeText(text, coding, false));
            (forall i :: 0 <= i < |octets| ==> octets[i] < 128)
            && Gsm7.Runes(Gsm7.DEFAULT_RUNES, octets) == Gsm7.Substitute(Gsm7.DEFAULT_RUNES, text)
  {
    Gsm7.DefaultTableGood();
    BytesOfOctets(Gsm7.Septets(Gsm7.DEFAULT_RUNES, text));
    Gsm7.RunesOfSeptets(Gsm7.DEFAULT_RUNES, text);
  }

  function AsLatin(septets: seq<bv8>): string {
    LatinRunes(OctetsOf(septets))
  }

  lemma LatinAppend(a: seq<bv8>, b: seq<bv8>)
    ensures AsLatin(a + b) == AsLatin(a) + AsLatin(b)
  {
  }

  ghost predicate SameCode(r: char) {
    AsLatin(Gsm7.RuneSeptets(Gsm7.DEFAULT_RUNES, r)) == [r]
  }

  /**
    So a text labelled Latin-1 and sent unpacked comes back if and only if each of its runes has the same code in the
    GSM 7-bit alphabet.
   */
  lemma {:induction false} LatinUnpackedIff(text: string)
    ensures |LatinRunes(EncodeText(text, 3, false))| >= |text|
    ensures LatinRunes(EncodeText(text, 3, false)) == text <==> forall i :: 0 <= i < |text| ==> SameCode(text[i])
  {
    if text != [] {
      var first, rest := Gsm7.RuneSeptets(Gsm7.DEFAULT_RUNES, text[0]), Gsm7.Septets(Gsm7.DEFAULT_RUNES, text[1..]);
      LatinUnpackedIff(text[1..]);
      Gsm7.SeptetsFirst(Gsm7.DEFAULT_RUNES, text);
      LatinAppend(first, rest);
      SplitSame(AsLatin(first), AsLatin(rest), [text[0]], text[1..]);
      assert text == [text[0]] + text[1..];
    }
  }

  /** It does not always: '@' has code 0 there. */
  lemma LatinUnpackedLost()
    ensures LatinRunes(EncodeText("@", 3, false)) != "@"
  {
    Gsm7.DefaultTableGood();
    Gsm7.CodesInvert(Gsm7.DEFAULT_RUNES, '@');
    assert AsLatin([0])[0] == '\0';
    assert !SameCode("@"[0]);
    LatinUnpackedIff("@");
  }

  // ----- a header for a text of one part

  /** With a header on every part, a text that needs no splitting is announced with one and has none. */
  lemma LoneHeaderLost(cfg: Config, msg: Outgoing, c: Segmentation.Coding, reference: nat,
                       segments: seq<Segmentation.Segment>, parts: seq<seq<Octet>>)
    requires NoNuls(cfg, msg) && InRange(cfg, msg) && Segmentation.IsSplit(c, msg.text, reference, segments)
    requires SegmentRequests(cfg, msg, true, segments, parts) && |segments| == 1
    ensures Parsed(parts[0]).Ok? ==>
              |Parsed(parts[0]).value.payload| < |EncodeText(msg.text, DataCoding(msg), cfg.packed)|
  {
    var payload := EncodeText(msg.text, DataCoding(msg), cfg.packed);
    OneIsWhole(c, msg.text, reference, segments);
    SplitPart(c, msg.text, reference, segments, 0);
    PayloadBound(msg.text, DataCoding(msg), cfg.packed);
    assert [] + payload == payload;
    HeaderlessLost(cfg, msg, DataCoding(msg), payload);
  }

  lemma HeaderlessLost(cfg: Config, msg: Outgoing, coding: Octet, payload: seq<Octet>)
    requires NoNuls(cfg, msg) && InRange(cfg, msg) && |payload| <= 1000
    ensures var r := Parsed(Request(cfg, msg, coding, Part(0x40, payload, [], [])));
            r.Ok? ==> |r.value.payload| < |payload|
  {
    PlainMeaning(0x40, Registered(cfg, msg), coding, payload, []);
    assert payload + [] == payload;
    var c := ContentOf(Registered(cfg, msg), coding, payload, [], []);
    RequestParsed(cfg, msg, coding, Part(0x40, payload, [], []), Meaning(0x40, c.short, c.tlvs));
    HeaderCut(payload);
  }

  lemma HeaderCut(raw: seq<Octet>)
    ensures SplitUdh(raw, 0x40).Ok? ==> |SplitUdh(raw, 0x40).value.1| < |raw|
  {
    if SplitUdh(raw, 0x40).Ok? { UdhIsPrefix(raw, 0x40); }
  }

  /** A split into one part is the text as it is. */
  lemma OneIsWhole(c: Segmentation.Coding, text: string, reference: nat, segments: seq<Segmentation.Segment>)
    requires Segmentation.IsSplit(c, text, reference, segments) && |segments| == 1
    ensures segments[0].text == text && segments[0].udh == []
  {
    var texts := Segmentation.Texts(segments);
    assert texts == [segments[0].text] && texts[1..] == [];
    SplitConcat(c, text, reference, segments);
    assert Segmentation.Weight(c, texts[0]) <= Segmentation.SingleLimit(c);
  }

  /**
    With a header on every part, all parts arrive as they were sent if and only if the text takes more than one; the
    header of the message itself is dropped either way.
   */
  lemma HeaderedIff(cfg: Config, msg: Outgoing, c: Segmentation.Coding, reference: nat,
                    segments: seq<Segmentation.Segment>, parts: seq<seq<Octet>>)
    requires NoNuls(cfg, msg) && InRange(cfg, msg) && Segmentation.IsSplit(c, msg.text, reference, segments)
    requires SegmentRequests(cfg, msg, true, segments, parts)
    ensures AllArrive(DataCoding(msg), cfg.packed, false, reference, segments, parts) <==> |segments| > 1
  {
    if |segments| > 1 { PartsArrive(cfg, msg, true, c, reference, segments, parts); }
    else {
      OneIsWhole(c, msg.text, reference, segments);
      LoneHeaderLost(cfg, msg, c, reference, segments, parts);
      assert !Arrives(Parsed(parts[0]), DataCoding(msg), EncodeText(msg.text, DataCoding(msg), cfg.packed), false,
                      reference, 1, 1);
    }
  }

  /** It happens: an empty text under a header of 255 octets is refused. */
  lemma LoneHeaderHappens(cfg: Config, msg: Outgoing, reference: nat, parts: seq<seq<Octet>>)
    requires NoNuls(cfg, msg) && InRange(cfg, msg) && cfg.mode.ByUdh? && msg.raw.None? && msg.sar.None?
    requires |msg.udh| == 255 && msg.text == "" && IsBuilt(cfg, msg, reference, parts)
    ensures |parts| == 1 && Parsed(parts[0]).Err?
  {
    PayloadBound("", DataCoding(msg), cfg.packed);
    var c := SplitCoding(msg);
    var segments :| Segmentation.IsSplit(c, msg.text, reference, segments)
                    && SegmentRequests(cfg, msg, true, segments, parts);
    LoneHeaderLost(cfg, msg, c, reference, segments, parts);
  }
}
