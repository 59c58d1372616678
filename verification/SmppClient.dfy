/**
  Building the submit_sm requests for an upstream SMPP provider. A message is sent as it was received
  when its octets are known, and encoded and segmented otherwise.
 */
module SmppClient {
  import opened Collections
  import opened Octets
  import opened SmppFields
  import opened Wrappers
  import Gsm7
  import Segmentation
  import Smpp
  import Ucs2Text

  datatype LongMode = ByUdh | BySar | ByPayload

  datatype Config = Config(serviceType: seq<Octet>, validity: seq<Octet>, sourceTon: Octet, sourceNpi: Octet,
                           destTon: Octet, destNpi: Octet, registered: Option<Octet>, mode: LongMode, packed: bool)

  datatype Sar = Sar(reference: seq<Octet>, total: seq<Octet>, part: seq<Octet>)

  /** encoding is None for "auto"; raw holds the octets of a message to be relayed unread. */
  datatype Outgoing = Outgoing(source: seq<Octet>, dest: seq<Octet>, text: string,
                               encoding: Option<Segmentation.Coding>, coding: Octet, registered: Octet,
                               udh: seq<Octet>, raw: Option<seq<Octet>>, sar: Option<Sar>)

  function StripPlus(address: seq<Octet>): seq<Octet> {
    if address != [] && address[0] == 0x2B then address[1..] else address
  }

  // ----- one request

  function HeadOf(cfg: Config, msg: Outgoing, esmClass: Octet): Head {
    Head(cfg.serviceType, Address(cfg.sourceTon, cfg.sourceNpi, StripPlus(msg.source)),
         Address(cfg.destTon, cfg.destNpi, StripPlus(msg.dest)), esmClass, 0, 0)
  }

  function PayloadTlv(payload: seq<Octet>): seq<Tlv> {
    if payload == [] then [] else [Tlv(Smpp.MESSAGE_PAYLOAD, payload)]
  }

  /** A short message above 254 octets moves into message_payload. */
  function ContentOf(registered: Octet, coding: Octet, short: seq<Octet>, payload: seq<Octet>,
                     tlvs: seq<Tlv>): Content {
    if |short| > 254 then Content(registered, 0, coding, 0, [], tlvs + PayloadTlv(short))
    else Content(registered, 0, coding, 0, short, tlvs + PayloadTlv(payload))
  }

  /** What distinguishes the requests of one message. */
  datatype Part = Part(esmClass: Octet, short: seq<Octet>, payload: seq<Octet>, tlvs: seq<Tlv>)

  function Registered(cfg: Config, msg: Outgoing): Octet {
    if cfg.registered.Some? then cfg.registered.value else msg.registered
  }

  function Request(cfg: Config, msg: Outgoing, coding: Octet, p: Part): seq<Octet> {
    WriteSubmit(HeadOf(cfg, msg, p.esmClass),
                Tail([], cfg.validity, ContentOf(Registered(cfg, msg), coding, p.short, p.payload, p.tlvs)))
  }

  lemma {:induction false} WriteTlvsAppend(a: seq<Tlv>, b: seq<Tlv>)
    ensures WriteTlvs(a + b) == WriteTlvs(a) + WriteTlvs(b)
  {
    if a == [] { assert a + b == b; }
    else {
      var rest := a[1..];
      WriteTlvsAppend(rest, b);
      assert WriteTlvs(a + b) == WriteTlv(a[0]) + WriteTlvs(rest + b) by { assert (a + b)[1..] == rest + b; }
      Regroup(WriteTlv(a[0]), WriteTlvs(rest), WriteTlvs(b));
    }
  }

  method BuildTlvs(items: seq<Tlv>) returns (body: seq<Octet>)
    ensures body == WriteTlvs(items)
  {
    body := [];
    for i := 0 to |items|
      invariant body == WriteTlvs(items[..i])
    {
      var item := items[i];
      assert items[..i + 1] == items[..i] + [item];
      WriteTlvsAppend(items[..i], [item]);
      assert [item][1..] == [];
      assert WriteTlvs([item]) == WriteTlv(item);
      body := body + (Big(item.tag) + Big(|item.value| % 65536) + item.value);
    }
    assert items[..|items|] == items;
  }

  /** The appending code of one request body. */
  method BuildBody(cfg: Config, msg: Outgoing, coding: Octet, p: Part) returns (body: seq<Octet>)
    ensures body == Request(cfg, msg, coding, p)
  {
    body := BuildHead(cfg, msg, p.esmClass);
    ghost var head := body;
    body := body + CString([]) + CString(cfg.validity);
    var rest := BuildContent(Registered(cfg, msg), coding, p);
    assert body + rest == head + (CString([]) + (CString(cfg.validity) + rest));
    body := body + rest;
  }

  method BuildContent(registered: Octet, coding: Octet, p: Part) returns (body: seq<Octet>)
    ensures body == WriteContent(ContentOf(registered, coding, p.short, p.payload, p.tlvs))
  {
    body := [registered, 0, coding, 0];
    var payload, tlvs := p.payload, p.tlvs;
    if |p.short| > 254 {
      body := body + [0];
      payload := p.short;
      assert WriteShort([]) == [0];
    } else {
      body := body + [|p.short|];
      body := body + p.short;
    }
    if |payload| > 0 { tlvs := tlvs + [Tlv(Smpp.MESSAGE_PAYLOAD, payload)]; }
    assert tlvs == p.tlvs + PayloadTlv(payload);
    var params := BuildTlvs(tlvs);
    body := body + params;
  }

  method BuildHead(cfg: Config, msg: Outgoing, esmClass: Octet) returns (body: seq<Octet>)
    ensures body == WriteHead(HeadOf(cfg, msg, esmClass))
  {
    body := CString(cfg.serviceType);
    body := body + [cfg.sourceTon, cfg.sourceNpi];
    body := body + CString(StripPlus(msg.source));
    body := body + [cfg.destTon, cfg.destNpi];
    body := body + CString(StripPlus(msg.dest));
    body := body + [esmClass, 0, 0];
  }

  // ----- what to send

  function OctetsOf(s: seq<bv8>): seq<Octet> {
    seq(|s|, i requires 0 <= i < |s| => s[i] as int)
  }

  function EncodeText(text: string, coding: Octet, packed: bool): seq<Octet> {
    if coding == 8 then Ucs2Text.Encode(text)
    else if !packed then OctetsOf(Gsm7.Septets(Gsm7.DEFAULT_RUNES, text))
    else if coding == 3 then Segmentation.EncodeLatin1(text)
    else OctetsOf(Gsm7.EncodePacked(Gsm7.DEFAULT_RUNES, text))
  }

  function Encoding(msg: Outgoing): Segmentation.Coding {
    if msg.encoding.Some? then msg.encoding.value else Segmentation.Detected(msg.text)
  }

  function DataCoding(msg: Outgoing): Octet {
    if msg.raw.None? && msg.coding == 0 && Encoding(msg).Ucs2? then 8 else msg.coding
  }

  /** A data coding given is kept; none given is UCS-2 exactly for a text that is to be encoded so. */
  lemma CodingKept(msg: Outgoing)
    ensures msg.coding != 0 || msg.raw.Some? ==> DataCoding(msg) == msg.coding
    ensures msg.coding == 0 && msg.raw.None? ==>
              var wide := msg.encoding == Some(Segmentation.Ucs2) || (msg.encoding.None? && !AllGsm7(msg.text));
              DataCoding(msg) == if wide then 8 else 0
  {
  }

  ghost predicate AllGsm7(text: string) {
    forall i :: 0 <= i < |text| ==> Gsm7.InAlphabet(Gsm7.DEFAULT_RUNES, text[i])
  }

  function SplitCoding(msg: Outgoing): Segmentation.Coding {
    if DataCoding(msg) == 8 then Segmentation.Ucs2
    else if DataCoding(msg) == 3 then Segmentation.EightBit
    else Encoding(msg)
  }

  function Payload(cfg: Config, msg: Outgoing): seq<Octet> {
    if msg.raw.Some? then msg.raw.value else EncodeText(msg.text, DataCoding(msg), cfg.packed)
  }

  function SarTlvs(s: Sar): seq<Tlv> {
    [Tlv(Smpp.SAR_MSG_REF_NUM, s.reference), Tlv(Smpp.SAR_TOTAL_SEGMENTS, s.total),
     Tlv(Smpp.SAR_SEGMENT_SEQNUM, s.part)]
  }

  function ConcatTlvs(reference: int, total: int, part: int): seq<Tlv> {
    SarTlvs(Sar(Big(reference % 65536), [total % 256], [part % 256]))
  }

  /** One request for the message as a whole, or one for each segment of its text. */
  datatype Plan = Whole(part: Part) | Segmented(headerAlways: bool)

  function PlanFor(cfg: Config, msg: Outgoing): Plan {
    var payload := Payload(cfg, msg);
    if msg.sar.Some? then Whole(Part(0, payload, [], SarTlvs(msg.sar.value)))
    else if msg.udh != [] then
      var info := Smpp.ConcatOf(msg.udh);
      if cfg.mode.BySar? && msg.raw.None? && info.Some? then
        Whole(Part(0, payload, [], ConcatTlvs(info.value.reference, info.value.total, info.value.part)))
      else if cfg.mode.ByUdh? && msg.raw.None? && |msg.udh + payload| > 254 then Segmented(true)
      else Whole(Part(0x40, msg.udh + payload, [], []))
    else if cfg.mode.ByPayload? then Whole(Part(0, [], payload, []))
    else if msg.raw.Some? then Whole(Part(0, payload, [], []))
    else Segmented(false)
  }

  /** How segment s of n travels. */
  function SegmentPart(cfg: Config, coding: Octet, headerAlways: bool, s: Segmentation.Segment, n: nat): Part {
    var payload := EncodeText(s.text, coding, cfg.packed);
    if headerAlways || (n > 1 && !cfg.mode.BySar?) then Part(0x40, s.udh + payload, [], [])
    else if n > 1 then Part(0, payload, [], ConcatTlvs(s.reference, s.total, s.part))
    else Part(0, payload, [], [])
  }

  ghost predicate IsSegmented(cfg: Config, msg: Outgoing, headerAlways: bool, reference: nat, parts: seq<seq<Octet>>) {
    exists segments :: Segmentation.IsSplit(SplitCoding(msg), msg.text, reference, segments)
      && SegmentRequests(cfg, msg, headerAlways, segments, parts)
  }

  ghost predicate SegmentRequests(cfg: Config, msg: Outgoing, headerAlways: bool, segments: seq<Segmentation.Segment>,
                                  parts: seq<seq<Octet>>) {
    |parts| == |segments| && forall i :: 0 <= i < |parts| ==>
      parts[i] == Request(cfg, msg, DataCoding(msg),
                          SegmentPart(cfg, DataCoding(msg), headerAlways, segments[i], |segments|))
  }

  method EncodeTextOf(text: string, coding: Octet, packed: bool) returns (r: seq<Octet>)
    ensures r == EncodeText(text, coding, packed)
  {
    if coding == 8 { r := Ucs2Text.EncodeUcs2(text); }
    else if !packed {
      var septets := Gsm7.ToSeptets(Gsm7.DEFAULT_RUNES, text);
      r := OctetsOf(septets);
    } else if coding == 3 { r := Segmentation.EncodeLatin1(text); }
    else {
      var octets := Gsm7.EncodeGsm7Packed(Gsm7.DEFAULT_RUNES, text);
      r := OctetsOf(octets);
    }
  }

  method BuildSegment(cfg: Config, msg: Outgoing, headerAlways: bool, s: Segmentation.Segment, n: nat)
    returns (body: seq<Octet>)
    ensures body == Request(cfg, msg, DataCoding(msg), SegmentPart(cfg, DataCoding(msg), headerAlways, s, n))
  {
    var coding := DataCoding(msg);
    var payload := EncodeTextOf(s.text, coding, cfg.packed);
    var part := Part(0, payload, [], []);
    if n > 1 && cfg.mode.BySar? && !headerAlways {
      part := Part(0, payload, [], ConcatTlvs(s.reference, s.total, s.part));
    } else if n > 1 || headerAlways {
      part := Part(0x40, s.udh + payload, [], []);
    }
    body := BuildBody(cfg, msg, coding, part);
  }

  ghost function RequestsFor(cfg: Config, msg: Outgoing, headerAlways: bool,
                             segments: seq<Segmentation.Segment>): (r: seq<seq<Octet>>)
    ensures SegmentRequests(cfg, msg, headerAlways, segments, r)
  {
    seq(|segments|, i requires 0 <= i < |segments| =>
      Request(cfg, msg, DataCoding(msg), SegmentPart(cfg, DataCoding(msg), headerAlways, segments[i], |segments|)))
  }

  method BuildEach(cfg: Config, msg: Outgoing, headerAlways: bool, segments: seq<Segmentation.Segment>)
    returns (parts: seq<seq<Octet>>)
    ensures parts == RequestsFor(cfg, msg, headerAlways, segments)
  {
    ghost var expected := RequestsFor(cfg, msg, headerAlways, segments);
    parts := [];
    for i := 0 to |segments|
      invariant parts == expected[..i]
    {
      var body := BuildSegment(cfg, msg, headerAlways, segments[i], |segments|);
      parts := parts + [body];
    }
  }

  method BuildSegments(cfg: Config, msg: Outgoing, headerAlways: bool, reference: nat) returns (parts: seq<seq<Octet>>)
    ensures IsSegmented(cfg, msg, headerAlways, reference, parts)
  {
    var segments := Segmentation.Split(msg.text, Some(SplitCoding(msg)), reference);
    parts := BuildEach(cfg, msg, headerAlways, segments);
  }

  ghost predicate IsBuilt(cfg: Config, msg: Outgoing, reference: nat, parts: seq<seq<Octet>>) {
    match PlanFor(cfg, msg)
    case Whole(p) => parts == [Request(cfg, msg, DataCoding(msg), p)]
    case Segmented(always) => IsSegmented(cfg, msg, always, reference, parts)
  }

  method BuildSubmit(cfg: Config, msg: Outgoing, reference: nat) returns (parts: seq<seq<Octet>>)
    ensures IsBuilt(cfg, msg, reference, parts)
  {
    var coding := DataCoding(msg);
    var payload;
    if msg.raw.Some? { payload := msg.raw.value; } else { payload := EncodeTextOf(msg.text, coding, cfg.packed); }
    var part := Part(0, payload, [], []);
    if msg.sar.Some? {
      part := Part(0, payload, [], SarTlvs(msg.sar.value));
    } else if |msg.udh| > 0 {
      var info := Smpp.ParseConcat(msg.udh);
      if cfg.mode.BySar? && msg.raw.None? && info.Some? {
        part := Part(0, payload, [], ConcatTlvs(info.value.reference, info.value.total, info.value.part));
      } else {
        part := Part(0x40, msg.udh + payload, [], []);
        if cfg.mode.ByUdh? && msg.raw.None? && |part.short| > 254 {
          parts := BuildSegments(cfg, msg, true, reference);
          return;
        }
      }
    } else if cfg.mode.ByPayload? {
      part := Part(0, [], payload, []);
    } else if msg.raw.None? {
      parts := BuildSegments(cfg, msg, false, reference);
      return;
    }
    var body := BuildBody(cfg, msg, coding, part);
    parts := [body];
  }
}
