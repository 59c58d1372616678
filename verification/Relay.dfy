/**
  From the submit_sm of a client to the submit_sm for the provider: what a relayed message keeps.
 */
module Relay {
  import opened Octets
  import opened SmppFields
  import opened Smpp
  import opened SmppClient
  import opened Wrappers
  import Segmentation
  import Ucs2Text

  /** The envelope of a received request; addresses and text may have been rewritten on the way. */
  function Relayed(s: SubmitSm, source: seq<Octet>, dest: seq<Octet>, text: string,
                   encoding: Option<Segmentation.Coding>): Outgoing {
    var reference, total, part :=
      FindTlv(s.tlvs, SAR_MSG_REF_NUM), FindTlv(s.tlvs, SAR_TOTAL_SEGMENTS), FindTlv(s.tlvs, SAR_SEGMENT_SEQNUM);
    var sar := if reference.Some? && total.Some? && part.Some?
               then Some(Sar(reference.value, total.value, part.value)) else None;
    Outgoing(source, dest, text, encoding, s.dataCoding, s.registeredDelivery, s.udh, Some(s.payload), sar)
  }

  // ----- optional parameters of a built request

  lemma FindFirst(t: Tlv, ts: seq<Tlv>, tag: Word)
    ensures FindTlv([t] + ts, tag) == if t.tag == tag then Some(t.value) else FindTlv(ts, tag)
  {
    assert ([t] + ts)[1..] == ts;
  }

  lemma FindPayload(payload: seq<Octet>, tag: Word)
    ensures FindTlv(PayloadTlv(payload), tag) == if tag == MESSAGE_PAYLOAD && payload != [] then Some(payload) else None
  {
    if payload != [] {
      assert PayloadTlv(payload) == [Tlv(MESSAGE_PAYLOAD, payload)] + [];
      FindFirst(Tlv(MESSAGE_PAYLOAD, payload), [], tag);
    }
  }

  lemma FindInSar(sar: Sar, payload: seq<Octet>, tag: Word)
    ensures FindTlv(SarTlvs(sar) + PayloadTlv(payload), tag)
         == if tag == SAR_MSG_REF_NUM then Some(sar.reference)
            else if tag == SAR_TOTAL_SEGMENTS then Some(sar.total)
            else if tag == SAR_SEGMENT_SEQNUM then Some(sar.part)
            else if tag == MESSAGE_PAYLOAD && payload != [] then Some(payload) else None
  {
    var a, b, c := SarTlvs(sar)[0], SarTlvs(sar)[1], SarTlvs(sar)[2];
    var rest := PayloadTlv(payload);
    assert SarTlvs(sar) + rest == [a] + ([b] + ([c] + rest));
    FindFirst(a, [b] + ([c] + rest), tag);
    FindFirst(b, [c] + rest, tag);
    FindFirst(c, rest, tag);
    FindPayload(payload, tag);
  }

  lemma SarTagsOnce(sar: Sar, payload: seq<Octet>)
    ensures !RepeatsSar(SarTlvs(sar) + PayloadTlv(payload)) && HasSar(SarTlvs(sar) + PayloadTlv(payload))
  {
    var ts := SarTlvs(sar) + PayloadTlv(payload);
    assert IsSarTag(ts[0].tag);
    assert |ts| <= 4 && ts[1].tag == SAR_TOTAL_SEGMENTS && ts[2].tag == SAR_SEGMENT_SEQNUM;
    assert |ts| == 4 ==> ts[3].tag == MESSAGE_PAYLOAD;
  }

  lemma NoSarTags(payload: seq<Octet>)
    ensures !HasSar(PayloadTlv(payload)) && !RepeatsSar(PayloadTlv(payload)) && SarOf(PayloadTlv(payload)).None?
  {
    FindPayload(payload, SAR_MSG_REF_NUM);
  }

  // ----- what the built request means

  /** Parameters that number no part make the request an error. */
  lemma SarMeaning(sar: Sar, registered: Octet, coding: Octet, payload: seq<Octet>, info: Option<ConcatInfo>)
    requires SarOf(SarTlvs(sar)) == info
    ensures var c := ContentOf(registered, coding, payload, [], SarTlvs(sar));
            Meaning(0, c.short, c.tlvs) == if info.Some? then Ok(Message([], payload, info)) else Err
  {
    var carried := if |payload| > 254 then payload else [];
    var ts := SarTlvs(sar) + PayloadTlv(carried);
    SarTagsOnce(sar, carried);
    assert SarTlvs(sar) + PayloadTlv([]) == SarTlvs(sar);
    SarFound(sar, carried);
    SarFound(sar, []);
    FindInSar(sar, carried, MESSAGE_PAYLOAD);
  }

  lemma SarFound(sar: Sar, payload: seq<Octet>)
    ensures var ts := SarTlvs(sar) + PayloadTlv(payload);
            FindTlv(ts, SAR_MSG_REF_NUM) == Some(sar.reference) && FindTlv(ts, SAR_TOTAL_SEGMENTS) == Some(sar.total)
            && FindTlv(ts, SAR_SEGMENT_SEQNUM) == Some(sar.part)
  {
    FindInSar(sar, payload, SAR_MSG_REF_NUM);
    FindInSar(sar, payload, SAR_TOTAL_SEGMENTS);
    FindInSar(sar, payload, SAR_SEGMENT_SEQNUM);
  }

  lemma PlainMeaning(esmClass: Octet, registered: Octet, coding: Octet, short: seq<Octet>, payload: seq<Octet>)
    requires short == [] || payload == []
    ensures var c := ContentOf(registered, coding, short, payload, []);
            Meaning(esmClass, c.short, c.tlvs)
            == match SplitUdh(short + payload, esmClass)
               case Err => Err
               case Ok((udh, body)) => Ok(Message(udh, body, if udh != [] then ConcatOf(udh) else None))
  {
    var c := ContentOf(registered, coding, short, payload, []);
    var carried := if |short| > 254 then short else payload;
    assert c.tlvs == PayloadTlv(carried) by { assert [] + PayloadTlv(carried) == PayloadTlv(carried); }
    assert short + payload == if carried == [] then short else carried;
    FindPayload(carried, MESSAGE_PAYLOAD);
    NoSarTags(carried);
  }

  // ----- relaying

  /** The header is one on its own, and concatenation comes either from it or from the parameters. */
  ghost predicate Shaped(m: Message, tlvs: seq<Tlv>) {
    |m.udh + m.payload| < 65536
    && if m.udh != []
       then SplitUdh(m.udh + m.payload, 0x40) == Ok((m.udh, m.payload)) && !HasSar(tlvs) && m.concat == ConcatOf(m.udh)
       else m.concat == SarOf(tlvs) && (HasSar(tlvs) <==> m.concat.Some?)
  }

  /** What an accepted request tells about its message octets. */
  lemma MeaningShape(esmClass: Octet, short: seq<Octet>, tlvs: seq<Tlv>, m: Message)
    requires Meaning(esmClass, short, tlvs) == Ok(m) && |short| < 256 && TlvsFit(tlvs)
    ensures Shaped(m, tlvs)
  {
    var carried := FindTlv(tlvs, MESSAGE_PAYLOAD);
    if carried.Some? { FoundFits(tlvs, MESSAGE_PAYLOAD); }
    var raw := if carried.Some? then carried.value else short;
    UdhIsPrefix(raw, esmClass);
    if SarOf(tlvs).Some? { SarNeedsTags(tlvs); }
  }

  lemma {:induction false} FoundFits(tlvs: seq<Tlv>, tag: Word)
    requires TlvsFit(tlvs) && FindTlv(tlvs, tag).Some?
    ensures |FindTlv(tlvs, tag).value| < 65536
  {
    if tlvs[0].tag != tag { FoundFits(tlvs[1..], tag); }
  }

  /** The fields around the message are in range. */
  predicate InRange(cfg: Config, msg: Outgoing) {
    |cfg.serviceType| <= SERVICE_TYPE_MAX && |cfg.validity| <= TIME_MAX
    && |StripPlus(msg.source)| <= ADDRESS_MAX && |StripPlus(msg.dest)| <= ADDRESS_MAX
  }

  predicate NoNuls(cfg: Config, msg: Outgoing) {
    NulFree(cfg.serviceType) && NulFree(cfg.validity) && NulFree(StripPlus(msg.source)) && NulFree(StripPlus(msg.dest))
  }

  predicate PartFits(p: Part) {
    |p.short| < 65536 && |p.payload| < 65536 && TlvsFit(p.tlvs)
  }

  /** The number without the plus it starts with, if it does. */
  ghost predicate Unplussed(number: seq<Octet>, address: seq<Octet>) {
    number == [0x2B] + address || (number == address && (address == [] || address[0] != 0x2B))
  }

  /** The request is from and to those the message is, and asks for the receipts configured, or else those asked for. */
  ghost predicate AddressedAs(cfg: Config, msg: Outgoing, r: SubmitSm) {
    && Unplussed(msg.source, r.from) && Unplussed(msg.dest, r.to)
    && (cfg.registered.Some? ==> r.registeredDelivery == cfg.registered.value)
    && (cfg.registered.None? ==> r.registeredDelivery == msg.registered)
  }

  /** The fields around addresses and message are those configured, and short_message is within bounds. */
  ghost predicate WrappedAs(cfg: Config, body: seq<Octet>) {
    && ReadHead(body).Ok?
    && var (h, rest) := ReadHead(body).value;
    && h.serviceType == cfg.serviceType
    && h.source.ton == cfg.sourceTon && h.source.npi == cfg.sourceNpi
    && h.dest.ton == cfg.destTon && h.dest.npi == cfg.destNpi
    && h.protocolId == 0 && h.priority == 0
    && ReadTail(rest).Ok?
    && var t := ReadTail(rest).value;
    && t.schedule == [] && t.validity == cfg.validity && t.content.replace == 0 && t.content.defaultMsg == 0
    && |t.content.short| <= 254
  }

  lemma PlusGone(number: seq<Octet>)
    ensures Unplussed(number, StripPlus(number))
  {
  }

  /** Whatever it carries, a request that is accepted is addressed and wrapped as it should be. */
  lemma RequestAddressed(cfg: Config, msg: Outgoing, coding: Octet, p: Part)
    requires NoNuls(cfg, msg) && PartFits(p) && Parsed(Request(cfg, msg, coding, p)).Ok?
    ensures AddressedAs(cfg, msg, Parsed(Request(cfg, msg, coding, p)).value)
    ensures WrappedAs(cfg, Request(cfg, msg, coding, p))
  {
    var h, c := HeadOf(cfg, msg, p.esmClass), ContentOf(Registered(cfg, msg), coding, p.short, p.payload, p.tlvs);
    var t := Tail([], cfg.validity, c);
    assert TlvsFit(c.tlvs);
    ParsedWritten(h, t);
    HeadReads(h, WriteTail(t));
    TailReads(t);
    PlusGone(msg.source);
    PlusGone(msg.dest);
  }

  /** A request is accepted exactly when its part means something and its fields are in range. */
  lemma RequestParsed(cfg: Config, msg: Outgoing, coding: Octet, p: Part, m: Result<Message>)
    requires NoNuls(cfg, msg) && PartFits(p)
    requires var c := ContentOf(Registered(cfg, msg), coding, p.short, p.payload, p.tlvs);
             Meaning(p.esmClass, c.short, c.tlvs) == m
    ensures var r := Parsed(Request(cfg, msg, coding, p));
            if InRange(cfg, msg) && m.Ok? then
              r.Ok? && r.value.dataCoding == coding && Message(r.value.udh, r.value.payload, r.value.concat) == m.value
            else r.Err?
  {
    var h, c := HeadOf(cfg, msg, p.esmClass), ContentOf(Registered(cfg, msg), coding, p.short, p.payload, p.tlvs);
    var t := Tail([], cfg.validity, c);
    assert TlvsFit(c.tlvs);
    ParsedWritten(h, t);
  }

  /**
    Relaying is byte-exact: in each long-message mode the provider reads the header, octets, data coding and
    concatenation the client sent, from and to the numbers given, if and only if the fields around them are within
    their SMPP lengths.
   */
  lemma RelayIsExact(body: seq<Octet>, cfg: Config, source: seq<Octet>, dest: seq<Octet>, text: string,
                     encoding: Option<Segmentation.Coding>)
    requires Parsed(body).Ok?
    requires NoNuls(cfg, Relayed(Parsed(body).value, source, dest, text, encoding))
    ensures var s := Parsed(body).value;
            var msg := Relayed(s, source, dest, text, encoding);
            var plan := PlanFor(cfg, msg);
            plan.Whole?
            && var r := Parsed(Request(cfg, msg, DataCoding(msg), plan.part));
               (r.Ok? <==> InRange(cfg, msg))
               && (r.Ok? ==> r.value.udh == s.udh && r.value.payload == s.payload && r.value.concat == s.concat
                             && r.value.dataCoding == s.dataCoding && AddressedAs(cfg, msg, r.value)
                             && WrappedAs(cfg, Request(cfg, msg, DataCoding(msg), plan.part)))
  {
    var s := Parsed(body).value;
    var msg := Relayed(s, source, dest, text, encoding);
    var h, t, c := AcceptedFields(body);
    var m := Message(s.udh, s.payload, s.concat);
    MeaningShape(h.esmClass, c.short, c.tlvs, m);
    var part := PlanFor(cfg, msg).part;
    PartMeaning(cfg, msg, s, c, m);
    RequestParsed(cfg, msg, s.dataCoding, part, Ok(m));
    if Parsed(Request(cfg, msg, s.dataCoding, part)).Ok? { RequestAddressed(cfg, msg, s.dataCoding, part); }
  }

  lemma {:induction false} ConcatIsValid(es: seq<Element>)
    requires FirstConcat(es).Some?
    ensures ValidPart(FirstConcat(es).value.total, FirstConcat(es).value.part)
  {
    if !CarriesConcat(es[0]) { ConcatIsValid(es[1..]); }
  }

  lemma SarReads(sar: Sar, info: ConcatInfo)
    requires |sar.reference| == 2 && FromBig(sar.reference[0], sar.reference[1]) == info.reference
    requires sar.total == [info.total] && sar.part == [info.part] && ValidPart(info.total, info.part)
    ensures SarOf(SarTlvs(sar)) == Some(info)
  {
    SarFound(sar, []);
    assert SarTlvs(sar) + PayloadTlv([]) == SarTlvs(sar);
  }

  /** Numbers written as parameters are the numbers read from them. */
  lemma ConcatBecomesSar(info: ConcatInfo)
    requires ValidPart(info.total, info.part)
    ensures SarOf(ConcatTlvs(info.reference, info.total, info.part)) == Some(info)
  {
    SarReads(Sar(Big(info.reference % 65536), [info.total % 256], [info.part % 256]), info);
  }

  /** A message sent whole arrives with its octets; a header becomes parameters, or stays, with the same numbers. */
  lemma WholeArrives(cfg: Config, msg: Outgoing)
    requires NoNuls(cfg, msg) && InRange(cfg, msg) && PlanFor(cfg, msg).Whole? && PartFits(PlanFor(cfg, msg).part)
    requires msg.sar.None?
    requires var octets := msg.udh + Payload(cfg, msg);
             msg.udh != [] ==> SplitUdh(octets, 0x40) == Ok((msg.udh, Payload(cfg, msg)))
    ensures var r := Parsed(Request(cfg, msg, DataCoding(msg), PlanFor(cfg, msg).part));
            r.Ok? && r.value.payload == Payload(cfg, msg) && r.value.dataCoding == DataCoding(msg)
            && r.value.concat == ConcatOf(msg.udh)
            && (r.value.udh == msg.udh || (r.value.udh == [] && cfg.mode.BySar? && r.value.concat.Some?))
  {
    var payload, part := Payload(cfg, msg), PlanFor(cfg, msg).part;
    var registered, coding := Registered(cfg, msg), DataCoding(msg);
    if msg.udh == [] {
      NothingAdded(registered, coding, payload);
      RequestParsed(cfg, msg, coding, part, Ok(Message([], payload, None)));
    } else if cfg.mode.BySar? && msg.raw.None? && ConcatOf(msg.udh).Some? {
      var info := ConcatOf(msg.udh).value;
      ConcatIsValid(LeadingElements(msg.udh[1..1 + msg.udh[0]]).0);
      ConcatBecomesSar(info);
      SarMeaning(Sar(Big(info.reference % 65536), [info.total % 256], [info.part % 256]), registered, coding, payload,
                 Some(info));
      RequestParsed(cfg, msg, coding, part, Ok(Message([], payload, Some(info))));
    } else {
      PlainMeaning(0x40, registered, coding, msg.udh + payload, []);
      assert msg.udh + payload + [] == msg.udh + payload;
      RequestParsed(cfg, msg, coding, part, Ok(Message(msg.udh, payload, ConcatOf(msg.udh))));
    }
  }

  /** In payload mode the octets of a message without header travel in message_payload, however few. */
  lemma PayloadModeKept(cfg: Config, msg: Outgoing)
    requires NoNuls(cfg, msg) && InRange(cfg, msg) && cfg.mode.ByPayload? && msg.sar.None? && msg.udh == []
    requires 0 < |Payload(cfg, msg)| < 65536
    ensures PlanFor(cfg, msg).Whole?
            && var r := Parsed(Request(cfg, msg, DataCoding(msg), PlanFor(cfg, msg).part));
               r.Ok? && r.value.tlvs == [Tlv(0x0424, Payload(cfg, msg))] && r.value.payload == Payload(cfg, msg)
  {
    WholeArrives(cfg, msg);
    var payload := Payload(cfg, msg);
    var c := ContentOf(Registered(cfg, msg), DataCoding(msg), [], payload, []);
    assert c.tlvs == [Tlv(0x0424, payload)];
    ParsedWritten(HeadOf(cfg, msg, 0), Tail([], cfg.validity, c));
  }

  lemma AcceptedFields(body: seq<Octet>) returns (h: Head, t: Tail, c: Content)
    requires Parsed(body).Ok?
    ensures var s := Parsed(body).value;
            c == t.content && |c.short| < 256 && TlvsFit(c.tlvs) && c.tlvs == s.tlvs
            && Meaning(h.esmClass, c.short, c.tlvs) == Ok(Message(s.udh, s.payload, s.concat))
  {
    HeadRead(body);
    h := ReadHead(body).value.0;
    TailRead(ReadHead(body).value.1);
    t := ReadTail(ReadHead(body).value.1).value;
    c := t.content;
  }

  lemma PartMeaning(cfg: Config, msg: Outgoing, s: SubmitSm, c: Content, m: Message)
    requires msg == Relayed(s, msg.source, msg.dest, msg.text, msg.encoding)
    requires m == Message(s.udh, s.payload, s.concat) && s.tlvs == c.tlvs && TlvsFit(c.tlvs) && Shaped(m, c.tlvs)
    ensures PlanFor(cfg, msg).Whole? && PartFits(PlanFor(cfg, msg).part)
    ensures var p := PlanFor(cfg, msg).part;
            var d := ContentOf(Registered(cfg, msg), s.dataCoding, p.short, p.payload, p.tlvs);
            Meaning(p.esmClass, d.short, d.tlvs) == Ok(m)
  {
    var registered := Registered(cfg, msg);
    if msg.sar.Some? {
      SarKept(msg.sar.value, c.tlvs, m);
      SarMeaning(msg.sar.value, registered, s.dataCoding, s.payload, m.concat);
    } else if s.udh != [] {
      PlainMeaning(0x40, registered, s.dataCoding, s.udh + s.payload, []);
      assert s.udh + s.payload + [] == s.udh + s.payload;
    } else {
      NothingAdded(registered, s.dataCoding, s.payload);
    }
  }

  lemma SarKept(sar: Sar, tlvs: seq<Tlv>, m: Message)
    requires FindTlv(tlvs, SAR_MSG_REF_NUM) == Some(sar.reference)
             && FindTlv(tlvs, SAR_TOTAL_SEGMENTS) == Some(sar.total)
    requires FindTlv(tlvs, SAR_SEGMENT_SEQNUM) == Some(sar.part) && TlvsFit(tlvs) && Shaped(m, tlvs)
    ensures m.udh == [] && m.concat.Some? && SarOf(SarTlvs(sar)) == m.concat && TlvsFit(SarTlvs(sar))
  {
    FindSome(tlvs, SAR_MSG_REF_NUM);
    FoundFits(tlvs, SAR_MSG_REF_NUM);
    FoundFits(tlvs, SAR_TOTAL_SEGMENTS);
    FoundFits(tlvs, SAR_SEGMENT_SEQNUM);
    SarFound(sar, []);
    assert SarTlvs(sar) + PayloadTlv([]) == SarTlvs(sar);
  }

  lemma NothingAdded(registered: Octet, coding: Octet, payload: seq<Octet>)
    ensures var c := ContentOf(registered, coding, payload, [], []);
            Meaning(0, c.short, c.tlvs) == Ok(Message([], payload, None))
    ensures var c := ContentOf(registered, coding, [], payload, []);
            Meaning(0, c.short, c.tlvs) == Ok(Message([], payload, None))
  {
    assert payload + [] == payload == [] + payload;
    PlainMeaning(0, registered, coding, payload, []);
    PlainMeaning(0, registered, coding, [], payload);
  }

  lemma FindSome(ts: seq<Tlv>, tag: Word)
    requires FindTlv(ts, tag).Some? && IsSarTag(tag)
    ensures HasSar(ts)
  {
    NoTagNoTlv(ts, tag);
    var i :| 0 <= i < |ts| && ts[i].tag == tag;
    assert IsSarTag(ts[i].tag);
  }

  // ----- long UCS-2 texts

  /** The header of one segment is read as its numbers, or refused when they wrapped around. */
  lemma HeaderMeaning(reference: nat, part: int, total: int, payload: seq<Octet>)
    ensures SplitUdh(Segmentation.ConcatUdh(reference, part, total) + payload, 0x40)
         == if ValidPart(total % 256, part % 256) then Ok((Segmentation.ConcatUdh(reference, part, total), payload))
            else Err
    ensures ConcatOf(Segmentation.ConcatUdh(reference, part, total))
            == NewConcatInfo(reference % 256, total % 256, part % 256)
  {
    var e := Element(0, [reference % 256, total % 256, part % 256]);
    var udh := Segmentation.ConcatUdh(reference, part, total);
    var w := WriteElement(e);
    ElementReads(e, []);
    assert w + [] == w && udh == [5] + w;
    assert LeadingElements([]) == ([], []) && [e] + [] == [e];
    assert LeadingElements(w) == ([e], []);
    OkMore(e, []);
    assert udh[1..6] == w && (udh + payload)[1..6] == w && (udh + payload)[..6] == udh
           && (udh + payload)[6..] == payload;
  }
}
