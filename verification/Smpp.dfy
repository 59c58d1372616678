/**
  Receiving submit_sm: the user data header, segmentation by optional parameters, and the checks
  that decide what a request means.
 */
module Smpp {
  import opened Octets
  import opened SmppFields
  import opened Wrappers

  const SAR_MSG_REF_NUM: Word := 0x020C
  const SAR_TOTAL_SEGMENTS: Word := 0x020E
  const SAR_SEGMENT_SEQNUM: Word := 0x020F
  const MESSAGE_PAYLOAD: Word := 0x0424

  datatype ConcatInfo = ConcatInfo(reference: Word, total: Octet, part: Octet)

  predicate ValidPart(total: Octet, part: Octet) {
    0 < part <= total
  }

  function NewConcatInfo(reference: Word, total: Octet, part: Octet): Option<ConcatInfo> {
    if ValidPart(total, part) then Some(ConcatInfo(reference, total, part)) else None
  }

  // ----- user data header (section 9.2.3.24 of 3GPP TS 23.040)

  datatype Element = Element(id: Octet, data: seq<Octet>)

  function WriteElement(e: Element): seq<Octet>
    requires |e.data| < 256
  {
    [e.id, |e.data|] + e.data
  }

  predicate ElementsFit(es: seq<Element>) {
    forall i :: 0 <= i < |es| ==> |es[i].data| < 256
  }

  function WriteElements(es: seq<Element>): seq<Octet>
    requires ElementsFit(es)
  {
    if es == [] then [] else WriteElement(es[0]) + WriteElements(es[1..])
  }

  /** The element at the front and what follows it. */
  function ReadElement(b: seq<Octet>): Result<(Element, seq<Octet>)> {
    if |b| < 2 || 2 + b[1] > |b| then Err else Ok((Element(b[0], b[2..2 + b[1]]), b[2 + b[1]..]))
  }

  /** The elements up to the first octets that are not one, and those octets. */
  function LeadingElements(b: seq<Octet>): (seq<Element>, seq<Octet>)
    decreases |b|
  {
    match ReadElement(b)
    case Err => ([], b)
    case Ok((e, rest)) => var (es, junk) := LeadingElements(rest); ([e] + es, junk)
  }

  lemma ElementRead(b: seq<Octet>)
    requires ReadElement(b).Ok?
    ensures var (e, rest) := ReadElement(b).value; |e.data| < 256 && b == WriteElement(e) + rest
  {
    var (e, rest) := ReadElement(b).value;
    assert |e.data| == b[1] && b == [b[0], b[1]] + e.data + rest;
  }

  lemma ElementReads(e: Element, rest: seq<Octet>)
    requires |e.data| < 256
    ensures ReadElement(WriteElement(e) + rest) == Ok((e, rest))
  {
    var b, n := WriteElement(e) + rest, |e.data|;
    assert b[2..2 + n] == e.data && b[2 + n..] == rest;
  }

  lemma ElementBefore(e: Element, es: seq<Element>, junk: seq<Octet>)
    requires |e.data| < 256 && ElementsFit(es)
    ensures ElementsFit([e] + es) && WriteElements([e] + es) + junk == WriteElement(e) + (WriteElements(es) + junk)
  {
    assert ([e] + es)[1..] == es;
  }

  lemma {:induction false} ElementsWritten(b: seq<Octet>)
    ensures var (es, junk) := LeadingElements(b);
            ElementsFit(es) && b == WriteElements(es) + junk && ReadElement(junk).Err?
    decreases |b|
  {
    if ReadElement(b).Ok? {
      ElementRead(b);
      var (e, rest) := ReadElement(b).value;
      ElementsWritten(rest);
      var (es, junk) := LeadingElements(rest);
      ElementBefore(e, es, junk);
    }
  }

  lemma {:induction false} ElementsRead(es: seq<Element>)
    requires ElementsFit(es)
    ensures LeadingElements(WriteElements(es)) == (es, [])
  {
    if es != [] {
      ElementReads(es[0], WriteElements(es[1..]));
      ElementsRead(es[1..]);
      assert es == [es[0]] + es[1..];
    }
  }

  /** Concatenation elements must be of the right size and number a part of the whole. */
  predicate ElementOk(e: Element) {
    (e.id == 0 ==> |e.data| == 3 && ValidPart(e.data[1], e.data[2]))
    && (e.id == 8 ==> |e.data| == 4 && ValidPart(e.data[2], e.data[3]))
  }

  predicate AllOk(es: seq<Element>) {
    forall i :: 0 <= i < |es| ==> ElementOk(es[i])
  }

  /** Header and text, or an error: a header announced is a length and that many octets of proper elements. */
  function SplitUdh(raw: seq<Octet>, esmClass: Octet): Result<(seq<Octet>, seq<Octet>)> {
    if !Bit6(esmClass) then Ok(([], raw))
    else if raw == [] || raw[0] == 0 || 1 + raw[0] > |raw| then Err
    else
      var n := 1 + raw[0] as int;
      var (es, junk) := LeadingElements(raw[1..n]);
      if junk == [] && AllOk(es) then Ok((raw[..n], raw[n..])) else Err
  }

  /** Header and text are the octets, cut in two. */
  lemma UdhIsPrefix(raw: seq<Octet>, esmClass: Octet)
    requires SplitUdh(raw, esmClass).Ok?
    ensures var (udh, body) := SplitUdh(raw, esmClass).value;
            raw == udh + body && (udh != [] <==> Bit6(esmClass))
  {
    if Bit6(esmClass) {
      var n := 1 + raw[0] as int;
      assert raw == raw[..n] + raw[n..];
    }
  }

  predicate CarriesConcat(e: Element) {
    (e.id == 0 && |e.data| == 3) || (e.id == 8 && |e.data| == 4)
  }

  function ElementConcat(e: Element): Option<ConcatInfo>
    requires CarriesConcat(e)
  {
    if e.id == 0 then NewConcatInfo(e.data[0], e.data[1], e.data[2])
    else NewConcatInfo(FromBig(e.data[0], e.data[1]), e.data[2], e.data[3])
  }

  /** The first concatenation element speaks for the header. */
  function FirstConcat(es: seq<Element>): Option<ConcatInfo> {
    if es == [] then None else if CarriesConcat(es[0]) then ElementConcat(es[0]) else FirstConcat(es[1..])
  }

  function ConcatOf(udh: seq<Octet>): Option<ConcatInfo> {
    if udh == [] || 1 + udh[0] > |udh| then None else FirstConcat(LeadingElements(udh[1..1 + udh[0]]).0)
  }

  lemma UdhSplits(w: seq<Octet>, es: seq<Element>, text: seq<Octet>, esmClass: Octet)
    requires Bit6(esmClass) && LeadingElements(w) == (es, []) && AllOk(es) && 0 < |w| < 256
    ensures SplitUdh([|w|] + w + text, esmClass) == Ok(([|w|] + w, text)) && ConcatOf([|w|] + w) == FirstConcat(es)
  {
    var udh := [|w|] + w;
    assert (udh + text)[1..1 + |w|] == w && udh[1..1 + |w|] == w;
    assert (udh + text)[..1 + |w|] == udh && (udh + text)[1 + |w|..] == text;
  }

  /** The two concatenation elements: a reference of one octet or two, the number of parts, the part. */
  lemma ConcatHeaders(high: Octet, low: Octet, total: Octet, part: Octet)
    requires 0 < part <= total
    ensures ConcatOf([5, 0, 3, low, total, part]) == Some(ConcatInfo(low, total, part))
    ensures ConcatOf([6, 8, 4, high, low, total, part]) == Some(ConcatInfo(high * 256 + low, total, part))
  {
    LoneElement(Element(0, [low, total, part]));
    LoneElement(Element(8, [high, low, total, part]));
    assert [5, 0, 3, low, total, part] == [5] + [0, 3] + [low, total, part];
    assert [6, 8, 4, high, low, total, part] == [6] + [8, 4] + [high, low, total, part];
  }

  lemma LoneElement(e: Element)
    requires |e.data| < 254 && CarriesConcat(e)
    ensures ConcatOf([2 + |e.data|] + [e.id, |e.data|] + e.data) == ElementConcat(e)
  {
    var w, udh := WriteElement(e), [2 + |e.data|] + [e.id, |e.data|] + e.data;
    ElementReads(e, []);
    assert w + [] == w && udh[1..1 + |w|] == w;
    assert LeadingElements([]) == ([], []) && [e] + [] == [e];
    assert LeadingElements(w) == ([e], []);
  }

  /** A header of proper elements is read as those elements ... */
  lemma UdhReads(es: seq<Element>, text: seq<Octet>, esmClass: Octet)
    requires Bit6(esmClass) && ElementsFit(es) && AllOk(es) && 0 < |WriteElements(es)| < 256
    ensures var udh := [|WriteElements(es)|] + WriteElements(es);
            SplitUdh(udh + text, esmClass) == Ok((udh, text)) && ConcatOf(udh) == FirstConcat(es)
  {
    ElementsRead(es);
    UdhSplits(WriteElements(es), es, text, esmClass);
  }

  /** ... and no other header is accepted. */
  lemma UdhRead(raw: seq<Octet>, esmClass: Octet) returns (es: seq<Element>)
    requires Bit6(esmClass) && SplitUdh(raw, esmClass).Ok?
    ensures ElementsFit(es) && AllOk(es) && 0 < |WriteElements(es)| < 256
    ensures SplitUdh(raw, esmClass).value.0 == [|WriteElements(es)|] + WriteElements(es)
  {
    var n := 1 + raw[0] as int;
    ElementsWritten(raw[1..n]);
    es := LeadingElements(raw[1..n]).0;
    assert WriteElements(es) + [] == WriteElements(es);
    assert raw[..n] == [raw[0]] + raw[1..n];
  }

  lemma OkMore(e: Element, es: seq<Element>)
    ensures AllOk([e] + es) <==> ElementOk(e) && AllOk(es)
  {
    var all := [e] + es;
    if AllOk(all) {
      assert ElementOk(all[0]);
      forall i | 0 <= i < |es| ensures ElementOk(es[i]) { assert es[i] == all[i + 1]; }
    }
  }

  /** The checking loop. */
  method ElementsAccepted(b: seq<Octet>) returns (ok: bool)
    ensures ok <==> LeadingElements(b).1 == [] && AllOk(LeadingElements(b).0)
  {
    var ies := b;
    while |ies| > 0
      invariant LeadingElements(b).1 == LeadingElements(ies).1
      invariant AllOk(LeadingElements(b).0) <==> AllOk(LeadingElements(ies).0)
      decreases |ies|
    {
      if |ies| < 2 { return false; }
      var length := ies[1];
      if length > |ies| - 2 { return false; }
      var data := ies[2..2 + length];
      ghost var e := Element(ies[0], data);
      OkMore(e, LeadingElements(ies[2 + length..]).0);
      if ies[0] == 0 && (|data| != 3 || !ValidPart(data[1], data[2])) { return false; }
      if ies[0] == 8 && (|data| != 4 || !ValidPart(data[2], data[3])) { return false; }
      ies := ies[2 + length..];
    }
    return true;
  }

  method SplitUdhOf(raw: seq<Octet>, esmClass: Octet) returns (r: Result<(seq<Octet>, seq<Octet>)>)
    ensures r == SplitUdh(raw, esmClass)
  {
    if !Bit6(esmClass) { return Ok(([], raw)); }
    if |raw| == 0 { return Err; }
    var udhLen := raw[0] as int + 1;
    if udhLen <= 1 || udhLen > |raw| { return Err; }
    var ok := ElementsAccepted(raw[1..udhLen]);
    return if ok then Ok((raw[..udhLen], raw[udhLen..])) else Err;
  }

  method ParseConcat(udh: seq<Octet>) returns (r: Option<ConcatInfo>)
    ensures r == ConcatOf(udh)
  {
    if |udh| == 0 { return None; }
    var udhLen := udh[0];
    if 1 + udhLen > |udh| { return None; }
    var ies := udh[1..1 + udhLen];
    while |ies| >= 2
      invariant FirstConcat(LeadingElements(udh[1..1 + udhLen]).0) == FirstConcat(LeadingElements(ies).0)
      decreases |ies|
    {
      var iedl := ies[1];
      if 2 + iedl > |ies| { break; }
      var data, rest := ies[2..2 + iedl], ies[2 + iedl..];
      ghost var later := LeadingElements(rest).0;
      assert LeadingElements(ies).0 == [Element(ies[0], data)] + later;
      assert ([Element(ies[0], data)] + later)[1..] == later;
      if ies[0] == 0 && |data| == 3 { return NewConcatInfo(data[0], data[1], data[2]); }
      if ies[0] == 8 && |data| == 4 { return NewConcatInfo(FromBig(data[0], data[1]), data[2], data[3]); }
      ies := rest;
    }
    return None;
  }

  // ----- segmentation by optional parameters

  predicate IsSarTag(tag: Word) {
    tag == SAR_MSG_REF_NUM || tag == SAR_TOTAL_SEGMENTS || tag == SAR_SEGMENT_SEQNUM
  }

  /** The value under the first parameter with a tag. */
  function FindTlv(ts: seq<Tlv>, tag: Word): Option<seq<Octet>> {
    if ts == [] then None else if ts[0].tag == tag then Some(ts[0].value) else FindTlv(ts[1..], tag)
  }

  ghost predicate HasTag(ts: seq<Tlv>, tag: Word) {
    exists i :: 0 <= i < |ts| && ts[i].tag == tag
  }

  ghost predicate HasSar(ts: seq<Tlv>) {
    exists i :: 0 <= i < |ts| && IsSarTag(ts[i].tag)
  }

  ghost predicate RepeatsSar(ts: seq<Tlv>) {
    exists i, k :: 0 <= i < k < |ts| && IsSarTag(ts[i].tag) && ts[i].tag == ts[k].tag
  }

  function SarOf(ts: seq<Tlv>): Option<ConcatInfo> {
    var ref, total := FindTlv(ts, SAR_MSG_REF_NUM), FindTlv(ts, SAR_TOTAL_SEGMENTS);
    var part := FindTlv(ts, SAR_SEGMENT_SEQNUM);
    if ref.None? || total.None? || part.None? then None
    else if (|ref.value| != 1 && |ref.value| != 2) || |total.value| != 1 || |part.value| != 1 then None
    else
      NewConcatInfo(if |ref.value| == 1 then ref.value[0] else FromBig(ref.value[0], ref.value[1]),
                    total.value[0], part.value[0])
  }

  method FindTlvIn(ts: seq<Tlv>, tag: Word) returns (r: Option<seq<Octet>>)
    ensures r == FindTlv(ts, tag)
  {
    assert ts[0..] == ts;
    for i := 0 to |ts|
      invariant FindTlv(ts, tag) == FindTlv(ts[i..], tag)
    {
      assert ts[i..][1..] == ts[i + 1..];
      if ts[i].tag == tag { return Some(ts[i].value); }
    }
    return None;
  }

  method HasSarIn(ts: seq<Tlv>) returns (r: bool)
    ensures r == HasSar(ts)
  {
    for i := 0 to |ts|
      invariant forall k :: 0 <= k < i ==> !IsSarTag(ts[k].tag)
    {
      if IsSarTag(ts[i].tag) { return true; }
    }
    return false;
  }

  method RepeatsSarIn(ts: seq<Tlv>) returns (r: bool)
    ensures r == RepeatsSar(ts)
  {
    var seen: set<Word> := {};
    for i := 0 to |ts|
      invariant forall tag :: tag in seen ==> IsSarTag(tag) && exists k :: 0 <= k < i && ts[k].tag == tag
      invariant forall k :: 0 <= k < i && IsSarTag(ts[k].tag) ==> ts[k].tag in seen
      invariant forall j, k :: 0 <= j < k < i ==> !(IsSarTag(ts[j].tag) && ts[j].tag == ts[k].tag)
    {
      if IsSarTag(ts[i].tag) {
        if ts[i].tag in seen { return true; }
        seen := seen + {ts[i].tag};
      }
    }
    return false;
  }

  // ----- submit_sm

  datatype SubmitSm = SubmitSm(from: seq<Octet>, to: seq<Octet>, dataCoding: Octet, registeredDelivery: Octet,
                               esmClass: Octet, protocolId: Octet, priorityFlag: Octet, replaceIfPresent: Octet,
                               defaultMsgId: Octet, optionalParamsOffset: int,
                               payload: seq<Octet>, udh: seq<Octet>, concat: Option<ConcatInfo>, tlvs: seq<Tlv>)

  datatype Message = Message(udh: seq<Octet>, payload: seq<Octet>, concat: Option<ConcatInfo>)

  /** What the message bytes and parameters of a well-formed request mean, or that they contradict each other. */
  ghost function Meaning(esmClass: Octet, short: seq<Octet>, tlvs: seq<Tlv>): Result<Message> {
    var carried := FindTlv(tlvs, MESSAGE_PAYLOAD);
    if RepeatsSar(tlvs) || (carried.Some? && short != []) then Err
    else
      var (udh, payload) :- SplitUdh(if carried.Some? then carried.value else short, esmClass);
      if udh != [] && HasSar(tlvs) then Err
      else if HasSar(tlvs) && SarOf(tlvs).None? then Err
      else Ok(Message(udh, payload, if udh != [] then ConcatOf(udh) else SarOf(tlvs)))
  }

  ghost function Parsed(body: seq<Octet>): Result<SubmitSm> {
    var (h, rest) :- ReadHead(body);
    var t :- ReadTail(rest);
    var c := t.content;
    var m :- Meaning(h.esmClass, c.short, c.tlvs);
    Ok(SubmitSm(h.source.value, h.dest.value, c.coding, c.registered, h.esmClass, h.protocolId, h.priority, c.replace,
                c.defaultMsg, |body| - |WriteTlvs(c.tlvs)|, m.payload, m.udh, m.concat, c.tlvs))
  }

  /** Without any such parameter there is nothing to segment by. */
  lemma {:induction false} NoTagNoTlv(ts: seq<Tlv>, tag: Word)
    ensures FindTlv(ts, tag).Some? <==> HasTag(ts, tag)
  {
    if ts != [] {
      NoTagNoTlv(ts[1..], tag);
      if HasTag(ts, tag) && ts[0].tag != tag {
        var i :| 0 <= i < |ts| && ts[i].tag == tag;
        assert ts[1..][i - 1].tag == tag;
      }
    }
  }

  lemma SarNeedsTags(ts: seq<Tlv>)
    requires SarOf(ts).Some?
    ensures HasSar(ts)
  {
    NoTagNoTlv(ts, SAR_MSG_REF_NUM);
    var i :| 0 <= i < |ts| && ts[i].tag == SAR_MSG_REF_NUM;
    assert IsSarTag(ts[i].tag);
  }

  /**
    A request is read as exactly the fields that lay it out, and refused when those are out of range or contradictory.
   */
  lemma ParsedWritten(h: Head, t: Tail)
    requires HeadNulFree(h) && TailFits(t)
    ensures var c := t.content;
            var m := Meaning(h.esmClass, c.short, c.tlvs);
            Parsed(WriteSubmit(h, t))
            == if HeadInRange(h) && TailInRange(t) && m.Ok?
               then Ok(SubmitSm(h.source.value, h.dest.value, c.coding, c.registered, h.esmClass, h.protocolId,
                                h.priority, c.replace, c.defaultMsg,
                                |WriteHead(h)| + |WriteTail(t)| - |WriteTlvs(c.tlvs)|,
                                m.value.payload, m.value.udh, m.value.concat, c.tlvs))
               else Err
  {
    HeadReads(h, WriteTail(t));
    TailReads(t);
  }

  lemma ParsedOnlyWritten(body: seq<Octet>)
    requires Parsed(body).Ok?
    ensures exists h, t ::
              HeadNulFree(h) && HeadInRange(h) && TailFits(t) && TailInRange(t) && body == WriteSubmit(h, t)
              && Meaning(h.esmClass, t.content.short, t.content.tlvs)
              == Ok(Message(Parsed(body).value.udh, Parsed(body).value.payload, Parsed(body).value.concat))
  {
    HeadRead(body);
    var (h, rest) := ReadHead(body).value;
    TailRead(rest);
    var t := ReadTail(rest).value;
    assert body == WriteSubmit(h, t);
  }

  // ----- the reading code

  method ParseAddress(body: seq<Octet>, start: nat) returns (r: Result<Address>, offset: nat)
    requires start <= |body|
    ensures offset <= |body|
    ensures r.Err? ==> ReadAddress(body[start..]).Err?
    ensures r.Ok? ==> ReadAddress(body[start..]) == Ok((r.value, body[offset..]))
  {
    if start + 2 > |body| { return Err, start; }
    offset := start + 2;
    assert body[start..][2..] == body[offset..];
    var value;
    value, offset := ReadCStringMax(body, offset, ADDRESS_MAX);
    if value.Err? { return Err, offset; }
    return Ok(Address(body[start], body[start + 1], value.value)), offset;
  }

  method ParseHead(body: seq<Octet>) returns (r: Result<Head>, offset: nat)
    ensures offset <= |body|
    ensures r.Err? ==> ReadHead(body).Err?
    ensures r.Ok? ==> ReadHead(body) == Ok((r.value, body[offset..]))
  {
    assert body[0..] == body;
    var serviceType;
    serviceType, offset := ReadCStringMax(body, 0, SERVICE_TYPE_MAX);
    if serviceType.Err? { return Err, offset; }
    var source;
    source, offset := ParseAddress(body, offset);
    if source.Err? { return Err, offset; }
    var dest;
    dest, offset := ParseAddress(body, offset);
    if dest.Err? || offset + 3 > |body| { return Err, offset; }
    var esmClass, protocolId, priority := body[offset], body[offset + 1], body[offset + 2];
    assert body[offset..][3..] == body[offset + 3..];
    offset := offset + 3;
    return Ok(Head(serviceType.value, source.value, dest.value, esmClass, protocolId, priority)), offset;
  }

  method ParseShort(body: seq<Octet>, start: nat) returns (r: Result<seq<Octet>>, next: nat)
    requires start < |body|
    ensures next <= |body|
    ensures r.Err? ==> ReadShort(body[start..]).Err?
    ensures r.Ok? ==> ReadShort(body[start..]) == Ok((r.value, body[next..]))
  {
    var smLen := body[start] as int;
    next := start + 1;
    if next + smLen > |body| { return Err, next; }
    r := Ok(body[next..next + smLen]);
    next := next + smLen;
    assert body[start..][1..1 + smLen] == r.value && body[start..][1 + smLen..] == body[next..];
  }

  /** From registered_delivery to the last optional parameter; next is where the optional parameters start. */
  method ParseContent(body: seq<Octet>, start: nat) returns (r: Result<Content>, next: nat)
    requires start <= |body|
    ensures r == ReadContent(body[start..])
    ensures r.Ok? ==> next == |body| - |WriteTlvs(r.value.tlvs)|
  {
    next := start;
    if next + 5 > |body| { return Err, next; }
    var registered, replace, coding, defaultMsg := body[next], body[next + 1], body[next + 2], body[next + 3];
    next := next + 4;
    assert body[start..][4..] == body[next..];
    var short;
    short, next := ParseShort(body, next);
    if short.Err? { return Err, next; }
    var tlvs := ParseTlvs(body[next..]);
    if tlvs.Err? { return Err, next; }
    r := Ok(Content(registered, replace, coding, defaultMsg, short.value, tlvs.value));
  }

  method ParseTail(body: seq<Octet>, start: nat) returns (r: Result<Tail>, next: nat)
    requires start <= |body|
    ensures r == ReadTail(body[start..])
    ensures r.Ok? ==> next == |body| - |WriteTlvs(r.value.content.tlvs)|
  {
    var schedule;
    schedule, next := ReadCStringMax(body, start, TIME_MAX);
    if schedule.Err? { return Err, next; }
    var validity;
    validity, next := ReadCStringMax(body, next, TIME_MAX);
    if validity.Err? { return Err, next; }
    var content;
    content, next := ParseContent(body, next);
    if content.Err? { return Err, next; }
    r := Ok(Tail(schedule.value, validity.value, content.value));
  }

  /** The checks after the fields, in the order of the source. */
  method Interpret(esmClass: Octet, short: seq<Octet>, tlvs: seq<Tlv>) returns (r: Result<Message>)
    ensures r == Meaning(esmClass, short, tlvs)
  {
    var repeated := RepeatsSarIn(tlvs);
    if repeated { return Err; }
    var raw := short;
    var carried := FindTlvIn(tlvs, MESSAGE_PAYLOAD);
    if carried.Some? {
      if |short| > 0 { return Err; }
      raw := carried.value;
    }
    var split := SplitUdhOf(raw, esmClass);
    if split.Err? { return Err; }
    var (udh, payload) := split.value;
    var concat: Option<ConcatInfo> := None;
    var sar := HasSarIn(tlvs);
    if udh != [] { concat := ParseConcat(udh); }
    if concat.None? {
      concat := SarOf(tlvs);
      if concat.None? && sar { return Err; }
      if concat.Some? { SarNeedsTags(tlvs); }
    }
    if udh != [] && sar { return Err; }
    return Ok(Message(udh, payload, concat));
  }

  method ParseSubmit(body: seq<Octet>) returns (r: Result<SubmitSm>)
    ensures r == Parsed(body)
  {
    var head, offset := ParseHead(body);
    if head.Err? { return Err; }
    var h := head.value;
    var tail;
    tail, offset := ParseTail(body, offset);
    if tail.Err? { return Err; }
    var c := tail.value.content;
    var m := Interpret(h.esmClass, c.short, c.tlvs);
    if m.Err? { return Err; }
    return Ok(SubmitSm(h.source.value, h.dest.value, c.coding, c.registered, h.esmClass, h.protocolId, h.priority,
                       c.replace, c.defaultMsg, offset, m.value.payload, m.value.udh, m.value.concat, c.tlvs));
  }
}
