/**
  The mandatory and optional fields of submit_sm (sections 4.4.1 and 3.2.4 of the SMPP Protocol
  Specification v3.4): how they are laid out, and how they are read back.
 */
module SmppFields {
  import opened Octets
  import opened Wrappers

  const SERVICE_TYPE_MAX := 6
  const ADDRESS_MAX := 20
  const TIME_MAX := 16

  // ----- C-octet strings

  predicate NulFree(s: seq<Octet>) {
    forall i :: 0 <= i < |s| ==> s[i] != 0
  }

  function CString(s: seq<Octet>): seq<Octet> {
    s + [0]
  }

  /** A string of at most max octets up to its NUL, and what follows. */
  function ReadCString(b: seq<Octet>, max: nat): Result<(seq<Octet>, seq<Octet>)> {
    if b == [] then Err
    else if b[0] == 0 then Ok(([], b[1..]))
    else if max == 0 then Err
    else
      var (v, rest) :- ReadCString(b[1..], max - 1);
      Ok(([b[0]] + v, rest))
  }

  lemma {:induction false} CStringReads(v: seq<Octet>, rest: seq<Octet>, max: nat)
    requires NulFree(v)
    ensures ReadCString(CString(v) + rest, max) == if |v| <= max then Ok((v, rest)) else Err
  {
    var b := CString(v) + rest;
    if v == [] { assert b[1..] == rest; }
    else {
      assert b[1..] == CString(v[1..]) + rest && b[0] == v[0];
      if max > 0 {
        CStringReads(v[1..], rest, max - 1);
        assert v == [v[0]] + v[1..];
      }
    }
  }

  lemma {:induction false} CStringRead(b: seq<Octet>, max: nat)
    requires ReadCString(b, max).Ok?
    ensures var (v, rest) := ReadCString(b, max).value; NulFree(v) && |v| <= max && b == CString(v) + rest
  {
    if b[0] != 0 { CStringRead(b[1..], max - 1); }
  }

  predicate NoNul(body: seq<Octet>, lo: nat, hi: nat)
    requires hi <= |body|
  {
    forall k :: lo <= k < hi ==> body[k] != 0
  }

  /** The scanning loop; next is where the following field starts. */
  method ReadCStringMax(body: seq<Octet>, offset: nat, max: nat) returns (r: Result<seq<Octet>>, next: nat)
    requires offset <= |body|
    ensures next <= |body|
    ensures r.Err? ==> ReadCString(body[offset..], max).Err?
    ensures r.Ok? ==> ReadCString(body[offset..], max) == Ok((r.value, body[next..]))
  {
    next := offset;
    while next < |body| && body[next] != 0
      invariant offset <= next <= |body| && next - offset <= max && NoNul(body, offset, next)
    {
      if next - offset >= max {
        TooLong(body, offset, next, max);
        return Err, next;
      }
      next := next + 1;
    }
    if next >= |body| {
      Unterminated(body, offset, max);
      return Err, next;
    }
    Terminated(body, offset, next, max);
    return Ok(body[offset..next]), next + 1;
  }

  lemma Terminated(body: seq<Octet>, offset: nat, next: nat, max: nat)
    requires offset <= next < |body| && next - offset <= max && NoNul(body, offset, next) && body[next] == 0
    ensures ReadCString(body[offset..], max) == Ok((body[offset..next], body[next + 1..]))
  {
    assert body[offset..] == CString(body[offset..next]) + body[next + 1..];
    CStringReads(body[offset..next], body[next + 1..], max);
  }

  lemma {:induction false} TooLong(body: seq<Octet>, offset: nat, next: nat, max: nat)
    requires offset <= next < |body| && next - offset == max && NoNul(body, offset, next) && body[next] != 0
    ensures ReadCString(body[offset..], max).Err?
    decreases max
  {
    if max > 0 {
      TooLong(body, offset + 1, next, max - 1);
      assert body[offset..][1..] == body[offset + 1..];
    }
  }

  lemma {:induction false} Unterminated(body: seq<Octet>, offset: nat, max: nat)
    requires offset <= |body| && NoNul(body, offset, |body|)
    ensures ReadCString(body[offset..], max).Err?
    decreases max
  {
    if offset < |body| && max > 0 {
      assert body[offset..][1..] == body[offset + 1..];
      Unterminated(body, offset + 1, max - 1);
    }
  }

  // ----- optional parameters

  datatype Tlv = Tlv(tag: Word, value: seq<Octet>)

  function WriteTlv(t: Tlv): seq<Octet> {
    Big(t.tag) + Big(|t.value| % 65536) + t.value
  }

  function WriteTlvs(ts: seq<Tlv>): seq<Octet> {
    if ts == [] then [] else WriteTlv(ts[0]) + WriteTlvs(ts[1..])
  }

  predicate TlvsFit(ts: seq<Tlv>) {
    forall i :: 0 <= i < |ts| ==> |ts[i].value| < 65536
  }

  /** The parameter at the front and what follows it. */
  function ReadTlv(b: seq<Octet>): Result<(Tlv, seq<Octet>)> {
    if |b| < 4 then Err
    else
      var size := FromBig(b[2], b[3]);
      if 4 + size > |b| then Err else Ok((Tlv(FromBig(b[0], b[1]), b[4..4 + size]), b[4 + size..]))
  }

  function ReadTlvs(b: seq<Octet>): Result<seq<Tlv>>
    decreases |b|
  {
    if b == [] then Ok([])
    else
      var (t, rest) :- ReadTlv(b);
      var ts :- ReadTlvs(rest);
      Ok([t] + ts)
  }

  lemma TlvReads(t: Tlv, rest: seq<Octet>)
    requires |t.value| < 65536
    ensures ReadTlv(WriteTlv(t) + rest) == Ok((t, rest))
  {
    var b := WriteTlv(t) + rest;
    assert b[..4] == Big(t.tag) + Big(|t.value|);
    assert b[0] == b[..4][0] && b[1] == b[..4][1] && b[2] == b[..4][2] && b[3] == b[..4][3];
    assert b[4..4 + |t.value|] == t.value && b[4 + |t.value|..] == rest;
  }

  lemma TlvRead(b: seq<Octet>)
    requires ReadTlv(b).Ok?
    ensures var (t, rest) := ReadTlv(b).value; |t.value| < 65536 && b == WriteTlv(t) + rest
  {
    var (t, rest) := ReadTlv(b).value;
    BigInverts(b[0], b[1]);
    BigInverts(b[2], b[3]);
    assert |t.value| == FromBig(b[2], b[3]);
    assert b == [b[0], b[1]] + [b[2], b[3]] + t.value + rest;
  }

  lemma {:induction false} TlvsRead(ts: seq<Tlv>)
    requires TlvsFit(ts)
    ensures ReadTlvs(WriteTlvs(ts)) == Ok(ts)
  {
    if ts != [] {
      TlvReads(ts[0], WriteTlvs(ts[1..]));
      TlvsRead(ts[1..]);
      assert ts == [ts[0]] + ts[1..];
    }
  }

  lemma {:induction false} TlvsWritten(b: seq<Octet>)
    requires ReadTlvs(b).Ok?
    ensures TlvsFit(ReadTlvs(b).value) && WriteTlvs(ReadTlvs(b).value) == b
    decreases |b|
  {
    if b != [] {
      TlvRead(b);
      var (t, rest) := ReadTlv(b).value;
      TlvsWritten(rest);
      var ts := ReadTlvs(rest).value;
      assert ([t] + ts)[1..] == ts;
    }
  }

  /** The reading loop: the parameters, exactly when the body is some parameters laid end to end. */
  method ParseTlvs(body: seq<Octet>) returns (r: Result<seq<Tlv>>)
    ensures r == ReadTlvs(body)
    ensures r.Ok? ==> TlvsFit(r.value) && WriteTlvs(r.value) == body
    ensures r.Err? ==> forall ts :: TlvsFit(ts) ==> WriteTlvs(ts) != body
  {
    var out: seq<Tlv> := [];
    var rest := body;
    AfterNone(ReadTlvs(body));
    while |rest| > 0
      invariant ReadTlvs(body) == AfterTlvs(out, ReadTlvs(rest))
      decreases |rest|
    {
      if |rest| < 4 {
        NotWritten(body);
        return Err;
      }
      var tag, size := FromBig(rest[0], rest[1]), FromBig(rest[2], rest[3]);
      if 4 + size > |rest| {
        NotWritten(body);
        return Err;
      }
      ghost var later := ReadTlvs(rest[4 + size..]);
      var t := Tlv(tag, rest[4..4 + size]);
      assert AfterTlvs(out, AfterTlvs([t], later)) == AfterTlvs(out + [t], later) by { AfterTwo(out, [t], later); }
      out := out + [t];
      rest := rest[4 + size..];
    }
    assert out + [] == out;
    TlvsWritten(body);
    return Ok(out);
  }

  ghost function AfterTlvs(out: seq<Tlv>, r: Result<seq<Tlv>>): Result<seq<Tlv>> {
    if r.Ok? then Ok(out + r.value) else Err
  }

  lemma AfterNone(r: Result<seq<Tlv>>)
    ensures AfterTlvs([], r) == r
  {
    if r.Ok? { assert [] + r.value == r.value; }
  }

  lemma AfterTwo(a: seq<Tlv>, b: seq<Tlv>, r: Result<seq<Tlv>>)
    ensures AfterTlvs(a, AfterTlvs(b, r)) == AfterTlvs(a + b, r)
  {
    if r.Ok? { assert a + (b + r.value) == a + b + r.value; }
  }

  lemma NotWritten(body: seq<Octet>)
    requires ReadTlvs(body).Err?
    ensures forall ts :: TlvsFit(ts) ==> WriteTlvs(ts) != body
  {
    forall ts | TlvsFit(ts)
      ensures WriteTlvs(ts) != body
    {
      TlvsRead(ts);
    }
  }

  // ----- submit_sm

  datatype Address = Address(ton: Octet, npi: Octet, value: seq<Octet>)

  datatype Head = Head(serviceType: seq<Octet>, source: Address, dest: Address,
                       esmClass: Octet, protocolId: Octet, priority: Octet)

  datatype Content = Content(registered: Octet, replace: Octet, coding: Octet, defaultMsg: Octet,
                             short: seq<Octet>, tlvs: seq<Tlv>)

  datatype Tail = Tail(schedule: seq<Octet>, validity: seq<Octet>, content: Content)

  function WriteAddress(a: Address): seq<Octet> {
    [a.ton, a.npi] + CString(a.value)
  }

  function WriteHead(h: Head): seq<Octet> {
    CString(h.serviceType) + (WriteAddress(h.source) + (WriteAddress(h.dest) + [h.esmClass, h.protocolId, h.priority]))
  }

  /** sm_length and short_message. */
  function WriteShort(m: seq<Octet>): seq<Octet> {
    [|m| % 256] + m
  }

  function WriteContent(c: Content): seq<Octet> {
    [c.registered, c.replace, c.coding, c.defaultMsg] + (WriteShort(c.short) + WriteTlvs(c.tlvs))
  }

  function WriteTail(t: Tail): seq<Octet> {
    CString(t.schedule) + (CString(t.validity) + WriteContent(t.content))
  }

  function WriteSubmit(h: Head, t: Tail): seq<Octet> {
    WriteHead(h) + WriteTail(t)
  }

  predicate HeadNulFree(h: Head) {
    NulFree(h.serviceType) && NulFree(h.source.value) && NulFree(h.dest.value)
  }

  predicate HeadInRange(h: Head) {
    |h.serviceType| <= SERVICE_TYPE_MAX && |h.source.value| <= ADDRESS_MAX && |h.dest.value| <= ADDRESS_MAX
  }

  predicate ContentFits(c: Content) {
    |c.short| < 256 && TlvsFit(c.tlvs)
  }

  predicate TailFits(t: Tail) {
    NulFree(t.schedule) && NulFree(t.validity) && ContentFits(t.content)
  }

  predicate TailInRange(t: Tail) {
    |t.schedule| <= TIME_MAX && |t.validity| <= TIME_MAX
  }

  function ReadAddress(b: seq<Octet>): Result<(Address, seq<Octet>)> {
    if |b| < 2 then Err else
    var (v, rest) :- ReadCString(b[2..], ADDRESS_MAX);
    Ok((Address(b[0], b[1], v), rest))
  }

  function ReadHead(b: seq<Octet>): Result<(Head, seq<Octet>)> {
    var (serviceType, b1) :- ReadCString(b, SERVICE_TYPE_MAX);
    var (source, b2) :- ReadAddress(b1);
    var (dest, b3) :- ReadAddress(b2);
    if |b3| < 3 then Err else Ok((Head(serviceType, source, dest, b3[0], b3[1], b3[2]), b3[3..]))
  }

  function ReadShort(b: seq<Octet>): Result<(seq<Octet>, seq<Octet>)> {
    if b == [] || 1 + b[0] > |b| then Err else Ok((b[1..1 + b[0]], b[1 + b[0]..]))
  }

  function ReadContent(b: seq<Octet>): Result<Content> {
    if |b| < 4 then Err
    else
      var (short, rest) :- ReadShort(b[4..]);
      var tlvs :- ReadTlvs(rest);
      Ok(Content(b[0], b[1], b[2], b[3], short, tlvs))
  }

  function ReadTail(b: seq<Octet>): Result<Tail> {
    var (schedule, b1) :- ReadCString(b, TIME_MAX);
    var (validity, b2) :- ReadCString(b1, TIME_MAX);
    var content :- ReadContent(b2);
    Ok(Tail(schedule, validity, content))
  }

  lemma AddressReads(a: Address, rest: seq<Octet>)
    requires NulFree(a.value)
    ensures ReadAddress(WriteAddress(a) + rest) == if |a.value| <= ADDRESS_MAX then Ok((a, rest)) else Err
  {
    CStringReads(a.value, rest, ADDRESS_MAX);
    assert (WriteAddress(a) + rest)[2..] == CString(a.value) + rest;
  }

  lemma AddressRead(b: seq<Octet>)
    requires ReadAddress(b).Ok?
    ensures var (a, rest) := ReadAddress(b).value;
            NulFree(a.value) && |a.value| <= ADDRESS_MAX && b == WriteAddress(a) + rest
  {
    CStringRead(b[2..], ADDRESS_MAX);
    assert b == [b[0], b[1]] + b[2..];
  }

  lemma HeadReads(h: Head, rest: seq<Octet>)
    requires HeadNulFree(h)
    ensures ReadHead(WriteHead(h) + rest) == if HeadInRange(h) then Ok((h, rest)) else Err
  {
    var d := [h.esmClass, h.protocolId, h.priority] + rest;
    var c := WriteAddress(h.dest) + d;
    var b := WriteAddress(h.source) + c;
    assert WriteHead(h) + rest == CString(h.serviceType) + b;
    CStringReads(h.serviceType, b, SERVICE_TYPE_MAX);
    AddressReads(h.source, c);
    AddressReads(h.dest, d);
    assert d[3..] == rest;
  }

  lemma HeadRead(b: seq<Octet>)
    requires ReadHead(b).Ok?
    ensures var (h, rest) := ReadHead(b).value; HeadNulFree(h) && HeadInRange(h) && b == WriteHead(h) + rest
  {
    CStringRead(b, SERVICE_TYPE_MAX);
    var b1 := ReadCString(b, SERVICE_TYPE_MAX).value.1;
    AddressRead(b1);
    var b2 := ReadAddress(b1).value.1;
    AddressRead(b2);
    var b3 := ReadAddress(b2).value.1;
    assert b3 == [b3[0], b3[1], b3[2]] + b3[3..];
  }

  lemma ShortReads(m: seq<Octet>, rest: seq<Octet>)
    requires |m| < 256
    ensures ReadShort(WriteShort(m) + rest) == Ok((m, rest))
  {
    var b := WriteShort(m) + rest;
    assert b[1..1 + |m|] == m && b[1 + |m|..] == rest;
  }

  lemma ShortRead(b: seq<Octet>)
    requires ReadShort(b).Ok?
    ensures var (m, rest) := ReadShort(b).value; |m| < 256 && b == WriteShort(m) + rest
  {
    var (m, rest) := ReadShort(b).value;
    assert b == [b[0]] + m + rest && |m| == b[0];
  }

  lemma ContentReads(c: Content)
    requires ContentFits(c)
    ensures ReadContent(WriteContent(c)) == Ok(c)
  {
    var b := WriteShort(c.short) + WriteTlvs(c.tlvs);
    assert WriteContent(c)[4..] == b;
    ShortReads(c.short, WriteTlvs(c.tlvs));
    TlvsRead(c.tlvs);
  }

  lemma ContentRead(b: seq<Octet>)
    requires ReadContent(b).Ok?
    ensures ContentFits(ReadContent(b).value) && b == WriteContent(ReadContent(b).value)
  {
    ShortRead(b[4..]);
    TlvsWritten(ReadShort(b[4..]).value.1);
    assert b == [b[0], b[1], b[2], b[3]] + b[4..];
  }

  lemma TailReads(t: Tail)
    requires TailFits(t)
    ensures ReadTail(WriteTail(t)) == if TailInRange(t) then Ok(t) else Err
  {
    CStringReads(t.schedule, CString(t.validity) + WriteContent(t.content), TIME_MAX);
    CStringReads(t.validity, WriteContent(t.content), TIME_MAX);
    ContentReads(t.content);
  }

  lemma TailRead(b: seq<Octet>)
    requires ReadTail(b).Ok?
    ensures TailFits(ReadTail(b).value) && TailInRange(ReadTail(b).value) && b == WriteTail(ReadTail(b).value)
  {
    CStringRead(b, TIME_MAX);
    var b1 := ReadCString(b, TIME_MAX).value.1;
    CStringRead(b1, TIME_MAX);
    ContentRead(ReadCString(b1, TIME_MAX).value.1);
  }

  // ----- the layout octet by octet

  /** Tag and length, high octet first, and the value. */
  lemma {:induction false} TlvLayout(t: Tlv)
    requires |t.value| < 65536
    ensures WriteTlvs([t]) == [t.tag / 256, t.tag % 256, |t.value| / 256, |t.value| % 256] + t.value
  {
    var head := Big(t.tag) + Big(|t.value|);
    assert head == [t.tag / 256, t.tag % 256, |t.value| / 256, |t.value| % 256];
    assert [t][1..] == [];
    assert WriteTlvs([t]) == WriteTlv(t) + [];
    assert head + t.value + [] == head + t.value;
  }

  /** The order of the fields of submit_sm up to the optional parameters, each string ended by a zero. */
  lemma SubmitLayout(h: Head, t: Tail)
    requires |t.content.short| < 256
    ensures var c := t.content;
            WriteSubmit(h, t)
            == h.serviceType + [0, h.source.ton, h.source.npi] + h.source.value + [0, h.dest.ton, h.dest.npi]
               + h.dest.value + [0, h.esmClass, h.protocolId, h.priority] + t.schedule + [0] + t.validity
               + [0, c.registered, c.replace, c.coding, c.defaultMsg, |c.short|] + c.short + WriteTlvs(c.tlvs)
  {
    var c := t.content;
    var head := h.serviceType + [0, h.source.ton, h.source.npi] + h.source.value + [0, h.dest.ton, h.dest.npi]
                + h.dest.value + [0, h.esmClass, h.protocolId, h.priority];
    assert WriteHead(h) == head;
    var tail := t.schedule + [0] + t.validity + [0, c.registered, c.replace, c.coding, c.defaultMsg, |c.short|]
                + c.short + WriteTlvs(c.tlvs);
    assert WriteTail(t) == tail;
  }
}
