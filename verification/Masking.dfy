/**
  Masking filtered words: the text is normalised before it is searched, hits are carried back to the original
  by a map of byte offsets, and the original is rewritten outside of nothing but the hits.
 */
module Masking {
  import opened Collections
  import opened Utf8
  import opened Wrappers

  // ----- normalisation

  /** lower: the library's lower-casing of one rune. */
  datatype Normalize = Normalize(stripZeroWidth: bool, fullToHalf: bool, lowercase: bool, lower: char -> char)

  predicate IsZeroWidth(r: char) {
    r == '\U{200B}' || r == '\U{200C}' || r == '\U{200D}' || r == '\U{FEFF}'
  }

  function FullToHalf(r: char): char {
    if r == '\U{3000}' then ' '
    else if '\U{FF01}' <= r <= '\U{FF5E}' then (r as int - 0xFEE0) as char
    else r
  }

  predicate Kept(cfg: Normalize, r: char) {
    !(cfg.stripZeroWidth && IsZeroWidth(r))
  }

  function Folded(cfg: Normalize, r: char): char {
    var half := if cfg.fullToHalf then FullToHalf(r) else r;
    if cfg.lowercase then cfg.lower(half) else half
  }

  function Normal(cfg: Normalize, text: string): string {
    if text == [] then []
    else
      var n := |text| - 1;
      Normal(cfg, text[..n]) + if Kept(cfg, text[n]) then [Folded(cfg, text[n])] else []
  }

  /** How many runes of the text have been read when a rune of the normalised text ends. */
  function Sources(cfg: Normalize, text: string): seq<nat> {
    if text == [] then [0]
    else
      var n := |text| - 1;
      Sources(cfg, text[..n]) + if Kept(cfg, text[n]) then [n + 1] else []
  }

  /** Inside a rune: where the original begins; at its end: where the original ends. */
  function RuneMap(start: nat, end: nat, written: nat): seq<nat> {
    seq(written, i => if i == written - 1 then end else start)
  }

  function OffsetMap(cfg: Normalize, text: string): seq<nat> {
    if text == [] then [0]
    else
      var n := |text| - 1;
      OffsetMap(cfg, text[..n])
      + if Kept(cfg, text[n]) then RuneMap(Offset(text, n), Offset(text, n + 1), RuneLength(Folded(cfg, text[n])))
        else []
  }

  lemma {:induction false} NormalAppend(cfg: Normalize, a: string, b: string)
    ensures Normal(cfg, a + b) == Normal(cfg, a) + Normal(cfg, b)
  {
    if b == [] { assert a + b == a; }
    else {
      var n := |b| - 1;
      assert (a + b)[..|a + b| - 1] == a + b[..n] && (a + b)[|a + b| - 1] == b[n];
      NormalAppend(cfg, a, b[..n]);
      Regroup(Normal(cfg, a), Normal(cfg, b[..n]), if Kept(cfg, b[n]) then [Folded(cfg, b[n])] else []);
    }
  }

  lemma NormalAround(cfg: Normalize, a: string, r: char, b: string)
    ensures Normal(cfg, a + [r] + b)
            == Normal(cfg, a) + (if Kept(cfg, r) then [Folded(cfg, r)] else []) + Normal(cfg, b)
  {
    NormalAppend(cfg, a + [r], b);
    NormalAppend(cfg, a, [r]);
    assert [r][..0] == [];
    assert Normal(cfg, [r]) == if Kept(cfg, r) then [Folded(cfg, r)] else [];
  }

  /** With zero-width runes stripped the filter does not see them. */
  lemma ZeroWidthIgnored(cfg: Normalize, a: string, r: char, b: string)
    requires cfg.stripZeroWidth && r in {'\U{200B}', '\U{200C}', '\U{200D}', '\U{FEFF}'}
    ensures Normal(cfg, a + [r] + b) == Normal(cfg, a + b)
  {
    NormalAround(cfg, a, r, b);
    NormalAppend(cfg, a, b);
    assert Normal(cfg, a) + [] + Normal(cfg, b) == Normal(cfg, a) + Normal(cfg, b);
  }

  lemma SeenAlike(cfg: Normalize, a: string, r: char, s: char, b: string)
    requires Kept(cfg, r) && Kept(cfg, s) && Folded(cfg, r) == Folded(cfg, s)
    ensures Normal(cfg, a + [r] + b) == Normal(cfg, a + [s] + b)
  {
    NormalAround(cfg, a, r, b);
    NormalAround(cfg, a, s, b);
  }

  predicate Printing(r: char) {
    ' ' <= r <= '~'
  }

  /** The wide form of a printing ASCII rune. */
  function Wide(r: char): char
    requires Printing(r)
  {
    if r == ' ' then '\U{3000}' else (r as int + 0xFEE0) as char
  }

  /** Nor does it see the width of a rune where that is folded, nor its case; every other printing rune it sees. */
  lemma WidthAndCaseIgnored(cfg: Normalize, a: string, r: char, b: string)
    requires Printing(r)
    ensures cfg.fullToHalf ==> Normal(cfg, a + [Wide(r)] + b) == Normal(cfg, a + [r] + b)
    ensures cfg.lowercase && Printing(cfg.lower(r)) && cfg.lower(cfg.lower(r)) == cfg.lower(r) ==>
              Normal(cfg, a + [r] + b) == Normal(cfg, a + [cfg.lower(r)] + b)
    ensures !cfg.lowercase ==> Normal(cfg, a + [r] + b) == Normal(cfg, a) + [r] + Normal(cfg, b)
  {
    if cfg.fullToHalf { SeenAlike(cfg, a, Wide(r), r, b); }
    if cfg.lowercase && Printing(cfg.lower(r)) && cfg.lower(cfg.lower(r)) == cfg.lower(r) {
      SeenAlike(cfg, a, r, cfg.lower(r), b);
    }
    if !cfg.lowercase { NormalAround(cfg, a, r, b); }
  }

  method NormalizeWithMap(cfg: Normalize, text: string) returns (normalized: string, normToOrig: seq<nat>)
    ensures normalized == Normal(cfg, text) && normToOrig == OffsetMap(cfg, text)
  {
    normalized, normToOrig := [], [0];
    var origStart := 0;
    for i := 0 to |text|
      invariant origStart == Offset(text, i)
      invariant normalized == Normal(cfg, text[..i]) && normToOrig == OffsetMap(cfg, text[..i])
    {
      var r := text[i];
      OneMore(cfg, text, i);
      var origEnd := origStart + RuneLength(r);
      if !(cfg.stripZeroWidth && IsZeroWidth(r)) {
        if cfg.fullToHalf { r := FullToHalf(r); }
        if cfg.lowercase { r := cfg.lower(r); }
        normalized := normalized + [r];
        var more := WriteRune(origStart, origEnd, RuneLength(r));
        normToOrig := normToOrig + more;
      }
      origStart := origEnd;
    }
    assert text[..|text|] == text;
  }

  method WriteRune(start: nat, end: nat, written: nat) returns (more: seq<nat>)
    ensures more == RuneMap(start, end, written)
  {
    more := [];
    for i := 1 to written + 1
      invariant |more| == i - 1 && forall k :: 0 <= k < i - 1 ==> more[k] == RuneMap(start, end, written)[k]
    {
      more := more + [if i == written then end else start];
    }
  }

  lemma OneMore(cfg: Normalize, text: string, i: nat)
    requires i < |text|
    ensures text[..i + 1][..i] == text[..i] && text[..i + 1][i] == text[i]
    ensures Offset(text[..i + 1], i) == Offset(text, i) && Offset(text[..i + 1], i + 1) == Offset(text, i + 1)
  {
    assert text[..i + 1] + text[i + 1..] == text;
    OffsetOfPrefix(text[..i + 1], text[i + 1..], i);
    OffsetOfPrefix(text[..i + 1], text[i + 1..], i + 1);
  }

  // ----- what the map promises

  ghost predicate Monotone(m: seq<nat>) {
    forall i, k :: 0 <= i <= k < |m| ==> m[i] <= m[k]
  }

  ghost predicate Ascending(s: seq<nat>) {
    forall i, k :: 0 <= i < k < |s| ==> s[i] < s[k]
  }

  /** Rune boundaries of the normalised text lead to rune boundaries of the text. */
  ghost predicate Boundaries(text: string, norm: string, m: seq<nat>, src: seq<nat>) {
    |src| == |norm| + 1 && forall k :: 0 <= k <= |norm| ==> BoundaryAt(text, norm, m, src, k)
  }

  ghost predicate BoundaryAt(text: string, norm: string, m: seq<nat>, src: seq<nat>, k: nat)
    requires |src| == |norm| + 1 && k <= |norm|
  {
    src[k] <= |text| && Offset(norm, k) < |m| && m[Offset(norm, k)] == Offset(text, src[k])
  }

  ghost predicate Faithful(text: string, norm: string, m: seq<nat>, src: seq<nat>) {
    |m| == Offset(norm, |norm|) + 1 && Monotone(m) && m[|m| - 1] <= Offset(text, |text|)
    && Ascending(src) && Boundaries(text, norm, m, src)
  }

  lemma StaysFaithful(text: string, r: char, norm: string, m: seq<nat>, src: seq<nat>)
    requires Faithful(text, norm, m, src)
    ensures Faithful(text + [r], norm, m, src)
  {
    forall k | 0 <= k <= |norm|
      ensures BoundaryAt(text + [r], norm, m, src, k)
    {
      assert BoundaryAt(text, norm, m, src, k);
      OffsetOfPrefix(text, [r], src[k]);
    }
    OffsetOfPrefix(text, [r], |text|);
  }

  /** One more rune at the end of the normalised text, for the rune of the text that ends after e runes. */
  lemma BoundaryAdded(text: string, norm: string, c: char, m: seq<nat>, src: seq<nat>, start: nat, e: nat)
    requires |m| == Offset(norm, |norm|) + 1 && Boundaries(text, norm, m, src) && e <= |text|
    ensures var m' := m + RuneMap(start, Offset(text, e), RuneLength(c));
            |m'| == Offset(norm + [c], |norm| + 1) + 1 && m'[|m'| - 1] == Offset(text, e)
            && Boundaries(text, norm + [c], m', src + [e])
  {
    var m' := m + RuneMap(start, Offset(text, e), RuneLength(c));
    var norm', src' := norm + [c], src + [e];
    OffsetOfPrefix(norm, [c], |norm|);
    forall k | 0 <= k <= |norm'|
      ensures BoundaryAt(text, norm', m', src', k)
    {
      if k <= |norm| {
        OffsetOfPrefix(norm, [c], k);
        assert BoundaryAt(text, norm, m, src, k);
      }
    }
  }

  lemma AscendingMore(src: seq<nat>, e: nat)
    requires Ascending(src) && forall k :: 0 <= k < |src| ==> src[k] < e
    ensures Ascending(src + [e])
  {
  }

  lemma RuneAddedTo(text: string, norm: string, c: char, m: seq<nat>, src: seq<nat>, start: nat)
    requires |m| == Offset(norm, |norm|) + 1 && Monotone(m) && m[|m| - 1] <= start <= Offset(text, |text|)
    requires Ascending(src) && (forall k :: 0 <= k < |src| ==> src[k] < |text|) && Boundaries(text, norm, m, src)
    ensures Faithful(text, norm + [c], m + RuneMap(start, Offset(text, |text|), RuneLength(c)), src + [|text|])
  {
    BoundaryAdded(text, norm, c, m, src, start, |text|);
    RuneMapMonotone(m, start, Offset(text, |text|), RuneLength(c));
    AscendingMore(src, |text|);
  }

  lemma RuneAdded(text: string, r: char, norm: string, c: char, m: seq<nat>, src: seq<nat>)
    requires Faithful(text, norm, m, src)
    ensures var start, end := Offset(text + [r], |text|), Offset(text + [r], |text| + 1);
            Faithful(text + [r], norm + [c], m + RuneMap(start, end, RuneLength(c)), src + [|text| + 1])
  {
    OffsetOfPrefix(text, [r], |text|);
    SourcesBounded(text, norm, m, src);
    StaysFaithful(text, r, norm, m, src);
    RuneAddedTo(text + [r], norm, c, m, src, Offset(text, |text|));
  }

  lemma RuneMapMonotone(m: seq<nat>, start: nat, end: nat, written: nat)
    requires Monotone(m) && m != [] && m[|m| - 1] <= start <= end
    ensures Monotone(m + RuneMap(start, end, written))
  {
    MonotoneMore(m, RuneMap(start, end, written));
  }

  lemma MonotoneMore(m: seq<nat>, more: seq<nat>)
    requires Monotone(m) && Monotone(more) && (m != [] && more != [] ==> m[|m| - 1] <= more[0])
    ensures Monotone(m + more)
  {
    var all := m + more;
    forall i, k | 0 <= i <= k < |all|
      ensures all[i] <= all[k]
    {
      if i < |m| <= k { assert m[i] <= m[|m| - 1] && more[0] <= more[k - |m|]; }
    }
  }

  lemma SourcesBounded(text: string, norm: string, m: seq<nat>, src: seq<nat>)
    requires Boundaries(text, norm, m, src)
    ensures forall k :: 0 <= k < |src| ==> src[k] <= |text|
  {
    forall k | 0 <= k < |src|
      ensures src[k] <= |text|
    {
      assert BoundaryAt(text, norm, m, src, k);
    }
  }

  /** The map is monotone, takes rune boundaries to rune boundaries, and different ones to different ones. */
  lemma {:induction false} MapIsFaithful(cfg: Normalize, text: string)
    ensures Faithful(text, Normal(cfg, text), OffsetMap(cfg, text), Sources(cfg, text))
  {
    if text == [] { assert BoundaryAt(text, [], [0], [0], 0); }
    else {
      var n := |text| - 1;
      var front, r := text[..n], text[n];
      MapIsFaithful(cfg, front);
      assert text == front + [r];
      if Kept(cfg, r) {
        RuneAdded(front, r, Normal(cfg, front), Folded(cfg, r), OffsetMap(cfg, front), Sources(cfg, front));
      }
      else {
        StaysFaithful(front, r, Normal(cfg, front), OffsetMap(cfg, front), Sources(cfg, front));
        assert Normal(cfg, front) + [] == Normal(cfg, front) && OffsetMap(cfg, front) + [] == OffsetMap(cfg, front);
        assert Sources(cfg, front) + [] == Sources(cfg, front);
      }
    }
  }

  // ----- masking

  /** Bytes start..end are to be replaced. */
  datatype Interval<T> = Interval(start: nat, end: nat, with: seq<T>)

  ghost predicate InBounds<T>(iv: Interval<T>, n: nat) {
    iv.start <= iv.end <= n
  }

  ghost predicate ByStart<T>(ivs: seq<Interval<T>>) {
    forall i, k :: 0 <= i < k < |ivs| ==> ivs[i].start <= ivs[k].start
  }

  /** Disjoint, in order, within the text. */
  ghost predicate Disjoint<T>(ivs: seq<Interval<T>>, n: nat) {
    (forall i :: 0 <= i < |ivs| ==> InBounds(ivs[i], n))
    && forall i, k :: 0 <= i < k < |ivs| ==> ivs[i].end <= ivs[k].start
  }

  /** The text with each of some disjoint intervals replaced, and every byte outside them as it was. */
  function Replaced<T>(text: seq<T>, ivs: seq<Interval<T>>): seq<T>
    requires Disjoint(ivs, |text|)
    decreases |ivs|
  {
    if ivs == [] then text
    else
      var iv := ivs[|ivs| - 1];
      DisjointFront(ivs, |text|);
      ReplacedFits(text, ivs);
      Replaced(text[..iv.start], ivs[..|ivs| - 1]) + iv.with + text[iv.end..]
  }

  lemma DisjointFront<T>(ivs: seq<Interval<T>>, n: nat)
    requires Disjoint(ivs, n) && ivs != []
    ensures Disjoint(ivs[..|ivs| - 1], ivs[|ivs| - 1].start) && InBounds(ivs[|ivs| - 1], n)
  {
  }

  lemma ReplacedFits<T>(text: seq<T>, ivs: seq<Interval<T>>)
    requires Disjoint(ivs, |text|) && ivs != []
    ensures |text[..ivs[|ivs| - 1].start]| == ivs[|ivs| - 1].start
  {
  }

  /** By how much these replacements lengthen a text. */
  ghost function Growth<T>(ivs: seq<Interval<T>>): int {
    if ivs == [] then 0
    else
      var iv := ivs[|ivs| - 1];
      Growth(ivs[..|ivs| - 1]) + |iv.with| + iv.start - iv.end
  }

  lemma {:induction false} ReplacedLength<T>(text: seq<T>, ivs: seq<Interval<T>>)
    requires Disjoint(ivs, |text|)
    ensures |Replaced(text, ivs)| == |text| + Growth(ivs)
    decreases |ivs|
  {
    if ivs != [] {
      DisjointFront(ivs, |text|);
      ReplacedLength(text[..ivs[|ivs| - 1].start], ivs[..|ivs| - 1]);
    }
  }

  /** A byte behind the intervals is there, moved by their growth. */
  lemma {:induction false} TailCopied<T>(text: seq<T>, ivs: seq<Interval<T>>, p: nat)
    requires Disjoint(ivs, |text|) && p < |text| && (ivs != [] ==> ivs[|ivs| - 1].end <= p)
    ensures 0 <= p + Growth(ivs) < |Replaced(text, ivs)| && Replaced(text, ivs)[p + Growth(ivs)] == text[p]
  {
    ReplacedLength(text, ivs);
    if ivs != [] {
      var iv := ivs[|ivs| - 1];
      DisjointFront(ivs, |text|);
      ReplacedLength(text[..iv.start], ivs[..|ivs| - 1]);
    }
  }

  ghost predicate StandsAt<T>(out: seq<T>, at: int, piece: seq<T>) {
    0 <= at && at + |piece| <= |out| && out[at..at + |piece|] == piece
  }

  lemma ReplacedShape<T>(text: seq<T>, ivs: seq<Interval<T>>)
    requires Disjoint(ivs, |text|) && ivs != []
    ensures var n, iv := |ivs| - 1, ivs[|ivs| - 1];
            iv.start <= iv.end <= |text| && Disjoint(ivs[..n], |text[..iv.start]|)
            && Replaced(text, ivs) == Replaced(text[..iv.start], ivs[..n]) + (iv.with + text[iv.end..])
  {
    var iv := ivs[|ivs| - 1];
    DisjointFront(ivs, |text|);
    Regroup(Replaced(text[..iv.start], ivs[..|ivs| - 1]), iv.with, text[iv.end..]);
  }

  /** What stands before interval k, and its mask, begin the result. */
  lemma {:induction false} FrontKept<T>(text: seq<T>, ivs: seq<Interval<T>>, k: nat)
    requires Disjoint(ivs, |text|) && k < |ivs|
    ensures ivs[k].start <= |text| && Disjoint(ivs[..k], |text[..ivs[k].start]|)
            && Replaced(text[..ivs[k].start], ivs[..k]) + ivs[k].with <= Replaced(text, ivs)
    decreases |ivs|
  {
    var n := |ivs| - 1;
    ReplacedShape(text, ivs);
    var before := text[..ivs[n].start];
    if k < n {
      FrontKept(before, ivs[..n], k);
      assert ivs[..n][..k] == ivs[..k] && before[..ivs[k].start] == text[..ivs[k].start];
    }
  }

  /** The mask of each interval stands where the interval stood, moved by the growth of those before it. */
  lemma {:induction false} MaskStands<T>(text: seq<T>, ivs: seq<Interval<T>>, k: nat)
    requires Disjoint(ivs, |text|) && k < |ivs|
    ensures StandsAt(Replaced(text, ivs), ivs[k].start + Growth(ivs[..k]), ivs[k].with)
  {
    FrontKept(text, ivs, k);
    var front, before := text[..ivs[k].start], ivs[..k];
    ReplacedLength(front, before);
    PieceStands(Replaced(front, before), ivs[k].with, Replaced(text, ivs));
  }

  lemma PieceStands<T>(front: seq<T>, piece: seq<T>, out: seq<T>)
    requires front + piece <= out
    ensures StandsAt(out, |front|, piece)
  {
    assert out[..|front + piece|] == front + piece;
  }

  /** And every byte before it and behind the intervals before it is there too, moved by the same. */
  lemma {:induction false} GapCopied<T>(text: seq<T>, ivs: seq<Interval<T>>, k: nat, p: nat)
    requires Disjoint(ivs, |text|) && k < |ivs| && p < ivs[k].start && (k > 0 ==> ivs[k - 1].end <= p)
    ensures p < |text| && StandsAt(Replaced(text, ivs), p + Growth(ivs[..k]), [text[p]])
  {
    FrontKept(text, ivs, k);
    var front, before := text[..ivs[k].start], ivs[..k];
    assert before != [] ==> before[|before| - 1] == ivs[k - 1];
    TailCopied(front, before, p);
    ByteStands(Replaced(front, before), ivs[k].with, Replaced(text, ivs), p + Growth(before));
  }

  lemma ByteStands<T>(front: seq<T>, more: seq<T>, out: seq<T>, at: int)
    requires front + more <= out && 0 <= at < |front|
    ensures StandsAt(out, at, [front[at]])
  {
    assert out[at] == (front + more)[at];
  }

  /** Position p lies in one of the intervals. */
  ghost predicate Covered<T>(ivs: seq<Interval<T>>, p: nat) {
    exists i :: 0 <= i < |ivs| && ivs[i].start <= p < ivs[i].end
  }

  ghost predicate AllCovered<T>(ivs: seq<Interval<T>>, chosen: seq<Interval<T>>, n: nat) {
    forall i :: 0 <= i < |ivs| && InBounds(ivs[i], n) && ivs[i].start < ivs[i].end ==> Covered(chosen, ivs[i].start)
  }

  /** What the rewriting loop has done after reading ivs: pos is where copying goes on. */
  ghost predicate Rewriting<T>(text: seq<T>, ivs: seq<Interval<T>>, chosen: seq<Interval<T>>, pos: nat, out: seq<T>) {
    pos <= |text| && Disjoint(chosen, pos) && Replaced(text[..pos], chosen) == out
    && (if chosen == [] then pos == 0 else pos == chosen[|chosen| - 1].end)
    && (forall i :: 0 <= i < |chosen| ==> chosen[i] in ivs)
    && AllCovered(ivs, chosen, |text|)
  }

  lemma Skipped<T>(text: seq<T>, ivs: seq<Interval<T>>, iv: Interval<T>, chosen: seq<Interval<T>>, pos: nat,
                   out: seq<T>)
    requires Rewriting(text, ivs, chosen, pos, out) && ByStart(ivs + [iv])
    requires iv.start < pos || iv.start > |text| || iv.end > |text|
    ensures Rewriting(text, ivs + [iv], chosen, pos, out)
  {
    if iv.start < pos {
      var last := chosen[|chosen| - 1];
      var k :| 0 <= k < |ivs| && ivs[k] == last;
      assert (ivs + [iv])[k].start <= (ivs + [iv])[|ivs|].start;
      assert Covered(chosen, iv.start);
    }
    forall i | 0 <= i < |ivs + [iv]| && InBounds((ivs + [iv])[i], |text|) && (ivs + [iv])[i].start < (ivs + [iv])[i].end
      ensures Covered(chosen, (ivs + [iv])[i].start)
    {
      if i < |ivs| { assert (ivs + [iv])[i] == ivs[i]; }
    }
  }

  lemma StillCovered<T>(chosen: seq<Interval<T>>, iv: Interval<T>, p: nat)
    requires Covered(chosen, p)
    ensures Covered(chosen + [iv], p)
  {
    var i :| 0 <= i < |chosen| && chosen[i].start <= p < chosen[i].end;
    assert (chosen + [iv])[i] == chosen[i];
  }

  lemma CoveredMore<T>(ivs: seq<Interval<T>>, iv: Interval<T>, chosen: seq<Interval<T>>, n: nat)
    requires AllCovered(ivs, chosen, n)
    ensures AllCovered(ivs + [iv], chosen + [iv], n)
  {
    var all, more := ivs + [iv], chosen + [iv];
    forall i | 0 <= i < |all| && InBounds(all[i], n) && all[i].start < all[i].end
      ensures Covered(more, all[i].start)
    {
      if i < |ivs| {
        assert all[i] == ivs[i];
        StillCovered(chosen, iv, ivs[i].start);
      } else {
        assert more[|chosen|] == iv;
      }
    }
  }

  lemma Taken<T>(text: seq<T>, ivs: seq<Interval<T>>, iv: Interval<T>, chosen: seq<Interval<T>>, pos: nat, out: seq<T>)
    requires Rewriting(text, ivs, chosen, pos, out) && pos <= iv.start <= iv.end <= |text|
    ensures Rewriting(text, ivs + [iv], chosen + [iv], iv.end, out + text[pos..iv.start] + iv.with)
  {
    var more := chosen + [iv];
    CoveredMore(ivs, iv, chosen, |text|);
    assert Disjoint(more, iv.end);
    assert more[..|chosen|] == chosen && text[..iv.end][..iv.start] == text[..iv.start];
    assert text[..iv.end][iv.end..] == [];
    CopyOn(text, chosen, pos, iv.start);
  }

  lemma ReplacedLast<T>(text: seq<T>, ivs: seq<Interval<T>>, n: nat)
    requires n <= |text| && Disjoint(ivs, n) && ivs != []
    ensures var iv := ivs[|ivs| - 1];
            iv.start <= iv.end <= n && Disjoint(ivs[..|ivs| - 1], iv.start)
            && Replaced(text[..n], ivs) == Replaced(text[..iv.start], ivs[..|ivs| - 1]) + iv.with + text[iv.end..n]
  {
    var iv := ivs[|ivs| - 1];
    assert InBounds(iv, n);
    assert text[..n][..iv.start] == text[..iv.start] && text[..n][iv.end..] == text[iv.end..n];
  }

  /** Text after the last interval is copied. */
  lemma CopyOn<T>(text: seq<T>, chosen: seq<Interval<T>>, pos: nat, next: nat)
    requires pos <= next <= |text| && Disjoint(chosen, pos) && (chosen == [] ==> pos == 0)
    requires chosen != [] ==> pos == chosen[|chosen| - 1].end
    ensures Disjoint(chosen, next) && Replaced(text[..next], chosen) == Replaced(text[..pos], chosen) + text[pos..next]
  {
    if chosen == [] { assert text[..next] == [] + text[0..next]; }
    else {
      var iv := chosen[|chosen| - 1];
      assert InBounds(iv, pos);
      var x := Replaced(text[..iv.start], chosen[..|chosen| - 1]) + iv.with;
      assert Replaced(text[..pos], chosen) == x by {
        ReplacedLast(text, chosen, pos);
        assert text[pos..pos] == [];
      }
      assert Replaced(text[..next], chosen) == x + text[pos..next] by { ReplacedLast(text, chosen, next); }
    }
  }

  lemma InsertedAt<T>(sorted: seq<Interval<T>>, iv: Interval<T>, j: nat)
    requires ByStart(sorted) && j <= |sorted|
    requires j > 0 ==> sorted[j - 1].start <= iv.start
    requires forall k :: j <= k < |sorted| ==> sorted[k].start > iv.start
    ensures ByStart(sorted[..j] + [iv] + sorted[j..])
  {
    var all := sorted[..j] + [iv] + sorted[j..];
    forall i, k | 0 <= i < k < |all|
      ensures all[i].start <= all[k].start
    {
      var x, y := if i <= j then i else i - 1, if k <= j then k else k - 1;
      if i < j { assert all[i] == sorted[i]; } else if i > j { assert all[i] == sorted[x]; }
      if k < j { assert all[k] == sorted[k]; } else if k > j { assert all[k] == sorted[y]; }
      if i < j <= k { assert sorted[i].start <= sorted[j - 1].start; }
    }
  }

  lemma InsertedKeeps<T>(sorted: seq<Interval<T>>, iv: Interval<T>, j: nat)
    requires j <= |sorted|
    ensures multiset(sorted[..j] + [iv] + sorted[j..]) == multiset(sorted) + multiset{iv}
  {
    assert sorted == sorted[..j] + sorted[j..];
  }

  method InsertByStart<T>(sorted: seq<Interval<T>>, iv: Interval<T>) returns (r: seq<Interval<T>>)
    requires ByStart(sorted)
    ensures ByStart(r) && multiset(r) == multiset(sorted) + multiset{iv}
  {
    var j := |sorted|;
    while j > 0 && sorted[j - 1].start > iv.start
      invariant 0 <= j <= |sorted| && forall k :: j <= k < |sorted| ==> sorted[k].start > iv.start
    {
      j := j - 1;
    }
    InsertedAt(sorted, iv, j);
    InsertedKeeps(sorted, iv, j);
    r := sorted[..j] + [iv] + sorted[j..];
  }

  /** Sorting by start; the order of equal starts is left open by the source. */
  method SortByStart<T>(ivs: seq<Interval<T>>) returns (sorted: seq<Interval<T>>)
    ensures ByStart(sorted) && multiset(sorted) == multiset(ivs)
  {
    sorted := [];
    for i := 0 to |ivs|
      invariant ByStart(sorted) && multiset(sorted) == multiset(ivs[..i])
    {
      assert ivs[..i + 1] == ivs[..i] + [ivs[i]];
      sorted := InsertByStart(sorted, ivs[i]);
    }
    assert ivs[..|ivs|] == ivs;
  }

  /**
    The rewritten text: some of the intervals, disjoint and in order, are replaced and all else is copied; and every
    interval that was to hide something has at least its first byte replaced.
   */
  method MaskText<T>(text: seq<T>, intervals: seq<Interval<T>>) returns (masked: seq<T>)
    requires forall i :: 0 <= i < |intervals| ==> intervals[i].start <= intervals[i].end
    ensures exists chosen :: IsMasking(text, intervals, chosen, masked)
  {
    var ivs := SortByStart(intervals);
    SameMembers(intervals, ivs);
    ghost var chosen;
    masked, chosen := Rewrite(text, ivs);
    SameCover(intervals, ivs, chosen, |text|);
    assert IsMasking(text, intervals, chosen, masked);
  }

  ghost predicate IsMasking<T>(text: seq<T>, intervals: seq<Interval<T>>, chosen: seq<Interval<T>>, masked: seq<T>) {
    Disjoint(chosen, |text|) && masked == Replaced(text, chosen)
    && (forall i :: 0 <= i < |chosen| ==> chosen[i] in intervals) && AllCovered(intervals, chosen, |text|)
  }

  lemma NothingRewritten<T>(text: seq<T>)
    ensures Rewriting(text, [], [], 0, [])
  {
    assert text[..0] == [];
  }

  method Rewrite<T>(text: seq<T>, ivs: seq<Interval<T>>) returns (masked: seq<T>, ghost chosen: seq<Interval<T>>)
    requires ByStart(ivs) && forall i :: 0 <= i < |ivs| ==> ivs[i].start <= ivs[i].end
    ensures Disjoint(chosen, |text|) && masked == Replaced(text, chosen)
    ensures (forall i :: 0 <= i < |chosen| ==> chosen[i] in ivs) && AllCovered(ivs, chosen, |text|)
  {
    masked, chosen := [], [];
    var pos := 0;
    NothingRewritten(text);
    for i := 0 to |ivs|
      invariant 0 <= pos && Rewriting(text, ivs[..i], chosen, pos, masked)
    {
      var iv := ivs[i];
      assert ivs[..i + 1] == ivs[..i] + [iv];
      if iv.start < pos || iv.start > |text| || iv.end > |text| {
        Skipped(text, ivs[..i], iv, chosen, pos, masked);
        continue;
      }
      Taken(text, ivs[..i], iv, chosen, pos, masked);
      masked := masked + text[pos..iv.start] + iv.with;
      chosen := chosen + [iv];
      pos := iv.end;
    }
    assert ivs[..|ivs|] == ivs;
    CopiedOut(text, ivs, chosen, pos, masked);
    masked := masked + text[pos..];
  }

  lemma CopiedOut<T>(text: seq<T>, ivs: seq<Interval<T>>, chosen: seq<Interval<T>>, pos: nat, out: seq<T>)
    requires Rewriting(text, ivs, chosen, pos, out)
    ensures Disjoint(chosen, |text|) && out + text[pos..] == Replaced(text, chosen)
  {
    CopyOn(text, chosen, pos, |text|);
    assert text[..|text|] == text;
  }

  lemma SameCover<T>(intervals: seq<Interval<T>>, ivs: seq<Interval<T>>, chosen: seq<Interval<T>>, n: nat)
    requires (forall i :: 0 <= i < |intervals| ==> intervals[i] in ivs) && AllCovered(ivs, chosen, n)
    ensures AllCovered(intervals, chosen, n)
  {
    forall i | 0 <= i < |intervals| && InBounds(intervals[i], n) && intervals[i].start < intervals[i].end
      ensures Covered(chosen, intervals[i].start)
    {
      var k :| 0 <= k < |ivs| && ivs[k] == intervals[i];
    }
  }

  // ----- a hit and its mask

  /** The bytes of the text that a hit on runes i..k of the normalised text stands for. */
  lemma HitInText(cfg: Normalize, text: string, i: nat, k: nat)
    requires i < k <= |Normal(cfg, text)|
    ensures var norm, m, src := Normal(cfg, text), OffsetMap(cfg, text), Sources(cfg, text);
            |src| == |norm| + 1 && src[i] < src[k] <= |text|
            && Offset(norm, i) < |m| && Offset(norm, k) < |m|
            && m[Offset(norm, i)] == Offset(text, src[i]) && m[Offset(norm, k)] == Offset(text, src[k])
            && m[Offset(norm, i)] < m[Offset(norm, k)]
  {
    var norm, m, src := Normal(cfg, text), OffsetMap(cfg, text), Sources(cfg, text);
    MapIsFaithful(cfg, text);
    assert BoundaryAt(text, norm, m, src, i) && BoundaryAt(text, norm, m, src, k);
    OffsetsAscend(text, src[i], src[k]);
  }

  /** Runes from..to of the normalised text. */
  datatype Hit = Hit(from: nat, to: nat)

  ghost predicate Located<T>(cfg: Normalize, text: string, hit: Hit, iv: Interval<T>) {
    var norm, m := Normal(cfg, text), OffsetMap(cfg, text);
    hit.from < hit.to <= |norm| && Offset(norm, hit.from) < |m| && Offset(norm, hit.to) < |m|
    && iv.start == m[Offset(norm, hit.from)] && iv.end == m[Offset(norm, hit.to)]
  }

  lemma LocatedInText<T>(cfg: Normalize, text: string, hit: Hit, iv: Interval<T>)
    requires Located(cfg, text, hit, iv)
    ensures var src := Sources(cfg, text);
            hit.to < |src| && src[hit.from] < src[hit.to] <= |text|
            && iv.start == Offset(text, src[hit.from]) < iv.end == Offset(text, src[hit.to]) <= Offset(text, |text|)
  {
    HitInText(cfg, text, hit.from, hit.to);
    OffsetsAscend(text, Sources(cfg, text)[hit.to], |text|);
  }

  /** The cover reaches from where the hit begins to the end of the first rune of the text that belongs to the hit. */
  ghost predicate FirstRuneIn<T>(cfg: Normalize, text: string, hit: Hit, cover: Interval<T>) {
    var src := Sources(cfg, text);
    hit.from + 1 < |src| && src[hit.from] < src[hit.from + 1] <= |text|
    && cover.start <= Offset(text, src[hit.from]) && Offset(text, src[hit.from + 1]) <= cover.end
  }

  /** An interval of another hit that covers the first byte of a hit also covers all of the hit's own first rune. */
  lemma FirstRuneCovered<T>(cfg: Normalize, text: string, hit: Hit, iv: Interval<T>, other: Hit, cover: Interval<T>)
    requires Located(cfg, text, hit, iv) && Located(cfg, text, other, cover)
    requires cover.start <= iv.start < cover.end
    ensures FirstRuneIn(cfg, text, hit, cover)
  {
    LocatedInText(cfg, text, hit, iv);
    LocatedInText(cfg, text, other, cover);
    SourcesAscend(cfg, text, hit.from, hit.from + 1);
    if other.to <= hit.from {
      SourcesAscend(cfg, text, other.to, hit.from);
    } else {
      SourcesAscend(cfg, text, hit.from + 1, other.to);
    }
  }

  lemma SourcesAscend(cfg: Normalize, text: string, i: nat, k: nat)
    requires i <= k <= |Normal(cfg, text)|
    ensures var src := Sources(cfg, text);
            k < |src| && src[i] <= src[k] <= |text| && Offset(text, src[i]) <= Offset(text, src[k])
    ensures i < k ==> Sources(cfg, text)[i] < Sources(cfg, text)[k]
  {
    if i < k { HitInText(cfg, text, i, k); } else { MapIsFaithful(cfg, text); }
  }

  lemma HitCovered<T>(cfg: Normalize, text: string, hit: Hit, ivs: seq<Interval<T>>, chosen: seq<Interval<T>>, i: nat)
    requires i < |ivs| && Located(cfg, text, hit, ivs[i]) && AllCovered(ivs, chosen, Offset(text, |text|))
    ensures Covered(chosen, ivs[i].start)
  {
    LocatedInText(cfg, text, hit, ivs[i]);
    assert InBounds(ivs[i], Offset(text, |text|));
  }

  ghost predicate IsHit<T>(cfg: Normalize, text: string, iv: Interval<T>) {
    exists hit :: Located(cfg, text, hit, iv)
  }

  ghost predicate HitOrEmpty<T>(cfg: Normalize, text: string, iv: Interval<T>) {
    iv.start == iv.end || IsHit(cfg, text, iv)
  }

  /**
    Every hit has its own first rune replaced: the stretch of the text from where the hit begins to the end of
    the first rune that belongs to it, stripped runes in front of it included.
   */
  lemma HitIsMasked<T>(cfg: Normalize, text: string, hit: Hit, ivs: seq<Interval<T>>, chosen: seq<Interval<T>>, i: nat)
    requires forall j :: 0 <= j < |ivs| ==> HitOrEmpty(cfg, text, ivs[j])
    requires (forall j :: 0 <= j < |chosen| ==> chosen[j] in ivs) && AllCovered(ivs, chosen, Offset(text, |text|))
    requires i < |ivs| && Located(cfg, text, hit, ivs[i])
    ensures exists j :: 0 <= j < |chosen| && FirstRuneIn(cfg, text, hit, chosen[j])
  {
    HitCovered(cfg, text, hit, ivs, chosen, i);
    var j :| 0 <= j < |chosen| && chosen[j].start <= ivs[i].start < chosen[j].end;
    var other :| Located(cfg, text, other, chosen[j]);
    FirstRuneCovered(cfg, text, hit, ivs[i], other, chosen[j]);
  }
}
