/**
  A text is searched for the keywords and regular expressions of the rules after normalisation; the hit of the highest
  action and priority decides whether the text passes, is blocked, or has the hits of the deciding rule's name masked.
 */
module Filtering {
  import opened Collections
  import opened KeywordFilter
  import opened Keywords
  import opened Masking
  import opened Octets
  import opened Utf8

  /** Other: let the text pass. */
  datatype Action = Block | Mask | Tag | Other

  datatype Rule = Rule(name: string, action: Action, tag: string, priority: int, maskWith: seq<Octet>)

  datatype Decision = Passed | Blocked(reason: string) | Masked(reason: string, newText: seq<Octet>)

  function ActionRank(action: Action): int {
    match action
    case Block => 4
    case Mask => 3
    case Tag => 2
    case Other => 1
  }

  /** Every hit belongs to a rule. */
  predicate Ruled(rules: seq<Rule>, hits: seq<Match>) {
    forall i :: 0 <= i < |hits| ==> 0 <= hits[i].rule < |rules|
  }

  predicate RulesOf(rules: seq<Rule>, ps: seq<Pattern>) {
    forall p :: p in ps ==> 0 <= p.rule < |rules|
  }

  /** a may stand before b. */
  predicate Before(rules: seq<Rule>, a: Match, b: Match)
    requires 0 <= a.rule < |rules| && 0 <= b.rule < |rules|
  {
    var x, y := rules[a.rule], rules[b.rule];
    ActionRank(x.action) > ActionRank(y.action)
    || (ActionRank(x.action) == ActionRank(y.action) && x.priority >= y.priority)
  }

  predicate Ordered(rules: seq<Rule>, hits: seq<Match>)
    requires Ruled(rules, hits)
  {
    forall i, k :: 0 <= i < k < |hits| ==> Before(rules, hits[i], hits[k])
  }

  /** The first of the hits of highest action and priority. */
  predicate Decides(rules: seq<Rule>, hits: seq<Match>, k: nat)
    requires Ruled(rules, hits)
  {
    k < |hits|
    && forall j :: 0 <= j < |hits| ==> Before(rules, hits[k], hits[j]) && (j < k ==> !Before(rules, hits[j], hits[k]))
  }

  // ----- the stable sort

  method InsertHit(rules: seq<Rule>, sorted: seq<Match>, hit: Match) returns (r: seq<Match>)
    requires Ruled(rules, sorted) && Ordered(rules, sorted) && 0 <= hit.rule < |rules|
    ensures multiset(r) == multiset(sorted) + multiset{hit} && Ruled(rules, r) && Ordered(rules, r)
    ensures |r| == |sorted| + 1
    ensures r[0] == if sorted == [] || !Before(rules, sorted[0], hit) then hit else sorted[0]
  {
    var j := |sorted|;
    while j > 0 && !Before(rules, sorted[j - 1], hit)
      invariant 0 <= j <= |sorted| && forall k :: j <= k < |sorted| ==> !Before(rules, sorted[k], hit)
    {
      j := j - 1;
    }
    InsertedOrdered(rules, sorted, hit, j);
    InsertedSame(sorted, hit, j);
    r := sorted[..j] + [hit] + sorted[j..];
  }

  lemma InsertedSame(sorted: seq<Match>, hit: Match, j: nat)
    requires j <= |sorted|
    ensures var r := sorted[..j] + [hit] + sorted[j..];
            multiset(r) == multiset(sorted) + multiset{hit} && |r| == |sorted| + 1
  {
    assert sorted == sorted[..j] + sorted[j..];
  }

  lemma InsertedOrdered(rules: seq<Rule>, sorted: seq<Match>, hit: Match, j: nat)
    requires Ruled(rules, sorted) && Ordered(rules, sorted) && 0 <= hit.rule < |rules| && j <= |sorted|
    requires forall k :: j <= k < |sorted| ==> !Before(rules, sorted[k], hit)
    requires j > 0 ==> Before(rules, sorted[j - 1], hit)
    ensures var r := sorted[..j] + [hit] + sorted[j..];
            Ruled(rules, r) && Ordered(rules, r)
            && r[0] == if sorted == [] || !Before(rules, sorted[0], hit) then hit else sorted[0]
  {
    var r := sorted[..j] + [hit] + sorted[j..];
    assert forall i :: 0 <= i < j ==> Before(rules, sorted[i], hit) by {
      forall i | 0 <= i < j
        ensures Before(rules, sorted[i], hit)
      {
        if i < j - 1 { assert Before(rules, sorted[i], sorted[j - 1]); }
      }
    }
    assert forall i :: 0 <= i < |r| ==> r[i] == if i < j then sorted[i] else if i == j then hit else sorted[i - 1];
  }

  lemma DecidesMore(rules: seq<Rule>, hits: seq<Match>, k: nat, hit: Match)
    requires Ruled(rules, hits + [hit]) && Ruled(rules, hits) && Decides(rules, hits, k)
    requires 0 <= hit.rule < |rules|
    ensures Decides(rules, hits + [hit], if Before(rules, hits[k], hit) then k else |hits|)
  {
    var all, n := hits + [hit], if Before(rules, hits[k], hit) then k else |hits|;
    forall j | 0 <= j < |all|
      ensures Before(rules, all[n], all[j]) && (j < n ==> !Before(rules, all[j], all[n]))
    {
      assert j < |hits| ==> all[j] == hits[j] && Before(rules, hits[k], hits[j]);
    }
  }

  method SortHits(rules: seq<Rule>, hits: seq<Match>) returns (sorted: seq<Match>)
    requires Ruled(rules, hits)
    ensures multiset(sorted) == multiset(hits) && Ruled(rules, sorted) && Ordered(rules, sorted)
    ensures hits != [] ==> sorted != [] && exists k: nat :: Decides(rules, hits, k) && sorted[0] == hits[k]
  {
    sorted := [];
    ghost var k := 0;
    for i := 0 to |hits|
      invariant multiset(sorted) == multiset(hits[..i]) && Ruled(rules, sorted) && Ordered(rules, sorted)
      invariant |sorted| == i
      invariant i > 0 ==> Decides(rules, hits[..i], k) && sorted[0] == hits[k]
    {
      assert hits[..i + 1] == hits[..i] + [hits[i]];
      if i > 0 { DecidesMore(rules, hits[..i], k, hits[i]); }
      k := if i > 0 && Before(rules, hits[k], hits[i]) then k else i;
      sorted := InsertHit(rules, sorted, hits[i]);
    }
    assert hits[..|hits|] == hits;
  }

  // ----- the hits to mask

  predicate Selected(rules: seq<Rule>, hit: Match, name: string)
    requires 0 <= hit.rule < |rules|
  {
    rules[hit.rule].action == Mask && rules[hit.rule].name == name && hit.end >= hit.start
  }

  /** The hit carried back to the original text. */
  function IntervalOf(rules: seq<Rule>, m: seq<nat>, hit: Match): Interval<Octet>
    requires 0 <= hit.rule < |rules|
  {
    var with := rules[hit.rule].maskWith;
    if hit.start < |m| && hit.end < |m| then Interval(m[hit.start], m[hit.end], with)
    else Interval(hit.start, hit.end, with)
  }

  ghost predicate FromHit(rules: seq<Rule>, m: seq<nat>, hits: seq<Match>, name: string, iv: Interval<Octet>)
    requires Ruled(rules, hits)
  {
    exists i :: 0 <= i < |hits| && Selected(rules, hits[i], name) && iv == IntervalOf(rules, m, hits[i])
  }

  ghost predicate Collected(rules: seq<Rule>, m: seq<nat>, hits: seq<Match>, name: string, ivs: seq<Interval<Octet>>)
    requires Ruled(rules, hits)
  {
    (forall i :: 0 <= i < |hits| && Selected(rules, hits[i], name) ==> IntervalOf(rules, m, hits[i]) in ivs)
    && forall j :: 0 <= j < |ivs| ==> FromHit(rules, m, hits, name, ivs[j])
  }

  /** The hit is one of a masking rule of that name, and this is its stretch of the original with the rule's mask. */
  ghost predicate MaskedHit(rule: Rule, hit: Match, m: seq<nat>, name: string, iv: Interval<Octet>) {
    rule.action == Mask && rule.name == name && iv.with == rule.maskWith
    && (hit.start < |m| && hit.end < |m| ==> iv.start == m[hit.start] && iv.end == m[hit.end])
  }

  ghost predicate SomeMaskedHit(rules: seq<Rule>, hits: seq<Match>, m: seq<nat>, name: string, iv: Interval<Octet>)
    requires Ruled(rules, hits)
  {
    exists h :: 0 <= h < |hits| && MaskedHit(rules[hits[h].rule], hits[h], m, name, iv)
  }

  /** What is collected are the stretches of such hits, and of no others. */
  lemma OnlyMaskHits(rules: seq<Rule>, m: seq<nat>, hits: seq<Match>, name: string, ivs: seq<Interval<Octet>>, j: nat)
    requires Ruled(rules, hits) && Collected(rules, m, hits, name, ivs) && j < |ivs|
    ensures SomeMaskedHit(rules, hits, m, name, ivs[j])
  {
    assert FromHit(rules, m, hits, name, ivs[j]);
    var h :| 0 <= h < |hits| && Selected(rules, hits[h], name) && ivs[j] == IntervalOf(rules, m, hits[h]);
    assert MaskedHit(rules[hits[h].rule], hits[h], m, name, ivs[j]);
  }

  lemma CollectedMore(rules: seq<Rule>, m: seq<nat>, hits: seq<Match>, name: string, ivs: seq<Interval<Octet>>,
                         hit: Match)
    requires Ruled(rules, hits) && 0 <= hit.rule < |rules| && Collected(rules, m, hits, name, ivs)
    ensures Ruled(rules, hits + [hit])
    ensures Collected(rules, m, hits + [hit], name,
                      ivs + if Selected(rules, hit, name) then [IntervalOf(rules, m, hit)] else [])
  {
    var all, more := hits + [hit], ivs + if Selected(rules, hit, name) then [IntervalOf(rules, m, hit)] else [];
    forall j | 0 <= j < |more|
      ensures FromHit(rules, m, all, name, more[j])
    {
      if j < |ivs| {
        assert FromHit(rules, m, hits, name, ivs[j]);
        var i :| 0 <= i < |hits| && Selected(rules, hits[i], name) && ivs[j] == IntervalOf(rules, m, hits[i]);
        assert all[i] == hits[i];
      } else {
        assert all[|hits|] == hit;
      }
    }
  }

  method CollectMaskHits(rules: seq<Rule>, hits: seq<Match>, name: string, m: seq<nat>)
    returns (ivs: seq<Interval<Octet>>)
    requires Ruled(rules, hits)
    ensures Collected(rules, m, hits, name, ivs)
  {
    ivs := [];
    for k := 0 to |hits|
      invariant Ruled(rules, hits[..k]) && Collected(rules, m, hits[..k], name, ivs)
    {
      assert hits[..k + 1] == hits[..k] + [hits[k]];
      CollectedMore(rules, m, hits[..k], name, ivs, hits[k]);
      if Selected(rules, hits[k], name) { ivs := ivs + [IntervalOf(rules, m, hits[k])]; }
    }
    assert hits[..|hits|] == hits;
  }

  lemma CollectedAnyOrder(rules: seq<Rule>, m: seq<nat>, hits: seq<Match>, sorted: seq<Match>, name: string,
                             ivs: seq<Interval<Octet>>)
    requires Ruled(rules, hits) && Ruled(rules, sorted) && Collected(rules, m, sorted, name, ivs)
    requires forall x :: x in hits <==> x in sorted
    ensures Collected(rules, m, hits, name, ivs)
  {
    forall i | 0 <= i < |hits| && Selected(rules, hits[i], name)
      ensures IntervalOf(rules, m, hits[i]) in ivs
    {
      assert hits[i] in sorted;
      var k :| 0 <= k < |sorted| && sorted[k] == hits[i];
    }
    forall j | 0 <= j < |ivs|
      ensures FromHit(rules, m, hits, name, ivs[j])
    {
      assert FromHit(rules, m, sorted, name, ivs[j]);
      var k :| 0 <= k < |sorted| && Selected(rules, sorted[k], name) && ivs[j] == IntervalOf(rules, m, sorted[k]);
      assert sorted[k] in hits;
      var i :| 0 <= i < |hits| && hits[i] == sorted[k];
    }
  }

  // ----- hits are stretches of runes

  /** The hit on keyword p ending with rune i of the normalised text. */
  function HitAt(i: nat, p: Pattern): Hit
    requires |p.text| <= i + 1
  {
    Hit(i + 1 - |p.text|, i + 1)
  }

  /** The hit begins and ends between runes. */
  ghost predicate Spans(norm: string, hit: Match) {
    exists a: nat, b: nat :: SpansFrom(norm, hit, a, b)
  }

  ghost predicate SpansFrom(norm: string, hit: Match, a: nat, b: nat) {
    a <= b <= |norm| && hit.start == Offset(norm, a) && hit.end == Offset(norm, b)
  }

  ghost predicate AllSpan(norm: string, hits: seq<Match>) {
    forall x :: x in hits ==> Spans(norm, x)
  }

  /** What the regular expressions find: each hit has a rule and lies between runes, and it may be empty. */
  ghost predicate Expressions(rules: seq<Rule>, norm: string, extra: seq<Match>) {
    Ruled(rules, extra) && AllSpan(norm, extra)
  }

  lemma MatchIsFound(ps: seq<Pattern>, order: seq<string>, norm: string, hit: Match) returns (i: nat, p: Pattern)
    requires Visits(Words(ps), order) && hit in FoundBy(ps, order, norm)
    ensures p in ps && p.text != [] && |p.text| <= i + 1 <= |norm| && hit == MatchAt(norm, i, p)
  {
    WordsClosed(ps);
    var t := Words(ps);
    var b := BuiltBy(ps, t, order);
    i := ReportedOnly(norm, Groups(ps, t, b, norm), hit);
    p := ReportOnly(norm, i, Groups(ps, t, b, norm)[i], hit);
    GroupAt(ps, t, b, norm, i);
    BuiltIsOk(ps, t, order);
    var w := Reached(t, b.links, norm[..i + 1]);
    OutNowOk(ps, t, b, w);
    var k :| 0 <= k < |OutNow(ps, b, w)| && OutNow(ps, b, w)[k] == p;
    OutMember(ps, w, OutNow(ps, b, w), k);
  }

  lemma FoundSpan(rules: seq<Rule>, ps: seq<Pattern>, order: seq<string>, norm: string)
    requires Visits(Words(ps), order) && RulesOf(rules, ps)
    ensures Ruled(rules, FoundBy(ps, order, norm)) && AllSpan(norm, FoundBy(ps, order, norm))
  {
    var hits := FoundBy(ps, order, norm);
    forall x | x in hits
      ensures 0 <= x.rule < |rules| && Spans(norm, x)
    {
      var i, p := MatchIsFound(ps, order, norm, x);
      assert SpansFrom(norm, x, i + 1 - |p.text|, i + 1);
    }
    forall i | 0 <= i < |hits| ensures 0 <= hits[i].rule < |rules| { assert hits[i] in hits; }
  }

  /** A hit on no runes is an empty interval of the text, any other is a hit in the text. */
  lemma SpanLocated(cfg: Normalize, text: string, rules: seq<Rule>, hit: Match, a: nat, b: nat)
    requires SpansFrom(Normal(cfg, text), hit, a, b) && 0 <= hit.rule < |rules|
    ensures var iv := IntervalOf(rules, OffsetMap(cfg, text), hit);
            if a == b then iv.start == iv.end else Located(cfg, text, Hit(a, b), iv) && iv.start < iv.end
  {
    if a < b {
      HitInText(cfg, text, a, b);
      LocatedInText(cfg, text, Hit(a, b), IntervalOf(rules, OffsetMap(cfg, text), hit));
    }
  }

  lemma CollectedAreHits(cfg: Normalize, rules: seq<Rule>, text: string, hits: seq<Match>, name: string,
                         ivs: seq<Interval<Octet>>)
    requires Ruled(rules, hits) && Collected(rules, OffsetMap(cfg, text), hits, name, ivs)
    requires AllSpan(Normal(cfg, text), hits)
    ensures forall j :: 0 <= j < |ivs| ==> HitOrEmpty(cfg, text, ivs[j]) && ivs[j].start <= ivs[j].end
  {
    forall j | 0 <= j < |ivs|
      ensures HitOrEmpty(cfg, text, ivs[j]) && ivs[j].start <= ivs[j].end
    {
      assert FromHit(rules, OffsetMap(cfg, text), hits, name, ivs[j]);
      var h :| 0 <= h < |hits| && Selected(rules, hits[h], name)
               && ivs[j] == IntervalOf(rules, OffsetMap(cfg, text), hits[h]);
      assert Spans(Normal(cfg, text), hits[h]);
      var a: nat, b: nat :| SpansFrom(Normal(cfg, text), hits[h], a, b);
      SpanLocated(cfg, text, rules, hits[h], a, b);
    }
  }

  // ----- tags

  ghost predicate TaggedBy(rules: seq<Rule>, hit: Match, tag: string)
    requires 0 <= hit.rule < |rules|
  {
    rules[hit.rule].action == Tag && rules[hit.rule].tag == tag != ""
  }

  ghost predicate TagsOf(rules: seq<Rule>, hits: seq<Match>, tags: set<string>)
    requires Ruled(rules, hits)
  {
    forall tag :: tag in tags <==> exists h :: 0 <= h < |hits| && TaggedBy(rules, hits[h], tag)
  }

  method CollectTags(rules: seq<Rule>, hits: seq<Match>) returns (tags: set<string>)
    requires Ruled(rules, hits)
    ensures TagsOf(rules, hits, tags)
  {
    tags := {};
    for k := 0 to |hits|
      invariant forall tag :: tag in tags <==> exists h :: 0 <= h < k && TaggedBy(rules, hits[h], tag)
    {
      var rule := rules[hits[k].rule];
      if rule.action == Tag && rule.tag != "" {
        assert TaggedBy(rules, hits[k], rule.tag);
        tags := tags + {rule.tag};
      }
    }
  }

  lemma TagsAnyOrder(rules: seq<Rule>, hits: seq<Match>, sorted: seq<Match>, tags: set<string>)
    requires Ruled(rules, hits) && Ruled(rules, sorted) && TagsOf(rules, sorted, tags)
    requires forall x :: x in hits <==> x in sorted
    ensures TagsOf(rules, hits, tags)
  {
    forall tag
      ensures tag in tags <==> exists h :: 0 <= h < |hits| && TaggedBy(rules, hits[h], tag)
    {
      if h :| 0 <= h < |hits| && TaggedBy(rules, hits[h], tag) {
        assert hits[h] in sorted;
        var k :| 0 <= k < |sorted| && sorted[k] == hits[h];
      }
      if k :| 0 <= k < |sorted| && TaggedBy(rules, sorted[k], tag) {
        assert sorted[k] in hits;
        var h :| 0 <= h < |hits| && hits[h] == sorted[k];
      }
    }
  }

  // ----- the decision

  ghost predicate MaskedBy(cfg: Normalize, rules: seq<Rule>, text: string, bytes: seq<Octet>, hits: seq<Match>,
                           name: string, masked: seq<Octet>)
    requires Ruled(rules, hits)
  {
    exists ivs, chosen ::
      Collected(rules, OffsetMap(cfg, text), hits, name, ivs) && IsMasking(bytes, ivs, chosen, masked)
  }

  /** What hit k makes of the text. */
  ghost predicate Follows(cfg: Normalize, rules: seq<Rule>, text: string, bytes: seq<Octet>, hits: seq<Match>,
                          k: nat, d: Decision)
    requires Ruled(rules, hits) && k < |hits|
  {
    var rule := rules[hits[k].rule];
    match rule.action
    case Block => d == Blocked(rule.name)
    case Mask => d.Masked? && d.reason == rule.name && MaskedBy(cfg, rules, text, bytes, hits, rule.name, d.newText)
    case _ => d == Passed
  }

  ghost predicate Decided(cfg: Normalize, rules: seq<Rule>, text: string, bytes: seq<Octet>, hits: seq<Match>,
                          d: Decision)
    requires Ruled(rules, hits)
  {
    if hits == [] then d == Passed
    else exists k: nat :: Decides(rules, hits, k) && Follows(cfg, rules, text, bytes, hits, k, d)
  }

  /** The hits of one rule name are masked. */
  method MaskHits(cfg: Normalize, rules: seq<Rule>, text: string, bytes: seq<Octet>, ghost hits: seq<Match>,
                  sorted: seq<Match>, name: string, m: seq<nat>) returns (masked: seq<Octet>)
    requires Ruled(rules, hits) && Ruled(rules, sorted) && (forall x :: x in hits <==> x in sorted)
    requires m == OffsetMap(cfg, text) && AllSpan(Normal(cfg, text), hits)
    ensures MaskedBy(cfg, rules, text, bytes, hits, name, masked)
  {
    var ivs := CollectMaskHits(rules, sorted, name, m);
    CollectedAnyOrder(rules, m, hits, sorted, name, ivs);
    CollectedAreHits(cfg, rules, text, hits, name, ivs);
    masked := MaskText(bytes, ivs);
  }

  /** What the search and the regular expressions find, in that order. */
  ghost function AllHits(ps: seq<Pattern>, order: seq<string>, norm: string, extra: seq<Match>): seq<Match>
    requires Visits(Words(ps), order)
  {
    FoundBy(ps, order, norm) + extra
  }

  lemma HitsSpan(rules: seq<Rule>, ps: seq<Pattern>, order: seq<string>, norm: string, extra: seq<Match>)
    requires Visits(Words(ps), order) && RulesOf(rules, ps) && Expressions(rules, norm, extra)
    ensures var hits := AllHits(ps, order, norm, extra); Ruled(rules, hits) && AllSpan(norm, hits)
  {
    FoundSpan(rules, ps, order, norm);
  }

  /** The result of evaluating a text: decision and tags for the hits of an automaton built in that order. */
  ghost predicate Evaluated(cfg: Normalize, rules: seq<Rule>, ps: seq<Pattern>, order: seq<string>, text: string,
                            bytes: seq<Octet>, extra: seq<Match>, d: Decision, tags: set<string>)
    requires Visits(Words(ps), order)
  {
    var hits := AllHits(ps, order, Normal(cfg, text), extra);
    Ruled(rules, hits) && Decided(cfg, rules, text, bytes, hits, d) && TagsOf(rules, hits, tags)
  }

  /**
    The text is normalised, searched for keywords and expressions, and judged by the first hit of highest action and
    priority; expressions stands for the regular expressions of the library.
   */
  method Evaluate(cfg: Normalize, rules: seq<Rule>, ghost ps: seq<Pattern>, ghost order: seq<string>, nodes: seq<Node>,
                  text: string, bytes: seq<Octet>, expressions: string -> seq<Match>)
    returns (d: Decision, tags: set<string>)
    requires BuiltAs(ps, nodes, order) && RulesOf(rules, ps)
    requires Expressions(rules, Normal(cfg, text), expressions(Normal(cfg, text)))
    ensures Visits(Words(ps), order)
    ensures Evaluated(cfg, rules, ps, order, text, bytes, expressions(Normal(cfg, text)), d, tags)
  {
    var norm, m := NormalizeWithMap(cfg, text);
    var found := Find(ps, order, nodes, norm);
    var hits := found + expressions(norm);
    HitsSpan(rules, ps, order, norm, expressions(norm));
    d, tags := Judge(cfg, rules, text, bytes, hits, m);
    assert Evaluated(cfg, rules, ps, order, text, bytes, expressions(norm), d, tags);
  }

  method Judge(cfg: Normalize, rules: seq<Rule>, text: string, bytes: seq<Octet>, hits: seq<Match>, m: seq<nat>)
    returns (d: Decision, tags: set<string>)
    requires Ruled(rules, hits) && m == OffsetMap(cfg, text) && AllSpan(Normal(cfg, text), hits)
    ensures Decided(cfg, rules, text, bytes, hits, d) && TagsOf(rules, hits, tags)
  {
    if hits == [] { return Passed, {}; }
    var sorted := SortHits(rules, hits);
    SameMembers(sorted, hits);
    tags := CollectTags(rules, sorted);
    TagsAnyOrder(rules, hits, sorted, tags);
    d := DecideBy(cfg, rules, text, bytes, hits, sorted, m);
  }

  /** The first of the sorted hits that blocks or masks. */
  method DecideBy(cfg: Normalize, rules: seq<Rule>, text: string, bytes: seq<Octet>, ghost hits: seq<Match>,
                  sorted: seq<Match>, m: seq<nat>) returns (d: Decision)
    requires Ruled(rules, hits) && m == OffsetMap(cfg, text) && AllSpan(Normal(cfg, text), hits)
    requires Ruled(rules, sorted) && Ordered(rules, sorted) && sorted != [] && (forall x :: x in hits <==> x in sorted)
    requires exists k: nat :: Decides(rules, hits, k) && sorted[0] == hits[k]
    ensures hits != [] && Decided(cfg, rules, text, bytes, hits, d)
  {
    ghost var k: nat :| Decides(rules, hits, k) && sorted[0] == hits[k];
    for i := 0 to |sorted|
      invariant i > 0 ==> ActionRank(rules[sorted[0].rule].action) < 3
    {
      var rule := rules[sorted[i].rule];
      assert i > 0 ==> Before(rules, sorted[0], sorted[i]);
      match rule.action
      case Block =>
        assert Follows(cfg, rules, text, bytes, hits, k, Blocked(rule.name));
        return Blocked(rule.name);
      case Mask =>
        var masked := MaskHits(cfg, rules, text, bytes, hits, sorted, rule.name, m);
        assert Follows(cfg, rules, text, bytes, hits, k, Masked(rule.name, masked));
        return Masked(rule.name, masked);
      case _ =>
    }
    assert Follows(cfg, rules, text, bytes, hits, k, Passed);
    return Passed;
  }

  // ----- what is decided about the occurrences of keywords and expressions

  ghost predicate AreFound(ps: seq<Pattern>, norm: string, extra: seq<Match>, hits: seq<Match>) {
    forall x :: x in hits <==> IsOccurrence(ps, norm, x) || x in extra
  }

  lemma FoundAreOccurrences(ps: seq<Pattern>, order: seq<string>, norm: string, extra: seq<Match>)
    requires Visits(Words(ps), order) && NoInnerPrefix(Words(ps))
    ensures AreFound(ps, norm, extra, AllHits(ps, order, norm, extra))
  {
    ExactWithoutInner(ps, order, norm);
  }

  /** A keyword of a rule with that action, and for tagging that tag, stands in the text, or an expression of one. */
  ghost predicate OccursWith(rules: seq<Rule>, ps: seq<Pattern>, norm: string, extra: seq<Match>, action: Action,
                             tag: string)
    requires RulesOf(rules, ps) && Ruled(rules, extra)
  {
    (exists i: nat, p :: Occurs(ps, norm, i, p) && Fits(rules[p.rule], action, tag))
    || exists e :: 0 <= e < |extra| && Fits(rules[extra[e].rule], action, tag)
  }

  predicate Fits(rule: Rule, action: Action, tag: string) {
    rule.action == action && (action == Tag ==> rule.tag == tag != "")
  }

  lemma HitWith(rules: seq<Rule>, ps: seq<Pattern>, norm: string, extra: seq<Match>, hits: seq<Match>, action: Action,
                tag: string)
    requires RulesOf(rules, ps) && Ruled(rules, hits) && Ruled(rules, extra) && AreFound(ps, norm, extra, hits)
    ensures OccursWith(rules, ps, norm, extra, action, tag)
            <==> exists h :: 0 <= h < |hits| && Fits(rules[hits[h].rule], action, tag)
  {
    if i: nat, p :| Occurs(ps, norm, i, p) && Fits(rules[p.rule], action, tag) {
      assert IsOccurrence(ps, norm, MatchAt(norm, i, p));
      var h :| 0 <= h < |hits| && hits[h] == MatchAt(norm, i, p);
    }
    if e :| 0 <= e < |extra| && Fits(rules[extra[e].rule], action, tag) {
      assert extra[e] in hits;
      var h :| 0 <= h < |hits| && hits[h] == extra[e];
    }
    if h :| 0 <= h < |hits| && Fits(rules[hits[h].rule], action, tag) {
      assert hits[h] in hits;
      if hits[h] in extra { var e :| 0 <= e < |extra| && extra[e] == hits[h]; }
    }
  }

  lemma DecidedBy(cfg: Normalize, rules: seq<Rule>, text: string, bytes: seq<Octet>, hits: seq<Match>, d: Decision)
    requires Ruled(rules, hits) && Decided(cfg, rules, text, bytes, hits, d)
    ensures d.Blocked? <==> exists h :: 0 <= h < |hits| && Fits(rules[hits[h].rule], Block, "")
    ensures d.Masked? <==> !d.Blocked? && exists h :: 0 <= h < |hits| && Fits(rules[hits[h].rule], Mask, "")
  {
    if hits != [] {
      var k: nat :| Decides(rules, hits, k) && Follows(cfg, rules, text, bytes, hits, k, d);
      assert forall h :: 0 <= h < |hits| ==> Before(rules, hits[k], hits[h]);
      assert Fits(rules[hits[k].rule], Block, "") || Fits(rules[hits[k].rule], Mask, "") || d == Passed;
    }
  }

  /** The name is that of a rule hit: of that action, of the highest priority hit, and the first such hit. */
  ghost predicate HighestHit(rules: seq<Rule>, hits: seq<Match>, action: Action, name: string)
    requires Ruled(rules, hits)
  {
    exists k :: 0 <= k < |hits| && rules[hits[k].rule].action == action && rules[hits[k].rule].name == name
      && forall j :: 0 <= j < |hits| && rules[hits[j].rule].action == action ==>
           rules[hits[j].rule].priority <= rules[hits[k].rule].priority
           && (j < k ==> rules[hits[j].rule].priority < rules[hits[k].rule].priority)
  }

  /** The reason given for blocking or masking. */
  lemma ReasonIsHighest(cfg: Normalize, rules: seq<Rule>, text: string, bytes: seq<Octet>, hits: seq<Match>,
                        d: Decision)
    requires Ruled(rules, hits) && Decided(cfg, rules, text, bytes, hits, d)
    ensures d.Blocked? ==> HighestHit(rules, hits, Block, d.reason)
    ensures d.Masked? ==> HighestHit(rules, hits, Mask, d.reason)
  {
    if hits != [] {
      var k: nat :| Decides(rules, hits, k) && Follows(cfg, rules, text, bytes, hits, k, d);
      assert forall j :: 0 <= j < |hits| ==> Before(rules, hits[k], hits[j]);
      assert forall j :: 0 <= j < k ==> !Before(rules, hits[j], hits[k]);
    }
  }

  /**
    A text is blocked exactly when a keyword or an expression of a blocking rule occurs in its normalised form, masked
    exactly when none of those but one of a masking rule does, passes otherwise, and is tagged with the tags of the
    tagging rules that occur.
   */
  lemma DecidedByOccurrences(cfg: Normalize, rules: seq<Rule>, ps: seq<Pattern>, order: seq<string>, text: string,
                             bytes: seq<Octet>, extra: seq<Match>, d: Decision, tags: set<string>)
    requires RulesOf(rules, ps) && Ruled(rules, extra) && Visits(Words(ps), order) && NoInnerPrefix(Words(ps))
    requires Evaluated(cfg, rules, ps, order, text, bytes, extra, d, tags)
    ensures d.Blocked? <==> OccursWith(rules, ps, Normal(cfg, text), extra, Block, "")
    ensures d.Masked? <==> !OccursWith(rules, ps, Normal(cfg, text), extra, Block, "")
                           && OccursWith(rules, ps, Normal(cfg, text), extra, Mask, "")
    ensures forall tag :: tag in tags <==> OccursWith(rules, ps, Normal(cfg, text), extra, Tag, tag)
  {
    var norm := Normal(cfg, text);
    var hits := AllHits(ps, order, norm, extra);
    FoundAreOccurrences(ps, order, norm, extra);
    HitWith(rules, ps, norm, extra, hits, Block, "");
    HitWith(rules, ps, norm, extra, hits, Mask, "");
    DecidedBy(cfg, rules, text, bytes, hits, d);
    forall tag
      ensures tag in tags <==> OccursWith(rules, ps, norm, extra, Tag, tag)
    {
      HitWith(rules, ps, norm, extra, hits, Tag, tag);
      TagFits(rules, hits, tags, tag);
    }
  }

  lemma TagFits(rules: seq<Rule>, hits: seq<Match>, tags: set<string>, tag: string)
    requires Ruled(rules, hits) && TagsOf(rules, hits, tags)
    ensures tag in tags <==> exists h :: 0 <= h < |hits| && Fits(rules[hits[h].rule], Tag, tag)
  {
    if h :| 0 <= h < |hits| && Fits(rules[hits[h].rule], Tag, tag) { assert TaggedBy(rules, hits[h], tag); }
    if tag in tags {
      var h :| 0 <= h < |hits| && TaggedBy(rules, hits[h], tag);
      assert Fits(rules[hits[h].rule], Tag, tag);
    }
  }

  ghost predicate FirstRuneInSome(cfg: Normalize, text: string, hit: Hit, chosen: seq<Interval<Octet>>) {
    exists j :: 0 <= j < |chosen| && FirstRuneIn(cfg, text, hit, chosen[j])
  }

  lemma IntervalCollected(rules: seq<Rule>, ps: seq<Pattern>, norm: string, extra: seq<Match>, m: seq<nat>,
                          hits: seq<Match>, name: string, ivs: seq<Interval<Octet>>, i: nat, p: Pattern)
    requires RulesOf(rules, ps) && Ruled(rules, hits) && AreFound(ps, norm, extra, hits) && Occurs(ps, norm, i, p)
    requires rules[p.rule].action == Mask && rules[p.rule].name == name && Collected(rules, m, hits, name, ivs)
    ensures IntervalOf(rules, m, MatchAt(norm, i, p)) in ivs
  {
    assert IsOccurrence(ps, norm, MatchAt(norm, i, p));
    var h :| 0 <= h < |hits| && hits[h] == MatchAt(norm, i, p);
    OffsetsAscend(norm, i + 1 - |p.text|, i + 1);
  }

  lemma MatchLocated(cfg: Normalize, text: string, rules: seq<Rule>, i: nat, p: Pattern)
    requires p.text != [] && |p.text| <= i + 1 <= |Normal(cfg, text)| && 0 <= p.rule < |rules|
    ensures Located(cfg, text, HitAt(i, p), IntervalOf(rules, OffsetMap(cfg, text), MatchAt(Normal(cfg, text), i, p)))
  {
    SpanLocated(cfg, text, rules, MatchAt(Normal(cfg, text), i, p), i + 1 - |p.text|, i + 1);
  }

  lemma MaskedIn(cfg: Normalize, rules: seq<Rule>, text: string, hits: seq<Match>, name: string,
                 ivs: seq<Interval<Octet>>, chosen: seq<Interval<Octet>>, i: nat, p: Pattern)
    requires Ruled(rules, hits) && AllSpan(Normal(cfg, text), hits)
    requires Collected(rules, OffsetMap(cfg, text), hits, name, ivs) && AllCovered(ivs, chosen, Offset(text, |text|))
    requires forall j :: 0 <= j < |chosen| ==> chosen[j] in ivs
    requires p.text != [] && |p.text| <= i + 1 <= |Normal(cfg, text)| && 0 <= p.rule < |rules|
    requires IntervalOf(rules, OffsetMap(cfg, text), MatchAt(Normal(cfg, text), i, p)) in ivs
    ensures FirstRuneInSome(cfg, text, HitAt(i, p), chosen)
  {
    CollectedAreHits(cfg, rules, text, hits, name, ivs);
    MatchLocated(cfg, text, rules, i, p);
    var n :| 0 <= n < |ivs| && ivs[n] == IntervalOf(rules, OffsetMap(cfg, text), MatchAt(Normal(cfg, text), i, p));
    HitIsMasked(cfg, text, HitAt(i, p), ivs, chosen, n);
  }

  /**
    Where a text is masked, it is by replacing some of the hits collected for the deciding rule's name and nothing else,
    and among the replaced stretches one holds the whole first rune of every occurrence of a keyword of that name.
   */
  lemma OccurrenceIsMasked(cfg: Normalize, rules: seq<Rule>, ps: seq<Pattern>, order: seq<string>, text: string,
                           bytes: seq<Octet>, extra: seq<Match>, d: Decision, tags: set<string>, i: nat, p: Pattern)
    requires RulesOf(rules, ps) && Visits(Words(ps), order) && NoInnerPrefix(Words(ps))
    requires Expressions(rules, Normal(cfg, text), extra) && |bytes| == Offset(text, |text|)
    requires Evaluated(cfg, rules, ps, order, text, bytes, extra, d, tags) && d.Masked?
    requires Occurs(ps, Normal(cfg, text), i, p) && rules[p.rule].action == Mask && rules[p.rule].name == d.reason
    ensures exists ivs, chosen ::
              Collected(rules, OffsetMap(cfg, text), AllHits(ps, order, Normal(cfg, text), extra), d.reason, ivs)
              && IsMasking(bytes, ivs, chosen, d.newText) && FirstRuneInSome(cfg, text, HitAt(i, p), chosen)
  {
    var norm := Normal(cfg, text);
    var hits := AllHits(ps, order, norm, extra);
    FoundAreOccurrences(ps, order, norm, extra);
    HitsSpan(rules, ps, order, norm, extra);
    var ivs, chosen :| Collected(rules, OffsetMap(cfg, text), hits, d.reason, ivs)
                       && IsMasking(bytes, ivs, chosen, d.newText);
    IntervalCollected(rules, ps, norm, extra, OffsetMap(cfg, text), hits, d.reason, ivs, i, p);
    MaskedIn(cfg, rules, text, hits, d.reason, ivs, chosen, i, p);
  }
}
