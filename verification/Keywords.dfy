/**
  Keywords and their prefixes, the words of the automaton: the failure links as the build's own rule sets them in
  whatever order it visits the words, what is reported at each word, and when the search built on them is exact.
 */
module Keywords {
  import opened Collections
  import opened Utf8

  datatype Pattern = Pattern(text: string, rule: int)

  datatype Match = Match(rule: int, start: nat, end: nat, text: string)

  // ----- words

  predicate Suffix(a: string, b: string) {
    |a| <= |b| && b[|b| - |a|..] == a
  }

  function Prefixes(s: string): set<string> {
    if s == [] then {[]} else Prefixes(s[..|s| - 1]) + {s}
  }

  /** Every prefix of every keyword. */
  function Words(ps: seq<Pattern>): (t: set<string>)
    ensures [] in t
  {
    if ps == [] then {[]} else Words(ps[..|ps| - 1]) + Prefixes(ps[|ps| - 1].text)
  }

  ghost predicate IsTrie(t: set<string>) {
    [] in t && forall w, r :: w + [r] in t ==> w in t
  }

  /** The longest suffix of s among the words. */
  function Longest(t: set<string>, s: string): (w: string)
    requires [] in t
    ensures w in t && |w| <= |s|
    decreases |s|
  {
    if s in t then s else Longest(t, s[1..])
  }

  lemma {:induction false} LongestIsSuffix(t: set<string>, s: string)
    requires [] in t
    ensures Suffix(Longest(t, s), s)
    decreases |s|
  {
    if s !in t { LongestIsSuffix(t, s[1..]); }
  }

  lemma {:induction false} LongestHolds(t: set<string>, s: string, x: string)
    requires [] in t && x in t && Suffix(x, s)
    ensures Suffix(x, Longest(t, s))
    decreases |s|
  {
    if s !in t {
      assert |x| < |s| by { assert s[0..] == s; }
      LongestHolds(t, s[1..], x);
    }
  }

  /** Where a failure link belongs: the longest proper suffix. */
  function Fail(t: set<string>, w: string): string
    requires [] in t && w != []
  {
    Longest(t, w[1..])
  }

  lemma {:induction false} FailIsSuffix(t: set<string>, w: string)
    requires [] in t && w != []
    ensures Suffix(Fail(t, w), w) && Fail(t, w) != w
  {
    LongestIsSuffix(t, w[1..]);
  }

  /** Following failure links until a rune can be read, then reading it. */
  function Advance(t: set<string>, w: string, r: char): string
    requires [] in t
    decreases |w|
  {
    if w + [r] in t then w + [r] else if w == [] then [] else Advance(t, Fail(t, w), r)
  }

  lemma {:induction false} AdvanceIsLongest(t: set<string>, s: string, r: char)
    requires IsTrie(t)
    ensures Longest(t, s + [r]) == Advance(t, Longest(t, s), r)
    decreases |s|
  {
    if s + [r] !in t {
      if s == [] { assert (s + [r])[1..] == []; }
      else {
        assert (s + [r])[1..] == s[1..] + [r];
        AdvanceIsLongest(t, s[1..], r);
      }
    }
  }

  // ----- links computed from right shorter links

  /** The inner loop: it stops on the word it has read to, not on the word it read from. */
  function Walk(t: set<string>, f: string, r: char): string
    requires [] in t
    decreases |f|
  {
    if f == [] then [] else if f + [r] in t then f + [r] else Walk(t, Fail(t, f), r)
  }

  /** The link of v + [r], when the links of shorter words are right. */
  function Link(t: set<string>, v: string, r: char): string
    requires [] in t && v != []
  {
    var f := Walk(t, Fail(t, v), r);
    if f + [r] in t && f + [r] != v + [r] then f + [r] else []
  }

  lemma {:induction false} WalkAdvances(t: set<string>, f: string, r: char)
    requires [] in t
    ensures var w := Walk(t, f, r);
            if w == [] then Advance(t, f, r) == if [r] in t then [r] else []
            else Advance(t, f, r) == w && |w| >= 2
    decreases |f|
  {
    assert [] + [r] == [r];
    if f != [] && f + [r] !in t { WalkAdvances(t, Fail(t, f), r); }
  }

  /** The link is right exactly when it is to the root or to a single rune. */
  lemma {:induction false} LinkExact(t: set<string>, v: string, r: char)
    requires IsTrie(t) && v != [] && v + [r] in t
    ensures Link(t, v, r) == Fail(t, v + [r]) <==> |Fail(t, v + [r])| <= 1
  {
    assert (v + [r])[1..] == v[1..] + [r];
    AdvanceIsLongest(t, v[1..], r);
    WalkAdvances(t, Fail(t, v), r);
    assert [] + [r] == [r];
  }

  /** No proper suffix of two or more runes of a keyword prefix is itself a keyword prefix. */
  ghost predicate NoInnerPrefix(t: set<string>) {
    forall w, x {:trigger Suffix(x, w)} :: w in t && x in t && Suffix(x, w) && x != w ==> |x| < 2
  }

  ghost predicate ShortFails(t: set<string>)
    requires [] in t
  {
    forall w :: w in t && |w| >= 2 ==> |Fail(t, w)| <= 1
  }

  lemma {:induction false} ProperSuffix(t: set<string>, w: string, x: string)
    requires [] in t && x in t && Suffix(x, w) && x != w
    ensures w != [] && Suffix(x, Fail(t, w))
  {
    assert |x| < |w| by { assert w[0..] == w; }
    LongestHolds(t, w[1..], x);
  }

  lemma {:induction false} ShortFailsSuffice(t: set<string>)
    requires [] in t && ShortFails(t)
    ensures NoInnerPrefix(t)
  {
    forall w, x | w in t && x in t && Suffix(x, w) && x != w
      ensures |x| < 2
    {
      ProperSuffix(t, w, x);
    }
  }

  lemma {:induction false} FailIsShort(t: set<string>)
    requires [] in t
    ensures NoInnerPrefix(t) <==> ShortFails(t)
  {
    if NoInnerPrefix(t) {
      forall w | w in t && |w| >= 2
        ensures |Fail(t, w)| <= 1
      {
        FailIsSuffix(t, w);
      }
    }
    if ShortFails(t) { ShortFailsSuffice(t); }
  }

  // ----- what is reported

  /** Keywords that are the word. */
  function Own(ps: seq<Pattern>, w: string): seq<Pattern> {
    if ps == [] then []
    else if ps[0].text != [] && ps[0].text == w then [ps[0]] + Own(ps[1..], w)
    else Own(ps[1..], w)
  }

  /** Keywords that end where s ends. */
  function Hits(ps: seq<Pattern>, s: string): seq<Pattern> {
    if ps == [] then []
    else if ps[0].text != [] && Suffix(ps[0].text, s) then [ps[0]] + Hits(ps[1..], s)
    else Hits(ps[1..], s)
  }

  lemma {:induction false} PrefixesClosed(s: string)
    ensures s in Prefixes(s) && IsTrie(Prefixes(s))
  {
    if s != [] {
      PrefixesClosed(s[..|s| - 1]);
      forall w, r | w + [r] in Prefixes(s)
        ensures w in Prefixes(s)
      {
        if w + [r] == s { assert w == s[..|s| - 1]; }
      }
    }
  }

  lemma {:induction false} WordsClosed(ps: seq<Pattern>)
    ensures IsTrie(Words(ps)) && forall k :: 0 <= k < |ps| ==> ps[k].text in Words(ps)
  {
    if ps != [] {
      WordsClosed(ps[..|ps| - 1]);
      PrefixesClosed(ps[|ps| - 1].text);
      forall w, r | w + [r] in Words(ps)
        ensures w in Words(ps)
      {
        assert w + [r] in Words(ps[..|ps| - 1]) || w + [r] in Prefixes(ps[|ps| - 1].text);
      }
    }
  }

  /** Only the longest word that ends there matters for which keywords end there. */
  lemma {:induction false} HitsOfLongest(ps: seq<Pattern>, t: set<string>, s: string)
    requires [] in t && forall k :: 0 <= k < |ps| ==> ps[k].text in t
    ensures Hits(ps, s) == Hits(ps, Longest(t, s))
  {
    if ps != [] {
      HitsOfLongest(ps[1..], t, s);
      var x := ps[0].text;
      LongestIsSuffix(t, s);
      if Suffix(x, s) { LongestHolds(t, s, x); }
    }
  }

  /** w and its only proper suffix f among the keywords account for every keyword ending with w. */
  lemma {:induction false} HitsAreOwn(ps: seq<Pattern>, w: string, f: string)
    requires w != f && w != []
    requires forall k :: 0 <= k < |ps| && ps[k].text != [] ==>
               (Suffix(ps[k].text, w) <==> ps[k].text == w || ps[k].text == f)
    ensures multiset(Own(ps, w) + Own(ps, f)) == multiset(Hits(ps, w))
  {
    if ps != [] {
      HitsAreOwn(ps[1..], w, f);
    }
  }

  lemma {:induction false} OnlySuffixes(t: set<string>, w: string, x: string)
    requires [] in t && w in t && x in t && w != [] && x != [] && NoInnerPrefix(t)
    ensures Suffix(x, w) <==> x == w || x == Fail(t, w)
  {
    FailIsSuffix(t, w);
    if Suffix(x, w) && x != w { ProperSuffix(t, w, x); }
  }

  lemma {:induction false} ShortFailHits(ps: seq<Pattern>, t: set<string>, w: string)
    requires [] in t && (forall k :: 0 <= k < |ps| ==> ps[k].text in t) && NoInnerPrefix(t) && w in t && w != []
    ensures |Fail(t, w)| <= 1 && Fail(t, w) != w
    ensures multiset(Own(ps, w) + Own(ps, Fail(t, w))) == multiset(Hits(ps, w))
  {
    FailIsSuffix(t, w);
    forall k | 0 <= k < |ps| && ps[k].text != []
      ensures Suffix(ps[k].text, w) <==> ps[k].text == w || ps[k].text == Fail(t, w)
    {
      OnlySuffixes(t, w, ps[k].text);
    }
    HitsAreOwn(ps, w, Fail(t, w));
  }

  lemma {:induction false} OwnOfRoot(ps: seq<Pattern>)
    ensures Own(ps, []) == [] && Hits(ps, []) == []
  {
    if ps != [] { OwnOfRoot(ps[1..]); }
  }

  // ----- runs of one rune

  function Front(w: string): string
    requires w != []
  {
    w[..|w| - 1]
  }

  function Last(w: string): char
    requires w != []
  {
    w[|w| - 1]
  }

  /** How many equal runes w ends with. */
  function Run(w: string): (n: nat)
    ensures n <= |w| && (w != [] ==> n > 0)
  {
    if w == [] then 0 else if |w| > 1 && w[|w| - 2] == Last(w) then Run(Front(w)) + 1 else 1
  }

  predicate Uniform(w: string) {
    Run(w) == |w|
  }

  lemma {:induction false} RunMore(w: string, r: char)
    ensures Run(w + [r]) == if w != [] && Last(w) == r then Run(w) + 1 else 1
  {
    assert Front(w + [r]) == w;
  }

  lemma {:induction false} UniformEqual(a: string, b: string)
    requires Uniform(a) && Uniform(b) && |a| == |b| && a != [] && Last(a) == Last(b)
    ensures a == b
  {
    assert a == Front(a) + [Last(a)] && b == Front(b) + [Last(b)];
    if |a| > 1 { UniformEqual(Front(a), Front(b)); }
  }

  /** What a link can lead to: it ends with the same rune and, unless it is of one rune only, with more of it. */
  ghost predicate MayLink(w: string, x: string) {
    x == []
    || (w != [] && Last(x) == Last(w) && |x| != 2
        && if Uniform(w) then Uniform(x) && |x| < |w| else Uniform(x) || Run(x) > Run(w))
  }

  lemma {:induction false} LinkOn(w: string, x: string, y: string)
    requires x != [] && MayLink(w, x) && MayLink(x, y)
    ensures MayLink(w, y)
  {
  }

  /** Reading the same rune twice after a link of v gives a possible link of v and that rune. */
  lemma {:induction false} LinkTwice(v: string, f: string, r: char)
    requires v != [] && f != [] && MayLink(v, f) && f + [r] + [r] != v + [r]
    ensures MayLink(v + [r], f + [r] + [r])
  {
    RunMore(v, r);
    RunMore(f, r);
    RunMore(f + [r], r);
    if Uniform(v + [r]) && Uniform(f + [r] + [r]) && |f| + 2 == |v| + 1 {
      UniformEqual(v + [r], f + [r] + [r]);
    }
  }

  // ----- links end

  lemma {:induction false} PrefixCount(w: string)
    ensures |Prefixes(w)| == |w| + 1 && forall x :: x in Prefixes(w) ==> |x| <= |w|
  {
    if w != [] { PrefixCount(w[..|w| - 1]); }
  }

  lemma {:induction false} PrefixesWithin(t: set<string>, w: string)
    requires IsTrie(t) && w in t
    ensures Prefixes(w) <= t
  {
    if w != [] {
      assert w == w[..|w| - 1] + [w[|w| - 1]];
      PrefixesWithin(t, w[..|w| - 1]);
    }
  }

  lemma {:induction false} ShorterThanTrie(t: set<string>, w: string)
    requires IsTrie(t) && w in t
    ensures |w| < |t|
  {
    PrefixCount(w);
    PrefixesWithin(t, w);
    SubsetSize(Prefixes(w), t);
  }

  /** Falls along every link, for words of at most n runes. */
  ghost function Rank(n: nat, w: string): int {
    if Uniform(w) then |w| else 2 * n - Run(w)
  }

  lemma {:induction false} RankFalls(t: set<string>, w: string, x: string)
    requires IsTrie(t) && w in t && x in t && w != [] && MayLink(w, x)
    ensures 0 <= Rank(|t|, x) < Rank(|t|, w)
  {
    ShorterThanTrie(t, w);
    ShorterThanTrie(t, x);
  }

  // ----- the rule by which links are set, given the links set so far

  ghost predicate Sound(t: set<string>, links: map<string, string>) {
    forall w {:trigger SoundAt(t, links, w)} :: w in links ==> SoundAt(t, links, w)
  }

  ghost predicate SoundAt(t: set<string>, links: map<string, string>, w: string)
    requires w in links
  {
    w in t && w != [] && links[w] in t && MayLink(w, links[w])
  }

  /** A link not set yet leads to the root. */
  ghost function LinkNow(links: map<string, string>, w: string): string {
    if w in links then links[w] else []
  }

  lemma {:induction false} NowSound(t: set<string>, links: map<string, string>, w: string)
    requires [] in t && Sound(t, links)
    ensures LinkNow(links, w) in t && MayLink(w, LinkNow(links, w))
    ensures w in links ==> w in t && w != []
  {
    if w in links { assert SoundAt(t, links, w); }
  }

  /** The inner loop of the build: it stops on the word it has read to, not on the word it read from. */
  ghost function WalkBy(t: set<string>, links: map<string, string>, f: string, r: char): (e: string)
    requires IsTrie(t) && Sound(t, links) && f in t
    ensures e in t
    decreases Rank(|t|, f)
  {
    if f == [] then []
    else if f + [r] in t then f + [r]
    else
      NowSound(t, links, f);
      RankFalls(t, f, LinkNow(links, f));
      WalkBy(t, links, LinkNow(links, f), r)
  }

  ghost function RuleLink(t: set<string>, links: map<string, string>, w: string): (x: string)
    requires IsTrie(t) && Sound(t, links) && w in t && w != []
    ensures x in t
  {
    if |w| == 1 then []
    else
      NowSound(t, links, Front(w));
      var f := WalkBy(t, links, LinkNow(links, Front(w)), Last(w));
      if f + [Last(w)] in t && f + [Last(w)] != w then f + [Last(w)] else []
  }

  lemma {:induction false} WalkEnds(t: set<string>, links: map<string, string>, v: string, f: string, r: char)
    requires IsTrie(t) && Sound(t, links) && f in t && v != [] && MayLink(v, f)
    ensures var e := WalkBy(t, links, f, r);
            e == [] || (|e| >= 2 && Last(e) == r && MayLink(v, Front(e)))
    decreases Rank(|t|, f)
  {
    if f != [] {
      if f + [r] in t { assert Front(f + [r]) == f; }
      else {
        var g := LinkNow(links, f);
        NowSound(t, links, f);
        RankFalls(t, f, g);
        LinkOn(v, f, g);
        WalkEnds(t, links, v, g, r);
      }
    }
  }

  lemma {:induction false} LinkSingle(w: string)
    requires |w| > 1
    ensures MayLink(w, [Last(w)])
  {
    RunMore([], Last(w));
    assert [] + [Last(w)] == [Last(w)];
  }

  lemma {:induction false} LinkAfter(v: string, e: string, r: char)
    requires v != [] && |e| >= 2 && Last(e) == r && MayLink(v, Front(e)) && e + [r] != v + [r]
    ensures MayLink(v + [r], e + [r])
  {
    assert e == Front(e) + [r];
    LinkTwice(v, Front(e), r);
  }

  lemma {:induction false} RuleIsSound(t: set<string>, links: map<string, string>, w: string)
    requires IsTrie(t) && Sound(t, links) && w in t && w != []
    ensures MayLink(w, RuleLink(t, links, w))
  {
    if |w| > 1 {
      var v, r := Front(w), Last(w);
      NowSound(t, links, v);
      var f := WalkBy(t, links, LinkNow(links, v), r);
      WalkEnds(t, links, v, LinkNow(links, v), r);
      assert w == v + [r];
      if f == [] {
        LinkSingle(w);
        assert f + [r] == [r];
      } else if f + [r] != w {
        LinkAfter(v, f, r);
      }
    }
  }

  // ----- the whole build, in a given order

  datatype Built = Built(links: map<string, string>, outs: map<string, seq<Pattern>>)

  function Seen(order: seq<string>): set<string> {
    if order == [] then {} else Seen(order[..|order| - 1]) + {order[|order| - 1]}
  }

  /** Every word is visited once and after the word it extends. */
  predicate TopDown(t: set<string>, order: seq<string>) {
    order == []
    || (var before, w := order[..|order| - 1], order[|order| - 1];
        TopDown(t, before) && w in t && w != [] && w !in Seen(before) && (|w| > 1 ==> Front(w) in Seen(before)))
  }

  predicate Visits(t: set<string>, order: seq<string>) {
    TopDown(t, order) && Seen(order) == t - {[]}
  }

  /** What a word reports so far: its own keywords until it is visited. */
  ghost function OutNow(ps: seq<Pattern>, b: Built, w: string): seq<Pattern> {
    if w in b.outs then b.outs[w] else Own(ps, w)
  }

  ghost function Visit(ps: seq<Pattern>, t: set<string>, b: Built, w: string): Built
    requires IsTrie(t) && Sound(t, b.links) && w in t && w != []
  {
    var link := RuleLink(t, b.links, w);
    Built(b.links[w := link], b.outs[w := Own(ps, w) + OutNow(ps, b, link)])
  }

  lemma {:induction false} VisitIsSound(ps: seq<Pattern>, t: set<string>, b: Built, w: string)
    requires IsTrie(t) && Sound(t, b.links) && w in t && w != []
    ensures Sound(t, Visit(ps, t, b, w).links)
  {
    RuleIsSound(t, b.links, w);
    var links := Visit(ps, t, b, w).links;
    forall x | x in links
      ensures SoundAt(t, links, x)
    {
      if x != w { assert SoundAt(t, b.links, x); }
    }
  }

  ghost function BuiltBy(ps: seq<Pattern>, t: set<string>, order: seq<string>): (b: Built)
    requires IsTrie(t) && TopDown(t, order)
    ensures Sound(t, b.links) && b.links.Keys == b.outs.Keys == Seen(order)
  {
    if order == [] then Built(map[], map[])
    else
      var b, w := BuiltBy(ps, t, order[..|order| - 1]), order[|order| - 1];
      VisitIsSound(ps, t, b, w);
      Visit(ps, t, b, w)
  }

  // ----- what the build makes of the words

  /** No word shorter than n has another inside it that is itself of two or more runes. */
  ghost predicate Clean(t: set<string>, n: nat)
    requires [] in t
  {
    forall x {:trigger Fail(t, x)} :: x in t && x != [] && |x| < n ==> |Fail(t, x)| <= 1
  }

  /** The length of the link of m equal runes. */
  function UniformLink(m: nat): (n: nat)
    ensures m > 0 ==> n < m
  {
    if m <= 1 then 0
    else
      var i := UniformLink(m - 1);
      if i == 0 then 1 else if i + 2 == m then 0 else i + 2
  }

  /** The word's own keywords come first, then keywords a link can lead to. */
  ghost predicate OutOk(ps: seq<Pattern>, w: string, out: seq<Pattern>) {
    Own(ps, w) <= out
    && forall k :: |Own(ps, w)| <= k < |out| ==> out[k] in ps && out[k].text != [] && MayLink(w, out[k].text)
  }

  ghost predicate LinkOk(t: set<string>, w: string, link: string)
    requires [] in t && w != []
  {
    (|w| > 1 && Clean(t, |w|) ==> link == Link(t, Front(w), Last(w)))
    && (Clean(t, |w| + 1) ==> link == Fail(t, w))
    && (Uniform(w) ==> |link| == UniformLink(|w|))
  }

  ghost predicate WordOk(ps: seq<Pattern>, t: set<string>, w: string, link: string, out: seq<Pattern>)
    requires [] in t && w != []
  {
    LinkOk(t, w, link) && OutOk(ps, w, out) && (Clean(t, |w| + 1) ==> out == Own(ps, w) + Own(ps, link))
  }

  ghost predicate AllOk(ps: seq<Pattern>, t: set<string>, b: Built)
    requires [] in t && Sound(t, b.links) && b.links.Keys == b.outs.Keys
  {
    forall w {:trigger WordOk(ps, t, w, b.links[w], b.outs[w])} ::
      w in b.links ==> SoundAt(t, b.links, w) && WordOk(ps, t, w, b.links[w], b.outs[w])
  }

  lemma {:induction false} ShortWord(t: set<string>, w: string)
    requires [] in t && |w| == 1
    ensures Fail(t, w) == []
  {
    assert w[1..] == [];
  }

  /** From a link of at most one rune the walk over the links set so far is the walk over right links. */
  lemma {:induction false} ShortWalk(t: set<string>, links: map<string, string>, f: string, r: char)
    requires IsTrie(t) && Sound(t, links) && f in t && |f| <= 1
    ensures WalkBy(t, links, f, r) == Walk(t, f, r)
  {
    if f != [] {
      ShortWord(t, f);
      NowSound(t, links, f);
      RunMore([], f[0]);
      assert f == [] + [f[0]];
      assert LinkNow(links, f) == [];
    }
  }

  lemma {:induction false} CleanLink(t: set<string>, links: map<string, string>, w: string)
    requires IsTrie(t) && Sound(t, links) && w in t && |w| > 1 && Clean(t, |w|)
    requires Front(w) in t && Front(w) in links && LinkOk(t, Front(w), links[Front(w)])
    ensures RuleLink(t, links, w) == Link(t, Front(w), Last(w))
  {
    var v := Front(w);
    assert w == v + [Last(w)];
    assert |Fail(t, v)| <= 1 && links[v] == Fail(t, v);
    ShortWalk(t, links, links[v], Last(w));
  }

  lemma {:induction false} RightLink(t: set<string>, w: string)
    requires IsTrie(t) && w in t && |w| > 1 && |Fail(t, w)| <= 1
    ensures Link(t, Front(w), Last(w)) == Fail(t, w)
  {
    assert w == Front(w) + [Last(w)];
    LinkExact(t, Front(w), Last(w));
  }

  lemma {:induction false} UniformPrefix(w: string, k: nat)
    requires Uniform(w) && 0 < k <= |w|
    ensures Uniform(w[..k]) && Last(w[..k]) == Last(w)
  {
    if k == |w| { assert w[..k] == w; }
    else {
      assert Uniform(Front(w)) && Last(Front(w)) == Last(w);
      UniformPrefix(Front(w), k);
      assert Front(w)[..k] == w[..k];
    }
  }

  lemma {:induction false} PrefixIn(t: set<string>, w: string, k: nat)
    requires IsTrie(t) && w in t && k <= |w|
    ensures w[..k] in t
  {
    if k == |w| { assert w[..k] == w; }
    else {
      assert w == Front(w) + [Last(w)];
      PrefixIn(t, Front(w), k);
      assert Front(w)[..k] == w[..k];
    }
  }

  lemma {:induction false} UniformIn(t: set<string>, w: string, x: string)
    requires IsTrie(t) && w in t && Uniform(w) && Uniform(x) && 0 < |x| <= |w| && Last(x) == Last(w)
    ensures x in t
  {
    UniformPrefix(w, |x|);
    UniformEqual(x, w[..|x|]);
    PrefixIn(t, w, |x|);
  }

  lemma {:induction false} UniformRule(t: set<string>, links: map<string, string>, w: string)
    requires IsTrie(t) && Sound(t, links) && w in t && |w| > 1 && Uniform(w)
    requires Front(w) in links && |links[Front(w)]| == UniformLink(|w| - 1)
    ensures |RuleLink(t, links, w)| == UniformLink(|w|)
  {
    var v, r := Front(w), Last(w);
    assert w == v + [r];
    RunMore(v, r);
    var f := links[v];
    assert SoundAt(t, links, v);
    RunMore([], r);
    RunMore(f, r);
    RunMore(f + [r], r);
    assert [] + [r] == [r];
    UniformIn(t, w, f + [r]);
    if f != [] && |f| + 2 < |w| { UniformIn(t, w, f + [r] + [r]); }
    if f != [] && |f| + 2 == |w| { UniformEqual(f + [r] + [r], w); }
  }

  lemma {:induction false} RuleIsOk(t: set<string>, links: map<string, string>, w: string)
    requires IsTrie(t) && Sound(t, links) && w in t && w != []
    requires |w| > 1 ==> Front(w) in links && LinkOk(t, Front(w), links[Front(w)])
    ensures LinkOk(t, w, RuleLink(t, links, w))
  {
    if |w| == 1 { ShortWord(t, w); }
    else {
      assert w == Front(w) + [Last(w)];
      RunMore(Front(w), Last(w));
      if Clean(t, |w|) { CleanLink(t, links, w); }
      if Clean(t, |w| + 1) {
        assert Clean(t, |w|);
        RightLink(t, w);
      }
      if Uniform(w) { UniformRule(t, links, w); }
    }
  }

  lemma {:induction false} OwnMembers(ps: seq<Pattern>, w: string)
    ensures forall k :: 0 <= k < |Own(ps, w)| ==> Own(ps, w)[k] in ps && Own(ps, w)[k].text == w != []
  {
    if ps != [] {
      OwnMembers(ps[1..], w);
    }
  }

  lemma {:induction false} OutMember(ps: seq<Pattern>, w: string, out: seq<Pattern>, k: nat)
    requires OutOk(ps, w, out) && k < |out|
    ensures out[k] in ps && out[k].text != [] && (out[k].text == w || MayLink(w, out[k].text))
  {
    OwnMembers(ps, w);
  }

  lemma {:induction false} OutIsOk(ps: seq<Pattern>, w: string, link: string, out: seq<Pattern>)
    requires MayLink(w, link) && OutOk(ps, link, out)
    ensures OutOk(ps, w, Own(ps, w) + out)
  {
    var own, all := Own(ps, w), Own(ps, w) + out;
    forall k | |own| <= k < |all|
      ensures all[k] in ps && all[k].text != [] && MayLink(w, all[k].text)
    {
      OutMember(ps, link, out, k - |own|);
      if link != [] && all[k].text != link { LinkOn(w, link, all[k].text); }
    }
  }

  lemma {:induction false} OutNowOk(ps: seq<Pattern>, t: set<string>, b: Built, w: string)
    requires [] in t && Sound(t, b.links) && b.links.Keys == b.outs.Keys && AllOk(ps, t, b)
    ensures OutOk(ps, w, OutNow(ps, b, w))
    ensures |w| <= 1 ==> OutNow(ps, b, w) == Own(ps, w)
  {
    OwnOfRoot(ps);
    if w in b.outs {
      NowSound(t, b.links, w);
      assert WordOk(ps, t, w, b.links[w], b.outs[w]);
      if |w| == 1 {
        ShortWord(t, w);
        forall x | x in t && x != [] && |x| < 2 ensures |Fail(t, x)| <= 1 { ShortWord(t, x); }
        assert Clean(t, 2);
      }
    }
  }

  lemma {:induction false} VisitIsOk(ps: seq<Pattern>, t: set<string>, b: Built, w: string)
    requires IsTrie(t) && Sound(t, b.links) && b.links.Keys == b.outs.Keys && AllOk(ps, t, b)
    requires w in t && w != [] && (|w| > 1 ==> Front(w) in b.links)
    ensures Sound(t, Visit(ps, t, b, w).links) && AllOk(ps, t, Visit(ps, t, b, w))
  {
    var link := RuleLink(t, b.links, w);
    VisitIsSound(ps, t, b, w);
    RuleIsSound(t, b.links, w);
    if |w| > 1 { assert WordOk(ps, t, Front(w), b.links[Front(w)], b.outs[Front(w)]); }
    RuleIsOk(t, b.links, w);
    OutNowOk(ps, t, b, link);
    OutIsOk(ps, w, link, OutNow(ps, b, link));
    if Clean(t, |w| + 1) { assert |Fail(t, w)| <= 1; }
    assert WordOk(ps, t, w, link, Own(ps, w) + OutNow(ps, b, link));
  }

  lemma {:induction false} BuiltIsOk(ps: seq<Pattern>, t: set<string>, order: seq<string>)
    requires IsTrie(t) && TopDown(t, order)
    ensures AllOk(ps, t, BuiltBy(ps, t, order))
  {
    if order != [] {
      BuiltIsOk(ps, t, order[..|order| - 1]);
      VisitIsOk(ps, t, BuiltBy(ps, t, order[..|order| - 1]), order[|order| - 1]);
    }
  }

  // ----- the links are right exactly when no word has an inner one

  lemma {:induction false} ShortestInner(t: set<string>, w: string) returns (x: string)
    requires [] in t && w in t && w != [] && |Fail(t, w)| >= 2
    ensures x in t && x != [] && |Fail(t, x)| >= 2 && Clean(t, |x|)
    decreases |w|
  {
    if Clean(t, |w|) { x := w; }
    else {
      var y :| y in t && y != [] && |y| < |w| && |Fail(t, y)| >= 2;
      x := ShortestInner(t, y);
    }
  }

  lemma {:induction false} NothingInner(t: set<string>, n: nat)
    requires [] in t && NoInnerPrefix(t)
    ensures Clean(t, n)
  {
    FailIsShort(t);
    forall x | x in t && x != [] && |x| < n
      ensures |Fail(t, x)| <= 1
    {
      if |x| == 1 { ShortWord(t, x); }
    }
  }

  lemma {:induction false} SomeInner(t: set<string>) returns (w: string)
    requires [] in t && !NoInnerPrefix(t)
    ensures w in t && |w| >= 2 && |Fail(t, w)| >= 2 && Clean(t, |w|)
  {
    FailIsShort(t);
    var y :| y in t && |y| >= 2 && |Fail(t, y)| > 1;
    w := ShortestInner(t, y);
    if |w| == 1 { ShortWord(t, w); }
  }

  ghost predicate LinksRight(t: set<string>, links: map<string, string>)
    requires [] in t && links.Keys == t - {[]}
  {
    forall w {:trigger Fail(t, w)} :: w in t && w != [] ==> links[w] == Fail(t, w)
  }

  lemma {:induction false} RightWithoutInner(ps: seq<Pattern>, t: set<string>, b: Built)
    requires [] in t && Sound(t, b.links) && b.links.Keys == b.outs.Keys == t - {[]} && AllOk(ps, t, b)
    requires NoInnerPrefix(t)
    ensures LinksRight(t, b.links)
  {
    forall w | w in t && w != []
      ensures b.links[w] == Fail(t, w)
    {
      NothingInner(t, |w| + 1);
      assert WordOk(ps, t, w, b.links[w], b.outs[w]);
    }
  }

  lemma {:induction false} WrongWithInner(ps: seq<Pattern>, t: set<string>, b: Built)
    requires IsTrie(t) && Sound(t, b.links) && b.links.Keys == b.outs.Keys == t - {[]} && AllOk(ps, t, b)
    requires !NoInnerPrefix(t)
    ensures !LinksRight(t, b.links)
  {
    var w := SomeInner(t);
    assert w == Front(w) + [Last(w)];
    LinkExact(t, Front(w), Last(w));
    assert WordOk(ps, t, w, b.links[w], b.outs[w]);
  }

  /**
    In whatever order the words are visited, every link the build sets is the longest proper suffix among the words
    if and only if no word has another of two or more runes as a proper suffix.
   */
  lemma {:induction false} LinksRightIff(ps: seq<Pattern>, t: set<string>, order: seq<string>)
    requires IsTrie(t) && Visits(t, order)
    ensures LinksRight(t, BuiltBy(ps, t, order).links) <==> NoInnerPrefix(t)
  {
    BuiltIsOk(ps, t, order);
    if NoInnerPrefix(t) { RightWithoutInner(ps, t, BuiltBy(ps, t, order)); }
    else { WrongWithInner(ps, t, BuiltBy(ps, t, order)); }
  }

  // ----- reports

  /** Keyword p ending with rune i. */
  function MatchAt(text: string, i: nat, p: Pattern): Match
    requires |p.text| <= i + 1 <= |text|
  {
    Match(p.rule, Offset(text, i + 1 - |p.text|), Offset(text, i + 1), p.text)
  }

  function ReportAt(text: string, i: nat, g: seq<Pattern>): seq<Match>
    requires i < |text|
  {
    if g == [] then []
    else
      var p := g[|g| - 1];
      ReportAt(text, i, g[..|g| - 1]) + if |p.text| > i + 1 then [] else [MatchAt(text, i, p)]
  }

  function Reported(text: string, groups: seq<seq<Pattern>>): seq<Match>
    requires |groups| <= |text|
  {
    if groups == [] then []
    else Reported(text, groups[..|groups| - 1]) + ReportAt(text, |groups| - 1, groups[|groups| - 1])
  }

  ghost predicate Complete(ps: seq<Pattern>, text: string, groups: seq<seq<Pattern>>) {
    |groups| <= |text| && forall i :: 0 <= i < |groups| ==> multiset(groups[i]) == multiset(Hits(ps, text[..i + 1]))
  }

  lemma {:induction false} HitsMember(ps: seq<Pattern>, s: string, p: Pattern)
    ensures p in Hits(ps, s) <==> p in ps && p.text != [] && Suffix(p.text, s)
  {
    if ps != [] {
      HitsMember(ps[1..], s, p);
      assert ps == [ps[0]] + ps[1..];
    }
  }

  lemma {:induction false} ReportHas(text: string, i: nat, g: seq<Pattern>, p: Pattern)
    requires i < |text| && p in g && |p.text| <= i + 1
    ensures MatchAt(text, i, p) in ReportAt(text, i, g)
  {
    var last := g[|g| - 1];
    assert g == g[..|g| - 1] + [last];
    if p != last { ReportHas(text, i, g[..|g| - 1], p); }
  }

  lemma {:induction false} ReportOnly(text: string, i: nat, g: seq<Pattern>, m: Match) returns (p: Pattern)
    requires i < |text| && m in ReportAt(text, i, g)
    ensures p in g && |p.text| <= i + 1 && m == MatchAt(text, i, p)
  {
    p := g[|g| - 1];
    if m in ReportAt(text, i, g[..|g| - 1]) { p := ReportOnly(text, i, g[..|g| - 1], m); }
  }

  lemma {:induction false} ReportedHas(text: string, groups: seq<seq<Pattern>>, i: nat, m: Match)
    requires i < |groups| <= |text| && m in ReportAt(text, i, groups[i])
    ensures m in Reported(text, groups)
  {
    if i < |groups| - 1 { ReportedHas(text, groups[..|groups| - 1], i, m); }
  }

  lemma {:induction false} ReportedOnly(text: string, groups: seq<seq<Pattern>>, m: Match) returns (i: nat)
    requires |groups| <= |text| && m in Reported(text, groups)
    ensures i < |groups| && m in ReportAt(text, i, groups[i])
  {
    var n := |groups| - 1;
    if m in ReportAt(text, n, groups[n]) { i := n; }
    else { i := ReportedOnly(text, groups[..n], m); }
  }

  /** Keyword p stands in the text, ending with rune i. */
  predicate Occurs(ps: seq<Pattern>, text: string, i: nat, p: Pattern) {
    p in ps && p.text != [] && |p.text| <= i + 1 <= |text| && text[i + 1 - |p.text|..i + 1] == p.text
  }

  lemma {:induction false} GroupedOccurs(ps: seq<Pattern>, text: string, g: seq<Pattern>, i: nat, p: Pattern)
    requires i < |text| && multiset(g) == multiset(Hits(ps, text[..i + 1])) && p in g
    ensures Occurs(ps, text, i, p)
  {
    assert p in multiset(g);
    HitsMember(ps, text[..i + 1], p);
  }

  lemma {:induction false} OccurrenceIsReported(ps: seq<Pattern>, text: string, groups: seq<seq<Pattern>>, i: nat,
                                                p: Pattern)
    requires |groups| == |text| && Complete(ps, text, groups) && Occurs(ps, text, i, p)
    ensures MatchAt(text, i, p) in Reported(text, groups)
  {
    assert Suffix(p.text, text[..i + 1]);
    HitsMember(ps, text[..i + 1], p);
    assert p in multiset(groups[i]);
    ReportHas(text, i, groups[i], p);
    ReportedHas(text, groups, i, MatchAt(text, i, p));
  }

  /** m is where some keyword stands in the text. */
  ghost predicate IsOccurrence(ps: seq<Pattern>, text: string, m: Match) {
    exists i: nat, p :: Occurs(ps, text, i, p) && m == MatchAt(text, i, p)
  }

  /** Complete groups report the occurrences of the keywords, all of them and nothing else, with their byte bounds. */
  lemma {:induction false} FoundExactly(ps: seq<Pattern>, text: string, groups: seq<seq<Pattern>>, m: Match)
    requires |groups| == |text| && Complete(ps, text, groups)
    ensures m in Reported(text, groups) <==> IsOccurrence(ps, text, m)
  {
    if m in Reported(text, groups) {
      var i := ReportedOnly(text, groups, m);
      var p := ReportOnly(text, i, groups[i], m);
      GroupedOccurs(ps, text, groups[i], i, p);
    }
    if i: nat, p :| Occurs(ps, text, i, p) && m == MatchAt(text, i, p) {
      OccurrenceIsReported(ps, text, groups, i, p);
    }
  }

  // ----- the search on the links as built

  /** Links are followed until the rune can be read. */
  ghost function Move(t: set<string>, links: map<string, string>, w: string, r: char): (e: string)
    requires IsTrie(t) && Sound(t, links) && w in t
    ensures e in t
    decreases Rank(|t|, w)
  {
    if w + [r] in t then w + [r]
    else if w == [] then []
    else
      NowSound(t, links, w);
      RankFalls(t, w, LinkNow(links, w));
      Move(t, links, LinkNow(links, w), r)
  }

  /** The word the search stands on after reading s. */
  ghost function Reached(t: set<string>, links: map<string, string>, s: string): (e: string)
    requires IsTrie(t) && Sound(t, links)
    ensures e in t
  {
    if s == [] then [] else Move(t, links, Reached(t, links, Front(s)), Last(s))
  }

  /** What is reported after each rune. */
  ghost function Groups(ps: seq<Pattern>, t: set<string>, b: Built, s: string): (groups: seq<seq<Pattern>>)
    requires IsTrie(t) && Sound(t, b.links)
    ensures |groups| == |s|
  {
    if s == [] then []
    else Groups(ps, t, b, Front(s)) + [OutNow(ps, b, Reached(t, b.links, s))]
  }

  lemma {:induction false} GroupAt(ps: seq<Pattern>, t: set<string>, b: Built, s: string, i: nat)
    requires IsTrie(t) && Sound(t, b.links) && i < |s|
    ensures Groups(ps, t, b, s)[i] == OutNow(ps, b, Reached(t, b.links, s[..i + 1]))
  {
    if i == |s| - 1 { assert s[..i + 1] == s; }
    else {
      GroupAt(ps, t, b, Front(s), i);
      assert Front(s)[..i + 1] == s[..i + 1];
    }
  }

  /** The matches found in a text once the words of t have been visited in the given order. */
  ghost function FoundIn(ps: seq<Pattern>, t: set<string>, order: seq<string>, text: string): seq<Match>
    requires IsTrie(t) && Visits(t, order)
  {
    Reported(text, Groups(ps, t, BuiltBy(ps, t, order), text))
  }

  ghost function FoundBy(ps: seq<Pattern>, order: seq<string>, text: string): seq<Match>
    requires Visits(Words(ps), order)
  {
    WordsClosed(ps);
    FoundIn(ps, Words(ps), order, text)
  }

  ghost predicate Exact(ps: seq<Pattern>, order: seq<string>, text: string)
    requires Visits(Words(ps), order)
  {
    forall m :: m in FoundBy(ps, order, text) <==> IsOccurrence(ps, text, m)
  }

  lemma {:induction false} MissedIsNotExact(ps: seq<Pattern>, order: seq<string>, text: string, i: nat, p: Pattern)
    requires IsTrie(Words(ps)) && Visits(Words(ps), order) && Occurs(ps, text, i, p)
    requires MatchAt(text, i, p) !in FoundIn(ps, Words(ps), order, text)
    ensures !Exact(ps, order, text)
  {
    assert IsOccurrence(ps, text, MatchAt(text, i, p));
  }

  lemma {:induction false} CompleteIsExact(ps: seq<Pattern>, order: seq<string>, text: string)
    requires Visits(Words(ps), order) && IsTrie(Words(ps))
    requires Complete(ps, text, Groups(ps, Words(ps), BuiltBy(ps, Words(ps), order), text))
    ensures Exact(ps, order, text)
  {
    forall m
      ensures m in FoundBy(ps, order, text) <==> IsOccurrence(ps, text, m)
    {
      FoundExactly(ps, text, Groups(ps, Words(ps), BuiltBy(ps, Words(ps), order), text), m);
    }
  }

  // ----- right links

  lemma {:induction false} MoveIsAdvance(t: set<string>, links: map<string, string>, w: string, r: char)
    requires IsTrie(t) && Sound(t, links) && w in t && links.Keys == t - {[]} && LinksRight(t, links)
    ensures Move(t, links, w, r) == Advance(t, w, r)
    decreases |w|
  {
    if w + [r] !in t && w != [] {
      assert links[w] == Fail(t, w);
      MoveIsAdvance(t, links, Fail(t, w), r);
    }
  }

  ghost predicate MovesRight(t: set<string>, links: map<string, string>)
    requires IsTrie(t) && Sound(t, links)
  {
    forall w, r {:trigger Move(t, links, w, r)} :: w in t ==> Move(t, links, w, r) == Advance(t, w, r)
  }

  lemma {:induction false} ReachedIsLongest(t: set<string>, links: map<string, string>, s: string)
    requires IsTrie(t) && Sound(t, links)
    requires MovesRight(t, links)
    ensures Reached(t, links, s) == Longest(t, s)
  {
    if s != [] {
      ReachedIsLongest(t, links, Front(s));
      assert s == Front(s) + [Last(s)];
      AdvanceIsLongest(t, Front(s), Last(s));
    }
  }

  lemma {:induction false} OutOfLongest(ps: seq<Pattern>, t: set<string>, order: seq<string>, s: string)
    requires t == Words(ps) && IsTrie(t) && Visits(t, order) && NoInnerPrefix(t)
    ensures multiset(OutNow(ps, BuiltBy(ps, t, order), Longest(t, s))) == multiset(Hits(ps, s))
  {
    var w := Longest(t, s);
    WordsClosed(ps);
    HitsOfLongest(ps, t, s);
    if w == [] { OwnOfRoot(ps); }
    else {
      BuiltIsOk(ps, t, order);
      NothingInner(t, |w| + 1);
      assert WordOk(ps, t, w, BuiltBy(ps, t, order).links[w], BuiltBy(ps, t, order).outs[w]);
      ShortFailHits(ps, t, w);
    }
  }

  lemma {:induction false} NoInnerMovesRight(ps: seq<Pattern>, t: set<string>, order: seq<string>)
    requires IsTrie(t) && Visits(t, order) && NoInnerPrefix(t)
    ensures MovesRight(t, BuiltBy(ps, t, order).links)
  {
    var links := BuiltBy(ps, t, order).links;
    LinksRightIff(ps, t, order);
    forall w, r | w in t
      ensures Move(t, links, w, r) == Advance(t, w, r)
    {
      MoveIsAdvance(t, links, w, r);
    }
  }

  lemma {:induction false} LongestReached(ps: seq<Pattern>, t: set<string>, order: seq<string>, s: string)
    requires IsTrie(t) && Visits(t, order) && NoInnerPrefix(t)
    ensures Reached(t, BuiltBy(ps, t, order).links, s) == Longest(t, s)
  {
    NoInnerMovesRight(ps, t, order);
    ReachedIsLongest(t, BuiltBy(ps, t, order).links, s);
  }

  lemma {:induction false} GroupComplete(ps: seq<Pattern>, t: set<string>, order: seq<string>, text: string, i: nat)
    requires t == Words(ps) && IsTrie(t) && Visits(t, order) && NoInnerPrefix(t) && i < |text|
    ensures multiset(Groups(ps, t, BuiltBy(ps, t, order), text)[i]) == multiset(Hits(ps, text[..i + 1]))
  {
    GroupAt(ps, t, BuiltBy(ps, t, order), text, i);
    LongestReached(ps, t, order, text[..i + 1]);
    OutOfLongest(ps, t, order, text[..i + 1]);
  }

  /** Without inner prefixes every group is complete: each keyword ending there, as often as it is configured. */
  lemma {:induction false} GroupsComplete(ps: seq<Pattern>, t: set<string>, order: seq<string>, text: string)
    requires t == Words(ps) && IsTrie(t) && Visits(t, order) && NoInnerPrefix(t)
    ensures Complete(ps, text, Groups(ps, t, BuiltBy(ps, t, order), text))
  {
    forall i | 0 <= i < |text|
      ensures multiset(Groups(ps, t, BuiltBy(ps, t, order), text)[i]) == multiset(Hits(ps, text[..i + 1]))
    {
      GroupComplete(ps, t, order, text, i);
    }
  }

  // ----- wrong links

  lemma {:induction false} SuffixRun(x: string, w: string)
    requires Suffix(x, w) && x != [] && !Uniform(x)
    ensures !Uniform(w) && Run(w) == Run(x) && Last(w) == Last(x)
    decreases |x|
  {
    assert x == w[|w| - |x|..];
    if |x| > 1 && x[|x| - 2] == Last(x) {
      assert Suffix(Front(x), Front(w));
      SuffixRun(Front(x), Front(w));
    }
  }

  lemma {:induction false} ThreeEqual(t: set<string>, x: string)
    requires IsTrie(t) && x in t && Uniform(x) && |x| >= 3
    ensures x[..3] in t && |Fail(t, x[..3])| == 2
  {
    var y := x[..3];
    PrefixIn(t, x, 3);
    PrefixIn(t, x, 2);
    UniformPrefix(x, 3);
    UniformPrefix(x, 2);
    UniformPrefix(x, 1);
    assert y[1..] == x[..2];
  }

  /** At a shortest word with an inner one the inner one is never reported. */
  lemma {:induction false} InnerNotReported(ps: seq<Pattern>, t: set<string>, w: string, out: seq<Pattern>)
    requires IsTrie(t) && w in t && w != [] && |Fail(t, w)| >= 2 && Clean(t, |w|) && OutOk(ps, w, out)
    ensures forall k :: 0 <= k < |out| ==> out[k].text != Fail(t, w)
  {
    var x := Fail(t, w);
    FailIsSuffix(t, w);
    assert !MayLink(w, x) by {
      if Uniform(x) {
        if |x| > 2 { ThreeEqual(t, x); }
      } else {
        SuffixRun(x, w);
      }
    }
    forall k | 0 <= k < |out|
      ensures out[k].text != x
    {
      OutMember(ps, w, out, k);
    }
  }

  /** Reading a word of the automaton goes down to it. */
  lemma {:induction false} ReadsDown(t: set<string>, links: map<string, string>, w: string)
    requires IsTrie(t) && Sound(t, links) && w in t
    ensures Reached(t, links, w) == w
  {
    if w != [] {
      assert w == Front(w) + [Last(w)];
      ReadsDown(t, links, Front(w));
    }
  }

  lemma {:induction false} SameMatch(text: string, i: nat, p: Pattern, j: nat, q: Pattern)
    requires |p.text| <= i + 1 <= |text| && |q.text| <= j + 1 <= |text| && MatchAt(text, i, p) == MatchAt(text, j, q)
    ensures i == j && p == q
  {
    if i < j { OffsetsAscend(text, i + 1, j + 1); }
    if j < i { OffsetsAscend(text, j + 1, i + 1); }
  }

  lemma {:induction false} NotReported(text: string, groups: seq<seq<Pattern>>, p: Pattern)
    requires |groups| == |text| > 0 && |p.text| <= |text| && p !in groups[|text| - 1]
    ensures MatchAt(text, |text| - 1, p) !in Reported(text, groups)
  {
    var m := MatchAt(text, |text| - 1, p);
    if m in Reported(text, groups) {
      var i := ReportedOnly(text, groups, m);
      var q := ReportOnly(text, i, groups[i], m);
      SameMatch(text, |text| - 1, p, i, q);
    }
  }

  lemma {:induction false} InnerMissing(ps: seq<Pattern>, t: set<string>, order: seq<string>, w: string, p: Pattern)
    requires IsTrie(t) && Visits(t, order) && w in t && w != [] && Clean(t, |w|)
    requires p.text == Fail(t, w) && |p.text| >= 2
    ensures p !in OutNow(ps, BuiltBy(ps, t, order), w)
  {
    var b := BuiltBy(ps, t, order);
    BuiltIsOk(ps, t, order);
    assert WordOk(ps, t, w, b.links[w], b.outs[w]);
    InnerNotReported(ps, t, w, b.outs[w]);
  }

  lemma {:induction false} InnerNotFound(ps: seq<Pattern>, t: set<string>, order: seq<string>, w: string, p: Pattern)
    requires IsTrie(t) && Visits(t, order) && w in t && w != [] && Clean(t, |w|)
    requires p.text == Fail(t, w) && 2 <= |p.text| <= |w|
    ensures MatchAt(w, |w| - 1, p) !in FoundIn(ps, t, order, w)
  {
    InnerMissing(ps, t, order, w, p);
    ReadsDown(t, BuiltBy(ps, t, order).links, w);
    MissedAtEnd(ps, t, BuiltBy(ps, t, order), w, p);
  }

  lemma {:induction false} InnerOccurs(ps: seq<Pattern>, t: set<string>, w: string, p: Pattern)
    requires [] in t && w != [] && p in ps && p.text == Fail(t, w) && p.text != []
    ensures |p.text| <= |w| && Occurs(ps, w, |w| - 1, p)
  {
    FailIsSuffix(t, w);
  }

  /**
    Where a shortest word with an inner one has a keyword as the inner one, searching that word misses the keyword
    at its end.
   */
  lemma {:induction false} MissedOccurrence(ps: seq<Pattern>, order: seq<string>, w: string, p: Pattern)
    requires Visits(Words(ps), order) && w in Words(ps) && w != [] && Clean(Words(ps), |w|)
    requires p in ps && p.text == Fail(Words(ps), w) && |p.text| >= 2
    ensures Occurs(ps, w, |w| - 1, p) && MatchAt(w, |w| - 1, p) !in FoundBy(ps, order, w)
  {
    WordsClosed(ps);
    InnerOccurs(ps, Words(ps), w, p);
    InnerNotFound(ps, Words(ps), order, w, p);
  }

  /** w is a shortest word with an inner one, and the inner one is keyword p. */
  ghost predicate InnerKeyword(ps: seq<Pattern>, w: string, p: Pattern) {
    w in Words(ps) && w != [] && Clean(Words(ps), |w|) && p in ps && p.text == Fail(Words(ps), w) && |p.text| >= 2
  }

  /**
    For keyword lists without inner prefixes, or with a keyword among the shortest of them, the search is exact on every
    text if and only if there are none.
   */
  lemma {:induction false} SearchExactIff(ps: seq<Pattern>, order: seq<string>)
    requires Visits(Words(ps), order) && (NoInnerPrefix(Words(ps)) || exists w, p :: InnerKeyword(ps, w, p))
    ensures (forall text :: Exact(ps, order, text)) <==> NoInnerPrefix(Words(ps))
  {
    if NoInnerPrefix(Words(ps)) {
      forall text ensures Exact(ps, order, text) { ExactWithoutInner(ps, order, text); }
    } else {
      var w, p :| InnerKeyword(ps, w, p);
      InexactWithInner(ps, order, w, p);
    }
  }

  lemma {:induction false} ExactWithoutInner(ps: seq<Pattern>, order: seq<string>, text: string)
    requires Visits(Words(ps), order) && NoInnerPrefix(Words(ps))
    ensures Exact(ps, order, text)
  {
    WordsClosed(ps);
    GroupsComplete(ps, Words(ps), order, text);
    CompleteIsExact(ps, order, text);
  }

  lemma {:induction false} InexactWithInner(ps: seq<Pattern>, order: seq<string>, w: string, p: Pattern)
    requires Visits(Words(ps), order) && InnerKeyword(ps, w, p)
    ensures !Exact(ps, order, w)
  {
    WordsClosed(ps);
    InexactAt(ps, Words(ps), order, w, p);
  }

  lemma {:induction false} InexactAt(ps: seq<Pattern>, t: set<string>, order: seq<string>, w: string, p: Pattern)
    requires t == Words(ps) && IsTrie(t) && Visits(t, order) && w in t && w != [] && Clean(t, |w|)
    requires p in ps && p.text == Fail(t, w) && |p.text| >= 2
    ensures !Exact(ps, order, w)
  {
    InnerOccurs(ps, t, w, p);
    InnerNotFound(ps, t, order, w, p);
    MissedIsNotExact(ps, order, w, |w| - 1, p);
  }

  /** "bc" ends with "abc" and the search does not report it there, whatever the order of the build. */
  lemma {:induction false} MissedSuffix(order: seq<string>)
    requires Visits({"", "a", "ab", "abc", "b", "bc"}, order)
    ensures var ps := [Pattern("abc", 0), Pattern("bc", 1)];
            Words(ps) == {"", "a", "ab", "abc", "b", "bc"} && Occurs(ps, "abc", 2, ps[1])
            && MatchAt("abc", 2, ps[1]) !in FoundBy(ps, order, "abc")
  {
    var ps := [Pattern("abc", 0), Pattern("bc", 1)];
    WordsOfTwo();
    WordsClosed(ps);
    FailsOfTwo();
    MissedOccurrence(ps, order, "abc", ps[1]);
  }

  lemma {:induction false} WordsOfTwo()
    ensures Words([Pattern("abc", 0), Pattern("bc", 1)]) == {"", "a", "ab", "abc", "b", "bc"}
  {
    var ps := [Pattern("abc", 0), Pattern("bc", 1)];
    assert "abc"[..2] == "ab" && "ab"[..1] == "a" && "a"[..0] == "" && "bc"[..1] == "b" && "b"[..0] == "";
    assert ps[..1] == [Pattern("abc", 0)] && ps[..1][..0] == [];
    assert Words(ps[..1]) == {[]} + Prefixes("abc");
  }

  lemma {:induction false} FailsOfTwo()
    ensures var t := {"", "a", "ab", "abc", "b", "bc"}; Fail(t, "abc") == "bc" && Clean(t, 3)
  {
    var t := {"", "a", "ab", "abc", "b", "bc"};
    assert "abc"[1..] == "bc";
    forall x | x in t && x != [] && |x| < 3
      ensures |Fail(t, x)| <= 1
    {
      assert |x[1..]| <= 1;
    }
  }

  // ----- one keyword of equal runes: wrong links that may do no harm

  /** The words of one keyword k of equal runes. */
  ghost predicate RunTrie(t: set<string>, k: string) {
    IsTrie(t) && k != [] && Uniform(k) && forall x {:trigger StartsRun(x, k)} :: x in t <==> StartsRun(x, k)
  }

  predicate StartsRun(x: string, k: string) {
    |x| <= |k| && x == k[..|x|]
  }

  lemma {:induction false} PrefixMember(s: string, w: string)
    ensures w in Prefixes(s) <==> |w| <= |s| && w == s[..|w|]
  {
    if s != [] {
      PrefixMember(s[..|s| - 1], w);
      if |w| <= |s| - 1 { assert s[..|s| - 1][..|w|] == s[..|w|]; }
      if |w| == |s| { assert s[..|w|] == s; }
    }
  }

  lemma {:induction false} RunWords(k: string, rule: int)
    requires k != [] && Uniform(k)
    ensures RunTrie(Words([Pattern(k, rule)]), k)
  {
    var ps := [Pattern(k, rule)];
    WordsClosed(ps);
    assert ps[..0] == [];
    assert Words(ps) == {[]} + Prefixes(k);
    forall x
      ensures x in Words(ps) <==> StartsRun(x, k)
    {
      PrefixMember(k, x);
    }
  }

  lemma {:induction false} RunWord(t: set<string>, k: string, x: string)
    requires RunTrie(t, k) && x in t
    ensures Uniform(x) && (x != [] ==> Last(x) == Last(k))
    ensures |x| <= |k| && (|x| == |k| ==> x == k) && (x + [Last(k)] in t <==> x != k)
  {
    assert k[..|k|] == k;
    assert StartsRun(x, k);
    assert x + [Last(k)] in t <==> StartsRun(x + [Last(k)], k);
    if x != [] { UniformPrefix(k, |x|); }
    if |x| < |k| {
      UniformPrefix(k, |x| + 1);
      assert k[..|x| + 1] == k[..|x|] + [k[|x|]];
    }
  }

  lemma {:induction false} ShiftedRun(k: string)
    requires k != [] && Uniform(k)
    ensures k[1..] == Front(k)
  {
    forall i | 0 <= i < |k|
      ensures k[i] == Last(k)
    {
      UniformPrefix(k, i + 1);
    }
  }

  lemma {:induction false} RunLink(t: set<string>, k: string, links: map<string, string>)
    requires RunTrie(t, k) && Sound(t, links) && links.Keys == t - {[]} && LinkOk(t, k, LinkNow(links, k))
    ensures k in t && Fail(t, k) == Front(k) && LinkNow(links, k) == k[..UniformLink(|k|)]
  {
    assert k[..|k|] == k;
    ShiftedRun(k);
    assert StartsRun(k, k) && StartsRun(Front(k), k);
    NowSound(t, links, k);
    assert StartsRun(links[k], k);
  }

  lemma {:induction false} MoveToRoot(t: set<string>, links: map<string, string>, w: string, r: char)
    requires IsTrie(t) && Sound(t, links) && w in t && forall x :: x in t ==> x + [r] !in t
    ensures Move(t, links, w, r) == []
    decreases Rank(|t|, w)
  {
    if w != [] {
      NowSound(t, links, w);
      RankFalls(t, w, LinkNow(links, w));
      MoveToRoot(t, links, LinkNow(links, w), r);
    }
  }

  lemma {:induction false} AdvanceToRoot(t: set<string>, w: string, r: char)
    requires [] in t && w in t && forall x :: x in t ==> x + [r] !in t
    ensures Advance(t, w, r) == []
    decreases |w|
  {
    if w != [] { AdvanceToRoot(t, Fail(t, w), r); }
  }

  lemma {:induction false} RunMoveRight(t: set<string>, k: string, links: map<string, string>, x: string, r: char)
    requires RunTrie(t, k) && Sound(t, links) && k in t && Front(k) in t && x in t
    requires LinkNow(links, k) == Front(k) == Fail(t, k)
    ensures Move(t, links, x, r) == Advance(t, x, r)
  {
    RunWord(t, k, x);
    if r != Last(k) {
      forall y | y in t
        ensures y + [r] !in t
      {
        if y + [r] in t { RunWord(t, k, y + [r]); }
      }
      MoveToRoot(t, links, x, r);
      AdvanceToRoot(t, x, r);
    } else if x == k {
      RunWord(t, k, Front(k));
    }
  }

  lemma {:induction false} BeyondOwn(ps: seq<Pattern>, w: string, out: seq<Pattern>)
    requires OutOk(ps, w, out)
    ensures out == Own(ps, w) || exists p :: p in ps && p.text != [] && MayLink(w, p.text)
  {
    if out != Own(ps, w) {
      var p := out[|Own(ps, w)|];
      assert p in ps && MayLink(w, p.text);
    }
  }

  lemma {:induction false} RunOut(t: set<string>, k: string, rule: int, x: string, out: seq<Pattern>)
    requires RunTrie(t, k) && x in t && OutOk([Pattern(k, rule)], x, out)
    ensures out == Hits([Pattern(k, rule)], x) == if x == k then [Pattern(k, rule)] else []
  {
    var ps := [Pattern(k, rule)];
    assert ps[..0] == [];
    RunWord(t, k, x);
    assert k[..|k|] == k;
    assert Suffix(k, x) <==> x == k by { assert |x| == |k| ==> x[0..] == x; }
    assert Own(ps, x) == Hits(ps, x);
    BeyondOwn(ps, x, out);
  }

  lemma {:induction false} RunBuilt(k: string, rule: int, t: set<string>, order: seq<string>)
    requires RunTrie(t, k) && Visits(t, order)
    ensures k in t && Fail(t, k) == Front(k)
    ensures LinkNow(BuiltBy([Pattern(k, rule)], t, order).links, k) == k[..UniformLink(|k|)]
  {
    var ps := [Pattern(k, rule)];
    var b := BuiltBy(ps, t, order);
    BuiltIsOk(ps, t, order);
    assert k in t by { assert k[..|k|] == k && StartsRun(k, k); }
    assert WordOk(ps, t, k, b.links[k], b.outs[k]);
    RunLink(t, k, b.links);
  }

  lemma {:induction false} RunOutBuilt(k: string, rule: int, t: set<string>, order: seq<string>, x: string)
    requires RunTrie(t, k) && Visits(t, order) && x in t
    ensures var out := OutNow([Pattern(k, rule)], BuiltBy([Pattern(k, rule)], t, order), x);
            out == Hits([Pattern(k, rule)], x) == if x == k then [Pattern(k, rule)] else []
  {
    var ps := [Pattern(k, rule)];
    BuiltIsOk(ps, t, order);
    OutNowOk(ps, t, BuiltBy(ps, t, order), x);
    RunOut(t, k, rule, x, OutNow(ps, BuiltBy(ps, t, order), x));
  }

  lemma {:induction false} RunMovesRight(t: set<string>, k: string, links: map<string, string>)
    requires RunTrie(t, k) && Sound(t, links) && k in t && LinkNow(links, k) == Front(k) == Fail(t, k)
    ensures MovesRight(t, links)
  {
    assert Front(k) in t by { assert k == Front(k) + [Last(k)]; }
    forall x, r | x in t ensures Move(t, links, x, r) == Advance(t, x, r) { RunMoveRight(t, k, links, x, r); }
  }

  lemma {:induction false} RunReaches(k: string, rule: int, t: set<string>, order: seq<string>, s: string)
    requires RunTrie(t, k) && Visits(t, order) && UniformLink(|k|) == |k| - 1
    ensures Reached(t, BuiltBy([Pattern(k, rule)], t, order).links, s) == Longest(t, s)
  {
    RunBuilt(k, rule, t, order);
    RunMovesRight(t, k, BuiltBy([Pattern(k, rule)], t, order).links);
    ReachedIsLongest(t, BuiltBy([Pattern(k, rule)], t, order).links, s);
  }

  lemma {:induction false} RunGroup(k: string, rule: int, t: set<string>, order: seq<string>, text: string, i: nat)
    requires RunTrie(t, k) && t == Words([Pattern(k, rule)]) && Visits(t, order) && UniformLink(|k|) == |k| - 1
    requires i < |text|
    ensures var ps := [Pattern(k, rule)];
            Groups(ps, t, BuiltBy(ps, t, order), text)[i] == Hits(ps, text[..i + 1])
  {
    var ps, s := [Pattern(k, rule)], text[..i + 1];
    GroupAt(ps, t, BuiltBy(ps, t, order), text, i);
    RunReaches(k, rule, t, order, s);
    RunOutBuilt(k, rule, t, order, Longest(t, s));
    RunHits(k, rule, t, s);
  }

  lemma {:induction false} RunHits(k: string, rule: int, t: set<string>, s: string)
    requires t == Words([Pattern(k, rule)])
    ensures Hits([Pattern(k, rule)], s) == Hits([Pattern(k, rule)], Longest(t, s))
  {
    WordsClosed([Pattern(k, rule)]);
    HitsOfLongest([Pattern(k, rule)], t, s);
  }

  lemma {:induction false} RunComplete(k: string, rule: int, t: set<string>, order: seq<string>, text: string)
    requires RunTrie(t, k) && t == Words([Pattern(k, rule)]) && Visits(t, order) && UniformLink(|k|) == |k| - 1
    ensures Complete([Pattern(k, rule)], text,
                     Groups([Pattern(k, rule)], t, BuiltBy([Pattern(k, rule)], t, order), text))
  {
    var ps := [Pattern(k, rule)];
    forall i | 0 <= i < |text|
      ensures Groups(ps, t, BuiltBy(ps, t, order), text)[i] == Hits(ps, text[..i + 1])
    {
      RunGroup(k, rule, t, order, text, i);
    }
  }

  /** One rune after the keyword the search stands on the rune after its link. */
  lemma {:induction false} RunPastEnd(t: set<string>, k: string, links: map<string, string>)
    requires RunTrie(t, k) && Sound(t, links) && k in t && |LinkNow(links, k)| < |k|
    ensures Reached(t, links, k + [Last(k)]) == LinkNow(links, k) + [Last(k)]
  {
    var r, link := Last(k), LinkNow(links, k);
    assert Front(k + [r]) == k && Last(k + [r]) == r;
    ReadsDown(t, links, k);
    NowSound(t, links, k);
    RunWord(t, k, k);
    RunWord(t, k, link);
    assert Move(t, links, k, r) == Move(t, links, link, r);
  }

  lemma {:induction false} RunPastOut(k: string, rule: int, t: set<string>, order: seq<string>)
    requires RunTrie(t, k) && Visits(t, order) && UniformLink(|k|) != |k| - 1
    ensures var ps, b := [Pattern(k, rule)], BuiltBy([Pattern(k, rule)], t, order);
            Pattern(k, rule) !in OutNow(ps, b, Reached(t, b.links, k + [Last(k)]))
  {
    var links := BuiltBy([Pattern(k, rule)], t, order).links;
    RunBuilt(k, rule, t, order);
    RunPastEnd(t, k, links);
    RunOutBuilt(k, rule, t, order, LinkNow(links, k) + [Last(k)]);
  }

  lemma {:induction false} RunMissed(k: string, rule: int, t: set<string>, order: seq<string>)
    requires RunTrie(t, k) && Visits(t, order) && UniformLink(|k|) != |k| - 1
    ensures var ps, text := [Pattern(k, rule)], k + [Last(k)];
            MatchAt(text, |text| - 1, Pattern(k, rule)) !in FoundIn(ps, t, order, text)
  {
    RunPastOut(k, rule, t, order);
    MissedAtEnd([Pattern(k, rule)], t, BuiltBy([Pattern(k, rule)], t, order), k + [Last(k)], Pattern(k, rule));
  }

  lemma {:induction false} MissedAtEnd(ps: seq<Pattern>, t: set<string>, b: Built, text: string, p: Pattern)
    requires IsTrie(t) && Sound(t, b.links) && text != [] && |p.text| <= |text|
    requires p !in OutNow(ps, b, Reached(t, b.links, text))
    ensures MatchAt(text, |text| - 1, p) !in Reported(text, Groups(ps, t, b, text))
  {
    GroupAt(ps, t, b, text, |text| - 1);
    assert text[..|text|] == text;
    NotReported(text, Groups(ps, t, b, text), p);
  }

  lemma {:induction false} RunOccurs(k: string, rule: int)
    requires k != [] && Uniform(k)
    ensures Occurs([Pattern(k, rule)], k + [Last(k)], |k + [Last(k)]| - 1, Pattern(k, rule))
  {
    var text := k + [Last(k)];
    ShiftedRun(k);
    assert text[1..] == k[1..] + [Last(k)] == Front(k) + [Last(k)] == k;
    assert text[|text| - |k|..|text|] == text[1..];
  }

  function Pow2(e: nat): (n: nat)
    ensures n > 0
  {
    if e == 0 then 1 else 2 * Pow2(e - 1)
  }

  /** Past a length m whose link is the root, links are the odd numbers in turn, up to length 2m. */
  lemma {:induction false} LinksPast(m: nat, j: nat)
    requires m > 0 && UniformLink(m) == 0 && 0 < j <= m
    ensures UniformLink(m + j) == 2 * j - 1
  {
    if j > 1 { LinksPast(m, j - 1); }
  }

  /** Those lengths are one less than the powers of two. */
  lemma {:induction false} RootLinks(e: nat)
    requires e > 0
    ensures UniformLink(Pow2(e) - 1) == 0
  {
    if e > 1 {
      RootLinks(e - 1);
      var m := Pow2(e - 1) - 1;
      LinksPast(m, m);
    }
  }

  lemma {:induction false} BetweenPowers(n: nat) returns (e: nat)
    requires n > 0
    ensures e > 0 && Pow2(e) - 1 <= n < 2 * Pow2(e) - 1
  {
    if n == 1 { e := 1; }
    else {
      e := BetweenPowers(n - 1);
      if n == 2 * Pow2(e) - 1 { e := e + 1; }
    }
  }

  lemma {:induction false} PowersAscend(e: nat, f: nat)
    requires e < f
    ensures 2 * Pow2(e) <= Pow2(f)
  {
    if e < f - 1 { PowersAscend(e, f - 1); }
  }

  /** The link of n equal runes is one shorter exactly for n = 1 and for n two less than a power of two. */
  lemma {:induction false} LinkOneShorterIff(n: nat)
    requires n > 0
    ensures UniformLink(n) == n - 1 <==> n == 1 || exists e :: Pow2(e) == n + 2
  {
    var e := BetweenPowers(n);
    var m := Pow2(e) - 1;
    RootLinks(e);
    if m < n { LinksPast(m, n - m); }
    if n == 2 * m { assert Pow2(e + 1) == n + 2; }
    if f :| Pow2(f) == n + 2 {
      if f < e { PowersAscend(f, e); }
      if f > e + 1 { PowersAscend(e + 1, f); }
    }
  }

  /**
    A keyword of n equal runes is found exactly in every text if and only if n is 1 or two less than a power of two,
    although from three runes on it has inner prefixes.
   */
  lemma {:induction false} RunExactIff(k: string, rule: int, order: seq<string>)
    requires k != [] && Uniform(k) && Visits(Words([Pattern(k, rule)]), order)
    ensures (forall text :: Exact([Pattern(k, rule)], order, text)) <==> |k| == 1 || exists e :: Pow2(e) == |k| + 2
    ensures |k| >= 3 ==> !NoInnerPrefix(Words([Pattern(k, rule)]))
  {
    LinkOneShorterIff(|k|);
    if UniformLink(|k|) == |k| - 1 {
      forall text ensures Exact([Pattern(k, rule)], order, text) { RunExact(k, rule, order, text); }
    } else {
      RunNotExact(k, rule, order);
    }
    RunWords(k, rule);
    if |k| >= 3 { RunInner(Words([Pattern(k, rule)]), k); }
  }

  lemma {:induction false} RunExact(k: string, rule: int, order: seq<string>, text: string)
    requires k != [] && Uniform(k) && Visits(Words([Pattern(k, rule)]), order) && UniformLink(|k|) == |k| - 1
    ensures Exact([Pattern(k, rule)], order, text)
  {
    RunWords(k, rule);
    RunComplete(k, rule, Words([Pattern(k, rule)]), order, text);
    CompleteIsExact([Pattern(k, rule)], order, text);
  }

  lemma {:induction false} RunNotExact(k: string, rule: int, order: seq<string>)
    requires k != [] && Uniform(k) && Visits(Words([Pattern(k, rule)]), order) && UniformLink(|k|) != |k| - 1
    ensures !Exact([Pattern(k, rule)], order, k + [Last(k)])
  {
    RunWords(k, rule);
    RunMissedIn(k, rule, [Pattern(k, rule)], Words([Pattern(k, rule)]), order, k + [Last(k)]);
  }

  lemma {:induction false} RunMissedIn(k: string, rule: int, ps: seq<Pattern>, t: set<string>, order: seq<string>,
                                       text: string)
    requires RunTrie(t, k) && Visits(t, order) && UniformLink(|k|) != |k| - 1
    requires ps == [Pattern(k, rule)] && t == Words(ps) && text == k + [Last(k)]
    ensures !Exact(ps, order, text)
  {
    RunMissed(k, rule, t, order);
    RunOccurs(k, rule);
    MissedIsNotExact(ps, order, text, |text| - 1, Pattern(k, rule));
  }

  lemma {:induction false} RunInner(t: set<string>, k: string)
    requires RunTrie(t, k) && |k| >= 3
    ensures !NoInnerPrefix(t)
  {
    assert k[..3][..2] == k[..2] && StartsRun(k[..2], k) && StartsRun(k[..3], k);
    UniformPrefix(k, 3);
    ShiftedRun(k[..3]);
    assert Suffix(k[..2], k[..3]);
  }

  /** Six equal runes have inner prefixes and wrong links, and yet the search for them is exact on every text. */
  lemma {:induction false} HarmlessInner(order: seq<string>, text: string)
    requires Visits(Words([Pattern("aaaaaa", 0)]), order)
    ensures !NoInnerPrefix(Words([Pattern("aaaaaa", 0)])) && Exact([Pattern("aaaaaa", 0)], order, text)
  {
    SixEqual();
    assert Pow2(2) == 4;
    assert Pow2(3) == |"aaaaaa"| + 2;
    RunExactIff("aaaaaa", 0, order);
  }

  lemma {:induction false} SixEqual()
    ensures Uniform("aaaaaa")
  {
    assert Front("aaaaaa") == "aaaaa" && Front("aaaaa") == "aaaa" && Front("aaaa") == "aaa" && Front("aaa") == "aa";
    assert Front("aa") == "a";
    assert Run("aa") == 2 && Run("aaa") == 3 && Run("aaaa") == 4;
  }
}
