/**
  Splitting a text into the parts of a concatenated short message, and joining received parts.
 */
module Segmentation {
  import opened Octets
  import opened Wrappers
  import Gsm7
  import Ucs2Text

  datatype Coding = Gsm7Bit | EightBit | Ucs2 | Other

  datatype Segment = Segment(reference: nat, part: int, total: int, text: string, udh: seq<Octet>)

  function SingleLimit(c: Coding): nat {
    match c case EightBit => 140 case Ucs2 => 70 case _ => 160
  }

  function ConcatLimit(c: Coding): nat {
    match c case EightBit => 134 case Ucs2 => 67 case _ => 153
  }

  /** Septets, UTF-16 units or characters one rune takes. */
  function Size(c: Coding, r: char): (n: nat)
    ensures 1 <= n <= 2
  {
    match c
    case Gsm7Bit => if Gsm7.ExtCode(r).Some? then 2 else 1
    case Ucs2 => if r as int >= 0x10000 then 2 else 1
    case _ => 1
  }

  function Weight(c: Coding, text: string): nat {
    if text == [] then 0 else Size(c, text[0]) + Weight(c, text[1..])
  }

  function Concat(parts: seq<string>): string {
    if parts == [] then [] else parts[0] + Concat(parts[1..])
  }

  lemma {:induction false} WeightAppend(c: Coding, a: string, b: string)
    ensures Weight(c, a + b) == Weight(c, a) + Weight(c, b)
  {
    if a == [] { assert a + b == b; }
    else {
      WeightAppend(c, a[1..], b);
      assert (a + b)[1..] == a[1..] + b;
    }
  }

  lemma {:induction false} ConcatAppend(xs: seq<string>, ys: seq<string>)
    ensures Concat(xs + ys) == Concat(xs) + Concat(ys)
  {
    if xs == [] { assert xs + ys == ys; }
    else {
      ConcatAppend(xs[1..], ys);
      assert (xs + ys)[1..] == xs[1..] + ys;
    }
  }

  lemma WeightMore(c: Coding, text: string, i: nat)
    requires i < |text|
    ensures Weight(c, text[..i + 1]) == Weight(c, text[..i]) + Size(c, text[i])
  {
    assert text[..i + 1] == text[..i] + [text[i]] && [text[i]][1..] == [];
    WeightAppend(c, text[..i], [text[i]]);
  }

  lemma WeightInside(c: Coding, text: string, lo: nat, hi: nat)
    requires lo <= hi <= |text|
    ensures Weight(c, text[lo..hi]) <= Weight(c, text)
  {
    assert text == text[..lo] + text[lo..hi] + text[hi..];
    WeightAppend(c, text[..lo], text[lo..hi]);
    WeightAppend(c, text[..lo] + text[lo..hi], text[hi..]);
  }

  // ----- what chunking means

  ghost predicate Fits(c: Coding, limit: nat, parts: seq<string>) {
    forall i :: 0 <= i < |parts| ==> Weight(c, parts[i]) <= limit
  }

  /** The next part starts with a rune that no longer fitted. */
  ghost predicate FullAt(c: Coding, limit: nat, parts: seq<string>, i: nat)
    requires i + 1 < |parts|
  {
    parts[i + 1] != [] && Weight(c, parts[i]) + Size(c, parts[i + 1][0]) > limit
  }

  ghost predicate Greedy(c: Coding, limit: nat, text: string, parts: seq<string>) {
    Concat(parts) == text && Fits(c, limit, parts)
    && (forall i :: 0 <= i < |parts| ==> parts[i] != [])
    && forall i: nat :: i + 1 < |parts| ==> FullAt(c, limit, parts, i)
  }

  lemma GreedyTail(c: Coding, limit: nat, text: string, parts: seq<string>)
    requires Greedy(c, limit, text, parts) && parts != []
    ensures |parts[0]| <= |text| && text[..|parts[0]|] == parts[0]
    ensures Greedy(c, limit, text[|parts[0]|..], parts[1..])
  {
    var rest := parts[1..];
    assert text == parts[0] + Concat(rest);
    forall i: nat | i + 1 < |rest|
      ensures FullAt(c, limit, rest, i)
    {
      assert FullAt(c, limit, parts, i + 1);
    }
  }

  /** Greedy parts of a suffix never outnumber fitting parts of the whole. */
  lemma {:induction false} GreedyStaysAhead(c: Coding, limit: nat, whole: string, d: nat, greedy: seq<string>,
                                            parts: seq<string>)
    requires d <= |whole| && Greedy(c, limit, whole[d..], greedy)
    requires Concat(parts) == whole && Fits(c, limit, parts)
    ensures |greedy| <= |parts|
    decreases |parts|
  {
    if greedy != [] {
      GreedyTail(c, limit, whole[d..], greedy);
      var m, n := |greedy[0]|, |parts[0]|;
      var rest := Concat(parts[1..]);
      assert rest == whole[n..];
      ReachesFurther(c, limit, whole, d, greedy, n);
      assert whole[d..][m..] == rest[d + m - n..];
      GreedyStaysAhead(c, limit, rest, d + m - n, greedy[1..], parts[1..]);
    }
  }

  lemma WeightReached(c: Coding, whole: string, d: nat, m: nat, n: nat)
    requires d + m < n <= |whole|
    ensures Weight(c, whole[d..][..m]) + Size(c, whole[d + m]) <= Weight(c, whole[..n])
  {
    WeightMore(c, whole[d..], m);
    assert whole[..n][d..d + m + 1] == whole[d..][..m + 1];
    WeightInside(c, whole[..n], d, d + m + 1);
  }

  lemma ReachesFurther(c: Coding, limit: nat, whole: string, d: nat, greedy: seq<string>, n: nat)
    requires d <= |whole| && Greedy(c, limit, whole[d..], greedy) && greedy != []
    requires n <= |whole| && Weight(c, whole[..n]) <= limit
    ensures n <= d + |greedy[0]| <= |whole|
  {
    var a, m := whole[d..], |greedy[0]|;
    GreedyTail(c, limit, a, greedy);
    if |greedy| == 1 {
      assert a[m..] == Concat(greedy[1..]) == [];
    } else if n > d + m {
      GreedyTail(c, limit, a[m..], greedy[1..]);
      assert FullAt(c, limit, greedy, 0);
      assert a[m] == greedy[1][0];
      WeightReached(c, whole, d, m, n);
    }
  }

  /** No way of cutting the text into fitting parts has fewer parts. */
  lemma GreedyIsOptimal(c: Coding, limit: nat, text: string, greedy: seq<string>, parts: seq<string>)
    requires Greedy(c, limit, text, greedy)
    requires Concat(parts) == text && Fits(c, limit, parts)
    ensures |greedy| <= |parts|
  {
    assert text[0..] == text;
    GreedyStaysAhead(c, limit, text, 0, greedy, parts);
  }

  lemma AddPart(c: Coding, limit: nat, text: string, parts: seq<string>, p: string)
    requires Greedy(c, limit, text, parts) && p != [] && Weight(c, p) <= limit
    requires parts != [] ==> Weight(c, parts[|parts| - 1]) + Size(c, p[0]) > limit
    ensures Greedy(c, limit, text + p, parts + [p])
  {
    var more := parts + [p];
    ConcatAppend(parts, [p]);
    assert Concat([p]) == p + Concat([p][1..]) == p;
    forall i: nat | i + 1 < |more|
      ensures FullAt(c, limit, more, i)
    {
      if i + 1 < |parts| { assert FullAt(c, limit, parts, i); }
    }
  }

  lemma ExtendPart(c: Coding, limit: nat, text: string, parts: seq<string>, p: string, r: char)
    requires Greedy(c, limit, text, parts + [p]) && Weight(c, p) + Size(c, r) <= limit
    ensures Greedy(c, limit, text + [r], parts + [p + [r]])
  {
    var was, more := parts + [p], parts + [p + [r]];
    ConcatAppend(parts, [p]);
    ConcatAppend(parts, [p + [r]]);
    assert Concat([p]) == p + Concat([p][1..]) && Concat([p + [r]]) == p + [r] + Concat([p + [r]][1..]);
    assert was[|parts|] == p;
    WeightAppend(c, p, [r]);
    assert [r][1..] == [];
    forall i | 0 <= i < |more|
      ensures more[i] != [] && Weight(c, more[i]) <= limit
    {
      if i < |parts| { assert more[i] == was[i]; }
    }
    forall i: nat | i + 1 < |more|
      ensures FullAt(c, limit, more, i)
    {
      assert FullAt(c, limit, was, i);
    }
  }

  lemma {:induction false} PlainWeight(c: Coding, text: string)
    requires c.EightBit? || c.Other?
    ensures Weight(c, text) == |text|
  {
    if text != [] { PlainWeight(c, text[1..]); }
  }

  ghost predicate LastFull(limit: nat, parts: seq<string>) {
    parts != [] ==> |parts[|parts| - 1]| == limit
  }

  lemma AddSlice(c: Coding, limit: nat, text: string, at: nat, end: nat, parts: seq<string>)
    requires c.EightBit? || c.Other?
    requires at < at + end <= |text| && end <= limit
    requires Greedy(c, limit, text[..at], parts) && LastFull(limit, parts)
    ensures Greedy(c, limit, text[..at + end], parts + [text[at..][..end]])
  {
    var p := text[at..][..end];
    PlainWeight(c, p);
    if parts != [] { PlainWeight(c, parts[|parts| - 1]); }
    AddPart(c, limit, text[..at], parts, p);
    assert text[..at] + p == text[..at + end];
  }

  // ----- the loops

  /** One part after the other, each filled until the next rune does not fit. */
  method ChunkSized(c: Coding, text: string) returns (chunks: seq<string>)
    ensures Greedy(c, ConcatLimit(c), text, chunks)
  {
    var limit := ConcatLimit(c);
    chunks := [];
    var b, used := "", 0;
    for i := 0 to |text|
      invariant used == Weight(c, b) && (b == [] ==> i == 0 && chunks == [])
      invariant b != [] ==> Greedy(c, limit, text[..i], chunks + [b])
    {
      var r, size := text[i], Size(c, text[i]);
      assert text[..i + 1] == text[..i] + [r] && [r][1..] == [];
      assert Weight(c, [r]) == size;
      if used > 0 && used + size > limit {
        AddPart(c, limit, text[..i], chunks + [b], [r]);
        chunks := chunks + [b];
        b, used := "", 0;
      } else if b != [] {
        ExtendPart(c, limit, text[..i], chunks, b, r);
      } else {
        assert Greedy(c, limit, [], []);
        AddPart(c, limit, [], [], [r]);
      }
      WeightAppend(c, b, [r]);
      assert b == [] ==> b + [r] == [r];
      b := b + [r];
      used := used + size;
    }
    assert text[..|text|] == text;
    if |b| > 0 { chunks := chunks + [b]; }
  }

  /** Slices of exactly the limit while runes are left. */
  method ChunkRunes(c: Coding, text: string) returns (chunks: seq<string>)
    requires c.EightBit? || c.Other?
    ensures Greedy(c, ConcatLimit(c), text, chunks)
  {
    var limit := ConcatLimit(c);
    chunks := [];
    var runes := text;
    ghost var at := 0;
    while |runes| > 0
      invariant at <= |text| && runes == text[at..]
      invariant Greedy(c, limit, text[..at], chunks) && (runes != [] ==> LastFull(limit, chunks))
    {
      var end := if limit > |runes| then |runes| else limit;
      AddSlice(c, limit, text, at, end, chunks);
      chunks := chunks + [runes[..end]];
      runes := runes[end..];
      at := at + end;
    }
    assert text[..|text|] == text;
  }

  /** GSM 7-bit when every rune is in its alphabet. */
  function Detected(text: string): Coding {
    if forall i :: 0 <= i < |text| ==> Gsm7.InAlphabet(Gsm7.DEFAULT_RUNES, text[i]) then Gsm7Bit else Ucs2
  }

  method DetectEncoding(text: string) returns (c: Coding)
    ensures c == Detected(text)
  {
    for k := 0 to |text|
      invariant forall i :: 0 <= i < k ==> Gsm7.InAlphabet(Gsm7.DEFAULT_RUNES, text[i])
    {
      if !Gsm7.InAlphabet(Gsm7.DEFAULT_RUNES, text[k]) { return Ucs2; }
    }
    return Gsm7Bit;
  }

  function ConcatUdh(reference: nat, part: int, total: int): seq<Octet> {
    [5, 0, 3, reference % 256, total % 256, part % 256]
  }

  /**
    A text within the single limit stays whole; otherwise the parts are greedy, numbered from 1, and share one
    reference.
   */
  ghost predicate IsSplit(c: Coding, text: string, reference: nat, segments: seq<Segment>) {
    if Weight(c, text) <= SingleLimit(c) then segments == [Segment(0, 1, 1, text, [])]
    else
      Greedy(c, ConcatLimit(c), text, Texts(segments))
      && forall i :: 0 <= i < |segments| ==> Numbered(segments[i], reference, i + 1, |segments|)
  }

  ghost predicate Numbered(s: Segment, reference: nat, part: int, total: int) {
    s == Segment(reference, part, total, s.text, ConcatUdh(reference, part, total))
  }

  function Texts(segments: seq<Segment>): seq<string> {
    seq(|segments|, i requires 0 <= i < |segments| => segments[i].text)
  }

  function Chosen(text: string, force: Option<Coding>): Coding {
    if force.Some? then force.value else Detected(text)
  }

  method Split(text: string, force: Option<Coding>, reference: nat) returns (segments: seq<Segment>)
    ensures IsSplit(Chosen(text, force), text, reference, segments)
  {
    var encoding;
    if force.Some? { encoding := force.value; } else { encoding := DetectEncoding(text); }
    var textLen := Measure(encoding, text);
    if textLen <= SingleLimit(encoding) { return [Segment(0, 1, 1, text, [])]; }
    var chunks;
    if encoding.Gsm7Bit? || encoding.Ucs2? { chunks := ChunkSized(encoding, text); }
    else { chunks := ChunkRunes(encoding, text); }
    segments := [];
    for i := 0 to |chunks|
      invariant |segments| == i && Texts(segments) == chunks[..i]
      invariant forall k :: 0 <= k < i ==> Numbered(segments[k], reference, k + 1, |chunks|)
    {
      segments := segments + [Segment(reference, i + 1, |chunks|, chunks[i], ConcatUdh(reference, i + 1, |chunks|))];
    }
    assert chunks[..|chunks|] == chunks;
  }

  method Measure(c: Coding, text: string) returns (total: nat)
    ensures total == Weight(c, text)
  {
    if c.EightBit? || c.Other? {
      PlainWeight(c, text);
      return |text|;
    }
    total := 0;
    for i := 0 to |text|
      invariant total == Weight(c, text[..i])
    {
      WeightMore(c, text, i);
      total := total + Size(c, text[i]);
    }
    assert text[..|text|] == text;
  }

  // ----- joining

  /** Insertion after every segment whose part number is not larger. */
  function Insert(xs: seq<Segment>, x: Segment): seq<Segment> {
    if xs == [] || xs[|xs| - 1].part <= x.part then xs + [x]
    else Insert(xs[..|xs| - 1], x) + [xs[|xs| - 1]]
  }

  function Sorted(s: seq<Segment>): seq<Segment> {
    if s == [] then [] else Insert(Sorted(s[..|s| - 1]), s[|s| - 1])
  }

  ghost predicate Ascending(s: seq<Segment>) {
    forall i, k :: 0 <= i < k < |s| ==> s[i].part <= s[k].part
  }

  ghost predicate AtMost(s: seq<Segment>, m: int) {
    forall i :: 0 <= i < |s| ==> s[i].part <= m
  }

  lemma {:induction false} InsertAtMost(xs: seq<Segment>, x: Segment, m: int)
    requires AtMost(xs, m) && x.part <= m
    ensures AtMost(Insert(xs, x), m)
  {
    if xs != [] && xs[|xs| - 1].part > x.part { InsertAtMost(xs[..|xs| - 1], x, m); }
  }

  lemma {:induction false} InsertAscends(xs: seq<Segment>, x: Segment)
    requires Ascending(xs)
    ensures Ascending(Insert(xs, x))
  {
    if xs != [] && xs[|xs| - 1].part > x.part {
      InsertAscends(xs[..|xs| - 1], x);
      InsertAtMost(xs[..|xs| - 1], x, xs[|xs| - 1].part);
    }
  }

  lemma {:induction false} InsertKeeps(xs: seq<Segment>, x: Segment)
    ensures multiset(Insert(xs, x)) == multiset(xs) + multiset{x}
  {
    if xs != [] && xs[|xs| - 1].part > x.part {
      InsertKeeps(xs[..|xs| - 1], x);
      assert xs == xs[..|xs| - 1] + [xs[|xs| - 1]];
    }
  }

  lemma {:induction false} SortedKeeps(s: seq<Segment>)
    ensures Ascending(Sorted(s)) && multiset(Sorted(s)) == multiset(s)
  {
    if s != [] {
      SortedKeeps(s[..|s| - 1]);
      InsertAscends(Sorted(s[..|s| - 1]), s[|s| - 1]);
      InsertKeeps(Sorted(s[..|s| - 1]), s[|s| - 1]);
      assert s == s[..|s| - 1] + [s[|s| - 1]];
    }
  }

  ghost predicate Distinct(s: seq<Segment>) {
    forall i, k :: 0 <= i < k < |s| ==> s[i].part < s[k].part
  }

  lemma SameLength(xs: seq<Segment>, ys: seq<Segment>)
    requires multiset(xs) == multiset(ys)
    ensures |xs| == |ys|
  {
    assert |xs| == |multiset(xs)| == |ys|;
  }

  lemma SameLast(xs: seq<Segment>, ys: seq<Segment>)
    requires multiset(xs) == multiset(ys) && Ascending(xs) && Distinct(ys) && xs != [] && |xs| == |ys|
    ensures xs[|xs| - 1] == ys[|ys| - 1]
  {
    var n := |xs| - 1;
    assert xs[n] in multiset(ys) && ys[n] in multiset(xs);
    var k :| 0 <= k <= n && ys[k] == xs[n];
    var m :| 0 <= m <= n && xs[m] == ys[n];
  }

  lemma WithoutLast(s: seq<Segment>)
    requires s != []
    ensures multiset(s[..|s| - 1]) == multiset(s) - multiset{s[|s| - 1]}
    ensures (Ascending(s) ==> Ascending(s[..|s| - 1])) && (Distinct(s) ==> Distinct(s[..|s| - 1]))
  {
    assert s == s[..|s| - 1] + [s[|s| - 1]];
  }

  lemma SameFront(xs: seq<Segment>, ys: seq<Segment>)
    requires multiset(xs) == multiset(ys) && Ascending(xs) && Distinct(ys) && xs != [] && |xs| == |ys|
    ensures xs[|xs| - 1] == ys[|ys| - 1] && multiset(xs[..|xs| - 1]) == multiset(ys[..|ys| - 1])
    ensures Ascending(xs[..|xs| - 1]) && Distinct(ys[..|ys| - 1])
  {
    SameLast(xs, ys);
    WithoutLast(xs);
    WithoutLast(ys);
  }

  /** Ascending part numbers leave one order when no number repeats. */
  lemma {:induction false} OneOrder(xs: seq<Segment>, ys: seq<Segment>)
    requires multiset(xs) == multiset(ys) && |xs| == |ys| && Ascending(xs) && Distinct(ys)
    ensures xs == ys
  {
    if xs != [] {
      var n := |xs| - 1;
      SameFront(xs, ys);
      OneOrder(xs[..n], ys[..n]);
      forall i | 0 <= i < |xs|
        ensures xs[i] == ys[i]
      {
        if i < n { assert xs[i] == xs[..n][i] && ys[i] == ys[..n][i]; }
      }
    }
  }

  method Join(segments: seq<Segment>) returns (text: string)
    ensures text == Concat(Texts(Sorted(segments)))
  {
    if |segments| == 0 {
      assert Texts(Sorted(segments)) == [];
      return "";
    }
    var ordered := new Segment[|segments|](i requires 0 <= i < |segments| => segments[i]);
    assert ordered[..] == segments;
    InsertionSort(ordered);
    text := WriteTexts(ordered[..]);
  }

  method WriteTexts(segments: seq<Segment>) returns (text: string)
    ensures text == Concat(Texts(segments))
  {
    text := "";
    for i := 0 to |segments|
      invariant text == Concat(Texts(segments[..i]))
    {
      var next := segments[i].text;
      assert Texts(segments[..i + 1]) == Texts(segments[..i]) + [next];
      ConcatAppend(Texts(segments[..i]), [next]);
      assert Concat([next]) == next + Concat([next][1..]);
      text := text + next;
    }
    assert segments[..|segments|] == segments;
  }

  method InsertionSort(ordered: array<Segment>)
    requires ordered.Length > 0
    modifies ordered
    ensures ordered[..] == Sorted(old(ordered[..]))
  {
    ghost var segments := ordered[..];
    assert segments[..1] == [segments[0]] && segments[..1][..0] == [] && Sorted([]) == [];
    for i := 1 to ordered.Length
      invariant ordered[..i] == Sorted(segments[..i]) && ordered[i..] == segments[i..]
    {
      assert segments[..i + 1][..i] == segments[..i];
      assert ordered[i] == ordered[i..][0] == segments[i];
      SiftDown(ordered, i);
      assert ordered[i + 1..] == segments[i..][1..];
    }
    assert segments[..|segments|] == segments;
  }

  /** What is left to do once entry j has moved down to j: insert it into what is below. */
  ghost function Settled(s: seq<Segment>, j: nat, i: nat): seq<Segment>
    requires j <= i < |s|
  {
    Insert(s[..j], s[j]) + s[j + 1..i + 1]
  }

  lemma SwapSettles(s: seq<Segment>, j: nat, i: nat)
    requires 0 < j <= i < |s| && s[j - 1].part > s[j].part
    ensures Settled(s[j - 1 := s[j]][j := s[j - 1]], j - 1, i) == Settled(s, j, i)
  {
    var x, y, low, high := s[j], s[j - 1], s[..j - 1], s[j + 1..i + 1];
    var t := s[j - 1 := x][j := y];
    assert s[..j] == low + [y] && (low + [y])[..j - 1] == low;
    assert t[..j - 1] == low && t[j..i + 1] == [y] + high;
    assert Insert(low, x) + [y] + high == Insert(low, x) + ([y] + high);
  }

  /** The inner loop: entry i moves down past larger part numbers. */
  method SiftDown(ordered: array<Segment>, i: nat)
    requires 0 < i < ordered.Length
    modifies ordered
    ensures ordered[..i + 1] == Insert(old(ordered[..i]), old(ordered[i])) && ordered[i + 1..] == old(ordered[i + 1..])
  {
    var j := i;
    ghost var s := ordered[..];
    assert s[..i] == ordered[..i] && s[i + 1..i + 1] == [];
    while j > 0 && ordered[j - 1].part > ordered[j].part
      invariant 0 <= j <= i && ordered[i + 1..] == old(ordered[i + 1..])
      invariant Settled(ordered[..], j, i) == Insert(old(ordered[..i]), old(ordered[i]))
    {
      SwapSettles(ordered[..], j, i);
      ghost var t := ordered[..][j - 1 := ordered[j]][j := ordered[j - 1]];
      ordered[j - 1], ordered[j] := ordered[j], ordered[j - 1];
      assert ordered[..] == t;
      j := j - 1;
    }
    assert ordered[..i + 1] == ordered[..][..j] + [ordered[j]] + ordered[..][j + 1..i + 1];
  }

  /** The parts of a split text, received in any order, give the text back. */
  lemma JoinAfterSplit(c: Coding, text: string, reference: nat, segments: seq<Segment>, received: seq<Segment>)
    requires IsSplit(c, text, reference, segments) && multiset(received) == multiset(segments)
    ensures Concat(Texts(Sorted(received))) == text
  {
    SortedKeeps(received);
    SameLength(Sorted(received), segments);
    OneOrder(Sorted(received), segments);
    if Weight(c, text) <= SingleLimit(c) {
      assert Texts(segments) == [text] && [text][1..] == [];
    }
  }

  /** No numbering scheme within the part limit needs fewer parts than Split makes. */
  lemma SplitIsOptimal(c: Coding, text: string, reference: nat, segments: seq<Segment>, parts: seq<string>)
    requires IsSplit(c, text, reference, segments) && Weight(c, text) > SingleLimit(c)
    requires Concat(parts) == text && Fits(c, ConcatLimit(c), parts)
    ensures |segments| <= |parts|
  {
    GreedyIsOptimal(c, ConcatLimit(c), text, Texts(segments), parts);
  }

  // ----- size on the air

  /** Data coding 3: one octet per rune, '?' beyond 255. */
  function EncodeLatin1(text: string): seq<Octet> {
    seq(|text|, i requires 0 <= i < |text| => if text[i] as int > 0xFF then 0x3F else text[i] as int)
  }

  function EncodedLength(c: Coding, text: string): nat {
    match c
    case Ucs2 => |Ucs2Text.Encode(text)|
    case EightBit => |EncodeLatin1(text)|
    case _ => |Gsm7.EncodePacked(Gsm7.DEFAULT_RUNES, text)|
  }

  lemma {:induction false} WeightIsUnits(text: string)
    ensures Weight(Ucs2, text) == |Ucs2Text.Units(text)|
  {
    if text != [] { WeightIsUnits(text[1..]); }
  }

  lemma {:induction false} WeightIsSeptets(t: Gsm7.Alphabet, text: string)
    requires Gsm7.Good(t)
    ensures Weight(Gsm7Bit, text) == |Gsm7.Septets(t, text)|
  {
    if text != [] {
      WeightIsSeptets(t, text[1..]);
      Gsm7.SeptetsFirst(t, text);
      Gsm7.CodesInvert(t, text[0]);
    }
  }

  /** Other names are encoded like GSM 7-bit but counted a unit a rune. */
  function AirCoding(c: Coding): Coding {
    if c.Other? then Gsm7Bit else c
  }

  lemma LengthWithin(c: Coding, text: string)
    ensures var units := Weight(AirCoding(c), text);
            (EncodedLength(c, text) <= 140 <==> units <= SingleLimit(c))
            && (EncodedLength(c, text) <= 134 <==> units <= ConcatLimit(c))
  {
    if c.Ucs2? { WeightIsUnits(text); }
    else if c.EightBit? { PlainWeight(c, text); }
    else {
      Gsm7.DefaultTableGood();
      WeightIsSeptets(Gsm7.DEFAULT_RUNES, text);
    }
  }

  /**
    A segment and its header fit the 140 octets of one short message always under a known encoding, and under an unknown
    one if and only if its runes, those of the extension table counted twice, are within the limit.
   */
  lemma SegmentsFit(c: Coding, text: string, reference: nat, segments: seq<Segment>, i: nat)
    requires IsSplit(c, text, reference, segments) && i < |segments|
    ensures var fits := |segments[i].udh| + EncodedLength(c, segments[i].text) <= 140;
            (!c.Other? ==> fits)
            && (fits <==> Weight(AirCoding(c), segments[i].text) <= if segments[i].udh == [] then SingleLimit(c)
                                                                    else ConcatLimit(c))
  {
    LengthWithin(c, segments[i].text);
    if Weight(c, text) > SingleLimit(c) {
      assert Texts(segments)[i] == segments[i].text;
      assert Numbered(segments[i], reference, i + 1, |segments|);
    }
  }

  lemma {:induction false} BracesWeigh(text: string)
    requires forall i :: 0 <= i < |text| ==> text[i] == '{'
    ensures Weight(Gsm7Bit, text) == 2 * |text|
  {
    if text != [] { BracesWeigh(text[1..]); }
  }

  /** So it does not always: 81 braces under an unknown encoding are one segment that does not fit. */
  lemma UnknownOverflows(reference: nat)
    ensures var text: string := seq(81, _ => '{');
            IsSplit(Other, text, reference, [Segment(0, 1, 1, text, [])]) && EncodedLength(Other, text) > 140
  {
    var text: string := seq(81, _ => '{');
    PlainWeight(Other, text);
    BracesWeigh(text);
    LengthWithin(Other, text);
  }
}
