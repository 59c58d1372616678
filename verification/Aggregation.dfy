/** Folding the delivery receipts of a message's segments into one message state. */
module Aggregation {
  import opened StoreSpec

  function Upper(c: char): char {
    if 'a' <= c <= 'z' then c - 'a' + 'A' else c
  }

  predicate IsSpace(c: char) {
    c == ' ' || c == '\t' || c == '\n' || c == '\r'
  }

  function TrimSpace(s: string): string {
    if s == [] then []
    else if IsSpace(s[0]) then TrimSpace(s[1..])
    else if IsSpace(s[|s| - 1]) then TrimSpace(s[..|s| - 1])
    else s
  }

  /** The spelling under which receipt states are compared. */
  function Canonical(state: string): string {
    var t := TrimSpace(state);
    seq(|t|, i requires 0 <= i < |t| => Upper(t[i]))
  }

  predicate IsFinalState(state: string) {
    Canonical(state) in {"DELIVRD", "EXPIRED", "DELETED", "UNDELIV", "REJECTD", "UNKNOWN"}
  }

  function FailureRank(state: string): nat {
    if state == "REJECTD" then 6
    else if state == "UNDELIV" then 5
    else if state == "EXPIRED" then 4
    else if state == "DELETED" then 3
    else if state == "UNKNOWN" then 2
    else 0
  }

  function RankOf(p: Pending): nat {
    FailureRank(Canonical(p.dlrState))
  }

  datatype Aggregate = Aggregate(state: string, errorCode: int, final: bool, allDelivered: bool)

  const PENDING := "PENDING"
  const DELIVRD := "DELIVRD"

  // ----- the parts of the verdict, each as a property of the whole list

  ghost predicate AllFinal(rows: seq<Pending>) {
    forall i :: 0 <= i < |rows| ==> IsFinalState(rows[i].dlrState)
  }

  ghost predicate AllDelivered(rows: seq<Pending>) {
    forall i :: 0 <= i < |rows| ==> rows[i].dlrDelivered
  }

  /** The segment numbers present. */
  ghost function Present(rows: seq<Pending>): set<int> {
    set i | 0 <= i < |rows| && rows[i].segmentIndex > 0 :: rows[i].segmentIndex
  }

  /** The largest segment count any row claims, at least one. */
  ghost predicate IsExpected(rows: seq<Pending>, n: int) {
    && n >= 1 && (forall i :: 0 <= i < |rows| ==> rows[i].segmentCount <= n)
    && (n == 1 || exists i :: 0 <= i < |rows| && rows[i].segmentCount == n)
  }

  /** Row k is the first of those with the worst failure. */
  ghost predicate FirstWorst(rows: seq<Pending>, k: int) {
    && 0 <= k < |rows| && RankOf(rows[k]) > 0
    && (forall i :: 0 <= i < |rows| ==> RankOf(rows[i]) <= RankOf(rows[k]))
    && (forall i :: 0 <= i < k ==> RankOf(rows[i]) < RankOf(rows[k]))
  }

  ghost predicate NoFailure(rows: seq<Pending>) {
    forall i :: 0 <= i < |rows| ==> RankOf(rows[i]) == 0
  }

  /** Every segment up to the expected count is listed and every listed one is final. */
  ghost predicate Complete(rows: seq<Pending>) {
    && rows != [] && AllFinal(rows)
    && forall n :: IsExpected(rows, n) ==> |Present(rows)| >= n
  }

  ghost predicate Verdict(rows: seq<Pending>, a: Aggregate) {
    && (a.final <==> Complete(rows))
    && (a.allDelivered ==> AllDelivered(rows))
    && (a.final && AllDelivered(rows) ==> a.allDelivered)
    && (!a.final ==> a.state == PENDING && a.errorCode == 0)
    && (a.final && NoFailure(rows) ==> a.state == DELIVRD && a.errorCode == 0)
    && (a.final ==> forall k :: FirstWorst(rows, k) ==>
          a.state == Canonical(rows[k].dlrState) && a.errorCode == rows[k].dlrErrorCode)
  }

  // ----- the same without ranks

  function StatesOf(rows: seq<Pending>): seq<string> {
    seq(|rows|, i requires 0 <= i < |rows| => rows[i].dlrState)
  }

  function CodesOf(rows: seq<Pending>): seq<int> {
    seq(|rows|, i requires 0 <= i < |rows| => rows[i].dlrErrorCode)
  }

  ghost predicate Seen(states: seq<string>, state: string) {
    exists i :: 0 <= i < |states| && Canonical(states[i]) == state
  }

  ghost predicate FirstSeen(states: seq<string>, state: string, k: int) {
    0 <= k < |states| && Canonical(states[k]) == state && forall i :: 0 <= i < k ==> Canonical(states[i]) != state
  }

  /** Rejected if any segment is, else undelivered, expired, deleted or unknown if any is, else delivered. */
  ghost predicate Summary(states: seq<string>, codes: seq<int>, state: string, errorCode: int)
    requires |states| == |codes|
  {
    && state == (if Seen(states, "REJECTD") then "REJECTD"
                 else if Seen(states, "UNDELIV") then "UNDELIV"
                 else if Seen(states, "EXPIRED") then "EXPIRED"
                 else if Seen(states, "DELETED") then "DELETED"
                 else if Seen(states, "UNKNOWN") then "UNKNOWN"
                 else "DELIVRD")
    && (state == "DELIVRD" ==> errorCode == 0)
    && (state != "DELIVRD" ==> forall k :: FirstSeen(states, state, k) ==> errorCode == codes[k])
  }

  /** State k is a failure, none is worse, and those before it are not as bad. */
  ghost predicate Leads(states: seq<string>, k: nat)
    requires k < |states|
  {
    && FailureRank(Canonical(states[k])) > 0
    && (forall i :: 0 <= i < |states| ==> FailureRank(Canonical(states[i])) <= FailureRank(Canonical(states[k])))
    && (forall i :: 0 <= i < k ==> FailureRank(Canonical(states[i])) < FailureRank(Canonical(states[k])))
  }

  lemma LeaderSummary(states: seq<string>, codes: seq<int>, k: nat)
    requires |states| == |codes| && k < |states| && Leads(states, k)
    ensures Summary(states, codes, Canonical(states[k]), codes[k])
  {
    var state := Canonical(states[k]);
    assert Seen(states, state);
    forall j | FirstSeen(states, state, j)
      ensures j == k
    {
      assert Canonical(states[j]) == state;
    }
  }

  lemma DeliveredSummary(states: seq<string>, codes: seq<int>)
    requires |states| == |codes| && forall i :: 0 <= i < |states| ==> FailureRank(Canonical(states[i])) == 0
    ensures Summary(states, codes, DELIVRD, 0)
  {
  }

  lemma FirstLargest(xs: seq<nat>) returns (k: nat)
    requires xs != []
    ensures k < |xs| && (forall i :: 0 <= i < |xs| ==> xs[i] <= xs[k]) && forall i :: 0 <= i < k ==> xs[i] < xs[k]
  {
    k := 0;
    for n := 1 to |xs|
      invariant k < n
      invariant forall i :: 0 <= i < n ==> xs[i] <= xs[k]
      invariant forall i :: 0 <= i < k ==> xs[i] < xs[k]
    {
      if xs[n] > xs[k] { k := n; }
    }
  }

  lemma HasFirstWorst(rows: seq<Pending>) returns (k: nat)
    requires !NoFailure(rows)
    ensures FirstWorst(rows, k)
  {
    var ranks := seq(|rows|, i requires 0 <= i < |rows| => RankOf(rows[i]));
    assert forall i :: 0 <= i < |rows| ==> ranks[i] == RankOf(rows[i]);
    k := FirstLargest(ranks);
  }

  lemma VerdictSummary(rows: seq<Pending>, a: Aggregate)
    requires Verdict(rows, a) && a.final
    ensures Summary(StatesOf(rows), CodesOf(rows), a.state, a.errorCode)
  {
    var states := StatesOf(rows);
    assert forall i :: 0 <= i < |rows| ==> RankOf(rows[i]) == FailureRank(Canonical(states[i]));
    if NoFailure(rows) { DeliveredSummary(states, CodesOf(rows)); }
    else {
      var k := HasFirstWorst(rows);
      assert Leads(states, k);
      LeaderSummary(states, CodesOf(rows), k);
    }
  }

  /** What the loop knows after the first rows: worst < 0 while none of them failed. */
  ghost predicate SoFar(rows: seq<Pending>, expected: int, seen: set<int>, final: bool, delivered: bool, worst: int) {
    && IsExpected(rows, expected) && seen == Present(rows)
    && (final <==> AllFinal(rows)) && (delivered <==> AllDelivered(rows))
    && (if worst < 0 then NoFailure(rows) else FirstWorst(rows, worst))
  }

  /** The running totals of the loop. */
  datatype Tally = Tally(expected: int, seen: set<int>, final: bool, delivered: bool, rank: nat, state: string,
                         errorCode: int)

  ghost predicate TallyOf(rows: seq<Pending>, t: Tally) {
    exists worst :: TallyAt(rows, t, worst)
  }

  ghost predicate TallyAt(rows: seq<Pending>, t: Tally, worst: int) {
    && SoFar(rows, t.expected, t.seen, t.final, t.delivered, worst)
    && (worst < 0 ==> t.rank == 0)
    && (worst >= 0 ==> t.rank == RankOf(rows[worst]) && t.state == Canonical(rows[worst].dlrState)
                       && t.errorCode == rows[worst].dlrErrorCode)
  }

  method AggregateDLR(rows: seq<Pending>) returns (result: Aggregate)
    ensures Verdict(rows, result)
    ensures result.final ==> Summary(StatesOf(rows), CodesOf(rows), result.state, result.errorCode)
  {
    if rows == [] { return Aggregate(PENDING, 0, false, false); }
    var t := Tally(1, {}, true, true, 0, PENDING, 0);
    assert TallyAt(rows[..0], t, -1);
    for n := 0 to |rows|
      invariant TallyOf(rows[..n], t)
    {
      t := Count(rows[..n], rows[n], t);
      assert rows[..n + 1] == rows[..n] + [rows[n]];
    }
    assert rows[..|rows|] == rows;
    result := Conclude(rows, t);
    if result.final { VerdictSummary(rows, result); }
  }

  method Count(ghost rows: seq<Pending>, p: Pending, t: Tally) returns (t': Tally)
    requires TallyOf(rows, t)
    ensures TallyOf(rows + [p], t')
  {
    ghost var worst :| TallyAt(rows, t, worst);
    var s, isFinal := Spelled(p.dlrState);
    OneMore(rows, p, t.expected, t.seen, t.final, t.delivered, worst);
    t' := t;
    if p.segmentCount > t.expected { t' := t'.(expected := p.segmentCount); }
    if p.segmentIndex > 0 { t' := t'.(seen := t.seen + {p.segmentIndex}); }
    if !isFinal { t' := t'.(final := false); }
    if !p.dlrDelivered { t' := t'.(delivered := false); }
    if FailureRank(s) > t.rank {
      t' := t'.(rank := FailureRank(s), state := s, errorCode := p.dlrErrorCode);
      assert TallyAt(rows + [p], t', |rows|);
    } else {
      assert TallyAt(rows + [p], t', worst);
    }
  }

  method Conclude(ghost rows: seq<Pending>, t: Tally) returns (result: Aggregate)
    requires rows != [] && TallyOf(rows, t)
    ensures Verdict(rows, result)
  {
    ghost var worst :| TallyAt(rows, t, worst);
    Concluded(rows, t.expected, t.seen, t.final, t.delivered, worst);
    var final, delivered := t.final, t.delivered;
    if |t.seen| < t.expected { final, delivered := false, false; }
    if !final { return Aggregate(PENDING, 0, false, delivered); }
    if t.rank == 0 { return Aggregate(DELIVRD, 0, final, delivered); }
    return Aggregate(t.state, t.errorCode, final, delivered);
  }

  /** The state as compared, and whether that spelling is a final one. */
  method Spelled(state: string) returns (s: string, isFinal: bool)
    ensures s == Canonical(state) && isFinal == IsFinalState(state)
  {
    s := Canonical(state);
    CanonicalTwice(state);
    isFinal := IsFinalState(s);
  }

  lemma Concluded(rows: seq<Pending>, expected: int, seen: set<int>, final: bool, delivered: bool, worst: int)
    requires rows != [] && SoFar(rows, expected, seen, final, delivered, worst)
    ensures Complete(rows) <==> final && |seen| >= expected
    ensures NoFailure(rows) <==> worst < 0
    ensures forall k :: FirstWorst(rows, k) ==> k == worst
  {
    ExpectedUnique(rows, expected);
    if worst >= 0 { assert RankOf(rows[worst]) > 0; }
  }

  lemma OneMore(rows: seq<Pending>, p: Pending, expected: int, seen: set<int>, final: bool, delivered: bool, worst: int)
    requires SoFar(rows, expected, seen, final, delivered, worst)
    ensures SoFar(rows + [p],
                  if p.segmentCount > expected then p.segmentCount else expected,
                  if p.segmentIndex > 0 then seen + {p.segmentIndex} else seen,
                  final && IsFinalState(p.dlrState), delivered && p.dlrDelivered,
                  if RankOf(p) > (if worst < 0 then 0 else RankOf(rows[worst])) then |rows| else worst)
  {
    var more := rows + [p];
    assert more[|rows|] == p && forall i :: 0 <= i < |rows| ==> more[i] == rows[i];
    PresentMore(rows, p);
    ExpectedMore(rows, p, expected);
    WorstMore(rows, p, worst);
    assert AllFinal(more) <==> AllFinal(rows) && IsFinalState(p.dlrState);
    assert AllDelivered(more) <==> AllDelivered(rows) && p.dlrDelivered;
  }

  lemma WorstMore(rows: seq<Pending>, p: Pending, worst: int)
    requires if worst < 0 then NoFailure(rows) else FirstWorst(rows, worst)
    ensures RankOf(p) > (if worst < 0 then 0 else RankOf(rows[worst])) ==> FirstWorst(rows + [p], |rows|)
    ensures worst < 0 && RankOf(p) == 0 ==> NoFailure(rows + [p])
    ensures worst >= 0 && RankOf(p) <= RankOf(rows[worst]) ==> FirstWorst(rows + [p], worst)
  {
  }

  lemma {:induction false} TrimmedEnds(s: string)
    ensures var t := TrimSpace(s); t == [] || (!IsSpace(t[0]) && !IsSpace(t[|t| - 1]))
    decreases |s|
  {
    if s != [] {
      if IsSpace(s[0]) { TrimmedEnds(s[1..]); }
      else if IsSpace(s[|s| - 1]) { TrimmedEnds(s[..|s| - 1]); }
    }
  }

  lemma CanonicalTwice(s: string)
    ensures Canonical(Canonical(s)) == Canonical(s)
  {
    TrimmedEnds(s);
    var c := Canonical(s);
    assert TrimSpace(c) == c;
  }

  lemma PresentMore(rows: seq<Pending>, p: Pending)
    ensures Present(rows + [p]) == Present(rows) + if p.segmentIndex > 0 then {p.segmentIndex} else {}
  {
    var more := rows + [p];
    forall x | x in Present(rows)
      ensures x in Present(more)
    {
      var i :| 0 <= i < |rows| && rows[i].segmentIndex > 0 && rows[i].segmentIndex == x;
      assert more[i] == rows[i];
    }
    if p.segmentIndex > 0 { assert more[|rows|] == p; }
  }

  lemma ExpectedMore(rows: seq<Pending>, p: Pending, n: int)
    requires IsExpected(rows, n)
    ensures IsExpected(rows + [p], if p.segmentCount > n then p.segmentCount else n)
  {
    var more := rows + [p];
    assert more[|rows|] == p;
    if n != 1 {
      var i :| 0 <= i < |rows| && rows[i].segmentCount == n;
      assert more[i].segmentCount == n;
    }
  }

  lemma ExpectedUnique(rows: seq<Pending>, n: int)
    requires IsExpected(rows, n)
    ensures forall m :: IsExpected(rows, m) ==> m == n
  {
  }

  ghost predicate AllSpaces(s: string) {
    forall i :: 0 <= i < |s| ==> s[i] == ' ' || s[i] == '\t' || s[i] == '\r' || s[i] == '\n'
  }

  /** The same word, in letters of either case. */
  ghost predicate SameWord(a: string, b: string) {
    |a| == |b| && forall i :: 0 <= i < |a| ==> a[i] == b[i] || ('a' <= a[i] <= 'z' && b[i] == a[i] - 'a' + 'A')
  }

  /** However it is spaced and whatever its case, a word is read as the one the verdict compares; six are final. */
  lemma SpellingIgnored(before: string, word: string, after: string, state: string)
    requires AllSpaces(before) && AllSpaces(after) && SameWord(word, state)
    requires state != [] && forall i :: 0 <= i < |state| ==> 'A' <= state[i] <= 'Z'
    ensures Canonical(before + word + after) == state
    ensures IsFinalState(before + word + after)
            <==> state == "DELIVRD" || state == "UNDELIV" || state == "REJECTD" || state == "EXPIRED"
                 || state == "DELETED" || state == "UNKNOWN"
  {
    SpacesGo(before, word, after);
    assert TrimSpace(before + word + after) == word;
    assert forall i :: 0 <= i < |word| ==> Upper(word[i]) == state[i];
  }

  lemma {:induction false} SpacesGo(before: string, word: string, after: string)
    requires AllSpaces(before) && AllSpaces(after) && word != [] && !IsSpace(word[0]) && !IsSpace(word[|word| - 1])
    ensures TrimSpace(before + word + after) == word
    decreases |before| + |after|
  {
    var s := before + word + after;
    if before != [] {
      assert s[0] == before[0] && s[1..] == before[1..] + word + after;
      SpacesGo(before[1..], word, after);
    } else if after != [] {
      var n := |after| - 1;
      assert s[0] == word[0] && s[|s| - 1] == after[n] && s[..|s| - 1] == before + word + after[..n];
      SpacesGo(before, word, after[..n]);
    } else {
      assert s == word;
    }
  }
}
