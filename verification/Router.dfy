/** Choosing a route for a destination number, and a provider among weighted ones. */
module Router {
  import opened Collections
  import opened Wrappers

  /** fits: every condition of the route other than its destination prefixes holds for the message. */
  datatype Route = Route(name: string, priority: int, prefixes: seq<string>, fits: bool)

  // ----- routes

  /** Length of the longest destination prefix that matches; no prefixes match everything, with length 0. */
  function MatchLength(prefixes: seq<string>, to: string): (n: int)
    ensures -1 <= n
  {
    if prefixes == [] then 0 else LongestMatch(prefixes, to)
  }

  function LongestMatch(prefixes: seq<string>, to: string): (n: int)
    ensures -1 <= n
  {
    if prefixes == [] then -1
    else
      var before, last := LongestMatch(prefixes[..|prefixes| - 1], to), prefixes[|prefixes| - 1];
      if last <= to && |last| > before then |last| else before
  }

  /** It is the length of a matching prefix, and no matching prefix is longer. */
  lemma {:induction false} LongestMatchIs(prefixes: seq<string>, to: string)
    ensures forall k :: 0 <= k < |prefixes| && prefixes[k] <= to ==> |prefixes[k]| <= LongestMatch(prefixes, to)
    ensures LongestMatch(prefixes, to) >= 0 <==> exists k :: 0 <= k < |prefixes| && prefixes[k] <= to
    ensures LongestMatch(prefixes, to) >= 0 ==>
              exists k :: 0 <= k < |prefixes| && prefixes[k] <= to && |prefixes[k]| == LongestMatch(prefixes, to)
  {
    if prefixes != [] {
      var n := |prefixes| - 1;
      LongestMatchIs(prefixes[..n], to);
      assert forall k :: 0 <= k < n ==> prefixes[..n][k] == prefixes[k];
      assert prefixes[n] == prefixes[|prefixes| - 1];
    }
  }

  predicate Matches(r: Route, to: string) {
    r.fits && MatchLength(r.prefixes, to) >= 0
  }

  /** a is better than b: higher priority, then the longer matching prefix. */
  predicate Beats(a: Route, b: Route, to: string) {
    a.priority > b.priority || (a.priority == b.priority && MatchLength(a.prefixes, to) > MatchLength(b.prefixes, to))
  }

  /** best is the first of the matching routes that none beats; None when none matches. */
  ghost predicate IsBest(routes: seq<Route>, to: string, best: Option<nat>) {
    match best
    case None => forall k :: 0 <= k < |routes| ==> !Matches(routes[k], to)
    case Some(b) =>
      b < |routes| && Matches(routes[b], to)
      && (forall k :: 0 <= k < |routes| && Matches(routes[k], to) ==> !Beats(routes[k], routes[b], to))
      && (forall k :: 0 <= k < b && Matches(routes[k], to) ==> Beats(routes[b], routes[k], to))
  }

  /** So there is one answer, whoever computes it. */
  lemma OneBest(routes: seq<Route>, to: string, a: Option<nat>, b: Option<nat>)
    requires IsBest(routes, to, a) && IsBest(routes, to, b)
    ensures a == b
  {
  }

  /** 0 without prefixes, else the length of a longest matching one, or -1 when none matches. */
  method MatchedPrefixLen(prefixes: seq<string>, to: string) returns (best: int)
    ensures best == MatchLength(prefixes, to)
    ensures prefixes == [] ==> best == 0
    ensures prefixes != [] ==> (best < 0 <==> forall k :: 0 <= k < |prefixes| ==> !(prefixes[k] <= to))
    ensures forall k :: 0 <= k < |prefixes| && prefixes[k] <= to ==> |prefixes[k]| <= best
    ensures prefixes != [] && best >= 0 ==>
              exists k :: 0 <= k < |prefixes| && prefixes[k] <= to && |prefixes[k]| == best
  {
    LongestMatchIs(prefixes, to);
    if |prefixes| == 0 { return 0; }
    best := -1;
    for i := 0 to |prefixes|
      invariant best == LongestMatch(prefixes[..i], to)
    {
      assert prefixes[..i + 1][..i] == prefixes[..i];
      if prefixes[i] <= to && |prefixes[i]| > best { best := |prefixes[i]|; }
    }
    assert prefixes[..|prefixes|] == prefixes;
  }

  lemma BestSoFar(routes: seq<Route>, to: string, i: nat, best: Option<nat>)
    requires i < |routes| && IsBest(routes[..i], to, best)
    ensures IsBest(routes[..i + 1], to,
                   if Matches(routes[i], to) && (best.None? || Beats(routes[i], routes[best.value], to))
                   then Some(i) else best)
  {
    assert forall k :: 0 <= k < i ==> routes[..i + 1][k] == routes[..i][k];
  }

  /** One pass over the table, keeping the best so far. */
  method MatchRoute(routes: seq<Route>, to: string) returns (best: Option<nat>)
    ensures IsBest(routes, to, best)
  {
    best := None;
    var bestPrefix, bestPriority := -1, 0;
    for i := 0 to |routes|
      invariant IsBest(routes[..i], to, best)
      invariant best.Some? ==> bestPriority == routes[best.value].priority
                               && bestPrefix == MatchLength(routes[best.value].prefixes, to)
    {
      BestSoFar(routes, to, i, best);
      var route := routes[i];
      if !route.fits { continue; }
      var matchLen := MatchedPrefixLen(route.prefixes, to);
      if matchLen < 0 { continue; }
      if best.None? || route.priority > bestPriority || (route.priority == bestPriority && matchLen > bestPrefix) {
        best := Some(i);
        bestPriority, bestPrefix := route.priority, matchLen;
      }
    }
    assert routes[..|routes|] == routes;
  }

  /** Once a route is in the lead, its further prefixes can only lengthen its match. */
  method ScanPrefixes(prefixes: seq<string>, to: string, priority: int, i: nat, best0: Option<nat>, bestPriority0: int,
                      bestPrefix0: int)
    returns (best: Option<nat>, bestPriority: int, bestPrefix: int)
    requires best0.Some? ==> best0.value < i && bestPrefix0 >= 0
    ensures var n := LongestMatch(prefixes, to);
            var wins := n >= 0 && (best0.None? || priority > bestPriority0
                                   || (priority == bestPriority0 && n > bestPrefix0));
            (best, bestPriority, bestPrefix) == if wins then (Some(i), priority, n)
                                                else (best0, bestPriority0, bestPrefix0)
  {
    best, bestPriority, bestPrefix := best0, bestPriority0, bestPrefix0;
    for k := 0 to |prefixes|
      invariant var n := LongestMatch(prefixes[..k], to);
                var wins := n >= 0 && (best0.None? || priority > bestPriority0
                                       || (priority == bestPriority0 && n > bestPrefix0));
                (best, bestPriority, bestPrefix) == if wins then (Some(i), priority, n)
                                                    else (best0, bestPriority0, bestPrefix0)
    {
      var prefix := prefixes[k];
      assert prefixes[..k + 1][..k] == prefixes[..k];
      if !(prefix <= to) { continue; }
      if best.None? || priority > bestPriority || (priority == bestPriority && |prefix| > bestPrefix) {
        best, bestPriority, bestPrefix := Some(i), priority, |prefix|;
      }
    }
    assert prefixes[..|prefixes|] == prefixes;
  }

  /** The same table with every condition but the prefixes lifted. */
  ghost function AllFit(routes: seq<Route>): seq<Route> {
    seq(|routes|, k requires 0 <= k < |routes| => routes[k].(fits := true))
  }

  /**
    The older entry point, which looks only at prefixes, makes the choice of a table whose routes have no other
    condition; on such a table that is the choice of the newer one.
   */
  method MatchPhone(routes: seq<Route>, to: string) returns (best: Option<nat>)
    ensures IsBest(AllFit(routes), to, best)
    ensures (forall k :: 0 <= k < |routes| ==> routes[k].fits) ==> IsBest(routes, to, best)
  {
    best := None;
    ghost var table := AllFit(routes);
    var bestPrefix, bestPriority := -1, 0;
    for i := 0 to |routes|
      invariant IsBest(table[..i], to, best) && (best.Some? ==> best.value < i)
      invariant best.Some? ==> bestPriority == routes[best.value].priority
                               && bestPrefix == MatchLength(routes[best.value].prefixes, to) >= 0
    {
      BestSoFar(table, to, i, best);
      var route := routes[i];
      if |route.prefixes| == 0 {
        if best.None? || route.priority > bestPriority {
          best, bestPriority, bestPrefix := Some(i), route.priority, 0;
        }
        continue;
      }
      best, bestPriority, bestPrefix :=
        ScanPrefixes(route.prefixes, to, route.priority, i, best, bestPriority, bestPrefix);
    }
    assert table[..|routes|] == table;
    assert (forall k :: 0 <= k < |routes| ==> routes[k].fits) ==> table == routes;
  }

  // ----- the choice without comparisons

  /** The message meets the conditions of the route, and one of its prefixes if it has any. */
  ghost predicate Applies(r: Route, to: string) {
    r.fits && (r.prefixes == [] || exists k :: 0 <= k < |r.prefixes| && r.prefixes[k] <= to)
  }

  /** No prefix of a that fits the number is longer than every one of b that does. */
  ghost predicate NoCloser(a: Route, b: Route, to: string) {
    forall k :: 0 <= k < |a.prefixes| && a.prefixes[k] <= to && a.prefixes[k] != [] ==>
      AtLeastOneAsLong(b.prefixes, to, |a.prefixes[k]|)
  }

  ghost predicate AtLeastOneAsLong(prefixes: seq<string>, to: string, n: nat) {
    exists k :: 0 <= k < |prefixes| && prefixes[k] <= to && |prefixes[k]| >= n
  }

  lemma AppliesIff(r: Route, to: string)
    ensures Applies(r, to) <==> Matches(r, to)
  {
    LongestMatchIs(r.prefixes, to);
  }

  lemma NoCloserIff(a: Route, b: Route, to: string)
    requires Matches(a, to) && Matches(b, to)
    ensures NoCloser(a, b, to) <==> MatchLength(a.prefixes, to) <= MatchLength(b.prefixes, to)
  {
    LongestMatchIs(a.prefixes, to);
    LongestMatchIs(b.prefixes, to);
    if NoCloser(a, b, to) && MatchLength(a.prefixes, to) > 0 {
      var k :| 0 <= k < |a.prefixes| && a.prefixes[k] <= to && |a.prefixes[k]| == MatchLength(a.prefixes, to);
      assert AtLeastOneAsLong(b.prefixes, to, |a.prefixes[k]|);
    }
  }

  /**
    The route chosen applies, has the highest priority of those that do, and none of that priority names the number more
    closely; of those that name it as closely it is the first. There is a choice whenever a route applies.
   */
  lemma BestIsClosest(routes: seq<Route>, to: string, best: Option<nat>, k: nat)
    requires IsBest(routes, to, best) && k < |routes| && Applies(routes[k], to)
    ensures best.Some? && best.value < |routes| && Applies(routes[best.value], to)
            && var b := routes[best.value];
               routes[k].priority <= b.priority
               && (routes[k].priority == b.priority ==>
                     NoCloser(routes[k], b, to) && (k < best.value ==> !NoCloser(b, routes[k], to)))
  {
    AppliesIff(routes[k], to);
    if best.Some? {
      AppliesIff(routes[best.value], to);
      NoCloserIff(routes[k], routes[best.value], to);
      NoCloserIff(routes[best.value], routes[k], to);
    }
  }

  // ----- weighted providers

  datatype Weighted = Weighted(provider: string, weight: int, enabled: bool)

  const UINT64_MAX: nat := 0xFFFF_FFFF_FFFF_FFFF

  /** Weights of the enabled entries, or an error for one that is not positive or for a sum beyond 64 bits. */
  function Total(ws: seq<Weighted>): Result<nat> {
    if ws == [] then Ok(0)
    else
      var before :- Total(ws[..|ws| - 1]);
      var w := ws[|ws| - 1];
      if !w.enabled then Ok(before)
      else if w.weight <= 0 || before + w.weight > UINT64_MAX then Err
      else Ok(before + w.weight)
  }

  /** Where the share of entry i begins. */
  function ShareStart(ws: seq<Weighted>, i: nat): nat
    requires i <= |ws| && Total(ws).Ok?
    decreases |ws|
  {
    if i == |ws| then Total(ws).value else ShareStart(ws[..|ws| - 1], i)
  }

  lemma {:induction false} SharesFollow(ws: seq<Weighted>, i: nat)
    requires i < |ws| && Total(ws).Ok?
    ensures ws[i].enabled ==> ws[i].weight > 0
    ensures ShareStart(ws, i + 1) == ShareStart(ws, i) + if ws[i].enabled then ws[i].weight else 0
    ensures ShareStart(ws, 0) == 0
    decreases |ws|
  {
    var front := ws[..|ws| - 1];
    if i + 1 < |ws| { SharesFollow(front, i); }
    else {
      assert ShareStart(front, i) == Total(front).value;
      if front != [] { SharesFollow(front, 0); }
    }
  }

  method SumWeights(ws: seq<Weighted>) returns (total: Result<nat>)
    ensures total == Total(ws)
  {
    var sum: nat := 0;
    for i := 0 to |ws|
      invariant Total(ws[..i]) == Ok(sum)
    {
      assert ws[..i + 1][..i] == ws[..i];
      if ws[i].enabled {
        if ws[i].weight <= 0 || sum > UINT64_MAX - ws[i].weight {
          NoTotal(ws, i + 1);
          return Err;
        }
        sum := sum + ws[i].weight;
      }
    }
    assert ws[..|ws|] == ws;
    return Ok(sum);
  }

  lemma {:induction false} NoTotal(ws: seq<Weighted>, i: nat)
    requires i <= |ws| && Total(ws[..i]).Err?
    ensures Total(ws).Err?
    decreases |ws|
  {
    if i < |ws| {
      assert ws[..|ws| - 1][..i] == ws[..i];
      NoTotal(ws[..|ws| - 1], i);
    } else {
      assert ws[..i] == ws;
    }
  }

  /** The residue lies in the share of entry i. */
  predicate ChosenFor(ws: seq<Weighted>, residue: int, i: nat)
    requires Total(ws).Ok?
  {
    i < |ws| && ws[i].enabled && ShareStart(ws, i) <= residue < ShareStart(ws, i) + ws[i].weight
  }

  /** The walk that takes weights off the residue; it always ends at an entry. */
  method Choose(ws: seq<Weighted>, residue: nat) returns (i: nat)
    requires Total(ws).Ok? && residue < Total(ws).value
    ensures ChosenFor(ws, residue, i)
  {
    var n := residue;
    if |ws| > 0 { SharesFollow(ws, 0); }
    i := 0;
    while i < |ws|
      invariant i <= |ws| && ShareStart(ws, i) <= residue && n == residue - ShareStart(ws, i)
    {
      SharesFollow(ws, i);
      if ws[i].enabled {
        if n < ws[i].weight { return; }
        n := n - ws[i].weight;
      }
      i := i + 1;
    }
  }

  lemma {:induction false} SharesAscend(ws: seq<Weighted>, i: nat, k: nat)
    requires i <= k <= |ws| && Total(ws).Ok?
    ensures ShareStart(ws, i) <= ShareStart(ws, k)
    decreases k - i
  {
    if i < k {
      SharesFollow(ws, i);
      SharesAscend(ws, i + 1, k);
    }
  }

  lemma ShareWithin(ws: seq<Weighted>, i: nat)
    requires Total(ws).Ok? && i < |ws|
    ensures ShareStart(ws, i) + (if ws[i].enabled then ws[i].weight else 0) <= Total(ws).value
  {
    SharesFollow(ws, i);
    SharesAscend(ws, i + 1, |ws|);
  }

  /** No residue is in two shares. */
  lemma OneChosen(ws: seq<Weighted>, residue: int, i: nat, k: nat)
    requires Total(ws).Ok? && ChosenFor(ws, residue, i) && ChosenFor(ws, residue, k)
    ensures i == k
  {
    SharesFollow(ws, i);
    SharesFollow(ws, k);
    if i < k { SharesAscend(ws, i + 1, k); }
    if k < i { SharesAscend(ws, k + 1, i); }
  }

  /** The residues below the total for which entry i is chosen. */
  ghost function ResiduesOf(ws: seq<Weighted>, i: nat): set<int>
    requires Total(ws).Ok?
  {
    set r | 0 <= r < Total(ws).value && ChosenFor(ws, r, i)
  }

  /** Of all residues below the total, an enabled entry is chosen for as many as its weight, a disabled one for none. */
  lemma ExactShares(ws: seq<Weighted>, i: nat)
    requires Total(ws).Ok? && i < |ws|
    ensures |ResiduesOf(ws, i)| == if ws[i].enabled then ws[i].weight else 0
  {
    ShareWithin(ws, i);
    SharesFollow(ws, i);
    var first := ShareStart(ws, i);
    if ws[i].enabled {
      NumbersAre(first, first + ws[i].weight);
      assert ResiduesOf(ws, i) == Numbers(first, first + ws[i].weight);
    } else {
      assert ResiduesOf(ws, i) == {};
    }
  }
}
