/**
  The keyword automaton: a trie of the keywords with failure links, built breadth first, and the search
  that reports what the automaton holds at each rune of a text. Nodes stand for words, the prefixes of keywords.
 */
module KeywordFilter {
  import opened Collections
  import opened Keywords
  import opened Utf8

  datatype Node = Node(next: map<char, nat>, fail: nat, out: seq<Pattern>)

  // ----- the trie in nodes: words[v] is the word of node v, at[w] the node of word w

  ghost predicate EdgesOk(next: map<char, nat>, w: string, at: map<string, nat>) {
    forall r {:trigger r in next} {:trigger next[r]} ::
      (r in next <==> w + [r] in at) && (r in next ==> next[r] == at[w + [r]])
  }

  ghost predicate Named(words: seq<string>, at: map<string, nat>) {
    |words| > 0 && words[0] == []
    && (forall v :: 0 <= v < |words| ==> words[v] in at && at[words[v]] == v)
    && (forall w :: w in at ==> at[w] < |words| && words[at[w]] == w)
    && IsTrie(at.Keys)
  }

  ghost predicate TrieOk(nodes: seq<Node>, words: seq<string>, at: map<string, nat>) {
    |nodes| == |words| && Named(words, at)
    && forall v {:trigger nodes[v]} :: 0 <= v < |nodes| ==> EdgesOk(nodes[v].next, words[v], at)
  }

  /** Links not set yet, and every node reports just its own keywords. */
  ghost predicate Unlinked(ps: seq<Pattern>, nodes: seq<Node>, words: seq<string>)
    requires |nodes| == |words|
  {
    forall v {:trigger nodes[v]} :: 0 <= v < |nodes| ==> nodes[v].fail == 0 && nodes[v].out == Own(ps, words[v])
  }

  lemma {:induction false} OwnNothing(ps: seq<Pattern>, w: string)
    requires forall k :: 0 <= k < |ps| ==> ps[k].text != w
    ensures Own(ps, w) == []
  {
    if ps != [] { OwnNothing(ps[1..], w); }
  }

  function WithChild(nodes: seq<Node>, v: nat, r: char): seq<Node>
    requires v < |nodes|
  {
    nodes[v := nodes[v].(next := nodes[v].next[r := |nodes|])] + [Node(map[], 0, [])]
  }

  lemma SameWord(a: string, c: char, b: string, d: char)
    requires a + [c] == b + [d]
    ensures a == b && c == d
  {
    assert (a + [c])[..|a|] == a && (b + [d])[..|b|] == b && (a + [c])[|a|] == c && (b + [d])[|b|] == d;
  }

  lemma NameChild(words: seq<string>, at: map<string, nat>, v: nat, r: char)
    requires Named(words, at) && v < |words| && words[v] + [r] !in at
    ensures Named(words + [words[v] + [r]], at[words[v] + [r] := |words|])
  {
    var w, at' := words[v] + [r], at[words[v] + [r] := |words|];
    forall x, c | x + [c] in at'.Keys
      ensures x in at'.Keys
    {
      if x + [c] == w { SameWord(x, c, words[v], r); } else { assert x + [c] in at.Keys; }
    }
  }

  lemma EdgesKept(next: map<char, nat>, w: string, at: map<string, nat>, v: string, r: char, n: nat)
    requires EdgesOk(next, w, at) && v + [r] !in at
    ensures EdgesOk(if w == v then next[r := n] else next, w, at[v + [r] := n])
  {
    var next', at' := if w == v then next[r := n] else next, at[v + [r] := n];
    forall c
      ensures (c in next' <==> w + [c] in at') && (c in next' ==> next'[c] == at'[w + [c]])
    {
      if w + [c] == v + [r] { SameWord(w, c, v, r); }
      assert c in next <==> w + [c] in at;
    }
  }

  lemma NoEdgesYet(at: map<string, nat>, w: string, n: nat)
    requires IsTrie(at.Keys) && w !in at
    ensures EdgesOk(map[], w, at[w := n])
  {
    forall c
      ensures w + [c] !in at[w := n]
    {
      assert |w + [c]| > |w|;
      assert w + [c] in at.Keys ==> w in at.Keys;
    }
  }

  lemma AddChild(nodes: seq<Node>, words: seq<string>, at: map<string, nat>, v: nat, r: char)
    requires TrieOk(nodes, words, at) && v < |nodes| && words[v] + [r] !in at
    ensures TrieOk(WithChild(nodes, v, r), words + [words[v] + [r]], at[words[v] + [r] := |words|])
  {
    var w, n := words[v] + [r], |words|;
    var nodes', words', at' := WithChild(nodes, v, r), words + [w], at[w := n];
    NameChild(words, at, v, r);
    forall u | 0 <= u < |nodes'|
      ensures EdgesOk(nodes'[u].next, words'[u], at')
    {
      if u < n {
        EdgesKept(nodes[u].next, words[u], at, words[v], r, n);
        assert words[u] == words[v] <==> u == v;
      } else {
        NoEdgesYet(at, w, n);
      }
    }
  }

  ghost predicate Inserting(ps: seq<Pattern>, prefix: string, nodes: seq<Node>, words: seq<string>,
                            at: map<string, nat>) {
    TrieOk(nodes, words, at) && Unlinked(ps, nodes, words) && at.Keys == Words(ps) + Prefixes(prefix)
  }

  lemma UnlinkedMore(ps: seq<Pattern>, nodes: seq<Node>, words: seq<string>, v: nat, r: char, w: string)
    requires |nodes| == |words| && Unlinked(ps, nodes, words) && v < |nodes| && Own(ps, w) == []
    ensures Unlinked(ps, WithChild(nodes, v, r), words + [w])
  {
    var nodes', words' := WithChild(nodes, v, r), words + [w];
    forall u | 0 <= u < |nodes'|
      ensures nodes'[u].fail == 0 && nodes'[u].out == Own(ps, words'[u])
    {
      if u < |nodes| { assert nodes[u].fail == 0 && nodes[u].out == Own(ps, words[u]); }
    }
  }

  lemma PrefixesMore(prefix: string, r: char)
    ensures Prefixes(prefix + [r]) == Prefixes(prefix) + {prefix + [r]}
  {
    assert (prefix + [r])[..|prefix|] == prefix;
  }

  lemma ChildInserted(ps: seq<Pattern>, prefix: string, nodes: seq<Node>, words: seq<string>, at: map<string, nat>,
                      v: nat, r: char)
    requires Inserting(ps, prefix, nodes, words, at) && v < |nodes| && words[v] == prefix && prefix + [r] !in at
    ensures Inserting(ps, prefix + [r], WithChild(nodes, v, r), words + [prefix + [r]], at[prefix + [r] := |words|])
  {
    var w := prefix + [r];
    AddChild(nodes, words, at, v, r);
    assert Own(ps, w) == [] by {
      WordsClosed(ps);
      OwnNothing(ps, w);
    }
    UnlinkedMore(ps, nodes, words, v, r, w);
    PrefixesMore(prefix, r);
    assert at[w := |words|].Keys == at.Keys + {w};
  }

  lemma EdgeAt(nodes: seq<Node>, words: seq<string>, at: map<string, nat>, v: nat, r: char)
    requires TrieOk(nodes, words, at) && v < |nodes|
    ensures r in nodes[v].next <==> words[v] + [r] in at
    ensures r in nodes[v].next ==> 0 < nodes[v].next[r] < |nodes| && words[nodes[v].next[r]] == words[v] + [r]
  {
    assert EdgesOk(nodes[v].next, words[v], at);
    assert r in nodes[v].next <==> words[v] + [r] in at;
    assert |words[v] + [r]| > 0;
  }

  lemma StepDown(ps: seq<Pattern>, prefix: string, nodes: seq<Node>, words: seq<string>, at: map<string, nat>, v: nat,
                 r: char)
    requires Inserting(ps, prefix, nodes, words, at) && v < |nodes| && words[v] == prefix
    ensures r in nodes[v].next <==> prefix + [r] in at
    ensures r in nodes[v].next ==> nodes[v].next[r] < |nodes| && words[nodes[v].next[r]] == prefix + [r]
    ensures r in nodes[v].next ==> Inserting(ps, prefix + [r], nodes, words, at)
  {
    EdgeAt(nodes, words, at, v, r);
    PrefixesMore(prefix, r);
    if r in nodes[v].next { Within(Words(ps), Prefixes(prefix), prefix + [r]); }
  }

  lemma Within(a: set<string>, b: set<string>, w: string)
    requires w in a + b
    ensures a + (b + {w}) == a + b
  {
  }

  /** One keyword goes down the trie, making nodes where there are none. */
  method InsertText(ghost ps: seq<Pattern>, text: string, nodes0: seq<Node>, ghost words0: seq<string>,
                    ghost at0: map<string, nat>)
    returns (nodes: seq<Node>, node: nat, ghost words: seq<string>, ghost at: map<string, nat>)
    requires Inserting(ps, "", nodes0, words0, at0)
    ensures Inserting(ps, text, nodes, words, at) && node < |nodes| && words[node] == text
  {
    nodes, node, words, at := nodes0, 0, words0, at0;
    for j := 0 to |text|
      invariant Inserting(ps, text[..j], nodes, words, at) && node < |nodes| && words[node] == text[..j]
    {
      var r := text[j];
      ghost var prefix := text[..j];
      assert text[..j + 1] == prefix + [r];
      StepDown(ps, prefix, nodes, words, at, node, r);
      if r in nodes[node].next {
        node := nodes[node].next[r];
      } else {
        var next := |nodes|;
        ChildInserted(ps, prefix, nodes, words, at, node, r);
        nodes := nodes[node := nodes[node].(next := nodes[node].next[r := next])] + [Node(map[], 0, [])];
        at := at[prefix + [r] := |words|];
        words := words + [prefix + [r]];
        node := next;
      }
    }
    assert text[..|text|] == text;
  }

  lemma {:induction false} OwnMore(ps: seq<Pattern>, p: Pattern, w: string)
    ensures Own(ps + [p], w) == if p.text != [] && p.text == w then Own(ps, w) + [p] else Own(ps, w)
  {
    if ps == [] { assert ps + [p] == [p] && [p][1..] == []; }
    else {
      OwnMore(ps[1..], p, w);
      assert (ps + [p])[0] == ps[0] && (ps + [p])[1..] == ps[1..] + [p];
    }
  }

  lemma KeysAdded(ps: seq<Pattern>, p: Pattern)
    ensures Words(ps + [p]) + Prefixes("") == Words(ps) + Prefixes(p.text)
  {
    assert (ps + [p])[..|ps|] == ps;
    assert Words(ps + [p]) == Words(ps) + Prefixes(p.text);
  }

  lemma UnlinkedWith(ps: seq<Pattern>, p: Pattern, nodes: seq<Node>, words: seq<string>, node: nat)
    requires |nodes| == |words| && Unlinked(ps, nodes, words) && node < |nodes| && words[node] == p.text && p.text != []
    requires forall v :: 0 <= v < |words| && words[v] == p.text ==> v == node
    ensures Unlinked(ps + [p], nodes[node := nodes[node].(out := nodes[node].out + [p])], words)
  {
    var nodes' := nodes[node := nodes[node].(out := nodes[node].out + [p])];
    forall v | 0 <= v < |nodes'|
      ensures nodes'[v].fail == 0 && nodes'[v].out == Own(ps + [p], words[v])
    {
      OwnMore(ps, p, words[v]);
    }
  }

  lemma PatternAdded(ps: seq<Pattern>, p: Pattern, nodes: seq<Node>, words: seq<string>, at: map<string, nat>,
                     node: nat)
    requires Inserting(ps, p.text, nodes, words, at) && node < |nodes| && words[node] == p.text && p.text != []
    ensures Inserting(ps + [p], "", nodes[node := nodes[node].(out := nodes[node].out + [p])], words, at)
  {
    KeysAdded(ps, p);
    UnlinkedWith(ps, p, nodes, words, node);
  }

  lemma EmptyAdded(ps: seq<Pattern>, p: Pattern, nodes: seq<Node>, words: seq<string>, at: map<string, nat>)
    requires Inserting(ps, "", nodes, words, at) && p.text == []
    ensures Inserting(ps + [p], "", nodes, words, at)
  {
    assert (ps + [p])[..|ps|] == ps;
    forall v | 0 <= v < |nodes|
      ensures nodes[v].fail == 0 && nodes[v].out == Own(ps + [p], words[v])
    {
      OwnMore(ps, p, words[v]);
    }
    assert Words(ps + [p]) + Prefixes("") == at.Keys;
  }

  method BuildTrie(patterns: seq<Pattern>)
    returns (nodes: seq<Node>, ghost words: seq<string>, ghost at: map<string, nat>)
    ensures Inserting(patterns, "", nodes, words, at)
  {
    nodes, words, at := [Node(map[], 0, [])], [""], map["" := 0];
    NoEdges();
    for i := 0 to |patterns|
      invariant Inserting(patterns[..i], "", nodes, words, at)
    {
      var p := patterns[i];
      assert patterns[..i + 1] == patterns[..i] + [p];
      if p.text == "" {
        EmptyAdded(patterns[..i], p, nodes, words, at);
      } else {
        var node;
        nodes, node, words, at := InsertText(patterns[..i], p.text, nodes, words, at);
        PatternAdded(patterns[..i], p, nodes, words, at, node);
        nodes := nodes[node := nodes[node].(out := nodes[node].out + [p])];
      }
    }
    assert patterns[..|patterns|] == patterns;
  }

  lemma NoEdges()
    ensures Inserting([], "", [Node(map[], 0, [])], [""], map["" := 0])
  {
    var at: map<string, nat> := map["" := 0];
    forall r: char
      ensures "" + [r] !in at
    {
      assert |"" + [r]| == 1;
    }
    forall w: string, r: char
      ensures w + [r] !in at.Keys
    {
      assert |w + [r]| > 0;
    }
  }

  // ----- failure links, breadth first

  /** The node's link and reports are the ones built for its word so far. */
  ghost predicate NodeOk(ps: seq<Pattern>, at: map<string, nat>, b: Built, node: Node, w: string) {
    LinkNow(b.links, w) in at && node.fail == at[LinkNow(b.links, w)] && node.out == OutNow(ps, b, w)
  }

  ghost predicate Running(ps: seq<Pattern>, nodes: seq<Node>, words: seq<string>, at: map<string, nat>, b: Built) {
    TrieOk(nodes, words, at) && Sound(at.Keys, b.links)
    && forall u {:trigger nodes[u]} :: 0 <= u < |nodes| ==> NodeOk(ps, at, b, nodes[u], words[u])
  }

  ghost predicate DoneAre(words: seq<string>, b: Built, done: set<nat>) {
    b.links.Keys == b.outs.Keys
    && forall u {:trigger words[u]} :: 0 <= u < |words| ==> (u in done <==> words[u] == [] || words[u] in b.links)
  }

  /** Some order of visiting words gives b. */
  ghost predicate IsBuilt(ps: seq<Pattern>, t: set<string>, b: Built)
    requires IsTrie(t)
  {
    exists order :: TopDown(t, order) && b == BuiltBy(ps, t, order)
  }

  ghost predicate Progress(ps: seq<Pattern>, nodes: seq<Node>, words: seq<string>, at: map<string, nat>,
                           done: set<nat>, b: Built) {
    Running(ps, nodes, words, at, b) && DoneAre(words, b, done) && IsBuilt(ps, at.Keys, b)
  }

  lemma FailAt(ps: seq<Pattern>, nodes: seq<Node>, words: seq<string>, at: map<string, nat>, b: Built, f: nat)
    requires Running(ps, nodes, words, at, b) && f < |nodes|
    ensures nodes[f].fail < |nodes| && words[nodes[f].fail] == LinkNow(b.links, words[f])
    ensures words[f] == [] <==> f == 0
  {
    assert NodeOk(ps, at, b, nodes[f], words[f]);
    assert at[words[f]] == f && at[words[0]] == 0;
  }

  lemma NextFalls(ps: seq<Pattern>, nodes: seq<Node>, words: seq<string>, at: map<string, nat>, b: Built, f: nat)
    requires Running(ps, nodes, words, at, b) && 0 < f < |nodes|
    ensures nodes[f].fail < |nodes| && words[nodes[f].fail] == LinkNow(b.links, words[f])
    ensures 0 <= Rank(|at.Keys|, words[nodes[f].fail]) < Rank(|at.Keys|, words[f])
  {
    FailAt(ps, nodes, words, at, b, f);
    assert words[f] in at.Keys && words[nodes[f].fail] in at.Keys;
    NowSound(at.Keys, b.links, words[f]);
    RankFalls(at.Keys, words[f], LinkNow(b.links, words[f]));
  }

  /** The loop over failure links of the parent, from its own link f0. */
  method WalkLinks(ghost ps: seq<Pattern>, nodes: seq<Node>, ghost words: seq<string>, ghost at: map<string, nat>,
                   ghost b: Built, f0: nat, r: char) returns (f: nat)
    requires Running(ps, nodes, words, at, b) && f0 < |nodes| && words[f0] in at
    ensures f < |nodes| && words[f] == WalkBy(at.Keys, b.links, words[f0], r)
  {
    f := f0;
    while f != 0
      invariant f < |nodes| && words[f] in at
      invariant WalkBy(at.Keys, b.links, words[f], r) == WalkBy(at.Keys, b.links, words[f0], r)
      decreases Rank(|at.Keys|, words[f])
    {
      EdgeAt(nodes, words, at, f, r);
      NextFalls(ps, nodes, words, at, b, f);
      FailAt(ps, nodes, words, at, b, f);
      if r in nodes[f].next {
        return nodes[f].next[r];
      }
      f := nodes[f].fail;
    }
  }

  method FindLink(ghost ps: seq<Pattern>, nodes: seq<Node>, ghost words: seq<string>, ghost at: map<string, nat>,
                  ghost b: Built, v: nat, u: nat, r: char) returns (fail: nat)
    requires Running(ps, nodes, words, at, b) && v < |nodes| && u < |nodes| && words[u] !in b.links
    requires words[v] != [] && words[u] == words[v] + [r] && words[u] in at
    ensures fail < |nodes| && words[fail] == RuleLink(at.Keys, b.links, words[u])
  {
    FailAt(ps, nodes, words, at, b, v);
    FailAt(ps, nodes, words, at, b, u);
    assert words[nodes[v].fail] in at;
    var f := WalkLinks(ps, nodes, words, at, b, nodes[v].fail, r);
    fail := nodes[u].fail;
    if r in nodes[f].next && nodes[f].next[r] != u { fail := nodes[f].next[r]; }
    LinkFound(nodes, words, at, b.links, v, u, r, f, fail);
  }

  lemma LinkFound(nodes: seq<Node>, words: seq<string>, at: map<string, nat>, links: map<string, string>,
                  v: nat, u: nat, r: char, f: nat, fail: nat)
    requires TrieOk(nodes, words, at) && Sound(at.Keys, links) && v < |nodes| && u < |nodes| && words[u] in at
    requires words[v] != [] && words[u] == words[v] + [r] && LinkNow(links, words[v]) in at
    requires f < |nodes| && words[f] == WalkBy(at.Keys, links, LinkNow(links, words[v]), r)
    requires fail < |nodes|
    requires if r in nodes[f].next && nodes[f].next[r] != u then fail == nodes[f].next[r] else words[fail] == []
    ensures words[fail] == RuleLink(at.Keys, links, words[u])
  {
    EdgeAt(nodes, words, at, f, r);
    assert Front(words[u]) == words[v] && Last(words[u]) == r;
    assert r in nodes[f].next ==> (nodes[f].next[r] == u <==> words[f] + [r] == words[u]) by {
      assert at[words[u]] == u;
    }
  }

  function WithLink(nodes: seq<Node>, u: nat, fail: nat): seq<Node>
    requires u < |nodes| && fail < |nodes|
  {
    nodes[u := nodes[u].(fail := fail, out := nodes[u].out + nodes[fail].out)]
  }

  lemma LinkSet(ps: seq<Pattern>, nodes: seq<Node>, words: seq<string>, at: map<string, nat>, b: Built,
                u: nat, fail: nat)
    requires Running(ps, nodes, words, at, b) && u < |nodes| && fail < |nodes|
    requires words[u] in at && words[u] != [] && words[u] !in b.links && words[u] !in b.outs
    requires words[fail] == RuleLink(at.Keys, b.links, words[u])
    ensures Running(ps, WithLink(nodes, u, fail), words, at, Visit(ps, at.Keys, b, words[u]))
  {
    var nodes', b' := WithLink(nodes, u, fail), Visit(ps, at.Keys, b, words[u]);
    VisitIsSound(ps, at.Keys, b, words[u]);
    forall v | 0 <= v < |nodes'|
      ensures EdgesOk(nodes'[v].next, words[v], at) && NodeOk(ps, at, b', nodes'[v], words[v])
    {
      assert EdgesOk(nodes[v].next, words[v], at) && NodeOk(ps, at, b, nodes[v], words[v]);
      assert words[v] == words[u] <==> v == u;
      assert NodeOk(ps, at, b, nodes[fail], words[fail]) && at[words[fail]] == fail;
    }
  }

  lemma DoneMore(words: seq<string>, at: map<string, nat>, b: Built, b': Built, done: set<nat>, u: nat)
    requires Named(words, at) && DoneAre(words, b, done) && u < |words|
    requires b'.links.Keys == b.links.Keys + {words[u]} == b'.outs.Keys
    ensures DoneAre(words, b', done + {u})
  {
    forall v | 0 <= v < |words|
      ensures v in done + {u} <==> words[v] == [] || words[v] in b'.links
    {
      assert words[v] == words[u] <==> v == u by { assert at[words[v]] == v && at[words[u]] == u; }
    }
  }

  /** A word not visited yet may be visited next if the word it extends has been. */
  lemma BuiltMore(ps: seq<Pattern>, t: set<string>, b: Built, w: string)
    requires IsTrie(t) && IsBuilt(ps, t, b) && Sound(t, b.links) && w in t && w != [] && w !in b.links
    requires |w| > 1 ==> Front(w) in b.links
    ensures IsBuilt(ps, t, Visit(ps, t, b, w))
  {
    var order :| TopDown(t, order) && b == BuiltBy(ps, t, order);
    OrderMore(t, order, w);
    BuildMore(ps, t, order, w);
  }

  lemma OrderMore(t: set<string>, order: seq<string>, w: string)
    requires TopDown(t, order) && w in t && w != [] && w !in Seen(order) && (|w| > 1 ==> Front(w) in Seen(order))
    ensures TopDown(t, order + [w])
  {
    assert (order + [w])[..|order|] == order;
  }

  lemma BuildMore(ps: seq<Pattern>, t: set<string>, order: seq<string>, w: string)
    requires IsTrie(t) && TopDown(t, order) && TopDown(t, order + [w]) && w in t && w != []
    ensures BuiltBy(ps, t, order + [w]) == Visit(ps, t, BuiltBy(ps, t, order), w)
  {
    assert (order + [w])[..|order|] == order;
  }

  /** One more node is linked. */
  lemma Linked(ps: seq<Pattern>, nodes: seq<Node>, words: seq<string>, at: map<string, nat>, done: set<nat>, b: Built,
               u: nat, fail: nat)
    requires Progress(ps, nodes, words, at, done, b) && u < |nodes| && fail < |nodes| && u !in done
    requires words[u] in at && words[u] != [] && (|words[u]| > 1 ==> Front(words[u]) in b.links)
    requires words[fail] == RuleLink(at.Keys, b.links, words[u])
    ensures Progress(ps, WithLink(nodes, u, fail), words, at, done + {u}, Visit(ps, at.Keys, b, words[u]))
  {
    assert words[u] !in b.links;
    LinkSet(ps, nodes, words, at, b, u, fail);
    DoneMore(words, at, b, Visit(ps, at.Keys, b, words[u]), done, u);
    BuiltMore(ps, at.Keys, b, words[u]);
  }

  // ----- the queue

  /** The children still to be queued: of a node taken from the queue none, of the current one todo. */
  ghost function Open(next: map<char, nat>, v: int, taken: set<nat>, cur: int, todo: set<char>): set<char> {
    if v == cur then todo else if v in taken then {} else next.Keys
  }

  ghost predicate ChildrenAt(next: map<char, nat>, done: set<nat>, open: set<char>) {
    forall r :: r in next ==> (next[r] in done <==> r !in open)
  }

  ghost predicate Frontier(nodes: seq<Node>, done: set<nat>, taken: set<nat>, cur: int, todo: set<char>) {
    forall v :: 0 <= v < |nodes| ==> ChildrenAt(nodes[v].next, done, Open(nodes[v].next, v, taken, cur, todo))
  }

  /** pos[u] is the place of node u in the queue; what lies before head has been taken. */
  ghost predicate Queued(queue: seq<nat>, head: nat, n: nat, pos: map<nat, nat>, done: set<nat>, taken: set<nat>) {
    head <= |queue| && done == pos.Keys + {0} && taken <= done && 0 !in pos
    && (forall u :: u in pos ==> pos[u] < |queue| && queue[pos[u]] == u && u < n)
    && (forall k :: 0 <= k < |queue| ==> queue[k] in pos && pos[queue[k]] == k)
    && (forall u :: u in pos ==> (u in taken <==> pos[u] < head))
  }

  lemma OneParent(nodes: seq<Node>, words: seq<string>, at: map<string, nat>, v: nat, r: char, v': nat, r': char)
    requires TrieOk(nodes, words, at) && v < |nodes| && v' < |nodes| && r in nodes[v].next && r' in nodes[v'].next
    requires nodes[v].next[r] == nodes[v'].next[r']
    ensures v == v' && r == r'
  {
    EdgeAt(nodes, words, at, v, r);
    EdgeAt(nodes, words, at, v', r');
    SameWord(words[v], r, words[v'], r');
    assert at[words[v]] == v && at[words[v']] == v';
  }

  lemma ChildQueued(nodes: seq<Node>, words: seq<string>, at: map<string, nat>, done: set<nat>, taken: set<nat>,
                    cur: nat, todo: set<char>, r: char)
    requires TrieOk(nodes, words, at) && Frontier(nodes, done, taken, cur, todo) && cur < |nodes|
             && r in nodes[cur].next && r in todo
    ensures nodes[cur].next[r] !in done && Frontier(nodes, done + {nodes[cur].next[r]}, taken, cur, todo - {r})
  {
    var u := nodes[cur].next[r];
    assert ChildrenAt(nodes[cur].next, done, todo);
    forall v | 0 <= v < |nodes|
      ensures ChildrenAt(nodes[v].next, done + {u}, Open(nodes[v].next, v, taken, cur, todo - {r}))
    {
      assert ChildrenAt(nodes[v].next, done, Open(nodes[v].next, v, taken, cur, todo));
      forall c | c in nodes[v].next
        ensures nodes[v].next[c] == u <==> v == cur && c == r
      {
        if nodes[v].next[c] == u { OneParent(nodes, words, at, cur, r, v, c); }
      }
    }
  }

  lemma {:induction false} ReachedAll(nodes: seq<Node>, words: seq<string>, at: map<string, nat>, done: set<nat>,
                                      taken: set<nat>, w: string)
    requires TrieOk(nodes, words, at) && Frontier(nodes, done, taken, -1, {}) && done <= taken && 0 in done && w in at
    ensures at[w] in done
  {
    if w == [] { assert words[0] == [] && at[words[0]] == 0; }
    else {
      var front, r := w[..|w| - 1], w[|w| - 1];
      assert w == front + [r];
      assert front + [r] in at.Keys;
      ReachedAll(nodes, words, at, done, taken, front);
      var v := at[front];
      EdgeAt(nodes, words, at, v, r);
      assert ChildrenAt(nodes[v].next, done, {});
      assert nodes[v].next[r] in done && words[nodes[v].next[r]] == w;
    }
  }

  /** The children of one node, in whatever order the map gives them, are linked and join the queue. */
  method LinkChildren(ghost ps: seq<Pattern>, nodes0: seq<Node>, ghost words: seq<string>, ghost at: map<string, nat>,
                      ghost done0: set<nat>, ghost b0: Built, ghost taken: set<nat>, queue0: seq<nat>,
                      ghost pos0: map<nat, nat>, ghost head: nat, v: nat)
    returns (nodes: seq<Node>, queue: seq<nat>, ghost pos: map<nat, nat>, ghost done: set<nat>, ghost b: Built)
    requires Progress(ps, nodes0, words, at, done0, b0) && Queued(queue0, head, |words|, pos0, done0, taken)
    requires v < |words| && v in done0 && words[v] != [] && v !in taken && Frontier(nodes0, done0, taken, -1, {})
    ensures Progress(ps, nodes, words, at, done, b) && Queued(queue, head, |words|, pos, done, taken)
    ensures queue0 <= queue && Frontier(nodes, done, taken, v, {})
  {
    nodes, queue, pos, done, b := nodes0, queue0, pos0, done0, b0;
    HeadOpened(nodes, done, taken, v);
    var todo := nodes[v].next.Keys;
    while todo != {}
      invariant Progress(ps, nodes, words, at, done, b) && Queued(queue, head, |words|, pos, done, taken)
      invariant queue0 <= queue && v in done && todo <= nodes[v].next.Keys && Frontier(nodes, done, taken, v, todo)
      decreases todo
    {
      var r := Pick(todo);
      nodes, queue, pos, done, b := LinkChild(ps, nodes, words, at, done, b, taken, queue, pos, head, v, todo, r);
      todo := todo - {r};
    }
  }

  method LinkChild(ghost ps: seq<Pattern>, nodes0: seq<Node>, ghost words: seq<string>, ghost at: map<string, nat>,
                   ghost done0: set<nat>, ghost b0: Built, ghost taken: set<nat>, queue0: seq<nat>,
                   ghost pos0: map<nat, nat>, ghost head: nat, v: nat, ghost todo: set<char>, r: char)
    returns (nodes: seq<Node>, queue: seq<nat>, ghost pos: map<nat, nat>, ghost done: set<nat>, ghost b: Built)
    requires Progress(ps, nodes0, words, at, done0, b0) && Queued(queue0, head, |words|, pos0, done0, taken)
    requires v < |words| && v in done0 && words[v] != [] && r in todo && r in nodes0[v].next
    requires Frontier(nodes0, done0, taken, v, todo)
    ensures Progress(ps, nodes, words, at, done, b) && Queued(queue, head, |words|, pos, done, taken) && done0 <= done
    ensures queue0 <= queue && Frontier(nodes, done, taken, v, todo - {r}) && nodes[v].next == nodes0[v].next
  {
    var u := nodes0[v].next[r];
    ChildToLink(nodes0, words, at, done0, taken, v, todo, r);
    assert words[u] in at && words[u] !in b0.links && Front(words[u]) == words[v];
    var fail := FindLink(ps, nodes0, words, at, b0, v, u, r);
    Linked(ps, nodes0, words, at, done0, b0, u, fail);
    QueueMore(queue0, head, |words|, pos0, done0, taken, u);
    SameEdges(nodes0, u, fail, done0 + {u}, taken, v, todo - {r});
    queue := queue0 + [u];
    pos := pos0[u := |queue0|];
    nodes := WithLink(nodes0, u, fail);
    done := done0 + {u};
    b := Visit(ps, at.Keys, b0, words[u]);
  }

  lemma ChildToLink(nodes: seq<Node>, words: seq<string>, at: map<string, nat>, done: set<nat>, taken: set<nat>, v: nat,
                    todo: set<char>, r: char)
    requires TrieOk(nodes, words, at) && Frontier(nodes, done, taken, v, todo) && v < |nodes| && r in nodes[v].next
             && r in todo
    ensures var u := nodes[v].next[r];
            0 < u < |nodes| && u !in done && words[u] == words[v] + [r] && words[u] != []
            && Frontier(nodes, done + {u}, taken, v, todo - {r})
  {
    EdgeAt(nodes, words, at, v, r);
    ChildQueued(nodes, words, at, done, taken, v, todo, r);
  }

  lemma QueueMore(queue: seq<nat>, head: nat, n: nat, pos: map<nat, nat>, done: set<nat>, taken: set<nat>, u: nat)
    requires Queued(queue, head, n, pos, done, taken) && 0 < u < n && u !in done
    ensures Queued(queue + [u], head, n, pos[u := |queue|], done + {u}, taken)
  {
    assert pos[u := |queue|].Keys == pos.Keys + {u};
  }

  lemma SameEdges(nodes: seq<Node>, u: nat, fail: nat, done: set<nat>, taken: set<nat>, cur: int, todo: set<char>)
    requires u < |nodes| && fail < |nodes| && Frontier(nodes, done, taken, cur, todo)
    ensures Frontier(WithLink(nodes, u, fail), done, taken, cur, todo)
    ensures 0 <= cur < |nodes| ==> WithLink(nodes, u, fail)[cur].next == nodes[cur].next
  {
    var nodes' := WithLink(nodes, u, fail);
    forall v | 0 <= v < |nodes'|
      ensures ChildrenAt(nodes'[v].next, done, Open(nodes'[v].next, v, taken, cur, todo))
    {
      assert nodes'[v].next == nodes[v].next;
    }
  }

  /** Nothing is linked yet. */
  lemma NoneLinked(ps: seq<Pattern>, nodes: seq<Node>, words: seq<string>, at: map<string, nat>)
    requires Inserting(ps, "", nodes, words, at)
    ensures Progress(ps, nodes, words, at, {0}, Built(map[], map[]))
  {
    var b := Built(map[], map[]);
    assert TopDown(at.Keys, []) && b == BuiltBy(ps, at.Keys, []);
    forall u | 0 <= u < |nodes|
      ensures NodeOk(ps, at, b, nodes[u], words[u]) && (u in {0} <==> words[u] == [])
    {
      assert at[words[u]] == u && at[words[0]] == 0;
    }
  }

  /** A child of the root keeps the link to the root. */
  lemma ShortLinked(ps: seq<Pattern>, nodes: seq<Node>, words: seq<string>, at: map<string, nat>, done: set<nat>,
                    b: Built, u: nat)
    requires Progress(ps, nodes, words, at, done, b) && u < |nodes| && u !in done && |words[u]| == 1 && words[u] in at
    ensures Progress(ps, nodes, words, at, done + {u}, Visit(ps, at.Keys, b, words[u]))
  {
    assert words[0] == [] && words[u] !in b.links;
    Linked(ps, nodes, words, at, done, b, u, 0);
    NowSound(at.Keys, b.links, []);
    assert [] !in b.links && [] !in b.outs;
    OwnOfRoot(ps);
    assert NodeOk(ps, at, b, nodes[0], words[0]) && NodeOk(ps, at, b, nodes[u], words[u]);
    assert nodes[u].out + [] == nodes[u].out;
    assert WithLink(nodes, u, 0) == nodes;
  }

  method QueueRoot(ghost ps: seq<Pattern>, nodes: seq<Node>, ghost words: seq<string>, ghost at: map<string, nat>)
    returns (queue: seq<nat>, ghost pos: map<nat, nat>, ghost done: set<nat>, ghost b: Built)
    requires Inserting(ps, "", nodes, words, at)
    ensures Progress(ps, nodes, words, at, done, b) && Queued(queue, 0, |words|, pos, done, {})
    ensures Frontier(nodes, done, {}, 0, {})
  {
    queue, pos, done, b := [], map[], {0}, Built(map[], map[]);
    var todo := nodes[0].next.Keys;
    NoneLinked(ps, nodes, words, at);
    NothingQueued(nodes, words, at);
    while todo != {}
      invariant Progress(ps, nodes, words, at, done, b) && Queued(queue, 0, |words|, pos, done, {})
      invariant todo <= nodes[0].next.Keys && Frontier(nodes, done, {}, 0, todo)
      decreases todo
    {
      var r := Pick(todo);
      var u := nodes[0].next[r];
      EdgeAt(nodes, words, at, 0, r);
      ChildQueued(nodes, words, at, done, {}, 0, todo, r);
      assert words[u] in at && |words[u]| == 1;
      ShortLinked(ps, nodes, words, at, done, b, u);
      QueueMore(queue, 0, |words|, pos, done, {}, u);
      b := Visit(ps, at.Keys, b, words[u]);
      pos := pos[u := |queue|];
      queue := queue + [u];
      done := done + {u};
      todo := todo - {r};
    }
  }

  lemma NothingQueued(nodes: seq<Node>, words: seq<string>, at: map<string, nat>)
    requires TrieOk(nodes, words, at)
    ensures Frontier(nodes, {0}, {}, 0, nodes[0].next.Keys)
  {
    forall v | 0 <= v < |nodes|
      ensures ChildrenAt(nodes[v].next, {0}, Open(nodes[v].next, v, {}, 0, nodes[0].next.Keys))
    {
      forall r | r in nodes[v].next
        ensures nodes[v].next[r] != 0
      {
        EdgeAt(nodes, words, at, v, r);
      }
    }
  }

  /** The finished automaton: every node holds the link and the reports of its word. */
  ghost predicate Automaton(ps: seq<Pattern>, nodes: seq<Node>, words: seq<string>, at: map<string, nat>,
                            order: seq<string>) {
    IsTrie(at.Keys) && at.Keys == Words(ps) && Visits(at.Keys, order)
    && Running(ps, nodes, words, at, BuiltBy(ps, at.Keys, order))
  }

  /** The nodes are the automaton built by visiting the words in that order. */
  ghost predicate BuiltAs(ps: seq<Pattern>, nodes: seq<Node>, order: seq<string>) {
    exists words, at :: Automaton(ps, nodes, words, at, order)
  }

  ghost predicate IsAutomaton(ps: seq<Pattern>, nodes: seq<Node>) {
    exists order :: BuiltAs(ps, nodes, order)
  }

  lemma AllVisited(words: seq<string>, at: map<string, nat>, done: set<nat>, b: Built)
    requires Named(words, at) && DoneAre(words, b, done) && Sound(at.Keys, b.links)
    requires forall u :: 0 <= u < |words| ==> u in done
    ensures b.links.Keys == at.Keys - {[]}
  {
    forall w | w in b.links
      ensures w in at.Keys && w != []
    {
      NowSound(at.Keys, b.links, w);
    }
    forall w | w in at.Keys && w != []
      ensures w in b.links
    {
      assert words[at[w]] == w && at[w] in done;
    }
  }

  lemma Finished(ps: seq<Pattern>, nodes: seq<Node>, words: seq<string>, at: map<string, nat>, done: set<nat>, b: Built)
    requires Progress(ps, nodes, words, at, done, b) && at.Keys == Words(ps)
    requires b.links.Keys == at.Keys - {[]}
    ensures IsAutomaton(ps, nodes)
  {
    var order :| TopDown(at.Keys, order) && b == BuiltBy(ps, at.Keys, order);
    assert Visits(at.Keys, order);
    assert Automaton(ps, nodes, words, at, order);
    assert BuiltAs(ps, nodes, order);
  }

  /** The automaton of every keyword list, by the code's own rule for the links. */
  method BuildAutomaton(patterns: seq<Pattern>) returns (nodes: seq<Node>)
    ensures IsAutomaton(patterns, nodes)
  {
    ghost var words, at;
    nodes, words, at := BuildTrie(patterns);
    WordsClosed(patterns);
    assert at.Keys == Words(patterns);
    var queue;
    ghost var pos, done, b;
    queue, pos, done, b := QueueRoot(patterns, nodes, words, at);
    ghost var taken: set<nat> := {0};
    var head := 0;
    RootTaken(nodes, queue, |words|, pos, done);
    while head < |queue|
      invariant Progress(patterns, nodes, words, at, done, b) && Queued(queue, head, |words|, pos, done, taken)
      invariant Frontier(nodes, done, taken, -1, {}) && 0 in taken
      decreases Numbers(0, |words|) - taken
    {
      var v := queue[head];
      NumbersAre(0, |words|);
      assert words[v] != [] by { assert at[words[v]] == v && at[words[0]] == 0; }
      nodes, queue, pos, done, b := LinkChildren(patterns, nodes, words, at, done, b, taken, queue, pos, head, v);
      HeadTaken(nodes, queue, head, |words|, pos, done, taken, v);
      taken := taken + {v};
      head := head + 1;
    }
    forall u | 0 <= u < |nodes|
      ensures u in done
    {
      ReachedAll(nodes, words, at, done, taken, words[u]);
    }
    AllVisited(words, at, done, b);
    Finished(patterns, nodes, words, at, done, b);
  }

  lemma RootTaken(nodes: seq<Node>, queue: seq<nat>, n: nat, pos: map<nat, nat>, done: set<nat>)
    requires Queued(queue, 0, n, pos, done, {}) && Frontier(nodes, done, {}, 0, {})
    ensures Queued(queue, 0, n, pos, done, {0}) && Frontier(nodes, done, {0}, -1, {})
  {
    forall v | 0 <= v < |nodes|
      ensures ChildrenAt(nodes[v].next, done, Open(nodes[v].next, v, {0}, -1, {}))
    {
      assert Open(nodes[v].next, v, {0}, -1, {}) == Open(nodes[v].next, v, {}, 0, {});
    }
  }

  lemma HeadTaken(nodes: seq<Node>, queue: seq<nat>, head: nat, n: nat, pos: map<nat, nat>, done: set<nat>,
                  taken: set<nat>, u: nat)
    requires Queued(queue, head, n, pos, done, taken) && head < |queue| && u == queue[head]
             && Frontier(nodes, done, taken, u, {})
    ensures Queued(queue, head + 1, n, pos, done, taken + {u}) && Frontier(nodes, done, taken + {u}, -1, {})
  {
    forall v | 0 <= v < |nodes|
      ensures ChildrenAt(nodes[v].next, done, Open(nodes[v].next, v, taken + {u}, -1, {}))
    {
      assert Open(nodes[v].next, v, taken + {u}, -1, {}) == Open(nodes[v].next, v, taken, u, {});
    }
  }

  lemma HeadOpened(nodes: seq<Node>, done: set<nat>, taken: set<nat>, u: nat)
    requires u < |nodes| && u !in taken && Frontier(nodes, done, taken, -1, {})
    ensures Frontier(nodes, done, taken, u, nodes[u].next.Keys)
  {
    forall v | 0 <= v < |nodes|
      ensures ChildrenAt(nodes[v].next, done, Open(nodes[v].next, v, taken, u, nodes[u].next.Keys))
    {
      assert Open(nodes[v].next, v, taken, u, nodes[u].next.Keys) == Open(nodes[v].next, v, taken, -1, {});
    }
  }

  // ----- searching

  method ByteEnds(text: string) returns (ends: seq<nat>)
    ensures |ends| == |text| + 1 && forall k :: 0 <= k <= |text| ==> ends[k] == Offset(text, k)
  {
    ends := [0];
    for i := 0 to |text|
      invariant |ends| == i + 1 && forall k :: 0 <= k <= i ==> ends[k] == Offset(text, k)
    {
      ends := ends + [ends[i] + RuneLength(text[i])];
    }
  }

  /** Links are followed until the rune can be read. */
  method Step(ghost ps: seq<Pattern>, nodes: seq<Node>, ghost words: seq<string>, ghost at: map<string, nat>,
              ghost b: Built, from: nat, r: char) returns (node: nat)
    requires Running(ps, nodes, words, at, b) && from < |nodes| && words[from] in at
    ensures node < |nodes| && words[node] == Move(at.Keys, b.links, words[from], r)
  {
    node := from;
    while node != 0
      invariant node < |nodes| && words[node] in at
      invariant Move(at.Keys, b.links, words[node], r) == Move(at.Keys, b.links, words[from], r)
      decreases Rank(|at.Keys|, words[node])
    {
      EdgeAt(nodes, words, at, node, r);
      if r in nodes[node].next { break; }
      NextFalls(ps, nodes, words, at, b, node);
      FailAt(ps, nodes, words, at, b, node);
      node := nodes[node].fail;
    }
    EdgeAt(nodes, words, at, node, r);
    if r in nodes[node].next { node := nodes[node].next[r]; }
  }

  method Report(text: string, ends: seq<nat>, i: nat, out: seq<Pattern>) returns (found: seq<Match>)
    requires i < |text| && |ends| == |text| + 1 && forall k :: 0 <= k <= |text| ==> ends[k] == Offset(text, k)
    ensures found == ReportAt(text, i, out)
  {
    found := [];
    for k := 0 to |out|
      invariant found == ReportAt(text, i, out[..k])
    {
      var p := out[k];
      assert out[..k + 1][..k] == out[..k];
      var start := i - |p.text| + 1;
      if start < 0 { continue; }
      found := found + [Match(p.rule, ends[start], ends[i + 1], p.text)];
    }
    assert out[..|out|] == out;
  }

  /**
    One pass over the text reports what the automaton holds for the word reached after each rune; without inner
    prefixes that is every keyword that ends there, each as often as it is configured.
   */
  method Find(ghost ps: seq<Pattern>, ghost order: seq<string>, nodes: seq<Node>, text: string)
    returns (matches: seq<Match>)
    requires BuiltAs(ps, nodes, order)
    ensures Visits(Words(ps), order) && matches == FoundBy(ps, order, text)
    ensures NoInnerPrefix(Words(ps))
            ==> exists groups :: |groups| == |text| && Complete(ps, text, groups) && matches == Reported(text, groups)
  {
    ghost var words, at :| Automaton(ps, nodes, words, at, order);
    matches := Search(ps, nodes, words, at, BuiltBy(ps, at.Keys, order), text);
    if NoInnerPrefix(Words(ps)) { GroupsComplete(ps, at.Keys, order, text); }
  }

  method Search(ghost ps: seq<Pattern>, nodes: seq<Node>, ghost words: seq<string>, ghost at: map<string, nat>,
                ghost b: Built, text: string) returns (matches: seq<Match>)
    requires Running(ps, nodes, words, at, b)
    ensures matches == Reported(text, Groups(ps, at.Keys, b, text))
  {
    matches := [];
    var node: nat := 0;
    var ends := ByteEnds(text);
    for i := 0 to |text|
      invariant node < |nodes| && words[node] == Reached(at.Keys, b.links, text[..i])
      invariant matches == Reported(text, Groups(ps, at.Keys, b, text[..i]))
    {
      var out;
      node, out := ReadRune(ps, nodes, words, at, b, node, text, i);
      var found := Report(text, ends, i, out);
      GroupAdded(ps, at.Keys, b, text, i);
      matches := matches + found;
    }
    assert text[..|text|] == text;
  }

  method ReadRune(ghost ps: seq<Pattern>, nodes: seq<Node>, ghost words: seq<string>, ghost at: map<string, nat>,
                  ghost b: Built, from: nat, text: string, i: nat) returns (node: nat, out: seq<Pattern>)
    requires Running(ps, nodes, words, at, b) && i < |text| && from < |nodes|
    requires words[from] == Reached(at.Keys, b.links, text[..i])
    ensures node < |nodes| && words[node] == Reached(at.Keys, b.links, text[..i + 1])
    ensures out == OutNow(ps, b, words[node])
  {
    assert Front(text[..i + 1]) == text[..i] && Last(text[..i + 1]) == text[i];
    node := Step(ps, nodes, words, at, b, from, text[i]);
    assert NodeOk(ps, at, b, nodes[node], words[node]);
    out := nodes[node].out;
  }

  lemma GroupAdded(ps: seq<Pattern>, t: set<string>, b: Built, text: string, i: nat)
    requires IsTrie(t) && Sound(t, b.links) && i < |text|
    ensures Reported(text, Groups(ps, t, b, text[..i + 1]))
            == Reported(text, Groups(ps, t, b, text[..i]))
               + ReportAt(text, i, OutNow(ps, b, Reached(t, b.links, text[..i + 1])))
  {
    var groups := Groups(ps, t, b, text[..i + 1]);
    assert Front(text[..i + 1]) == text[..i];
    assert groups[..i] == Groups(ps, t, b, text[..i]);
  }
}
