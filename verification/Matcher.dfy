/** The multi-pattern matcher of src/matcher.rs: a byte trie kept in a vector of
    nodes, BFS failure links, and one output link per node. */
module Matcher {
  import opened Bytes

  const NO_OUT: nat := 0xFFFF_FFFF

  datatype Edge = Edge(b: byte, to: nat)

  datatype Node = Node(next: seq<Edge>, fail: nat, selfOut: seq<nat>, outLink: nat, depth: nat)

  /** One call of the callback handed to `find`. */
  datatype Hit = Hit(id: nat, off: int)

  /** The first position whose byte is not below `c` (`partition_point`). */
  function PartitionPoint(next: seq<Edge>, c: byte): (pos: nat)
    ensures pos <= |next|
    ensures forall k :: 0 <= k < pos ==> next[k].b < c
    ensures pos < |next| ==> next[pos].b >= c
  {
    if next == [] || next[0].b >= c then 0 else
      var pos := 1 + PartitionPoint(next[1..], c);
      assert forall k :: 0 < k < pos ==> next[k] == next[1..][k - 1];
      pos
  }

  function ChildOf(nodes: seq<Node>, u: nat, c: byte): (r: Option<nat>)
    requires u < |nodes|
  {
    var nx := nodes[u].next;
    var pos := PartitionPoint(nx, c);
    if pos < |nx| && nx[pos].b == c then Some(nx[pos].to) else None
  }

  // ---------------------------------------------------------------------
  // The trie: `word[u]` is the byte string spelled on the path to node u.
  // ---------------------------------------------------------------------

  ghost function Front(w: seq<byte>): (r: seq<byte>)
    requires w != []
  {
    w[..|w| - 1]
  }

  ghost predicate Words(word: seq<seq<byte>>) {
    && |word| >= 1
    && word[0] == []
    && (forall u, v :: 0 <= u < v < |word| ==> word[u] != word[v])
    && (forall u :: 0 < u < |word| ==> word[u] != [])
    && (forall u :: 0 < u < |word| ==> Front(word[u]) in word)
  }

  ghost predicate SortedEdges(next: seq<Edge>) {
    forall i, j :: 0 <= i < j < |next| ==> next[i].b < next[j].b
  }

  ghost predicate HasEdgeTo(next: seq<Edge>, v: nat) {
    exists k :: 0 <= k < |next| && next[k].to == v
  }

  ghost predicate EdgesOk(next: seq<Edge>, u: nat, word: seq<seq<byte>>)
    requires u < |word|
  {
    && SortedEdges(next)
    && (forall k :: 0 <= k < |next| ==>
          0 < next[k].to < |word| && word[next[k].to] == word[u] + [next[k].b])
    && (forall v :: 0 < v < |word| && word[v] != [] && Front(word[v]) == word[u] ==> HasEdgeTo(next, v))
  }

  /** `nodes` stores exactly the trie whose node words are `word`. */
  ghost predicate Shape(nodes: seq<Node>, word: seq<seq<byte>>) {
    && Words(word)
    && |nodes| == |word|
    && (forall u :: 0 <= u < |nodes| ==> nodes[u].depth == |word[u]|)
    && (forall u :: 0 <= u < |nodes| ==> EdgesOk(nodes[u].next, u, word))
  }

  lemma EdgeAt(next: seq<Edge>, u: nat, word: seq<seq<byte>>, k: nat)
    requires u < |word| && EdgesOk(next, u, word) && k < |next|
    ensures 0 < next[k].to < |word| && word[next[k].to] == word[u] + [next[k].b]
  {
  }

  lemma EdgeTo(next: seq<Edge>, u: nat, word: seq<seq<byte>>, v: nat) returns (k: nat)
    requires u < |word| && EdgesOk(next, u, word) && 0 < v < |word| && word[v] != [] && Front(word[v]) == word[u]
    ensures k < |next| && next[k].to == v && word[v] == word[u] + [next[k].b]
  {
    assert HasEdgeTo(next, v);
    k :| 0 <= k < |next| && next[k].to == v;
  }

  lemma PointAt(next: seq<Edge>, k: nat)
    requires SortedEdges(next) && k < |next|
    ensures PartitionPoint(next, next[k].b) == k
  {
  }

  lemma EdgesSorted(next: seq<Edge>, u: nat, word: seq<seq<byte>>)
    requires u < |word| && EdgesOk(next, u, word)
    ensures SortedEdges(next)
  {
  }

  lemma WordAt(word: seq<seq<byte>>, w: seq<byte>) returns (v: nat)
    requires Words(word) && w in word
    ensures v < |word| && word[v] == w && (v == 0 <==> w == []) && word[0] == []
  {
    v :| 0 <= v < |word| && word[v] == w;
  }

  lemma ChildOfHas(nodes: seq<Node>, word: seq<seq<byte>>, u: nat, c: byte)
    requires u < |nodes| == |word| && Words(word) && EdgesOk(nodes[u].next, u, word)
    requires word[u] + [c] in word
    ensures ChildOf(nodes, u, c).Some?
  {
    hide Words, EdgesOk, SortedEdges;
    var v := WordAt(word, word[u] + [c]);
    assert Front(word[v]) == word[u];
    var k := EdgeTo(nodes[u].next, u, word, v);
    assert (word[u] + [c])[|word[u]|] == c;
    EdgesSorted(nodes[u].next, u, word);
    PointAt(nodes[u].next, k);
  }

  /** The lookup finds the child for byte `c` exactly when the extended word is in the trie. */
  lemma ChildOfSpec(nodes: seq<Node>, word: seq<seq<byte>>, u: nat, c: byte)
    requires u < |nodes| == |word| && Words(word) && EdgesOk(nodes[u].next, u, word)
    ensures match ChildOf(nodes, u, c)
            case Some(v) => 0 < v < |word| && word[v] == word[u] + [c]
            case None => word[u] + [c] !in word
  {
    if word[u] + [c] in word {
      ChildOfHas(nodes, word, u, c);
    }
  }

  // ---------------------------------------------------------------------
  // Longest suffix present in the trie.
  // ---------------------------------------------------------------------

  ghost function LongestSuffix(word: seq<seq<byte>>, s: seq<byte>): (r: seq<byte>)
    decreases |s|
  {
    if s in word || s == [] then s else LongestSuffix(word, s[1..])
  }

  lemma {:induction false} LongestSuffixIn(word: seq<seq<byte>>, s: seq<byte>)
    requires Words(word)
    ensures LongestSuffix(word, s) in word && |LongestSuffix(word, s)| <= |s|
    decreases |s|
  {
    if s == [] {
      assert word[0] == s;
    } else if s !in word {
      LongestSuffixIn(word, s[1..]);
    }
  }

  lemma PrefixIn(word: seq<seq<byte>>, w: seq<byte>)
    requires Words(word) && w in word && w != []
    ensures Front(w) in word
  {
  }

  /** The automaton step: the state after one more byte depends on the text only
      through the state before it. */
  lemma {:induction false} ExtendSuffix(word: seq<seq<byte>>, s: seq<byte>, c: byte)
    requires Words(word)
    ensures LongestSuffix(word, s + [c]) == LongestSuffix(word, LongestSuffix(word, s) + [c])
    decreases |s|
  {
    if s !in word && s != [] {
      assert Front(s + [c]) == s;
      if s + [c] in word {
        PrefixIn(word, s + [c]);
      }
      assert (s + [c])[1..] == s[1..] + [c];
      ExtendSuffix(word, s[1..], c);
    }
  }

  /** One failed probe at node word `s` (itself in the trie): fall back to the
      longest proper suffix. */
  lemma FallBack(word: seq<seq<byte>>, s: seq<byte>, c: byte)
    requires Words(word) && s != [] && s + [c] !in word
    ensures LongestSuffix(word, s + [c]) == LongestSuffix(word, LongestSuffix(word, s[1..]) + [c])
  {
    assert (s + [c])[1..] == s[1..] + [c];
    ExtendSuffix(word, s[1..], c);
  }

  /** `LongestSuffix` is the longest: every suffix of `s` in the trie is a suffix of it. */
  lemma {:induction false} LongestSuffixMax(word: seq<seq<byte>>, s: seq<byte>, k: nat)
    requires k <= |s| && s[k..] in word
    ensures |s| - k <= |LongestSuffix(word, s)| <= |s|
    ensures LongestSuffix(word, s) == s[|s| - |LongestSuffix(word, s)|..]
    decreases |s|
  {
    if s in word || s == [] {
      assert s[0..] == s;
    } else {
      assert s[0..] == s;
      assert s[1..][k - 1..] == s[k..];
      LongestSuffixMax(word, s[1..], k - 1);
    }
  }

  // ---------------------------------------------------------------------
  // Outputs.
  // ---------------------------------------------------------------------

  /** Ids of the patterns equal to `w`, ascending. */
  ghost function IdsOf(patterns: seq<seq<byte>>, w: seq<byte>): (r: seq<nat>) {
    if patterns == [] then [] else
      IdsOf(patterns[..|patterns| - 1], w) +
      (if patterns[|patterns| - 1] == w then [|patterns| - 1] else [])
  }

  ghost predicate OutOk(nodes: seq<Node>, word: seq<seq<byte>>, patterns: seq<seq<byte>>) {
    && |nodes| == |word| >= 1
    && nodes[0].selfOut == []
    && (forall u :: 0 < u < |nodes| ==> nodes[u].selfOut == IdsOf(patterns, word[u]))
    && (forall k :: 0 <= k < |patterns| && patterns[k] != [] ==> patterns[k] in word)
  }

  ghost predicate RootClean(nodes: seq<Node>) {
    |nodes| >= 1 && nodes[0].fail == 0 && nodes[0].outLink == NO_OUT && nodes[0].selfOut == []
  }

  /** `fail` is the node of the longest proper suffix in the trie, and `outLink` is the
      first pattern-ending node on the fail chain. */
  ghost predicate FailOk(nodes: seq<Node>, word: seq<seq<byte>>, v: nat)
    requires |nodes| == |word|
  {
    && 0 < v < |word| && word[v] != []
    && nodes[v].fail < |word|
    && word[nodes[v].fail] == LongestSuffix(word, word[v][1..])
    && nodes[v].outLink == (if nodes[nodes[v].fail].selfOut == [] then nodes[nodes[v].fail].outLink
                            else nodes[v].fail)
  }

  ghost predicate Linked(nodes: seq<Node>, word: seq<seq<byte>>)
    requires |nodes| == |word|
  {
    RootClean(nodes) && forall v :: 0 < v < |word| ==> FailOk(nodes, word, v)
  }

  /** Every pattern id whose pattern is a non-empty suffix of `s`: longest suffix first,
      ids ascending within one suffix. */
  ghost function Hits(patterns: seq<seq<byte>>, s: seq<byte>): (r: seq<nat>)
    decreases |s|
  {
    if s == [] then [] else IdsOf(patterns, s) + Hits(patterns, s[1..])
  }

  lemma {:induction false} IdsOfEmpty(patterns: seq<seq<byte>>, w: seq<byte>)
    requires w !in patterns
    ensures IdsOf(patterns, w) == []
  {
    if patterns == [] {
    } else {
      var p := patterns[..|patterns| - 1];
      assert forall x :: x in p ==> x in patterns;
      assert patterns[|patterns| - 1] in patterns;
      IdsOfEmpty(p, w);
    }
  }

  lemma {:induction false} IdsOfValid(patterns: seq<seq<byte>>, w: seq<byte>)
    ensures forall k :: 0 <= k < |IdsOf(patterns, w)| ==>
                          IdsOf(patterns, w)[k] < |patterns| && patterns[IdsOf(patterns, w)[k]] == w
  {
    if patterns == [] {
    } else {
      IdsOfValid(patterns[..|patterns| - 1], w);
    }
  }

  lemma {:induction false} HitsValid(patterns: seq<seq<byte>>, s: seq<byte>)
    ensures forall k :: 0 <= k < |Hits(patterns, s)| ==>
                          Hits(patterns, s)[k] < |patterns| && |patterns[Hits(patterns, s)[k]]| <= |s|
    decreases |s|
  {
    if s == [] {
    } else {
      IdsOfValid(patterns, s);
      HitsValid(patterns, s[1..]);
    }
  }

  /** Suffixes outside the trie contribute nothing. */
  lemma {:induction false} HitsSkip(nodes: seq<Node>, word: seq<seq<byte>>, patterns: seq<seq<byte>>, s: seq<byte>)
    requires OutOk(nodes, word, patterns)
    ensures Hits(patterns, s) == Hits(patterns, LongestSuffix(word, s))
    decreases |s|
  {
    if s !in word && s != [] {
      IdsOfEmpty(patterns, s);
      HitsSkip(nodes, word, patterns, s[1..]);
    }
  }

  /** What is still to be reported when the output chain stands at `o`. */
  ghost function Rest(patterns: seq<seq<byte>>, word: seq<seq<byte>>, o: nat): (r: seq<nat>) {
    if o < |word| then Hits(patterns, word[o]) else []
  }

  lemma {:induction false} ChainStep(nodes: seq<Node>, word: seq<seq<byte>>, patterns: seq<seq<byte>>, u: nat)
    requires u < |word| && |word| <= NO_OUT
    requires Shape(nodes, word) && OutOk(nodes, word, patterns) && Linked(nodes, word)
    ensures Hits(patterns, word[u]) == nodes[u].selfOut + Rest(patterns, word, nodes[u].outLink)
    ensures nodes[u].outLink == NO_OUT ||
            (nodes[u].outLink < |word| && nodes[nodes[u].outLink].selfOut != []
             && |word[nodes[u].outLink]| < |word[u]|)
    decreases |word[u]|
  {
    if u == 0 {
    } else {
      var f := nodes[u].fail;
      assert FailOk(nodes, word, u);
      HitsSkip(nodes, word, patterns, word[u][1..]);
      LongestSuffixIn(word, word[u][1..]);
      ChainStep(nodes, word, patterns, f);
      assert Hits(patterns, word[u]) == nodes[u].selfOut + Hits(patterns, word[f]);
      if nodes[f].selfOut == [] {
        assert [] + Rest(patterns, word, nodes[f].outLink) == Rest(patterns, word, nodes[f].outLink);
      }
    }
  }

  /** `o` names the longest suffix of `s` that is a pattern; NO_OUT says there is none. */
  ghost predicate NearestOut(word: seq<seq<byte>>, patterns: seq<seq<byte>>, s: seq<byte>, o: nat) {
    if o == NO_OUT then forall j :: 0 <= j < |s| ==> s[j..] !in patterns
    else
      o < |word| && 0 < |word[o]| <= |s| && word[o] in patterns && word[o] == s[|s| - |word[o]|..] &&
      forall j :: 0 <= j < |s| - |word[o]| ==> s[j..] !in patterns
  }

  /** `outLink` names the longest proper suffix of the node's word that is a pattern. */
  lemma OutLinkIsNearest(nodes: seq<Node>, word: seq<seq<byte>>, patterns: seq<seq<byte>>, u: nat)
    requires 0 < u < |word| <= NO_OUT
    requires Shape(nodes, word) && OutOk(nodes, word, patterns) && Linked(nodes, word)
    ensures NearestOut(word, patterns, word[u][1..], nodes[u].outLink)
  {
    assert FailOk(nodes, word, u);
    NearestFrom(nodes, word, patterns, word[u][1..], nodes[u].fail);
  }

  lemma {:induction false} NearestFrom(nodes: seq<Node>, word: seq<seq<byte>>, patterns: seq<seq<byte>>,
                                       s: seq<byte>, f: nat)
    requires f < |word| <= NO_OUT
    requires Shape(nodes, word) && OutOk(nodes, word, patterns) && Linked(nodes, word)
    requires word[f] == LongestSuffix(word, s)
    ensures NearestOut(word, patterns, s, if nodes[f].selfOut == [] then nodes[f].outLink else f)
    decreases |s|
  {
    assert s[0..] == s;
    if f > 0 && s in word && nodes[f].selfOut != [] {
      IdsOfValid(patterns, word[f]);
      assert patterns[nodes[f].selfOut[0]] == s;
    } else if s != [] {
      if s in patterns {
        var id :| 0 <= id < |patterns| && patterns[id] == s;
        IdsOfHas(patterns, id);
      }
      var g := if s in word then nodes[f].fail else f;
      assert s in word ==> f > 0 && FailOk(nodes, word, f);
      NearestFrom(nodes, word, patterns, s[1..], g);
      NearestGrow(word, patterns, s, if nodes[f].selfOut == [] then nodes[f].outLink else f);
    }
  }

  lemma NearestGrow(word: seq<seq<byte>>, patterns: seq<seq<byte>>, s: seq<byte>, o: nat)
    requires s != [] && s !in patterns && NearestOut(word, patterns, s[1..], o)
    ensures NearestOut(word, patterns, s, o)
  {
    assert s[0..] == s;
    assert forall j :: 0 < j <= |s| ==> s[1..][j - 1..] == s[j..];
  }

  lemma {:induction false} IdsOfHas(patterns: seq<seq<byte>>, id: nat)
    requires id < |patterns|
    ensures id in IdsOf(patterns, patterns[id])
  {
    if id < |patterns| - 1 {
      IdsOfHas(patterns[..|patterns| - 1], id);
    }
  }

  // ---------------------------------------------------------------------
  // Reference: naive search.
  // ---------------------------------------------------------------------

  ghost function HitsAt(patterns: seq<seq<byte>>, ids: seq<nat>, end: nat): (r: seq<Hit>)
    requires forall k :: 0 <= k < |ids| ==> ids[k] < |patterns|
    ensures |r| == |ids|
  {
    seq(|ids|, k requires 0 <= k < |ids| => Hit(ids[k], end - |patterns[ids[k]]|))
  }

  /** All reports on `text`, in the order the matcher makes them. */
  ghost function Reports(patterns: seq<seq<byte>>, text: seq<byte>): (r: seq<Hit>) {
    if text == [] then [] else
      HitsValid(patterns, text);
      Reports(patterns, text[..|text| - 1]) + HitsAt(patterns, Hits(patterns, text), |text|)
  }

  /** Pattern `id` occurs in `text` at offset `off`. */
  ghost predicate OccursAt(patterns: seq<seq<byte>>, text: seq<byte>, id: nat, off: int) {
    && id < |patterns| && patterns[id] != []
    && 0 <= off <= |text| - |patterns[id]|
    && text[off..off + |patterns[id]|] == patterns[id]
  }

  lemma {:induction false} IdsOfCount(patterns: seq<seq<byte>>, w: seq<byte>, id: nat)
    ensures multiset(IdsOf(patterns, w))[id] == if id < |patterns| && patterns[id] == w then 1 else 0
  {
    if patterns == [] {
    } else {
      IdsOfCount(patterns[..|patterns| - 1], w, id);
    }
  }

  /** An occurrence at the end of `s` is `s` itself or one at the end of `s[1..]`. */
  lemma {:induction false} OccursAtEnd(patterns: seq<seq<byte>>, s: seq<byte>, id: nat)
    requires s != [] && id < |patterns|
    ensures OccursAt(patterns, s, id, |s| - |patterns[id]|) <==>
            (patterns[id] == s || OccursAt(patterns, s[1..], id, |s| - 1 - |patterns[id]|))
    ensures OccursAt(patterns, s[1..], id, |s| - 1 - |patterns[id]|) ==> patterns[id] != s
  {
    var n := |patterns[id]|;
    if n == |s| {
      assert s[0..n] == s;
    } else if 0 < n < |s| {
      assert s[1..][|s| - 1 - n..|s| - 1] == s[|s| - n..|s|];
    }
  }

  lemma NoOccurrence(patterns: seq<seq<byte>>, id: nat, off: int)
    ensures !OccursAt(patterns, [], id, off)
    ensures forall text: seq<byte> :: OccursAt(patterns, text, id, off) ==> id < |patterns|
  {
  }

  lemma {:induction false} HitsCount(patterns: seq<seq<byte>>, s: seq<byte>, id: nat)
    ensures multiset(Hits(patterns, s))[id] ==
            if id < |patterns| && OccursAt(patterns, s, id, |s| - |patterns[id]|) then 1 else 0
    decreases |s|
  {
    hide IdsOf, OccursAt;
    NoOccurrence(patterns, id, |s| - (if id < |patterns| then |patterns[id]| else 0));
    if s == [] {
    } else {
      var a: seq<int>, b: seq<int> := IdsOf(patterns, s), Hits(patterns, s[1..]);
      assert multiset(a + b)[id] == multiset(a)[id] + multiset(b)[id];
      IdsOfCount(patterns, s, id);
      HitsCount(patterns, s[1..], id);
      if id < |patterns| {
        OccursAtEnd(patterns, s, id);
      }
    }
  }

  lemma {:induction false} HitsAtCount(patterns: seq<seq<byte>>, ids: seq<nat>, end: nat, id: nat, off: int)
    requires forall k :: 0 <= k < |ids| ==> ids[k] < |patterns|
    ensures multiset(HitsAt(patterns, ids, end))[Hit(id, off)] ==
            if id < |patterns| && off == end - |patterns[id]| then multiset(ids)[id] else 0
  {
    if ids == [] {
    } else {
      var n := |ids| - 1;
      var front := ids[..n];
      assert ids == front + [ids[n]];
      HitsAtCount(patterns, front, end, id, off);
      assert HitsAt(patterns, ids, end)
          == HitsAt(patterns, front, end) + [Hit(ids[n], end - |patterns[ids[n]]|)];
    }
  }

  /** An occurrence in `text` ends at its last byte or lies in the text before it. */
  lemma OccursSplit(patterns: seq<seq<byte>>, text: seq<byte>, id: nat, off: int)
    requires text != [] && id < |patterns|
    ensures OccursAt(patterns, text, id, off) <==>
            (OccursAt(patterns, text[..|text| - 1], id, off)
             || (off == |text| - |patterns[id]| && OccursAt(patterns, text, id, off)))
    ensures OccursAt(patterns, text[..|text| - 1], id, off) ==> off != |text| - |patterns[id]|
  {
    var n := |text| - 1;
    var t := text[..n];
    if 0 <= off <= n - |patterns[id]| {
      assert t[off..off + |patterns[id]|] == text[off..off + |patterns[id]|];
    }
  }

  /** The naive search reports each occurrence of each non-empty pattern exactly once,
      and nothing else. */
  lemma {:induction false} ReportsExact(patterns: seq<seq<byte>>, text: seq<byte>, id: nat, off: int)
    ensures multiset(Reports(patterns, text))[Hit(id, off)] ==
            if OccursAt(patterns, text, id, off) then 1 else 0
    decreases |text|
  {
    hide IdsOf, OccursAt, Hits, HitsAt;
    NoOccurrence(patterns, id, off);
    if text == [] {
    } else {
      var t := text[..|text| - 1];
      ReportsExact(patterns, t, id, off);
      HitsValid(patterns, text);
      var a, b := Reports(patterns, t), HitsAt(patterns, Hits(patterns, text), |text|);
      assert multiset(a + b)[Hit(id, off)] == multiset(a)[Hit(id, off)] + multiset(b)[Hit(id, off)];
      HitsCount(patterns, text, id);
      HitsAtCount(patterns, Hits(patterns, text), |text|, id, off);
      if id < |patterns| {
        OccursSplit(patterns, text, id, off);
      }
    }
  }

  // ---------------------------------------------------------------------
  // Breadth-first order.
  // ---------------------------------------------------------------------

  ghost predicate ParentIn(word: seq<seq<byte>>, x: nat, done: set<nat>)
    requires x < |word| && word[x] != []
  {
    exists y :: y in done && y < |word| && word[y] == Front(word[x])
  }

  /** `done` were popped, `q` is the queue: depths in `q` never decrease and span at most
      two levels; a node is known iff it is a child of the root or of a popped node. */
  ghost predicate Bfs(word: seq<seq<byte>>, done: set<nat>, q: seq<nat>) {
    && Words(word)
    && (forall x :: x in done ==> 0 < x < |word|)
    && (forall i :: 0 <= i < |q| ==> 0 < q[i] < |word| && q[i] !in done)
    && (forall i, j :: 0 <= i < j < |q| ==> q[i] != q[j])
    && (forall i, j :: 0 <= i < j < |q| ==> |word[q[i]]| <= |word[q[j]]| <= |word[q[i]]| + 1)
    && (forall x :: 0 < x < |word| ==> ((x in done || x in q) <==> (|word[x]| == 1 || ParentIn(word, x, done))))
  }

  /** Every node no deeper than the head of the queue is already known. */
  lemma {:induction false} KnownByDepth(word: seq<seq<byte>>, done: set<nat>, q: seq<nat>, x: nat)
    requires Bfs(word, done, q) && 0 < x < |word|
    requires q == [] || |word[x]| <= |word[q[0]]|
    ensures x in done || x in q
    decreases |word[x]|
  {
    if |word[x]| != 1 {
      var y :| 0 <= y < |word| && word[y] == Front(word[x]);
      KnownByDepth(word, done, q, y);
      assert y in done;
      assert ParentIn(word, x, done);
    }
  }

  ghost function SetOf(q: seq<nat>): (r: set<nat>) {
    set x | x in q
  }

  ghost function Below(n: nat): (r: set<nat>) {
    SetOf(seq(n, k => k))
  }

  lemma InBelow(n: nat, x: nat)
    requires x < n
    ensures x in Below(n)
  {
    assert seq(n, k => k)[x] == x;
  }

  lemma SetOfPush(q: seq<nat>, v: nat)
    ensures SetOf(q + [v]) == SetOf(q) + {v}
  {
  }

  lemma SetOfHead(q: seq<nat>)
    requires q != []
    ensures SetOf(q) == {q[0]} + SetOf(q[1..])
  {
  }

  ghost function Targets(next: seq<Edge>): (r: seq<nat>) {
    seq(|next|, k requires 0 <= k < |next| => next[k].to)
  }

  /** `known` holds node ids only, and all nodes no deeper than `u`. */
  ghost predicate KnownCovers(word: seq<seq<byte>>, known: set<nat>, u: nat) {
    && u < |word|
    && (forall x :: x in known ==> 0 < x < |word|)
    && (forall x :: 0 < x < |word| && |word[x]| <= |word[u]| ==> x in known)
  }

  lemma HeadKnown(word: seq<seq<byte>>, done: set<nat>, q: seq<nat>)
    requires q != [] && Bfs(word, done, q)
    ensures 0 < q[0] < |word| && q[0] !in done && KnownCovers(word, done + SetOf(q), q[0])
  {
    forall x | 0 < x < |word| && |word[x]| <= |word[q[0]]|
      ensures x in done + SetOf(q)
    {
      KnownByDepth(word, done, q, x);
    }
  }

  lemma TargetsPush(next: seq<Edge>, k: nat)
    requires k <= |next|
    ensures k == 0 ==> Targets(next[..0]) == []
    ensures k < |next| ==> Targets(next[..k + 1]) == Targets(next[..k]) + [next[k].to]
  {
  }

  lemma BfsStart(word: seq<seq<byte>>, next: seq<Edge>)
    requires Words(word) && EdgesOk(next, 0, word)
    ensures Bfs(word, {}, Targets(next))
  {
    var q := Targets(next);
    forall i, j | 0 <= i < j < |q|
      ensures q[i] != q[j] && |word[q[i]]| == |word[q[j]]| == 1
    {
      assert next[i].b < next[j].b;
      assert word[q[i]] == [next[i].b] && word[q[j]] == [next[j].b];
    }
    forall x | 0 < x < |word|
      ensures x in q <==> |word[x]| == 1
    {
      FirstLevel(word, next, x);
    }
    hide EdgesOk, Words;
  }

  lemma FirstLevel(word: seq<seq<byte>>, next: seq<Edge>, x: nat)
    requires Words(word) && EdgesOk(next, 0, word) && 0 < x < |word|
    ensures x in Targets(next) <==> |word[x]| == 1
  {
    var q := Targets(next);
    if |word[x]| == 1 {
      assert Front(word[x]) == word[0];
      var k := EdgeTo(next, 0, word, x);
      assert q[k] == x;
    }
    if x in q {
      var k :| 0 <= k < |q| && q[k] == x;
      EdgeAt(next, 0, word, k);
    }
  }

  lemma ChildrenUnknown(word: seq<seq<byte>>, next: seq<Edge>, done: set<nat>, q: seq<nat>)
    requires q != [] && Bfs(word, done, q) && EdgesOk(next, q[0], word)
    ensures forall k :: 0 <= k < |next| ==> next[k].to !in done && next[k].to !in q
  {
    forall k | 0 <= k < |next|
      ensures next[k].to !in done && next[k].to !in q
    {
      var v := next[k].to;
      assert Front(word[v]) == word[q[0]];
      assert forall y :: y in done && word[y] == word[q[0]] ==> y == q[0];
      assert !ParentIn(word, v, done);
      assert |word[v]| != 1;
    }
  }

  lemma BfsStepClosed(word: seq<seq<byte>>, next: seq<Edge>, done: set<nat>, q: seq<nat>, x: nat)
    requires q != [] && Bfs(word, done, q) && EdgesOk(next, q[0], word) && 0 < x < |word|
    ensures (x in done + {q[0]} || x in q[1..] + Targets(next)) <==>
            (|word[x]| == 1 || ParentIn(word, x, done + {q[0]}))
  {
    var u := q[0];
    var ts := Targets(next);
    assert x in q <==> x == u || x in q[1..];
    if Front(word[x]) == word[u] {
      var k :| 0 <= k < |next| && next[k].to == x;
      assert ts[k] == x;
      assert u in done + {u} && ParentIn(word, x, done + {u});
    } else {
      assert x !in ts;
      assert ParentIn(word, x, done + {u}) <==> ParentIn(word, x, done);
    }
  }

  lemma BfsStepOrder(word: seq<seq<byte>>, next: seq<Edge>, done: set<nat>, q: seq<nat>)
    requires q != [] && Bfs(word, done, q) && EdgesOk(next, q[0], word)
    ensures var q' := q[1..] + Targets(next);
            && (forall i :: 0 <= i < |q'| ==> 0 < q'[i] < |word| && q'[i] !in done + {q[0]})
            && (forall i, j :: 0 <= i < j < |q'| ==> q'[i] != q'[j])
            && (forall i, j :: 0 <= i < j < |q'| ==> |word[q'[i]]| <= |word[q'[j]]| <= |word[q'[i]]| + 1)
  {
    ChildrenUnknown(word, next, done, q);
    var q', n := q[1..] + Targets(next), |q| - 1;
    forall i | 0 <= i < |q'|
      ensures i < n ==> q'[i] == q[i + 1]
      ensures i >= n ==> q'[i] == next[i - n].to && word[q'[i]] == word[q[0]] + [next[i - n].b]
    {
    }
    forall i, j | 0 <= i < j < |q'|
      ensures q'[i] != q'[j] && |word[q'[i]]| <= |word[q'[j]]| <= |word[q'[i]]| + 1
    {
      if i < n <= j {
        assert q'[i] == q[i + 1] && q'[i] in q;
      } else if n <= i {
        assert next[i - n].b < next[j - n].b;
        assert word[q'[i]][|word[q[0]]|] != word[q'[j]][|word[q[0]]|];
      }
    }
  }

  lemma BfsStep(word: seq<seq<byte>>, next: seq<Edge>, done: set<nat>, q: seq<nat>)
    requires q != [] && Bfs(word, done, q) && EdgesOk(next, q[0], word)
    ensures Bfs(word, done + {q[0]}, q[1..] + Targets(next))
  {
    BfsStepOrder(word, next, done, q);
    forall x | 0 < x < |word|
      ensures (x in done + {q[0]} || x in q[1..] + Targets(next)) <==>
              (|word[x]| == 1 || ParentIn(word, x, done + {q[0]}))
    {
      BfsStepClosed(word, next, done, q, x);
    }
  }

  // ---------------------------------------------------------------------
  // Failure links of the nodes known so far.
  // ---------------------------------------------------------------------

  /** Links of all nodes in `known` are right, and refer only to known nodes or the root. */
  ghost predicate KnownOk(nodes: seq<Node>, word: seq<seq<byte>>, known: set<nat>)
    requires |nodes| == |word|
  {
    && RootClean(nodes)
    && forall x :: x in known ==> FailOk(nodes, word, x) && (nodes[x].fail == 0 || nodes[x].fail in known)
  }

  /** Same trie and outputs; only links differ. */
  ghost predicate SameTrie(full: seq<Node>, nodes: seq<Node>) {
    && |full| == |nodes|
    && forall x :: 0 <= x < |nodes| ==>
         nodes[x].next == full[x].next && nodes[x].selfOut == full[x].selfOut && nodes[x].depth == full[x].depth
  }

  lemma NothingKnown(nodes: seq<Node>, word: seq<seq<byte>>)
    requires |nodes| == |word| && RootClean(nodes)
    ensures KnownOk(nodes, word, {}) && SetOf([]) == {} && Targets([]) == []
  {
  }

  lemma KnownAt(nodes: seq<Node>, word: seq<seq<byte>>, known: set<nat>, x: nat)
    requires |nodes| == |word| && KnownOk(nodes, word, known) && x in known
    ensures 0 < x < |word| && word[x] != [] && nodes[x].fail < |word|
    ensures word[nodes[x].fail] == LongestSuffix(word, word[x][1..])
    ensures nodes[x].fail == 0 || nodes[x].fail in known
  {
    assert FailOk(nodes, word, x);
  }

  lemma ExtendedIn(word: seq<seq<byte>>, w: seq<byte>, n: nat)
    requires n < |word| && word[n] == w
    ensures LongestSuffix(word, w) == w
  {
  }

  lemma RootFallBack(word: seq<seq<byte>>, c: byte)
    requires Words(word) && word[0] + [c] !in word
    ensures LongestSuffix(word, word[0] + [c]) == [] && word[0] == []
  {
    assert (word[0] + [c])[1..] == [];
  }

  lemma LinkedOne(before: seq<Node>, nodes: seq<Node>, word: seq<seq<byte>>, known: set<nat>, v: nat)
    requires |before| == |nodes| == |word| && v !in known && 0 < v < |word| && word[v] != []
    requires KnownOk(before, word, known)
    requires forall x :: 0 <= x < |nodes| && x != v ==> nodes[x] == before[x]
    requires nodes[v].selfOut == before[v].selfOut
    requires nodes[v].fail == 0 || nodes[v].fail in known
    requires nodes[v].fail < |word| && word[nodes[v].fail] == LongestSuffix(word, word[v][1..])
    requires nodes[v].outLink == (if before[nodes[v].fail].selfOut == [] then before[nodes[v].fail].outLink
                                  else nodes[v].fail)
    ensures KnownOk(nodes, word, known + {v})
  {
    forall x | x in known + {v}
      ensures FailOk(nodes, word, x) && (nodes[x].fail == 0 || nodes[x].fail in known + {v})
    {
      if x != v {
        assert FailOk(before, word, x);
      }
    }
  }

  lemma RootChildLinked(before: seq<Node>, nodes: seq<Node>, word: seq<seq<byte>>, q: seq<nat>, n: nat)
    requires Words(word) && |before| == |nodes| == |word| && 0 < n < |word| && |word[n]| == 1
    requires KnownOk(before, word, SetOf(q))
    requires nodes == before[n := before[n].(fail := 0, outLink := NO_OUT)]
    ensures KnownOk(nodes, word, SetOf(q + [n]))
  {
    var known := SetOf(q);
    assert SetOf(q + [n]) == known + {n};
    assert word[n][1..] == word[0];
    if n in known {
      assert FailOk(before, word, n);
      assert nodes == before;
    } else {
      LinkedOne(before, nodes, word, known, n);
    }
  }

  /** `nodes` is the trie `full` with node `u`'s child list taken out. */
  ghost predicate Taken(full: seq<Node>, nodes: seq<Node>, u: nat) {
    && u < |nodes| == |full|
    && nodes[u].next == []
    && forall x :: 0 <= x < |nodes| ==>
         (x != u ==> nodes[x].next == full[x].next) &&
         nodes[x].selfOut == full[x].selfOut && nodes[x].depth == full[x].depth
  }

  /** The nodes probed for a child of `u`: the fail chain of `u`, which never comes to `u` itself and meets only
      nodes whose children are in place. */
  ghost predicate Probes(full: seq<Node>, nodes: seq<Node>, u: nat, probed: seq<nat>) {
    && |full| == |nodes| && u < |nodes| && probed != [] && probed[0] == nodes[u].fail
    && (forall k :: 0 <= k < |probed| ==> Intact(full, nodes, u, probed[k]))
    && (forall j, k :: 0 <= j < k < |probed| && k == j + 1 ==> probed[k] == nodes[probed[j]].fail)
  }

  ghost predicate Intact(full: seq<Node>, nodes: seq<Node>, u: nat, x: nat) {
    x != u && x < |nodes| == |full| && nodes[x].next == full[x].next
  }

  lemma ProbesFirst(full: seq<Node>, nodes: seq<Node>, u: nat, f: nat)
    requires Taken(full, nodes, u) && f == nodes[u].fail && f < |nodes| && f != u
    ensures Probes(full, nodes, u, [f]) && At([f], f)
  {
  }

  lemma ProbesNext(full: seq<Node>, nodes: seq<Node>, u: nat, probed: seq<nat>, f: nat)
    requires Taken(full, nodes, u) && Probes(full, nodes, u, probed)
    requires exists g: nat :: At(probed, g) && g < |nodes| && f == nodes[g].fail
    requires f < |nodes| && f != u
    ensures Probes(full, nodes, u, probed + [f]) && At(probed + [f], f)
  {
  }

  ghost predicate At(probed: seq<nat>, f: nat) {
    probed != [] && probed[|probed| - 1] == f
  }

  lemma ProbesNot(full: seq<Node>, nodes: seq<Node>, u: nat, probed: seq<nat>)
    requires Probes(full, nodes, u, probed)
    ensures u !in probed
  {
  }

  /** Swapping one child list in or out touches no link. */
  lemma NextIrrelevant(prev: seq<Node>, nodes: seq<Node>, word: seq<seq<byte>>, u: nat, next: seq<Edge>,
                       known: set<nat>)
    requires |nodes| == |word| == |prev| && u < |nodes|
    requires KnownOk(prev, word, known) && nodes == prev[u := prev[u].(next := next)]
    ensures KnownOk(nodes, word, known)
  {
    forall x | x in known
      ensures FailOk(nodes, word, x) && (nodes[x].fail == 0 || nodes[x].fail in known)
    {
      assert FailOk(prev, word, x);
    }
  }

  lemma ChildStillUnknown(word: seq<seq<byte>>, next: seq<Edge>, done: set<nat>, q: seq<nat>, k: nat)
    requires q != [] && Bfs(word, done, q) && EdgesOk(next, q[0], word) && k < |next|
    ensures next[k].to !in done + {q[0]} + SetOf(q[1..] + Targets(next[..k]))
  {
    BfsStepOrder(word, next, done, q);
    hide Words, EdgesOk, Bfs;
    var q', n := q[1..] + Targets(next), |q| - 1 + k;
    assert q'[n] == next[k].to;
    assert q'[..n] == q[1..] + Targets(next[..k]);
    assert forall x :: x in SetOf(q'[..n]) ==> exists i :: 0 <= i < n && q'[i] == x;
  }

  lemma ShapeEdges(nodes: seq<Node>, word: seq<seq<byte>>, u: nat)
    requires Shape(nodes, word) && u < |nodes|
    ensures |nodes| == |word| && Words(word) && EdgesOk(nodes[u].next, u, word)
  {
  }

  lemma GrowWords(word: seq<seq<byte>>, cur: nat, b: byte)
    requires Words(word) && cur < |word| && word[cur] + [b] !in word
    ensures Words(word + [word[cur] + [b]])
  {
    var w := word[cur] + [b];
    var word' := word + [w];
    assert Front(w) == word[cur];
    forall u | 0 < u < |word'|
      ensures word'[u] != [] && Front(word'[u]) in word'
    {
      var y :| 0 <= y < |word| && word[y] == (if u < |word| then Front(word[u]) else word[cur]);
      assert word'[y] == word[y];
    }
  }

  lemma GrowEdges(next: seq<Edge>, word: seq<seq<byte>>, u: nat, cur: nat, b: byte)
    requires Words(word) && cur < |word| && u < |word| && u != cur && EdgesOk(next, u, word)
    ensures EdgesOk(next, u, word + [word[cur] + [b]])
  {
    var w := word[cur] + [b];
    assert Front(w) == word[cur] != word[u];
  }

  lemma GrowLeaf(word: seq<seq<byte>>, cur: nat, b: byte)
    requires Words(word) && cur < |word| && word[cur] + [b] !in word
    ensures EdgesOk([], |word|, word + [word[cur] + [b]])
  {
    var w := word[cur] + [b];
    var word' := word + [w];
    forall v | 0 < v < |word'|
      ensures Front(word'[v]) != w
    {
      if v < |word| {
        PrefixIn(word, word[v]);
      }
    }
  }

  /** The vector with a new leaf under `cur` for byte `b`, its edge spliced in at the
      sorted position. */
  ghost function Grown(before: seq<Node>, cur: nat, b: byte): (nodes: seq<Node>)
    requires cur < |before|
    ensures |nodes| == |before| + 1
  {
    var nx := before[cur].next;
    var edge := Edge(b, |before|);
    (before + [Node([], 0, [], NO_OUT, before[cur].depth + 1)])
      [cur := before[cur].(next := Splice(nx, PartitionPoint(nx, b), edge))]
  }

  lemma GrownAt(before: seq<Node>, cur: nat, b: byte, u: nat)
    requires cur < |before| && u <= |before|
    ensures var n := Grown(before, cur, b)[u];
            && n.depth == (if u == |before| then before[cur].depth + 1 else before[u].depth)
            && n.next == (if u == |before| then []
                          else if u == cur then
                            Splice(before[u].next, PartitionPoint(before[u].next, b), Edge(b, |before|))
                          else before[u].next)
  {
  }

  lemma GrownEdges(before: seq<Node>, word: seq<seq<byte>>, cur: nat, b: byte, u: nat)
    requires Shape(before, word) && cur < |before| && word[cur] + [b] !in word && u <= |before|
    ensures |before| == |word| && EdgesOk(Grown(before, cur, b)[u].next, u, word + [word[cur] + [b]])
  {
    hide Words, EdgesOk, Shape, Splice, Grown;
    ShapeEdges(before, word, cur);
    GrownAt(before, cur, b, u);
    if u == |before| {
      GrowLeaf(word, cur, b);
    } else if u == cur {
      SpliceEdges(before[u].next, word, cur, b);
    } else {
      ShapeEdges(before, word, u);
      GrowEdges(before[u].next, word, u, cur, b);
    }
  }

  lemma GrowShape(before: seq<Node>, word: seq<seq<byte>>, cur: nat, b: byte)
    requires Shape(before, word) && cur < |before| && word[cur] + [b] !in word
    ensures Shape(Grown(before, cur, b), word + [word[cur] + [b]])
  {
    hide Words, EdgesOk, Splice, Grown;
    ShapeEdges(before, word, cur);
    GrowWords(word, cur, b);
    forall u | 0 <= u <= |before|
      ensures Grown(before, cur, b)[u].depth == |(word + [word[cur] + [b]])[u]|
      ensures EdgesOk(Grown(before, cur, b)[u].next, u, word + [word[cur] + [b]])
    {
      GrownAt(before, cur, b, u);
      GrownEdges(before, word, cur, b, u);
    }
  }

  ghost function Splice(nx: seq<Edge>, pos: nat, e: Edge): (r: seq<Edge>)
    requires pos <= |nx|
    ensures |r| == |nx| + 1
  {
    nx[..pos] + [e] + nx[pos..]
  }

  lemma SpliceAt(nx: seq<Edge>, pos: nat, e: Edge, k: nat)
    requires pos <= |nx| && k <= |nx|
    ensures Splice(nx, pos, e)[k] == if k < pos then nx[k] else if k == pos then e else nx[k - 1]
  {
  }

  lemma SpliceSorted(nx: seq<Edge>, e: Edge)
    requires SortedEdges(nx)
    requires var pos := PartitionPoint(nx, e.b); pos < |nx| ==> nx[pos].b != e.b
    ensures SortedEdges(Splice(nx, PartitionPoint(nx, e.b), e))
  {
    hide Splice, PartitionPoint;
    var pos := PartitionPoint(nx, e.b);
    assert forall k :: pos <= k < |nx| ==> e.b < nx[k].b;
    var nx' := Splice(nx, pos, e);
    forall i, j | 0 <= i < j < |nx'|
      ensures nx'[i].b < nx'[j].b
    {
      SpliceAt(nx, pos, e, i);
      SpliceAt(nx, pos, e, j);
    }
  }

  lemma SpliceEdges(nx: seq<Edge>, word: seq<seq<byte>>, cur: nat, b: byte)
    requires Words(word) && cur < |word| && EdgesOk(nx, cur, word) && word[cur] + [b] !in word
    ensures EdgesOk(Splice(nx, PartitionPoint(nx, b), Edge(b, |word|)), cur, word + [word[cur] + [b]])
  {
    var pos := PartitionPoint(nx, b);
    var e := Edge(b, |word|);
    var nx' := Splice(nx, pos, e);
    var word' := word + [word[cur] + [b]];
    if pos < |nx| {
      assert word[nx[pos].to] in word;
    }
    SpliceSorted(nx, e);
    forall k | 0 <= k < |nx'|
      ensures 0 < nx'[k].to < |word'| && word'[nx'[k].to] == word'[cur] + [nx'[k].b]
    {
      assert nx'[k] == if k < pos then nx[k] else if k == pos then e else nx[k - 1];
    }
    SplicedTargets(nx, nx', pos, |word|, b);
    forall v | 0 < v < |word'| && word'[v] != [] && Front(word'[v]) == word'[cur]
      ensures HasEdgeTo(nx', v)
    {
      if v < |word| {
        assert HasEdgeTo(nx, v);
      }
    }
  }

  lemma SplicedTargets(nx: seq<Edge>, nx': seq<Edge>, pos: nat, n: nat, b: byte)
    requires pos <= |nx| && nx' == Splice(nx, pos, Edge(b, n))
    ensures HasEdgeTo(nx', n)
    ensures forall v :: HasEdgeTo(nx, v) ==> HasEdgeTo(nx', v)
  {
    assert nx'[pos].to == n;
    forall v | HasEdgeTo(nx, v)
      ensures HasEdgeTo(nx', v)
    {
      var k :| 0 <= k < |nx| && nx[k].to == v;
      assert nx'[if k < pos then k else k + 1].to == v;
    }
  }

  lemma WordsRoot(nodes: seq<Node>, word: seq<seq<byte>>)
    requires Shape(nodes, word)
    ensures |word| >= 1 && word[0] == []
  {
  }

  lemma ShapeKept(before: seq<Node>, nodes: seq<Node>, word: seq<seq<byte>>)
    requires Shape(before, word) && |nodes| == |before|
    requires forall u :: 0 <= u < |nodes| ==> nodes[u].next == before[u].next && nodes[u].depth == before[u].depth
    ensures Shape(nodes, word)
  {
    forall u | 0 <= u < |nodes|
      ensures EdgesOk(nodes[u].next, u, word)
    {
      assert EdgesOk(before[u].next, u, word);
    }
  }

  /** New nodes carry no output and spell words that were not in the trie. */
  ghost predicate SpelledOnly(before: seq<Node>, word0: seq<seq<byte>>, nodes: seq<Node>, word: seq<seq<byte>>) {
    && |before| <= |nodes| == |word|
    && (forall u :: 0 <= u < |before| ==> nodes[u].selfOut == before[u].selfOut)
    && (forall u :: |before| <= u < |nodes| ==> nodes[u].selfOut == [] && word[u] !in word0)
  }

  lemma SpelledStep(before: seq<Node>, word0: seq<seq<byte>>, nodes1: seq<Node>, word1: seq<seq<byte>>,
                    nodes: seq<Node>, word: seq<seq<byte>>)
    requires SpelledOnly(before, word0, nodes1, word1) && SpelledOnly(nodes1, word1, nodes, word)
    requires word0 <= word1 <= word
    ensures SpelledOnly(before, word0, nodes, word)
  {
    assert forall w :: w in word0 ==> w in word1;
  }

  lemma InsertedOut(before: seq<Node>, nodes: seq<Node>, word0: seq<seq<byte>>, word: seq<seq<byte>>,
                    patterns: seq<seq<byte>>, p: seq<byte>, cur: nat)
    requires Words(word) && OutOk(before, word0, patterns) && word0 <= word && |nodes| == |word|
    requires p != [] && 0 < cur < |nodes| && word[cur] == p
    requires forall u :: 0 <= u < |nodes| ==>
               nodes[u].selfOut == (if u < |before| then before[u].selfOut else []) +
                                   (if u == cur then [|patterns|] else [])
    requires forall u :: |before| <= u < |nodes| ==> word[u] !in word0
    ensures OutOk(nodes, word, patterns + [p])
  {
    var all := patterns + [p];
    assert all[..|all| - 1] == patterns;
    forall u | 0 < u < |nodes|
      ensures nodes[u].selfOut == IdsOf(all, word[u])
    {
      if u >= |before| {
        assert forall k :: 0 <= k < |patterns| && patterns[k] != [] ==> patterns[k] in word0;
        IdsOfEmpty(patterns, word[u]);
      }
    }
    forall k | 0 <= k < |all| && all[k] != []
      ensures all[k] in word
    {
      if k < |patterns| {
        assert patterns[k] in word0;
      }
    }
  }

  lemma InsertedEmpty(nodes: seq<Node>, word: seq<seq<byte>>, patterns: seq<seq<byte>>)
    requires Words(word) && OutOk(nodes, word, patterns)
    ensures OutOk(nodes, word, patterns + [[]])
  {
    var all := patterns + [[]];
    assert all[..|all| - 1] == patterns;
  }

  lemma {:induction false} NoHits(s: seq<byte>)
    ensures Hits([], s) == []
    decreases |s|
  {
    if s == [] {
    } else {
      NoHits(s[1..]);
    }
  }

  lemma {:induction false} NoReports(text: seq<byte>)
    ensures Reports([], text) == []
  {
    if text == [] {
    } else {
      NoReports(text[..|text| - 1]);
      NoHits(text);
    }
  }

  lemma ReportsNone(patterns: seq<seq<byte>>)
    ensures Reports(patterns, []) == []
  {
  }

  lemma LongestSuffixNone(word: seq<seq<byte>>)
    ensures LongestSuffix(word, []) == []
  {
  }

  lemma ReportsPush(patterns: seq<seq<byte>>, text: seq<byte>, i: nat)
    requires i < |text|
    ensures var ids := Hits(patterns, text[..i + 1]);
            (forall k :: 0 <= k < |ids| ==> ids[k] < |patterns|) &&
            Reports(patterns, text[..i + 1]) == Reports(patterns, text[..i]) + HitsAt(patterns, ids, i + 1)
  {
    HitsValid(patterns, text[..i + 1]);
    assert text[..i + 1][..i] == text[..i];
  }

  lemma HitsAtNone(patterns: seq<seq<byte>>, end: nat)
    ensures HitsAt(patterns, [], end) == []
  {
  }

  lemma HitsAtConcat(patterns: seq<seq<byte>>, a: seq<nat>, b: seq<nat>, end: nat)
    requires forall k :: 0 <= k < |a + b| ==> (a + b)[k] < |patterns|
    ensures forall k :: 0 <= k < |a| ==> a[k] < |patterns|
    ensures forall k :: 0 <= k < |b| ==> b[k] < |patterns|
    ensures HitsAt(patterns, a + b, end) == HitsAt(patterns, a, end) + HitsAt(patterns, b, end)
  {
    assert forall k :: 0 <= k < |a| ==> (a + b)[k] == a[k];
    assert forall k :: 0 <= k < |b| ==> (a + b)[|a| + k] == b[k];
  }

  /** The state inside `build`'s inner loop: node `q0[0]` is taken out, its first `k`
      children are linked and queued. */
  ghost predicate Linking(full: seq<Node>, nodes: seq<Node>, word: seq<seq<byte>>, done: set<nat>, q0: seq<nat>,
                          children: seq<Edge>, k: nat, q: seq<nat>)
  {
    && q0 != [] && q0[0] < |full| == |word| && children == full[q0[0]].next && k <= |children|
    && q0[0] !in done && Bfs(word, done, q0)
    && Taken(full, nodes, q0[0])
    && q == q0[1..] + Targets(children[..k])
    && KnownOk(nodes, word, done + {q0[0]} + SetOf(q))
    && KnownCovers(word, done + {q0[0]} + SetOf(q), q0[0])
  }

  /** When the queue is empty every node has been linked. */
  lemma AllLinked(full: seq<Node>, nodes: seq<Node>, word: seq<seq<byte>>, patterns: seq<seq<byte>>,
                  done: set<nat>, q: seq<nat>)
    requires q == [] && Bfs(word, done, q) && |nodes| == |word| && KnownOk(nodes, word, done + SetOf(q))
    requires SameTrie(full, nodes) && Shape(full, word) && OutOk(full, word, patterns)
    ensures Shape(nodes, word) && OutOk(nodes, word, patterns) && RootClean(nodes) && Linked(nodes, word)
  {
    forall v | 0 < v < |word|
      ensures FailOk(nodes, word, v)
    {
      KnownByDepth(word, done, q, v);
    }
    ShapeKept(full, nodes, word);
  }

  class AhoCorasick {
    var nodes: seq<Node>
    var patterns: seq<seq<byte>>
    ghost var word: seq<seq<byte>>

    /** The trie holds exactly the inserted patterns; links may be stale. */
    ghost predicate Valid()
      reads this
    {
      && |nodes| == |word| >= 1 && word[0] == []
      && Words(word) && Shape(nodes, word)
      && OutOk(nodes, word, patterns)
      && RootClean(nodes)
      && |nodes| <= NO_OUT
    }

    /** `build` has run since the last insert. */
    ghost predicate Built()
      reads this
    {
      Valid() && Linked(nodes, word)
    }

    constructor ()
      ensures Built() && patterns == [] && |nodes| == 1
    {
      nodes := [Node([], 0, [], NO_OUT, 0)];
      patterns := [];
      word := [[]];
    }

    /** The child of `cur` for byte `b`, created if absent (the body of `insert`'s loop). */
    method Descend(cur: nat, b: byte) returns (n: nat)
      requires Shape(nodes, word) && RootClean(nodes) && cur < |nodes| < NO_OUT
      modifies this`nodes, this`word
      ensures Shape(nodes, word) && RootClean(nodes)
      ensures |old(nodes)| <= |nodes| <= |old(nodes)| + 1
      ensures old(word) <= word && n < |nodes| == |word| && n != 0 && word[n] == old(word[cur]) + [b]
      ensures SpelledOnly(old(nodes), old(word), nodes, word)
    {
      hide Words, EdgesOk, Shape;
      ShapeEdges(nodes, word, cur);
      ChildOfSpec(nodes, word, cur, b);
      var pos := PartitionPoint(nodes[cur].next, b);
      if pos < |nodes[cur].next| && nodes[cur].next[pos].b == b {
        n := nodes[cur].next[pos].to;
      } else {
        n := NewChild(cur, b, pos);
      }
    }

    method NewChild(cur: nat, b: byte, pos: nat) returns (n: nat)
      requires Shape(nodes, word) && RootClean(nodes) && cur < |nodes| == |word|
      requires pos == PartitionPoint(nodes[cur].next, b) && word[cur] + [b] !in word
      modifies this`nodes, this`word
      ensures Shape(nodes, word) && RootClean(nodes)
      ensures word == old(word) + [old(word[cur]) + [b]] && n == |old(nodes)| && |nodes| == |word|
      ensures n != 0 && SpelledOnly(old(nodes), old(word), nodes, word)
    {
      hide Words, EdgesOk, Shape;
      var depth := nodes[cur].depth + 1;
      n := |nodes|;
      ghost var before := nodes;
      nodes := nodes + [Node([], 0, [], NO_OUT, depth)];
      nodes := nodes[cur := nodes[cur].(next := nodes[cur].next[..pos] + [Edge(b, n)] + nodes[cur].next[pos..])];
      GrowShape(before, word, cur, b);
      assert nodes == Grown(before, cur, b);
      word := word + [word[cur] + [b]];
    }

    /** Spells `p` in the trie, creating missing nodes (`insert`'s loop). */
    method Spell(p: seq<byte>) returns (cur: nat)
      requires |nodes| == |word| && Shape(nodes, word) && RootClean(nodes) && |nodes| + |p| <= NO_OUT
      modifies this`nodes, this`word
      ensures |nodes| == |word| && Shape(nodes, word) && RootClean(nodes)
      ensures |old(nodes)| <= |nodes| <= |old(nodes)| + |p|
      ensures old(word) <= word && cur < |nodes| && word[cur] == p
      ensures SpelledOnly(old(nodes), old(word), nodes, word)
    {
      hide EdgesOk, Shape, Words, RootClean;
      WordsRoot(nodes, word);
      cur := 0;
      var i := 0;
      assert SpelledOnly(old(nodes), old(word), nodes, word);
      while i < |p|
        invariant 0 <= i <= |p|
        invariant |nodes| == |word| && Shape(nodes, word) && RootClean(nodes)
        invariant |old(nodes)| <= |nodes| <= |old(nodes)| + i
        invariant old(word) <= word && cur < |nodes| && word[cur] == p[..i]
        invariant SpelledOnly(old(nodes), old(word), nodes, word)
      {
        assert p[..i + 1] == p[..i] + [p[i]];
        ghost var nodes1, word1 := nodes, word;
        cur := Descend(cur, p[i]);
        SpelledStep(old(nodes), old(word), nodes1, word1, nodes, word);
        i := i + 1;
      }
      assert p[..|p|] == p;
    }

    /** Adds a pattern; an empty one takes an id but never enters the trie. */
    method Insert(p: seq<byte>) returns (id: nat)
      requires Valid() && |nodes| + |p| <= NO_OUT
      modifies this
      ensures Valid()
      ensures patterns == old(patterns) + [p] && id == |old(patterns)|
      ensures |nodes| <= |old(nodes)| + |p|
    {
      id := |patterns|;
      patterns := patterns + [p];
      if p == [] {
        InsertedEmpty(nodes, word, old(patterns));
        return;
      }
      var cur := Spell(p);
      ghost var nodes1 := nodes;
      nodes := nodes[cur := nodes[cur].(selfOut := nodes[cur].selfOut + [id])];
      ShapeKept(nodes1, nodes, word);
      InsertedOut(old(nodes), nodes, old(word), word, old(patterns), p, cur);
    }

    /** The failure walk for child `v` of `u` by byte `c`, while `u`'s own child list is
        taken out of the vector: no probe ever lands on `u`. */
    method FailWalk(u: nat, c: byte, v: nat, ghost full: seq<Node>, ghost known: set<nat>)
      returns (fail: nat, ghost probed: seq<nat>)
      requires |nodes| == |word| && Shape(full, word) && Taken(full, nodes, u) && KnownOk(nodes, word, known)
      requires u in known && v !in known && 0 < v < |word| && word[v] == word[u] + [c]
      requires forall x :: x in known ==> 0 < x < |word|
      ensures fail == 0 || 0 < fail < |word|
      ensures word[fail] == LongestSuffix(word, word[v][1..]) && |word[fail]| <= |word[u]|
      ensures Probes(full, nodes, u, probed) && u !in probed
    {
      hide Words, Shape, EdgesOk, KnownOk, FailOk, RootClean, LongestSuffix, Probes, At;
      KnownAt(nodes, word, known, u);
      ShapeEdges(full, word, u);
      var f := nodes[u].fail;
      probed := [f];
      assert word[v][1..] == word[u][1..] + [c];
      ExtendSuffix(word, word[u][1..], c);
      LongestSuffixIn(word, word[u][1..]);
      ProbesFirst(full, nodes, u, f);
      while true
        invariant f == 0 || f in known
        invariant f < |word| && |word[f]| < |word[u]|
        invariant LongestSuffix(word, word[v][1..]) == LongestSuffix(word, word[f] + [c])
        invariant Probes(full, nodes, u, probed) && At(probed, f)
        decreases |word[f]|
      {
        ShapeEdges(full, word, f);
        assert f != u;
        ChildOfSpec(nodes, word, f, c);
        match ChildOf(nodes, f, c) {
          case Some(n) =>
            ExtendedIn(word, word[f] + [c], n);
            assert |word[n]| == |word[f]| + 1 < |word[v]|;
            if n != v {
              ProbesNot(full, nodes, u, probed);
              return n, probed;
            }
          case None =>
        }
        if f == 0 {
          RootFallBack(word, c);
          ProbesNot(full, nodes, u, probed);
          return 0, probed;
        }
        KnownAt(nodes, word, known, f);
        FallBack(word, word[f], c);
        LongestSuffixIn(word, word[f][1..]);
        f := nodes[f].fail;
        assert |word[f]| < |word[u]|;
        ProbesNext(full, nodes, u, probed, f);
        probed := probed + [f];
      }
    }

    /** Sets both links of child `v` of `u`. */
    method LinkChild(u: nat, c: byte, v: nat, ghost full: seq<Node>, ghost known: set<nat>)
      requires |nodes| == |word| && Shape(full, word) && Taken(full, nodes, u) && KnownOk(nodes, word, known)
      requires u in known && v !in known && 0 < v < |word| && word[v] == word[u] + [c]
      requires KnownCovers(word, known, u)
      modifies this`nodes
      ensures Taken(full, nodes, u) && KnownOk(nodes, word, known + {v})
    {
      ghost var before := nodes;
      var fail, _ := FailWalk(u, c, v, full, known);
      nodes := nodes[v := nodes[v].(fail := fail)];
      var fl := nodes[v].fail;
      nodes := nodes[v := nodes[v].(outLink := if nodes[fl].selfOut == [] then nodes[fl].outLink else fl)];
      LinkedOne(before, nodes, word, known, v);
    }

    /** Links and enqueues the `k`-th child of the popped node `u`. */
    method LinkNext(u: nat, children: seq<Edge>, k: nat, q: seq<nat>,
                    ghost full: seq<Node>, ghost done: set<nat>, ghost q0: seq<nat>)
      returns (q': seq<nat>)
      requires Shape(full, word) && k < |children| && q0 != [] && u == q0[0]
      requires Linking(full, nodes, word, done, q0, children, k, q)
      modifies this`nodes
      ensures Linking(full, nodes, word, done, q0, children, k + 1, q')
    {
      hide Words, EdgesOk, KnownOk, Shape, Bfs, SetOf, Targets;
      ghost var known := done + {u} + SetOf(q);
      ShapeEdges(full, word, u);
      var c, v := children[k].b, children[k].to;
      EdgeAt(children, u, word, k);
      ChildStillUnknown(word, children, done, q0, k);
      LinkChild(u, c, v, full, known);
      TargetsPush(children, k);
      SetOfPush(q, v);
      q' := q + [v];
      assert known + {v} == done + {u} + SetOf(q');
    }

    /** Processes one popped node: takes its child list, links and enqueues each child,
        and puts the list back. */
    method LinkChildren(u: nat, q: seq<nat>, ghost full: seq<Node>, ghost done: set<nat>, ghost q0: seq<nat>)
      returns (q': seq<nat>)
      requires |nodes| == |word| && Shape(full, word) && SameTrie(full, nodes)
      requires q0 != [] && u == q0[0] && q == q0[1..] && Bfs(word, done, q0)
      requires KnownOk(nodes, word, done + SetOf(q0))
      modifies this`nodes
      ensures SameTrie(full, nodes)
      ensures q' == q + Targets(full[u].next)
      ensures KnownOk(nodes, word, done + {u} + SetOf(q'))
    {
      hide Words, EdgesOk, KnownOk, KnownCovers, Shape, Bfs, SetOf, Targets;
      ghost var before := nodes;
      HeadKnown(word, done, q0);
      ShapeEdges(full, word, u);
      SetOfHead(q0);
      var children := nodes[u].next;
      nodes := nodes[u := nodes[u].(next := [])];
      assert done + SetOf(q0) == done + {u} + SetOf(q);
      NextIrrelevant(before, nodes, word, u, [], done + SetOf(q0));
      q' := q;
      TargetsPush(children, 0);
      assert q + [] == q;
      assert Linking(full, nodes, word, done, q0, children, 0, q');
      var k := 0;
      while k < |children|
        invariant 0 <= k <= |children| && children == full[u].next
        invariant Linking(full, nodes, word, done, q0, children, k, q')
      {
        q' := LinkNext(u, children, k, q', full, done, q0);
        k := k + 1;
      }
      assert children[..k] == children;
      before := nodes;
      nodes := nodes[u := nodes[u].(next := children)];
      NextIrrelevant(before, nodes, word, u, children, done + {u} + SetOf(q'));
    }

    /** Queues the root's children with root links (`build`'s first loop). */
    method SeedQueue() returns (q: seq<nat>)
      requires Valid()
      modifies this`nodes
      ensures SameTrie(old(nodes), nodes)
      ensures q == Targets(old(nodes)[0].next)
      ensures KnownOk(nodes, word, SetOf(q))
    {
      hide Shape, OutOk, EdgesOk, KnownOk, FailOk;
      q := [];
      ShapeEdges(nodes, word, 0);
      NothingKnown(nodes, word);
      ghost var next := nodes[0].next;
      var i := 0;
      while i < |nodes[0].next|
        invariant |nodes| == |word| && SameTrie(old(nodes), nodes) && 0 <= i <= |next|
        invariant q == Targets(next[..i])
        invariant KnownOk(nodes, word, SetOf(q))
      {
        var n := nodes[0].next[i].to;
        ghost var before := nodes;
        EdgeAt(next, 0, word, i);
        assert |word[n]| == 1;
        nodes := nodes[n := nodes[n].(fail := 0)];
        nodes := nodes[n := nodes[n].(outLink := NO_OUT)];
        RootChildLinked(before, nodes, word, q, n);
        TargetsPush(next, i);
        q := q + [n];
        i := i + 1;
      }
      assert next[..i] == next;
    }

    /** Computes all failure and output links by a breadth-first walk. */
    method Build()
      requires Valid()
      modifies this`nodes
      ensures Built()
      ensures SameTrie(old(nodes), nodes)
    {
      var q := SeedQueue();
      ghost var full := old(nodes);
      assert EdgesOk(full[0].next, 0, word);
      BfsStart(word, full[0].next);
      ghost var done: set<nat> := {};
      assert {} + SetOf(q) == SetOf(q);
      hide Shape, OutOk, EdgesOk, Words, KnownOk, RootClean, Bfs, SetOf, Targets, SameTrie;
      while q != []
        invariant |nodes| == |full| && SameTrie(full, nodes)
        invariant Bfs(word, done, q)
        invariant KnownOk(nodes, word, done + SetOf(q))
        decreases Below(|word|) - done
      {
        var u := q[0];
        HeadKnown(word, done, q);
        ShapeEdges(full, word, u);
        BfsStep(word, full[u].next, done, q);
        q := LinkChildren(u, q[1..], full, done, q);
        done := done + {u};
        InBelow(|word|, u);
      }
      AllLinked(full, nodes, word, patterns, done, q);
    }

    /** The transition on one byte. The ghost result counts fail steps. */
    method Advance(cur: nat, b: byte) returns (n: nat, ghost steps: nat)
      requires Built() && cur < |nodes|
      ensures n < |nodes| && word[n] == LongestSuffix(word, word[cur] + [b])
      ensures steps + |word[n]| <= |word[cur]| + 1
    {
      n, steps := cur, 0;
      while true
        invariant n < |nodes|
        invariant LongestSuffix(word, word[cur] + [b]) == LongestSuffix(word, word[n] + [b])
        invariant steps + |word[n]| <= |word[cur]|
        decreases |word[n]|
      {
        ChildOfSpec(nodes, word, n, b);
        match ChildOf(nodes, n, b) {
          case Some(m) =>
            return m, steps;
          case None =>
        }
        if n == 0 {
          RootFallBack(word, b);
          return;
        }
        assert FailOk(nodes, word, n);
        FallBack(word, word[n], b);
        LongestSuffixIn(word, word[n][1..]);
        n, steps := nodes[n].fail, steps + 1;
      }
    }

    /** Reports the patterns ending exactly at one node. */
    method ReportNode(o: nat, end: nat) returns (out: seq<Hit>)
      requires o < |nodes| && forall k :: 0 <= k < |nodes[o].selfOut| ==> nodes[o].selfOut[k] < |patterns|
      ensures out == HitsAt(patterns, nodes[o].selfOut, end)
    {
      out := [];
      var n := nodes[o];
      var j := 0;
      while j < |n.selfOut|
        invariant 0 <= j <= |n.selfOut|
        invariant out == HitsAt(patterns, n.selfOut[..j], end)
      {
        var pid := n.selfOut[j];
        var plen := |patterns[pid]|;
        out := out + [Hit(pid, end - plen)];
        j := j + 1;
      }
      assert n.selfOut[..j] == n.selfOut;
    }

    /** Walks the output chain of `cur` after `end` bytes of text. */
    method ReportChain(cur: nat, end: nat) returns (out: seq<Hit>, ghost hops: nat)
      requires Built() && cur < |nodes|
      ensures forall k :: 0 <= k < |Hits(patterns, word[cur])| ==> Hits(patterns, word[cur])[k] < |patterns|
      ensures out == HitsAt(patterns, Hits(patterns, word[cur]), end)
      ensures hops <= |out|
    {
      hide Shape, Words, OutOk, EdgesOk, Linked, RootClean, Hits, HitsAt;
      HitsAtNone(patterns, end);
      ghost var ids := Hits(patterns, word[cur]);
      HitsValid(patterns, word[cur]);
      ChainStep(nodes, word, patterns, cur);
      var o: nat := if nodes[cur].selfOut == [] then nodes[cur].outLink else cur;
      ghost var told: seq<nat> := [];
      out, hops := [], 0;
      while o != NO_OUT
        invariant o == NO_OUT || (o < |nodes| && nodes[o].selfOut != [])
        invariant ids == told + Rest(patterns, word, o)
        invariant forall k :: 0 <= k < |told| ==> told[k] < |patterns|
        invariant out == HitsAt(patterns, told, end)
        invariant hops <= |out|
        decreases if o == NO_OUT then 0 else 1 + |word[o]|
      {
        ChainStep(nodes, word, patterns, o);
        assert ids == told + nodes[o].selfOut + Rest(patterns, word, nodes[o].outLink);
        HitsAtConcat(patterns, told + nodes[o].selfOut, Rest(patterns, word, nodes[o].outLink), end);
        HitsAtConcat(patterns, told, nodes[o].selfOut, end);
        var found := ReportNode(o, end);
        out := out + found;
        told := told + nodes[o].selfOut;
        o := nodes[o].outLink;
        hops := hops + 1;
      }
      assert ids == told;
    }

    /** One pass over `text`; the result lists the callback's calls in order. Fail steps
        total at most the text length, and every output hop reports something. */
    method Find(text: seq<byte>) returns (out: seq<Hit>, ghost failSteps: nat, ghost hops: nat)
      requires patterns == [] || Built()
      ensures out == Reports(patterns, text)
      ensures forall id, off :: multiset(out)[Hit(id, off)] == if OccursAt(patterns, text, id, off) then 1 else 0
      ensures failSteps <= |text| && hops <= |out|
    {
      hide Shape, Words, OutOk, EdgesOk, Linked, RootClean, LongestSuffix, Reports, Hits, HitsAt, OccursAt;
      ReportsNone(patterns);
      LongestSuffixNone(word);
      out, failSteps, hops := [], 0, 0;
      forall id, off
        ensures multiset(Reports(patterns, text))[Hit(id, off)] == if OccursAt(patterns, text, id, off) then 1 else 0
      {
        ReportsExact(patterns, text, id, off);
      }
      if patterns == [] {
        NoReports(text);
        return;
      }
      var cur: nat := 0;
      var i := 0;
      while i < |text|
        invariant 0 <= i <= |text| && cur < |nodes|
        invariant word[cur] == LongestSuffix(word, text[..i])
        invariant out == Reports(patterns, text[..i])
        invariant failSteps + |word[cur]| <= i && hops <= |out|
      {
        var b := text[i];
        assert text[..i + 1] == text[..i] + [b];
        ReportsPush(patterns, text, i);
        ExtendSuffix(word, text[..i], b);
        ghost var steps, more;
        cur, steps := Advance(cur, b);
        HitsSkip(nodes, word, patterns, text[..i + 1]);
        var found;
        found, more := ReportChain(cur, i + 1);
        out := out + found;
        failSteps, hops := failSteps + steps, hops + more;
        i := i + 1;
      }
      assert text[..i] == text;
    }
  }
}
