/** The causality half of src/sinkfilter.rs: a union-find over 64-bit task ids, the 16-bit
    ids that records carry, and the chains a sink record proves. */
module Causality {
  import opened Bytes

  type Edge = (nat, nat)

  // ---------------------------------------------------------------------
  // The closure of a list of edges.
  // ---------------------------------------------------------------------

  ghost predicate Adjacent(edges: seq<Edge>, a: nat, b: nat) {
    (a, b) in edges || (b, a) in edges
  }

  ghost predicate IsPath(edges: seq<Edge>, path: seq<nat>) {
    |path| > 0 && forall i :: 0 <= i < |path| - 1 ==> Adjacent(edges, path[i], path[i + 1])
  }

  ghost predicate PathFromTo(edges: seq<Edge>, path: seq<nat>, a: nat, b: nat) {
    IsPath(edges, path) && path[0] == a && path[|path| - 1] == b
  }

  /** Reflexive, symmetric, transitive closure. */
  ghost predicate Connected(edges: seq<Edge>, a: nat, b: nat) {
    exists path :: PathFromTo(edges, path, a, b)
  }

  lemma ConnectedSelf(edges: seq<Edge>, a: nat)
    ensures Connected(edges, a, a)
  {
    assert PathFromTo(edges, [a], a, a);
  }

  lemma ConnectedEdge(edges: seq<Edge>, a: nat, b: nat)
    requires Adjacent(edges, a, b)
    ensures Connected(edges, a, b)
  {
    assert PathFromTo(edges, [a, b], a, b);
  }

  lemma ConnectedBack(edges: seq<Edge>, a: nat, b: nat)
    requires Connected(edges, a, b)
    ensures Connected(edges, b, a)
  {
    var path :| PathFromTo(edges, path, a, b);
    var n := |path|;
    var back := seq(n, i requires 0 <= i < n => path[n - 1 - i]);
    forall i | 0 <= i < n - 1
      ensures Adjacent(edges, back[i], back[i + 1])
    {
      assert Adjacent(edges, path[n - 2 - i], path[n - 2 - i + 1]);
    }
    assert PathFromTo(edges, back, b, a);
  }

  lemma ConnectedTrans(edges: seq<Edge>, a: nat, b: nat, c: nat)
    requires Connected(edges, a, b) && Connected(edges, b, c)
    ensures Connected(edges, a, c)
  {
    var p :| PathFromTo(edges, p, a, b);
    var q :| PathFromTo(edges, q, b, c);
    var r := p + q[1..];
    forall i | 0 <= i < |r| - 1
      ensures Adjacent(edges, r[i], r[i + 1])
    {
      if i >= |p| - 1 {
        assert r[i] == q[i - (|p| - 1)] && r[i + 1] == q[i - (|p| - 1) + 1];
      }
    }
    assert PathFromTo(edges, r, a, c);
  }

  lemma ConnectedMore(edges: seq<Edge>, more: seq<Edge>, a: nat, b: nat)
    requires Connected(edges, a, b) && edges <= more
    ensures Connected(more, a, b)
  {
    var path :| PathFromTo(edges, path, a, b);
    forall i | 0 <= i < |path| - 1
      ensures Adjacent(more, path[i], path[i + 1])
    {
      assert Adjacent(edges, path[i], path[i + 1]);
    }
    assert PathFromTo(more, path, a, b);
  }

  // ---------------------------------------------------------------------
  // Representatives.
  // ---------------------------------------------------------------------

  predicate IsRoot(p: map<nat, nat>, x: nat) {
    x !in p || p[x] == x
  }

  /** `rep` names the root above every id; `rank` strictly grows on the way up. */
  ghost predicate Forest(p: map<nat, nat>, rep: nat -> nat, rank: nat -> nat, bound: nat) {
    && (forall x :: rank(x) <= bound)
    && (forall x :: IsRoot(p, rep(x)))
    && (forall x :: IsRoot(p, x) ==> rep(x) == x)
    && (forall x :: rep(x) == x || rank(x) < rank(rep(x)))
    && (forall x :: x in p && p[x] != x ==> rank(x) < rank(p[x]) && rep(p[x]) == rep(x))
  }

  /** The partition of `rep` is the closure of `edges`. */
  ghost predicate Partition(rep: nat -> nat, edges: seq<Edge>) {
    && (forall x :: Connected(edges, x, rep(x)))
    && (forall i :: 0 <= i < |edges| ==> rep(edges[i].0) == rep(edges[i].1))
  }

  lemma {:induction false} PathSameRep(rep: nat -> nat, edges: seq<Edge>, path: seq<nat>)
    requires Partition(rep, edges) && IsPath(edges, path)
    ensures rep(path[0]) == rep(path[|path| - 1])
  {
    if |path| > 1 {
      var n := |path| - 1;
      assert Adjacent(edges, path[n - 1], path[n]);
      PathSameRep(rep, edges, path[..n]);
    }
  }

  lemma SameRepIff(rep: nat -> nat, edges: seq<Edge>, a: nat, b: nat)
    requires Partition(rep, edges)
    ensures rep(a) == rep(b) <==> Connected(edges, a, b)
  {
    if rep(a) == rep(b) {
      ConnectedBack(edges, b, rep(b));
      ConnectedTrans(edges, a, rep(a), b);
    }
    if Connected(edges, a, b) {
      var path :| PathFromTo(edges, path, a, b);
      PathSameRep(rep, edges, path);
    }
  }

  lemma PartitionJoin(rep: nat -> nat, edges: seq<Edge>, a: nat, b: nat, rep': nat -> nat)
    requires Partition(rep, edges)
    requires forall y :: rep'(y) == if rep(y) == rep(b) then rep(a) else rep(y)
    ensures Partition(rep', edges + [(a, b)])
  {
    var more := edges + [(a, b)];
    assert more[|edges|] == (a, b);
    forall x
      ensures Connected(more, x, rep'(x))
    {
      ConnectedMore(edges, more, x, rep(x));
      if rep(x) == rep(b) {
        ConnectedMore(edges, more, b, rep(b));
        ConnectedBack(more, b, rep(b));
        ConnectedTrans(more, x, rep(b), b);
        ConnectedEdge(more, b, a);
        ConnectedTrans(more, x, b, a);
        ConnectedMore(edges, more, a, rep(a));
        ConnectedTrans(more, x, a, rep(a));
      }
    }
    forall i | 0 <= i < |more|
      ensures rep'(more[i].0) == rep'(more[i].1)
    {
      assert i < |edges| ==> more[i] == edges[i];
    }
  }

  lemma ForestAt(p: map<nat, nat>, rep: nat -> nat, rank: nat -> nat, bound: nat, x: nat)
    requires Forest(p, rep, rank, bound)
    ensures rank(x) <= bound && (IsRoot(p, x) <==> rep(x) == x) && rep(rep(x)) == rep(x)
    ensures !IsRoot(p, x) ==> rank(x) < rank(p[x]) && rep(p[x]) == rep(x)
  {
    assert IsRoot(p, rep(x));
  }

  /** Pointing a non-root straight at its root keeps the forest. */
  lemma Compress(p: map<nat, nat>, rep: nat -> nat, rank: nat -> nat, bound: nat, x: nat)
    requires Forest(p, rep, rank, bound) && !IsRoot(p, x)
    ensures Forest(p[x := rep(x)], rep, rank, bound)
  {
    var p' := p[x := rep(x)];
    assert IsRoot(p, rep(x)) && rep(rep(x)) == rep(x);
    forall y
      ensures IsRoot(p', rep(y)) && (IsRoot(p', y) ==> rep(y) == y)
    {
      assert IsRoot(p, rep(y));
    }
  }

  /** Hanging root `rb` under root `ra`. */
  lemma ForestJoin(p: map<nat, nat>, rep: nat -> nat, rank: nat -> nat, bound: nat, ra: nat, rb: nat,
                   rep': nat -> nat, rank': nat -> nat)
    requires Forest(p, rep, rank, bound) && rep(ra) == ra && rep(rb) == rb
    requires forall y :: rep'(y) == if rep(y) == rb then ra else rep(y)
    requires forall y :: rank'(y) == if y == ra && ra != rb then bound + 1 else rank(y)
    ensures Forest(if ra != rb then p[rb := ra] else p, rep', rank', bound + 1)
  {
    var p' := if ra != rb then p[rb := ra] else p;
    forall x
      ensures IsRoot(p', rep'(x)) && (IsRoot(p', x) ==> rep'(x) == x)
      ensures rep'(x) == x || rank'(x) < rank'(rep'(x))
    {
      assert IsRoot(p, rep(x)) && rep(rep(x)) == rep(x);
    }
    forall x | x in p' && p'[x] != x
      ensures rank'(x) < rank'(p'[x]) && rep'(p'[x]) == rep'(x)
    {
      assert x == ra ==> IsRoot(p, ra);
    }
  }

  class UnionFind {
    var p: map<nat, nat>
    ghost var rep: nat -> nat
    ghost var rank: nat -> nat
    ghost var bound: nat
    ghost var edges: seq<Edge>

    ghost predicate Valid()
      reads this
    {
      Forest(p, rep, rank, bound) && Partition(rep, edges)
    }

    constructor ()
      ensures Valid() && edges == [] && p == map[]
    {
      p, rep, rank, bound, edges := map[], x => x, x => 0, 0, [];
      new;
      forall x
        ensures Connected(edges, x, rep(x))
      {
        ConnectedSelf(edges, x);
      }
    }

    /** The representative of `x`; the walked path is compressed, the partition is not
        changed. */
    method Find(x: nat) returns (root: nat)
      requires Valid()
      modifies this`p
      ensures Valid() && root == rep(x) && rep(root) == root && p.Keys == old(p.Keys)
    {
      hide Forest, Partition;
      root := x;
      ForestAt(p, rep, rank, bound, x);
      while root in p && p[root] != root
        invariant p == old(p) && rep(root) == rep(x) && rank(root) <= bound
        decreases bound - rank(root)
      {
        ForestAt(p, rep, rank, bound, root);
        ForestAt(p, rep, rank, bound, p[root]);
        root := p[root];
      }
      ForestAt(p, rep, rank, bound, root);
      var cur := x;
      while cur != root
        invariant Forest(p, rep, rank, bound) && p.Keys == old(p.Keys)
        invariant rep(cur) == root && rank(cur) <= bound
        decreases bound - rank(cur)
      {
        ForestAt(p, rep, rank, bound, cur);
        if cur in p && p[cur] != cur {
          var v := p[cur];
          ForestAt(p, rep, rank, bound, v);
          Compress(p, rep, rank, bound, cur);
          p := p[cur := root];
          cur := v;
        } else {
          break;
        }
      }
    }

    /** Links the components of `a` and `b`. */
    method Union(a: nat, b: nat)
      requires Valid()
      modifies this
      ensures Valid() && edges == old(edges) + [(a, b)]
      ensures forall y :: rep(y) == if old(rep)(y) == old(rep)(b) then old(rep)(a) else old(rep)(y)
    {
      hide Forest, Partition, Connected;
      var ra := Find(a);
      var rb := Find(b);
      ghost var rep0 := rep;
      ghost var rep' := (y: nat) => if rep0(y) == rb then ra else rep0(y);
      PartitionJoin(rep, edges, a, b, rep');
      ghost var rank0, top := rank, bound + 1;
      ghost var rank' := (y: nat) => if y == ra && ra != rb then top else rank0(y);
      ForestJoin(p, rep, rank, bound, ra, rb, rep', rank');
      edges := edges + [(a, b)];
      if ra != rb {
        p := p[rb := ra];
      }
      rep, rank, bound := rep', rank', top;
    }

    method InsertNode(x: nat)
      requires Valid()
      modifies this`p
      ensures Valid() && x in p
    {
      if x !in p {
        p := p[x := x];
      }
    }
  }

  // ---------------------------------------------------------------------
  // Records and the causality graph.
  // ---------------------------------------------------------------------

  /** What the text of a causality record says; a witness line is not about ids. */
  datatype Note = NoNote | Witness | Line(edge: Option<Edge>, tid: nat, parent: nat)

  /** One collected record. `isSink`: its payload kind and tag make it a sink and its body
      is not empty. */
  datatype Rec = Rec(pid: nat, sid: nat, tid: nat, note: Note, isSink: bool)

  /** script id -> (pid, chain) candidates. */
  type SidChains = map<nat, seq<(nat, nat)>>

  /** The chain a record belongs to: by script id, first candidate of its process. */
  function AttrChain(sids: SidChains, r: Rec): (c: Option<nat>) {
    if r.sid == 0 || r.sid !in sids then None else FirstOfPid(sids[r.sid], r.pid)
  }

  function FirstOfPid(v: seq<(nat, nat)>, pid: nat): (c: Option<nat>)
    ensures c.None? <==> forall i :: 0 <= i < |v| ==> v[i].0 != pid
    ensures c.Some? ==> (pid, c.value) in v
  {
    if v == [] then None else if v[0].0 == pid then Some(v[0].1) else FirstOfPid(v[1..], pid)
  }

  /** The edge a record contributes: the parsed pair, or tid and parent when both are given. */
  function EdgeOf(r: Rec): (res: Option<Edge>) {
    match r.note
    case Line(Some(e), _, _) => Some(e)
    case Line(None, tid, parent) => if tid != 0 && parent != 0 then Some((tid, parent)) else None
    case _ => None
  }

  /** The full ids a record mentions. */
  function IdsOf(r: Rec): (res: seq<nat>) {
    match EdgeOf(r)
    case Some(e) => [e.0, e.1]
    case None => if r.note.Line? && r.note.tid != 0 then [r.note.tid] else []
  }

  ghost function EdgesOf(recs: seq<Rec>): (res: seq<Edge>) {
    if recs == [] then [] else
      var r := recs[|recs| - 1];
      EdgesOf(recs[..|recs| - 1]) + if EdgeOf(r).Some? then [EdgeOf(r).value] else []
  }

  /** Some record mentions full id `f`, whose low 16 bits are `low`. */
  ghost predicate Mentions(recs: seq<Rec>, low: nat, f: nat) {
    f % 0x1_0000 == low && exists i :: 0 <= i < |recs| && f in IdsOf(recs[i])
  }

  type Index = map<nat, seq<nat>>

  function Get(m: Index, k: nat): (r: seq<nat>) {
    if k in m then m[k] else []
  }

  function Push(m: Index, k: nat, v: nat): (m': Index)
    ensures forall j, x :: x in Get(m', j) <==> (x in Get(m, j) || (j == k && x == v))
  {
    m[k := Get(m, k) + [v]]
  }

  ghost predicate Ascending(s: seq<nat>) {
    forall i, j :: 0 <= i < j < |s| ==> s[i] < s[j]
  }

  function InsertSorted(s: seq<nat>, x: nat): (r: seq<nat>)
    requires Ascending(s)
    ensures Ascending(r) && forall y :: y in r <==> y in s || y == x
  {
    if s == [] || x < s[0] then [x] + s
    else if x == s[0] then s
    else
      var r := InsertSorted(s[1..], x);
      FirstAndRest(s);
      assert forall i :: 0 <= i < |r| ==> r[i] in r;
      [s[0]] + r
  }

  lemma FirstAndRest(s: seq<nat>)
    requires s != [] && Ascending(s)
    ensures Ascending(s[1..]) && forall y :: y in s[1..] ==> s[0] < y
    ensures forall y :: y in s <==> y == s[0] || y in s[1..]
  {
    assert s == [s[0]] + s[1..];
  }

  /** `sort_unstable` followed by `dedup`. */
  function SortDedup(s: seq<nat>): (r: seq<nat>)
    ensures Ascending(r) && forall y :: y in r <==> y in s
  {
    if s == [] then [] else
      assert s == s[..|s| - 1] + [s[|s| - 1]];
      InsertSorted(SortDedup(s[..|s| - 1]), s[|s| - 1])
  }

  /** Two full ids with the same low 16 bits lie in different components. */
  ghost predicate Ambiguous(recs: seq<Rec>, low: nat) {
    exists f, g :: Mentions(recs, low, f) && Mentions(recs, low, g) && !Connected(EdgesOf(recs), f, g)
  }

  // ---------------------------------------------------------------------
  // What the linking should find.
  // ---------------------------------------------------------------------

  /** Some record with task id `tid` is attributed to chain `c`. */
  ghost predicate CarriesTid(recs: seq<Rec>, sids: SidChains, tid: nat, c: nat) {
    tid != 0 && exists i :: 0 <= i < |recs| && recs[i].tid == tid && AttrChain(sids, recs[i]) == Some(c)
  }

  /** Chain `c` is related to `tid`: a record of `c` carries the very id, or an unambiguous
      id one of whose full ids shares a component with a full id of `tid`. */
  ghost predicate Related(recs: seq<Rec>, sids: SidChains, tid: nat, c: nat) {
    CarriesTid(recs, sids, tid, c) ||
    exists other, f, g :: CarriesTid(recs, sids, other, c) && !Ambiguous(recs, other) &&
      Mentions(recs, tid, f) && Mentions(recs, other, g) && Connected(EdgesOf(recs), f, g)
  }

  /** A sink record whose task id can be trusted. */
  ghost predicate TrustedSink(recs: seq<Rec>, i: nat) {
    i < |recs| && recs[i].isSink && recs[i].tid != 0 && !Ambiguous(recs, recs[i].tid)
  }

  ghost predicate ProvenBy(recs: seq<Rec>, sids: SidChains, i: nat, c: nat) {
    TrustedSink(recs, i) && Related(recs, sids, recs[i].tid, c)
  }

  ghost function HitCount(recs: seq<Rec>, sids: SidChains, n: nat, c: nat): (r: nat)
    requires n <= |recs|
  {
    if n == 0 then 0 else HitCount(recs, sids, n - 1, c) + if ProvenBy(recs, sids, n - 1, c) then 1 else 0
  }

  // ---------------------------------------------------------------------
  // The same over the notes themselves.
  // ---------------------------------------------------------------------

  /** The record's line ties `a` to `b`: by a parsed pair, or as its task and parent when it has no pair and both
      are given. */
  ghost predicate Ties(r: Rec, a: nat, b: nat) {
    && r.note.Line?
    && (r.note.edge == Some((a, b))
        || (r.note.edge == None && r.note.tid == a && r.note.parent == b && a != 0 && b != 0))
  }

  ghost predicate Tied(recs: seq<Rec>, a: nat, b: nat) {
    exists i :: 0 <= i < |recs| && (Ties(recs[i], a, b) || Ties(recs[i], b, a))
  }

  /** A chain of ties leads from `a` to `b`. */
  ghost predicate Linked(recs: seq<Rec>, a: nat, b: nat) {
    exists path: seq<nat> :: LeadsTo(recs, path, a, b)
  }

  ghost predicate LeadsTo(recs: seq<Rec>, path: seq<nat>, a: nat, b: nat) {
    && path != [] && path[0] == a && path[|path| - 1] == b
    && forall i :: 0 <= i < |path| - 1 ==> Tied(recs, path[i], path[i + 1])
  }

  /** Full id `f` appears in the record's line: as an end of its tie, or as its task id where it ties nothing. */
  ghost predicate Names(r: Rec, f: nat) {
    || (exists b :: Ties(r, f, b)) || (exists a :: Ties(r, a, f))
    || (r.note.Line? && r.note.edge == None && r.note.tid == f && f != 0 && r.note.parent == 0)
  }

  /** `f` is a full id of the task id `tid`, its low 16 bits. */
  ghost predicate Expands(recs: seq<Rec>, tid: nat, f: nat) {
    f % 0x1_0000 == tid && exists i :: 0 <= i < |recs| && Names(recs[i], f)
  }

  /** Two full ids of `tid` are not linked. */
  ghost predicate Untrusted(recs: seq<Rec>, tid: nat) {
    exists f, g :: Expands(recs, tid, f) && Expands(recs, tid, g) && !Linked(recs, f, g)
  }

  /** Chain `c` is the first candidate of the record's script that is of the record's process. */
  ghost predicate BelongsTo(sids: SidChains, r: Rec, c: nat) {
    && r.sid != 0 && r.sid in sids
    && exists k :: 0 <= k < |sids[r.sid]| && sids[r.sid][k] == (r.pid, c)
                   && forall j :: 0 <= j < k ==> sids[r.sid][j].0 != r.pid
  }

  ghost predicate Holds(recs: seq<Rec>, sids: SidChains, tid: nat, c: nat) {
    tid != 0 && exists i :: 0 <= i < |recs| && recs[i].tid == tid && BelongsTo(sids, recs[i], c)
  }

  /** A record of chain `c` has the task id itself, or a trusted one with a full id linked to a full id of it. */
  ghost predicate Concerns(recs: seq<Rec>, sids: SidChains, tid: nat, c: nat) {
    || Holds(recs, sids, tid, c)
    || exists other, f, g :: Holds(recs, sids, other, c) && !Untrusted(recs, other) && Expands(recs, tid, f)
                             && Expands(recs, other, g) && Linked(recs, f, g)
  }

  /** Sink record `i` proves chain `c`. */
  ghost predicate Proves(recs: seq<Rec>, sids: SidChains, i: nat, c: nat) {
    && i < |recs| && recs[i].isSink && recs[i].tid != 0 && !Untrusted(recs, recs[i].tid)
    && Concerns(recs, sids, recs[i].tid, c)
  }

  lemma {:induction false} EdgeIff(recs: seq<Rec>, a: nat, b: nat)
    ensures (a, b) in EdgesOf(recs) <==> exists i :: 0 <= i < |recs| && Ties(recs[i], a, b)
  {
    if recs == [] {
    } else {
      var n := |recs| - 1;
      EdgeIff(recs[..n], a, b);
      assert EdgeOf(recs[n]) == Some((a, b)) <==> Ties(recs[n], a, b);
      hide EdgeOf, Ties;
      assert recs == recs[..n] + [recs[n]];
    }
  }

  lemma TiedIff(recs: seq<Rec>, a: nat, b: nat)
    ensures Tied(recs, a, b) <==> (a, b) in EdgesOf(recs) || (b, a) in EdgesOf(recs)
  {
    EdgeIff(recs, a, b);
    EdgeIff(recs, b, a);
    hide Ties, EdgesOf;
  }

  /** Two ids are linked exactly if the edges connect them. */
  lemma LinkedIff(recs: seq<Rec>, a: nat, b: nat)
    ensures Linked(recs, a, b) <==> Connected(EdgesOf(recs), a, b)
  {
    forall x: nat, y: nat
      ensures Tied(recs, x, y) <==> (x, y) in EdgesOf(recs) || (y, x) in EdgesOf(recs)
    {
      TiedIff(recs, x, y);
    }
    hide Tied, EdgesOf;
    forall path
      ensures LeadsTo(recs, path, a, b) <==> PathFromTo(EdgesOf(recs), path, a, b)
    {
    }
  }

  lemma NamesIff(r: Rec, f: nat)
    ensures Names(r, f) <==> f in IdsOf(r)
  {
    match r.note
    case Line(Some(e), _, _) => assert Ties(r, e.0, e.1);
    case Line(None, tid, parent) => assert tid != 0 && parent != 0 ==> Ties(r, tid, parent);
    case NoNote =>
    case Witness =>
  }

  lemma ExpandsIff(recs: seq<Rec>, tid: nat, f: nat)
    ensures Expands(recs, tid, f) <==> Mentions(recs, tid, f)
  {
    forall i | 0 <= i < |recs|
      ensures Names(recs[i], f) <==> f in IdsOf(recs[i])
    {
      NamesIff(recs[i], f);
    }
    hide Names, IdsOf;
  }

  lemma UntrustedIff(recs: seq<Rec>, tid: nat)
    ensures Untrusted(recs, tid) <==> Ambiguous(recs, tid)
  {
    forall f
      ensures Expands(recs, tid, f) <==> Mentions(recs, tid, f)
    {
      ExpandsIff(recs, tid, f);
    }
    forall f, g
      ensures Linked(recs, f, g) <==> Connected(EdgesOf(recs), f, g)
    {
      LinkedIff(recs, f, g);
    }
    hide Expands, Mentions, Linked, Connected, EdgesOf;
  }

  lemma {:induction false} FirstIs(v: seq<(nat, nat)>, pid: nat, c: nat)
    ensures FirstOfPid(v, pid) == Some(c) <==>
              exists k :: 0 <= k < |v| && v[k] == (pid, c) && forall j :: 0 <= j < k ==> v[j].0 != pid
  {
    if v == [] {
    } else {
      FirstIs(v[1..], pid, c);
      assert forall k :: 0 <= k < |v| - 1 ==> v[1..][k] == v[k + 1];
      if FirstOfPid(v, pid) == Some(c) && v[0].0 != pid {
        var k :| 0 <= k < |v[1..]| && v[1..][k] == (pid, c) && forall j :: 0 <= j < k ==> v[1..][j].0 != pid;
        assert v[k + 1] == (pid, c);
        assert forall j :: 0 < j < k + 1 ==> v[j] == v[1..][j - 1];
      }
      if k :| 0 <= k < |v| && v[k] == (pid, c) && forall j :: 0 <= j < k ==> v[j].0 != pid {
        assert k > 0 ==> v[1..][k - 1] == (pid, c);
      }
    }
  }

  lemma BelongsIff(sids: SidChains, r: Rec, c: nat)
    ensures BelongsTo(sids, r, c) <==> AttrChain(sids, r) == Some(c)
  {
    if r.sid in sids {
      FirstIs(sids[r.sid], r.pid, c);
    }
  }

  lemma HoldsIff(recs: seq<Rec>, sids: SidChains, tid: nat, c: nat)
    ensures Holds(recs, sids, tid, c) <==> CarriesTid(recs, sids, tid, c)
  {
    forall i | 0 <= i < |recs|
      ensures BelongsTo(sids, recs[i], c) <==> AttrChain(sids, recs[i]) == Some(c)
    {
      BelongsIff(sids, recs[i], c);
    }
    hide BelongsTo, AttrChain;
  }

  lemma ConcernsIff(recs: seq<Rec>, sids: SidChains, tid: nat, c: nat)
    ensures Concerns(recs, sids, tid, c) <==> Related(recs, sids, tid, c)
  {
    forall t
      ensures Holds(recs, sids, t, c) <==> CarriesTid(recs, sids, t, c)
      ensures Untrusted(recs, t) <==> Ambiguous(recs, t)
    {
      HoldsIff(recs, sids, t, c);
      UntrustedIff(recs, t);
    }
    forall t, f
      ensures Expands(recs, t, f) <==> Mentions(recs, t, f)
    {
      ExpandsIff(recs, t, f);
    }
    forall f, g
      ensures Linked(recs, f, g) <==> Connected(EdgesOf(recs), f, g)
    {
      LinkedIff(recs, f, g);
    }
    hide Holds, CarriesTid, Untrusted, Ambiguous, Expands, Mentions, Linked, Connected, EdgesOf;
  }

  lemma ProvesIff(recs: seq<Rec>, sids: SidChains, i: nat, c: nat)
    ensures Proves(recs, sids, i, c) <==> ProvenBy(recs, sids, i, c)
  {
    if i < |recs| {
      UntrustedIff(recs, recs[i].tid);
      ConcernsIff(recs, sids, recs[i].tid, c);
    }
    hide Untrusted, Ambiguous, Concerns, Related;
  }

  /** The sink records that prove a chain. */
  ghost function Provers(recs: seq<Rec>, sids: SidChains, n: nat, c: nat): (r: set<nat>) {
    set i: nat | i < n && Proves(recs, sids, i, c)
  }

  lemma {:induction false} HitsAreProvers(recs: seq<Rec>, sids: SidChains, n: nat, c: nat)
    requires n <= |recs|
    ensures HitCount(recs, sids, n, c) == |Provers(recs, sids, n, c)|
  {
    hide Proves, ProvenBy, Provers;
    if n == 0 {
      NoProvers(recs, sids, c);
    } else {
      HitsAreProvers(recs, sids, n - 1, c);
      ProvesIff(recs, sids, n - 1, c);
      OneMoreProver(recs, sids, n - 1, c);
    }
  }

  lemma NoProvers(recs: seq<Rec>, sids: SidChains, c: nat)
    ensures Provers(recs, sids, 0, c) == {}
  {
  }

  lemma OneMoreProver(recs: seq<Rec>, sids: SidChains, n: nat, c: nat)
    ensures |Provers(recs, sids, n + 1, c)|
         == |Provers(recs, sids, n, c)| + if Proves(recs, sids, n, c) then 1 else 0
  {
    hide Proves;
    var was := Provers(recs, sids, n, c);
    assert Provers(recs, sids, n + 1, c) == if Proves(recs, sids, n, c) then was + {n} else was;
  }

  // ---------------------------------------------------------------------
  // The linking itself.
  // ---------------------------------------------------------------------

  /** The first pass: edges into the union-find, full ids into the low-16 index. */
  method BuildGraph(recs: seq<Rec>) returns (uf: UnionFind, low16: Index)
    ensures fresh(uf) && uf.Valid() && uf.edges == EdgesOf(recs)
    ensures forall low, f :: f in Get(low16, low) <==> Mentions(recs, low, f)
    ensures forall a: nat, b: nat :: (a, b) in uf.edges <==> exists i :: 0 <= i < |recs| && Ties(recs[i], a, b)
    ensures forall low, f :: f in Get(low16, low) <==> Expands(recs, low, f)
  {
    hide Forest, Partition, Mentions, Expands, Ties;
    NothingMentioned();
    uf := new UnionFind();
    low16 := map[];
    var i := 0;
    while i < |recs|
      invariant 0 <= i <= |recs| && fresh(uf) && uf.Valid() && uf.edges == EdgesOf(recs[..i])
      invariant forall low, f :: f in Get(low16, low) <==> Mentions(recs[..i], low, f)
    {
      var r := recs[i];
      MentionsPush(recs, i);
      ghost var before := low16;
      assert recs[..i + 1][..i] == recs[..i];
      match EdgeOf(r) {
        case Some(e) =>
          uf.InsertNode(e.0);
          uf.InsertNode(e.1);
          uf.Union(e.0, e.1);
          low16 := Push(low16, e.0 % 0x1_0000, e.0);
          low16 := Push(low16, e.1 % 0x1_0000, e.1);
        case None =>
          if r.note.Line? && r.note.tid != 0 {
            uf.InsertNode(r.note.tid);
            low16 := Push(low16, r.note.tid % 0x1_0000, r.note.tid);
          }
      }
      forall low, f: nat
        ensures f in Get(low16, low) <==> Mentions(recs[..i + 1], low, f)
      {
        assert f in Get(before, low) <==> Mentions(recs[..i], low, f);
      }
      i := i + 1;
    }
    assert recs[..i] == recs;
    low16 := map k | k in low16 :: SortDedup(low16[k]);
    GraphIs(recs);
  }

  lemma GraphIs(recs: seq<Rec>)
    ensures forall a: nat, b: nat :: (a, b) in EdgesOf(recs) <==> exists i :: 0 <= i < |recs| && Ties(recs[i], a, b)
    ensures forall low, f :: Mentions(recs, low, f) <==> Expands(recs, low, f)
  {
    hide *;
    forall a: nat, b: nat
      ensures (a, b) in EdgesOf(recs) <==> exists i :: 0 <= i < |recs| && Ties(recs[i], a, b)
    {
      EdgeIff(recs, a, b);
    }
    forall low: nat, f: nat
      ensures Mentions(recs, low, f) <==> Expands(recs, low, f)
    {
      ExpandsIff(recs, low, f);
    }
  }

  lemma NothingMentioned()
    ensures forall low, f :: !Mentions([], low, f)
  {
  }

  lemma MentionsPush(recs: seq<Rec>, n: nat)
    requires n < |recs|
    ensures forall low, f :: Mentions(recs[..n + 1], low, f) <==>
                               (Mentions(recs[..n], low, f) || (f % 0x1_0000 == low && f in IdsOf(recs[n])))
  {
    hide IdsOf;
    var a, b := recs[..n], recs[..n + 1];
    assert b == a + [recs[n]];
    forall low, f
      ensures Mentions(b, low, f) <==> (Mentions(a, low, f) || (f % 0x1_0000 == low && f in IdsOf(recs[n])))
    {
      if Mentions(a, low, f) {
        var i :| 0 <= i < |a| && f in IdsOf(a[i]);
        assert b[i] == a[i];
      }
      if f % 0x1_0000 == low && f in IdsOf(recs[n]) {
        assert b[n] == recs[n];
      }
    }
  }

  /** The index lists exactly the mentioned ids, and the partition is that of the edges. */
  ghost predicate GraphOk(recs: seq<Rec>, rep: nat -> nat, low16: Index) {
    && Partition(rep, EdgesOf(recs))
    && forall low, f :: f in Get(low16, low) <==> Mentions(recs, low, f)
  }

  /** `stats.causality_roots`: the number of components among the inserted ids. */
  method CountRoots(uf: UnionFind) returns (n: nat)
    requires uf.Valid()
    modifies uf`p
    ensures uf.Valid() && uf.p.Keys == old(uf.p.Keys)
    ensures n == |set x | x in uf.p.Keys :: uf.rep(x)|
  {
    hide Forest, Partition;
    var nodes := uf.p.Keys;
    var todo, roots: set<nat> := nodes, {};
    while todo != {}
      invariant uf.Valid() && uf.p.Keys == nodes && todo <= nodes
      invariant roots == set x | x in nodes - todo :: uf.rep(x)
      decreases todo
    {
      var x :| x in todo;
      var r := uf.Find(x);
      assert nodes - (todo - {x}) == nodes - todo + {x};
      roots, todo := roots + {r}, todo - {x};
    }
    assert nodes - todo == nodes;
    n := |roots|;
  }

  ghost predicate Conflict(rep: nat -> nat, fulls: seq<nat>) {
    exists i, j :: 0 <= i < |fulls| && 0 <= j < |fulls| && rep(fulls[i]) != rep(fulls[j])
  }

  lemma ConflictIff(recs: seq<Rec>, rep: nat -> nat, low16: Index, low: nat)
    requires GraphOk(recs, rep, low16)
    ensures Conflict(rep, Get(low16, low)) <==> Ambiguous(recs, low)
  {
    var v := Get(low16, low);
    hide Mentions, Connected, EdgesOf, Partition;
    if Conflict(rep, v) {
      var i, j :| 0 <= i < |v| && 0 <= j < |v| && rep(v[i]) != rep(v[j]);
      SameRepIff(rep, EdgesOf(recs), v[i], v[j]);
      assert v[i] in v && v[j] in v;
    }
    if Ambiguous(recs, low) {
      var f, g :| Mentions(recs, low, f) && Mentions(recs, low, g) && !Connected(EdgesOf(recs), f, g);
      SameRepIff(rep, EdgesOf(recs), f, g);
      assert f in v && g in v;
    }
  }

  /** Whether the ids sharing one low-16 value have different roots. */
  method HasConflict(uf: UnionFind, fulls: seq<nat>) returns (conflict: bool)
    requires uf.Valid()
    modifies uf`p
    ensures uf.Valid() && (conflict <==> Conflict(uf.rep, fulls))
  {
    var root := None;
    conflict := false;
    var i := 0;
    hide Forest, Partition;
    while i < |fulls|
      invariant 0 <= i <= |fulls| && uf.Valid() && !conflict
      invariant root.None? <==> i == 0
      invariant root.Some? ==> forall j :: 0 <= j < i ==> uf.rep(fulls[j]) == root.value
    {
      var r := uf.Find(fulls[i]);
      match root {
        case None => root := Some(r);
        case Some(prev) =>
          if prev != r {
            assert uf.rep(fulls[0]) != uf.rep(fulls[i]);
            conflict := true;
            return;
          }
      }
      i := i + 1;
    }
  }

  /** The low-16 ids that stand for more than one component. */
  method FindAmbiguous(uf: UnionFind, low16: Index, ghost recs: seq<Rec>) returns (ambig: set<nat>)
    requires uf.Valid() && GraphOk(recs, uf.rep, low16)
    modifies uf`p
    ensures uf.Valid() && forall low :: low in ambig <==> Ambiguous(recs, low)
  {
    hide GraphOk, Forest, Partition, Conflict, Ambiguous;
    ambig := {};
    var todo := low16.Keys;
    while todo != {}
      invariant uf.Valid() && todo <= low16.Keys && ambig <= low16.Keys
      invariant forall low :: low in low16.Keys - todo ==> (low in ambig <==> Ambiguous(recs, low))
      invariant ambig !! todo
      decreases todo
    {
      var low :| low in todo;
      var conflict := HasConflict(uf, low16[low]);
      ConflictIff(recs, uf.rep, low16, low);
      if conflict {
        ambig := ambig + {low};
      }
      todo := todo - {low};
    }
    forall low
      ensures low in ambig <==> Ambiguous(recs, low)
    {
      ConflictIff(recs, uf.rep, low16, low);
      if low !in low16 {
        NoConflict(uf.rep);
      }
    }
  }

  lemma NoConflict(rep: nat -> nat)
    ensures !Conflict(rep, [])
  {
  }

  /** Chain `c` was filed under `root`: one of its records carries an unambiguous id with a
      full id below that root. */
  ghost predicate Feeds(recs: seq<Rec>, sids: SidChains, low16: Index, ambig: set<nat>, rep: nat -> nat,
                        root: nat, c: nat)
  {
    exists other, g :: CarriesTid(recs, sids, other, c) && other !in ambig && g in Get(low16, other) && rep(g) == root
  }

  lemma CarriesPush(recs: seq<Rec>, sids: SidChains, n: nat)
    requires n < |recs|
    ensures forall tid, c: nat :: CarriesTid(recs[..n + 1], sids, tid, c) <==>
              (CarriesTid(recs[..n], sids, tid, c) ||
               (tid != 0 && recs[n].tid == tid && AttrChain(sids, recs[n]) == Some(c)))
  {
    hide *;
    forall tid: nat, c: nat
      ensures CarriesTid(recs[..n + 1], sids, tid, c) <==>
              (CarriesTid(recs[..n], sids, tid, c) ||
               (tid != 0 && recs[n].tid == tid && AttrChain(sids, recs[n]) == Some(c)))
    {
      CarriesOne(recs, sids, n, tid, c);
    }
  }

  lemma CarriesOne(recs: seq<Rec>, sids: SidChains, n: nat, tid: nat, c: nat)
    requires n < |recs|
    ensures CarriesTid(recs[..n + 1], sids, tid, c) <==>
              (CarriesTid(recs[..n], sids, tid, c) ||
               (tid != 0 && recs[n].tid == tid && AttrChain(sids, recs[n]) == Some(c)))
  {
    hide AttrChain;
    var a, b := recs[..n], recs[..n + 1];
    if CarriesTid(a, sids, tid, c) {
      var i :| 0 <= i < |a| && a[i].tid == tid && AttrChain(sids, a[i]) == Some(c);
      assert b[i] == a[i];
    }
    if tid != 0 && recs[n].tid == tid && AttrChain(sids, recs[n]) == Some(c) {
      assert b[n] == recs[n];
    }
    if CarriesTid(b, sids, tid, c) {
      var i :| 0 <= i < |b| && b[i].tid == tid && AttrChain(sids, b[i]) == Some(c);
      assert i < n ==> a[i] == b[i];
    }
  }

  /** Files chain `c` under the root of every full id of `fulls`. */
  method FileUnderRoots(uf: UnionFind, fulls: seq<nat>, c: nat, roots0: Index) returns (roots: Index)
    requires uf.Valid()
    modifies uf`p
    ensures uf.Valid()
    ensures forall root, x :: x in Get(roots, root) <==>
              (x in Get(roots0, root) || (x == c && exists k :: 0 <= k < |fulls| && uf.rep(fulls[k]) == root))
  {
    hide Forest, Partition;
    roots := roots0;
    var k := 0;
    while k < |fulls|
      invariant 0 <= k <= |fulls| && uf.Valid()
      invariant forall root, x :: x in Get(roots, root) <==>
                  (x in Get(roots0, root) || (x == c && exists j :: 0 <= j < k && uf.rep(fulls[j]) == root))
    {
      var root := uf.Find(fulls[k]);
      roots := Push(roots, root, c);
      k := k + 1;
    }
  }

  /** The second pass: chains by raw task id and by root. */
  method IndexChains(uf: UnionFind, recs: seq<Rec>, sids: SidChains, low16: Index, ambig: set<nat>)
    returns (tid16: Index, roots: Index)
    requires uf.Valid()
    modifies uf`p
    ensures uf.Valid()
    ensures forall t, c :: c in Get(tid16, t) <==> CarriesTid(recs, sids, t, c)
    ensures forall root, c :: c in Get(roots, root) <==> Feeds(recs, sids, low16, ambig, uf.rep, root, c)
  {
    hide Forest, Partition, AttrChain, CarriesTid;
    tid16, roots := map[], map[];
    NothingCarried(sids);
    assert recs[..0] == [];
    var i := 0;
    while i < |recs|
      invariant 0 <= i <= |recs| && uf.Valid()
      invariant forall t, c :: c in Get(tid16, t) <==> CarriesTid(recs[..i], sids, t, c)
      invariant forall root, c :: c in Get(roots, root) <==> Feeds(recs[..i], sids, low16, ambig, uf.rep, root, c)
    {
      var r := recs[i];
      CarriesPush(recs, sids, i);
      var idx := AttrChain(sids, r);
      ghost var tids0 := tid16;
      if idx.Some? && r.tid != 0 {
        tid16 := Push(tid16, r.tid, idx.value);
        assert forall t, c :: c in Get(tid16, t) <==> (c in Get(tids0, t) || (t == r.tid && c == idx.value));
        if r.tid !in ambig {
          roots := FileUnderRoots(uf, Get(low16, r.tid), idx.value, roots);
        }
      }
      FeedsPush(recs, sids, low16, ambig, uf.rep, i);
      forall t, c: nat
        ensures c in Get(tid16, t) <==> CarriesTid(recs[..i + 1], sids, t, c)
      {
        assert c in Get(tids0, t) <==> CarriesTid(recs[..i], sids, t, c);
      }
      i := i + 1;
    }
    assert recs[..i] == recs;
    tid16 := map k | k in tid16 :: SortDedup(tid16[k]);
  }

  lemma NothingCarried(sids: SidChains)
    ensures forall t, c :: !CarriesTid([], sids, t, c)
  {
  }

  lemma FeedsPush(recs: seq<Rec>, sids: SidChains, low16: Index, ambig: set<nat>, rep: nat -> nat, n: nat)
    requires n < |recs|
    ensures forall root, c: nat :: Feeds(recs[..n + 1], sids, low16, ambig, rep, root, c) <==>
              (Feeds(recs[..n], sids, low16, ambig, rep, root, c) || FedBy(recs[n], sids, low16, ambig, rep, root, c))
  {
    hide *;
    forall root: nat, c: nat
      ensures Feeds(recs[..n + 1], sids, low16, ambig, rep, root, c) <==>
                (Feeds(recs[..n], sids, low16, ambig, rep, root, c) || FedBy(recs[n], sids, low16, ambig, rep, root, c))
    {
      FeedsOne(recs, sids, low16, ambig, rep, n, root, c);
    }
  }

  /** The record files its chain under `root`. */
  ghost predicate FedBy(r: Rec, sids: SidChains, low16: Index, ambig: set<nat>, rep: nat -> nat, root: nat, c: nat) {
    && r.tid != 0 && r.tid !in ambig && AttrChain(sids, r) == Some(c)
    && exists k :: 0 <= k < |Get(low16, r.tid)| && rep(Get(low16, r.tid)[k]) == root
  }

  lemma FeedsOne(recs: seq<Rec>, sids: SidChains, low16: Index, ambig: set<nat>, rep: nat -> nat, n: nat, root: nat,
                 c: nat)
    requires n < |recs|
    ensures Feeds(recs[..n + 1], sids, low16, ambig, rep, root, c) <==>
              (Feeds(recs[..n], sids, low16, ambig, rep, root, c) || FedBy(recs[n], sids, low16, ambig, rep, root, c))
  {
    hide AttrChain, CarriesTid, Get;
    var fulls := Get(low16, recs[n].tid);
    if FedBy(recs[n], sids, low16, ambig, rep, root, c) {
      var k :| 0 <= k < |fulls| && rep(fulls[k]) == root;
      CarriesOne(recs, sids, n, recs[n].tid, c);
      assert CarriesTid(recs[..n + 1], sids, recs[n].tid, c) && fulls[k] in fulls;
    }
    if Feeds(recs[..n + 1], sids, low16, ambig, rep, root, c) {
      var other, g :| CarriesTid(recs[..n + 1], sids, other, c) && other !in ambig && g in Get(low16, other)
                      && rep(g) == root;
      CarriesOne(recs, sids, n, other, c);
    }
    if Feeds(recs[..n], sids, low16, ambig, rep, root, c) {
      var other, g :| CarriesTid(recs[..n], sids, other, c) && other !in ambig && g in Get(low16, other)
                      && rep(g) == root;
      CarriesOne(recs, sids, n, other, c);
    }
  }

  /** The chains related to one trusted task id, from the two indexes. */
  method RelatedChains(uf: UnionFind, recs: seq<Rec>, sids: SidChains, low16: Index, ghost ambig: set<nat>,
                       tid16: Index, roots: Index, tid: nat)
    returns (related: seq<nat>)
    requires uf.Valid() && GraphOk(recs, uf.rep, low16)
    requires forall low :: low in ambig <==> Ambiguous(recs, low)
    requires forall t, c :: c in Get(tid16, t) <==> CarriesTid(recs, sids, t, c)
    requires forall root, c :: c in Get(roots, root) <==> Feeds(recs, sids, low16, ambig, uf.rep, root, c)
    modifies uf`p
    ensures uf.Valid()
    ensures Ascending(related) && forall c :: c in related <==> Related(recs, sids, tid, c)
  {
    hide Forest, Partition, CarriesTid, Feeds, Ambiguous, GraphOk, Related;
    related := Get(tid16, tid);
    var fulls := Get(low16, tid);
    var k := 0;
    while k < |fulls|
      invariant 0 <= k <= |fulls| && uf.Valid()
      invariant forall c :: c in related <==>
                  (c in Get(tid16, tid) || exists j :: 0 <= j < k && c in Get(roots, uf.rep(fulls[j])))
    {
      var root := uf.Find(fulls[k]);
      related := related + Get(roots, root);
      k := k + 1;
    }
    forall c
      ensures c in related <==> Related(recs, sids, tid, c)
    {
      RelatedIff(recs, sids, low16, ambig, uf.rep, tid, c);
    }
    related := SortDedup(related);
  }

  lemma RelatedIff(recs: seq<Rec>, sids: SidChains, low16: Index, ambig: set<nat>, rep: nat -> nat, tid: nat, c: nat)
    requires GraphOk(recs, rep, low16) && forall low :: low in ambig <==> Ambiguous(recs, low)
    ensures Related(recs, sids, tid, c) <==>
            (CarriesTid(recs, sids, tid, c) ||
             exists j :: 0 <= j < |Get(low16, tid)| &&
               Feeds(recs, sids, low16, ambig, rep, rep(Get(low16, tid)[j]), c))
  {
    hide Partition, CarriesTid, Ambiguous, Connected, Mentions, EdgesOf;
    var fulls := Get(low16, tid);
    if exists j :: 0 <= j < |fulls| && Feeds(recs, sids, low16, ambig, rep, rep(fulls[j]), c) {
      var j :| 0 <= j < |fulls| && Feeds(recs, sids, low16, ambig, rep, rep(fulls[j]), c);
      var other, g :| CarriesTid(recs, sids, other, c) && other !in ambig
                             && g in Get(low16, other) && rep(g) == rep(fulls[j]);
      SameRepIff(rep, EdgesOf(recs), fulls[j], g);
      assert Mentions(recs, tid, fulls[j]) by { assert fulls[j] in fulls; }
    }
    if Related(recs, sids, tid, c) && !CarriesTid(recs, sids, tid, c) {
      var other, f, g :| CarriesTid(recs, sids, other, c) && !Ambiguous(recs, other) &&
        Mentions(recs, tid, f) && Mentions(recs, other, g) && Connected(EdgesOf(recs), f, g);
      SameRepIff(rep, EdgesOf(recs), f, g);
      assert f in fulls;
      var j :| 0 <= j < |fulls| && fulls[j] == f;
      assert Feeds(recs, sids, low16, ambig, rep, rep(fulls[j]), c);
    }
  }

  /** The chain indexes of `sids` stay below `n`. */
  ghost predicate ChainsBelow(sids: SidChains, n: nat) {
    forall s, k :: s in sids && 0 <= k < |sids[s]| ==> sids[s][k].1 < n
  }

  lemma RelatedBelow(recs: seq<Rec>, sids: SidChains, n: nat, tid: nat, c: nat)
    requires ChainsBelow(sids, n) && Related(recs, sids, tid, c)
    ensures c < n
  {
    var other: nat :| CarriesTid(recs, sids, other, c);
    assert CarriesTid(recs, sids, other, c);
    var i: nat :| 0 <= i < |recs| && recs[i].tid == other && AttrChain(sids, recs[i]) == Some(c);
    var v := sids[recs[i].sid];
    assert (recs[i].pid, c) in v;
    var k :| 0 <= k < |v| && v[k] == (recs[i].pid, c);
  }

  /** The causality verdicts. A chain is proven iff some sink record proves it, the count is the number of those
      records, and every cached list is what recomputation would give. */
  method Link(recs: seq<Rec>, sids: SidChains, nChains: nat)
    returns (proven: seq<bool>, hits: seq<nat>, cache: Index)
    requires ChainsBelow(sids, nChains)
    ensures |proven| == |hits| == nChains
    ensures forall c :: 0 <= c < nChains ==> (proven[c] <==> exists i :: Proves(recs, sids, i, c))
    ensures forall c :: 0 <= c < nChains ==> hits[c] == |Provers(recs, sids, |recs|, c)|
    ensures forall t :: t in cache ==> Ascending(cache[t]) && forall c :: c in cache[t] <==> Concerns(recs, sids, t, c)
  {
    hide Provers, Proves, Concerns, Forest, Partition, CarriesTid, Feeds, Ambiguous, GraphOk, Related, ChainsBelow,
         Mentions, HitCount, EdgesOf, ProvenBy;
    var uf, low16 := BuildGraph(recs);
    GraphBuilt(recs, uf.rep, uf.edges, low16);
    var ambig := FindAmbiguous(uf, low16, recs);
    var tid16, roots := IndexChains(uf, recs, sids, low16, ambig);
    proven, hits, cache := seq(nChains, _ => false), seq(nChains, _ => 0), map[];
    NoHits(recs, sids);
    var i := 0;
    while i < |recs|
      invariant 0 <= i <= |recs| && uf.Valid() && |proven| == |hits| == nChains
      invariant GraphOk(recs, uf.rep, low16)
      invariant forall root, c :: c in Get(roots, root) <==> Feeds(recs, sids, low16, ambig, uf.rep, root, c)
      invariant forall c :: 0 <= c < nChains ==> hits[c] == HitCount(recs, sids, i, c) && (proven[c] <==> hits[c] > 0)
      invariant forall t :: t in cache ==> CacheOk(recs, sids, t, cache[t])
    {
      var r := recs[i];
      TrustedIff(recs, ambig, i);
      if r.isSink && r.tid != 0 && r.tid !in ambig {
        if r.tid !in cache {
          var related := RelatedChains(uf, recs, sids, low16, ambig, tid16, roots, r.tid);
          cache := cache[r.tid := related];
        }
        proven, hits := MarkAll(recs, sids, nChains, i, cache[r.tid], proven, hits);
      } else {
        NotProving(recs, sids, i);
      }
      i := i + 1;
    }
    forall c | 0 <= c < nChains
      ensures (proven[c] <==> exists i :: Proves(recs, sids, i, c)) && hits[c] == |Provers(recs, sids, |recs|, c)|
    {
      SomeProver(recs, sids, c);
    }
    forall t, c | t in cache
      ensures c in cache[t] <==> Concerns(recs, sids, t, c)
    {
      ConcernsIff(recs, sids, t, c);
    }
  }

  lemma SomeProver(recs: seq<Rec>, sids: SidChains, c: nat)
    ensures HitCount(recs, sids, |recs|, c) > 0 <==> exists i :: Proves(recs, sids, i, c)
    ensures HitCount(recs, sids, |recs|, c) == |Provers(recs, sids, |recs|, c)|
  {
    HitsAreProvers(recs, sids, |recs|, c);
    var all := Provers(recs, sids, |recs|, c);
    assert forall i: nat :: Proves(recs, sids, i, c) ==> i < |recs|;
    hide Proves, HitCount;
    if i: nat :| Proves(recs, sids, i, c) {
      assert i in all;
    }
    if all != {} {
      var i :| i in all;
      assert Proves(recs, sids, i, c);
    }
  }

  ghost predicate CacheOk(recs: seq<Rec>, sids: SidChains, tid: nat, v: seq<nat>) {
    Ascending(v) && forall c :: c in v <==> Related(recs, sids, tid, c)
  }

  lemma GraphBuilt(recs: seq<Rec>, rep: nat -> nat, edges: seq<Edge>, low16: Index)
    requires edges == EdgesOf(recs) && Partition(rep, edges)
    requires forall low, f :: f in Get(low16, low) <==> Mentions(recs, low, f)
    ensures GraphOk(recs, rep, low16)
  {
  }

  lemma NoHits(recs: seq<Rec>, sids: SidChains)
    ensures forall c :: HitCount(recs, sids, 0, c) == 0
  {
  }

  lemma TrustedIff(recs: seq<Rec>, ambig: set<nat>, i: nat)
    requires i < |recs| && forall low :: low in ambig <==> Ambiguous(recs, low)
    ensures TrustedSink(recs, i) <==> recs[i].isSink && recs[i].tid != 0 && recs[i].tid !in ambig
  {
  }

  lemma NotProving(recs: seq<Rec>, sids: SidChains, i: nat)
    requires i < |recs| && !TrustedSink(recs, i)
    ensures forall c :: HitCount(recs, sids, i + 1, c) == HitCount(recs, sids, i, c)
  {
  }

  /** Marks every chain of `v`, once each. */
  method MarkAll(ghost recs: seq<Rec>, ghost sids: SidChains, n: nat, ghost i: nat, v: seq<nat>,
                 proven0: seq<bool>, hits0: seq<nat>)
    returns (proven: seq<bool>, hits: seq<nat>)
    requires |proven0| == |hits0| == n && i < |recs| && ChainsBelow(sids, n) && TrustedSink(recs, i)
    requires CacheOk(recs, sids, recs[i].tid, v)
    requires forall c :: 0 <= c < n ==> hits0[c] == HitCount(recs, sids, i, c) && (proven0[c] <==> hits0[c] > 0)
    ensures |proven| == |hits| == n
    ensures forall c :: 0 <= c < n ==> hits[c] == HitCount(recs, sids, i + 1, c) && (proven[c] <==> hits[c] > 0)
  {
    forall c | c in v
      ensures c < n
    {
      RelatedBelow(recs, sids, n, recs[i].tid, c);
    }
    forall c
      ensures HitCount(recs, sids, i + 1, c) == HitCount(recs, sids, i, c) + if c in v then 1 else 0
    {
    }
    hide HitCount, ChainsBelow, Related, CacheOk;
    assert Ascending(v) by { CacheAscending(recs, sids, recs[i].tid, v); }
    proven, hits := proven0, hits0;
    var k := 0;
    while k < |v|
      invariant 0 <= k <= |v| && |proven| == |hits| == n
      invariant forall c :: 0 <= c < n ==>
                  hits[c] == hits0[c] + (if c in v[..k] then 1 else 0) && (proven[c] <==> hits[c] > 0)
    {
      var idx := v[k];
      assert v[..k + 1] == v[..k] + [idx];
      assert idx in v && idx !in v[..k];
      proven := proven[idx := true];
      hits := hits[idx := hits[idx] + 1];
      k := k + 1;
    }
    assert v[..k] == v;
  }

  lemma CacheAscending(recs: seq<Rec>, sids: SidChains, tid: nat, v: seq<nat>)
    requires CacheOk(recs, sids, tid, v)
    ensures Ascending(v)
  {
  }
}
