/**
 * One tick of the force layout, updatePhysics (graph.js:377-505), split into
 * its four passes over the visible nodes: reset forces, pairwise repulsion,
 * edge attraction, and integration with department containment. Each pass
 * takes the node list and the positions of the visible nodes in it (the
 * array of references the source iterates) and returns the updated list.
 *
 * The host's Math.sqrt is the parameter `sqrt`; nothing is assumed about it,
 * so the properties below hold whatever force magnitudes it yields.
 */
module Physics {
  import opened Wrappers
  import opened Seqs
  import opened Model

  const REPULSION_STRENGTH: real := 2000.0
  const ATTRACTION_STRENGTH: real := 0.1
  const DAMPING: real := 0.92
  const REPULSION_RANGE: real := 250.0
  /** Above this speed a node is damped further, by at most MIN_SPEED_DAMPING. */
  const FAST_SPEED: real := 0.1
  const MIN_SPEED_DAMPING: real := 0.8
  const SPEED_DAMPING_RATE: real := 0.01
  /** Below this speed a node's velocity is snapped to zero. */
  const SNAP_SPEED: real := 0.01
  /** Extra distance kept between a node's rim and its department's wall. */
  const BOUNDARY_PADDING: real := 10.0
  /** The fraction of speed kept by a bounce off a department wall. */
  const BOUNCE: real := 0.5

  /** The rest length an edge of kind `k` pulls or pushes its ends towards. */
  function TargetDistance(k: EdgeKind): real {
    match k
    case Mentor => 80.0
    case Assignment => 110.0
    case Member => 120.0
  }

  /** The length of `v` as the host computes it. */
  function Length(v: Vec, sqrt: real -> real): real {
    sqrt(v.x * v.x + v.y * v.y)
  }

  /** The push `b` receives from `a` (and `a` receives its negation), or None when they are out of range. */
  function Repulsion(a: Vec, b: Vec, sqrt: real -> real): (r: Option<Vec>)
    ensures r.Some? <==> 0.0 < Length(b.Minus(a), sqrt) < REPULSION_RANGE
  {
    var d := b.Minus(a);
    var distance := Length(d, sqrt);
    if 0.0 < distance < REPULSION_RANGE then
      var force := REPULSION_STRENGTH / (distance * distance);
      Some(Vec(d.x / distance * force, d.y / distance * force))
    else None
  }

  /** The pull the source of an edge receives (and its target receives the negation), or None at distance 0. */
  function Attraction(source: Vec, target: Vec, k: EdgeKind, sqrt: real -> real): (r: Option<Vec>)
    ensures r.Some? <==> Length(target.Minus(source), sqrt) > 0.0
  {
    var d := target.Minus(source);
    var distance := Length(d, sqrt);
    if distance > 0.0 then
      var force := (distance - TargetDistance(k)) * ATTRACTION_STRENGTH;
      Some(Vec(d.x / distance * force, d.y / distance * force))
    else None
  }

  /** Adds `f` to a node's accumulated force, unless the node is pinned. */
  function Exert(n: Node, f: Vec): Node {
    if n.fixed then n else n.(fx := n.fx + f.x, fy := n.fy + f.y)
  }

  // ---------------------------------------------------------------------------
  // Net force over the visible nodes

  /** `vis` lists distinct positions of `ns`, in increasing order. */
  ghost predicate ValidIndices(ns: seq<Node>, vis: seq<nat>) {
    StrictlyIncreasing(vis) && forall k :: 0 <= k < |vis| ==> vis[k] < |ns|
  }

  ghost predicate NoneFixed(ns: seq<Node>, vis: seq<nat>)
    requires forall k :: 0 <= k < |vis| ==> vis[k] < |ns|
  {
    forall k :: 0 <= k < |vis| ==> !ns[vis[k]].fixed
  }

  /** The sum of the forces accumulated on the nodes at `vis`. */
  ghost function NetForce(ns: seq<Node>, vis: seq<nat>): Vec
    requires forall k :: 0 <= k < |vis| ==> vis[k] < |ns|
  {
    if vis == [] then ORIGIN else ns[vis[0]].Force().Plus(NetForce(ns, vis[1..]))
  }

  /** Replacing one node changes the net force by the change in that node's force, if it is listed. */
  lemma {:induction false} NetForceUpdate(ns: seq<Node>, vis: seq<nat>, a: nat, n: Node)
    requires ValidIndices(ns, vis) && a < |ns|
    ensures NetForce(ns[a := n], vis) ==
              if a in vis then NetForce(ns, vis).Plus(n.Force().Minus(ns[a].Force())) else NetForce(ns, vis)
  {
    if vis != [] {
      assert ValidIndices(ns, vis[1..]);
      NetForceUpdate(ns, vis[1..], a, n);
      if vis[0] == a {
        assert a !in vis[1..];
      }
    }
  }

  /** Two node lists whose listed nodes carry the same forces have the same net force. */
  lemma {:induction false} NetForceFrame(a: seq<Node>, b: seq<Node>, vis: seq<nat>)
    requires forall k :: 0 <= k < |vis| ==> vis[k] < |a| && vis[k] < |b|
    requires forall k :: 0 <= k < |vis| ==> a[vis[k]].Force() == b[vis[k]].Force()
    ensures NetForce(a, vis) == NetForce(b, vis)
  {
    if vis != [] {
      NetForceFrame(a, b, vis[1..]);
    }
  }

  /** When every listed node carries zero force, the net force is zero. */
  lemma {:induction false} NetForceOfRest(ns: seq<Node>, vis: seq<nat>)
    requires forall k :: 0 <= k < |vis| ==> vis[k] < |ns| && ns[vis[k]].Force() == ORIGIN
    ensures NetForce(ns, vis) == ORIGIN
  {
    if vis != [] {
      NetForceOfRest(ns, vis[1..]);
    }
  }

  /**
   * Exerts `f` on the node at `a` and then the opposite force on the node at
   * `b`; only the forces of those two nodes can change, and pinned nodes
   * stay as they are.
   */
  function ExertPair(r: seq<Node>, a: nat, b: nat, f: Vec): (r': seq<Node>)
    requires a < |r| && b < |r|
    ensures |r'| == |r|
    ensures forall k :: 0 <= k < |r| ==> r'[k] == r[k].(fx := r'[k].fx, fy := r'[k].fy)
    ensures forall k :: 0 <= k < |r| && ((k != a && k != b) || r[k].fixed) ==> r'[k] == r[k]
  {
    var r1 := r[a := Exert(r[a], f)];
    r1[b := Exert(r1[b], f.Neg())]
  }

  /** Vector addition has ORIGIN as its unit. */
  lemma PlusOrigin(a: Vec)
    ensures a.Plus(ORIGIN) == a
  {
  }

  /** Vector addition is associative. */
  lemma PlusAssoc(a: Vec, b: Vec, c: Vec)
    ensures a.Plus(b).Plus(c) == a.Plus(b.Plus(c))
  {
  }

  /**
   * The share of `q` in an equal and opposite pair of forces, `f` on `a` and
   * its negation on `b`; nothing when `q` is both ends, where the two cancel.
   */
  function PairShare(a: nat, b: nat, f: Vec, q: nat): Vec {
    if q == a && q != b then f
    else if q == b && q != a then f.Neg()
    else ORIGIN
  }

  /** ExertPair adds `f` to the force of an unpinned `a` and its negation to that of an unpinned `b`. */
  lemma ExertPairForce(r: seq<Node>, a: nat, b: nat, f: Vec, k: nat)
    requires a < |r| && b < |r| && k < |r| && !r[k].fixed
    ensures ExertPair(r, a, b, f)[k].Force() ==
              r[k].Force().Plus(PairShare(a, b, f, k))
  {
  }

  /** The same, for nodes named by their positions in a list of distinct indices. */
  lemma ExertPairForceAt(r: seq<Node>, vis: seq<nat>, s: nat, g: nat, f: Vec, q: nat)
    requires ValidIndices(r, vis) && s < |vis| && g < |vis| && q < |vis| && !r[vis[q]].fixed
    ensures ExertPair(r, vis[s], vis[g], f)[vis[q]].Force() ==
              r[vis[q]].Force().Plus(PairShare(s, g, f, q))
  {
    assert vis[q] == vis[s] <==> q == s;
    assert vis[q] == vis[g] <==> q == g;
    ExertPairForce(r, vis[s], vis[g], f, vis[q]);
  }

  /** Equal and opposite: between two listed unpinned nodes, ExertPair leaves the net force unchanged. */
  lemma PairBalanced(r: seq<Node>, vis: seq<nat>, a: nat, b: nat, f: Vec)
    requires ValidIndices(r, vis) && a in vis && b in vis
    requires !r[a].fixed && !r[b].fixed
    ensures NetForce(ExertPair(r, a, b, f), vis) == NetForce(r, vis)
  {
    var r1 := r[a := Exert(r[a], f)];
    NetForceUpdate(r, vis, a, Exert(r[a], f));
    assert ValidIndices(r1, vis);
    NetForceUpdate(r1, vis, b, Exert(r1[b], f.Neg()));
  }

  /** The position in `vis` of the first listed node with id `id` (`visibleNodes.find`). */
  function FindVisible(ns: seq<Node>, vis: seq<nat>, id: string): (r: Option<nat>)
    requires forall k :: 0 <= k < |vis| ==> vis[k] < |ns|
    ensures r.Some? ==> r.value < |vis| && ns[vis[r.value]].id == id
    ensures r.Some? ==> forall q :: 0 <= q < r.value ==> ns[vis[q]].id != id
    ensures r.None? <==> forall q :: 0 <= q < |vis| ==> ns[vis[q]].id != id
  {
    FindFirst(vis, (k: nat) => k < |ns| && ns[k].id == id)
  }

  // ---------------------------------------------------------------------------
  // The force passes

  /** graph.js:389-394: zero the force of every visible unpinned node. */
  method ResetForces(ns: seq<Node>, vis: seq<nat>) returns (r: seq<Node>)
    requires ValidIndices(ns, vis)
    ensures |r| == |ns|
    ensures forall k :: 0 <= k < |ns| ==>
              r[k] == if k in vis && !ns[k].fixed then ns[k].(fx := 0.0, fy := 0.0) else ns[k]
  {
    r := ns;
    for p := 0 to |vis|
      invariant |r| == |ns|
      invariant forall k :: 0 <= k < |ns| ==>
                  r[k] == if k in vis[..p] && !ns[k].fixed then ns[k].(fx := 0.0, fy := 0.0) else ns[k]
    {
      var i := vis[p];
      assert i !in vis[..p];
      assert vis[..p + 1] == vis[..p] + [i];
      if !r[i].fixed {
        r := r[i := r[i].(fx := 0.0, fy := 0.0)];
      }
    }
    assert vis[..|vis|] == vis;
  }

  // ---------------------------------------------------------------------------
  // The force each pass adds to a visible node

  /** A contribution that may be absent counts as zero. */
  function OrZero(o: Option<Vec>): Vec {
    if o.Some? then o.value else ORIGIN
  }

  /**
   * The push the node at position `q` of `vis` receives from the pair it
   * forms with the node at position `p`: the later node of a pair is pushed
   * by the pair's repulsion, the earlier one by its negation.
   */
  function PairPush(ns: seq<Node>, vis: seq<nat>, sqrt: real -> real, p: nat, q: nat): Vec
    requires forall k :: 0 <= k < |vis| ==> vis[k] < |ns|
    requires p < |vis| && q < |vis|
  {
    if p < q then OrZero(Repulsion(ns[vis[p]].Position(), ns[vis[q]].Position(), sqrt))
    else if q < p then OrZero(Repulsion(ns[vis[q]].Position(), ns[vis[p]].Position(), sqrt)).Neg()
    else ORIGIN
  }

  /** The pushes on the node at position `q` from the pairs with positions below `m`. */
  function RepelUpTo(ns: seq<Node>, vis: seq<nat>, sqrt: real -> real, q: nat, m: nat): Vec
    requires forall k :: 0 <= k < |vis| ==> vis[k] < |ns|
    requires q < |vis| && m <= |vis|
  {
    if m == 0 then ORIGIN
    else RepelUpTo(ns, vis, sqrt, q, m - 1).Plus(PairPush(ns, vis, sqrt, m - 1, q))
  }

  /** graph.js:397-420: the repulsion the node at position `q` of `vis` accumulates in a tick. */
  function RepelOn(ns: seq<Node>, vis: seq<nat>, sqrt: real -> real, q: nat): Vec
    requires forall k :: 0 <= k < |vis| ==> vis[k] < |ns|
    requires q < |vis|
  {
    RepelUpTo(ns, vis, sqrt, q, |vis|)
  }

  /**
   * The pull edge `e` exerts on the node at position `q` of `vis`: its source
   * receives the pull and its target the negation, and an edge with an end
   * that is no visible node pulls nothing (graph.js:424-449).
   */
  function EdgePull(ns: seq<Node>, vis: seq<nat>, e: Edge, sqrt: real -> real, q: nat): Vec
    requires forall k :: 0 <= k < |vis| ==> vis[k] < |ns|
  {
    match (FindVisible(ns, vis, e.source), FindVisible(ns, vis, e.target))
    case (Some(s), Some(g)) =>
      var f := OrZero(Attraction(ns[vis[s]].Position(), ns[vis[g]].Position(), e.kind, sqrt));
      PairShare(s, g, f, q)
    case _ => ORIGIN
  }

  /** The pulls on the node at position `q` from the first `m` edges. */
  function AttractUpTo(ns: seq<Node>, vis: seq<nat>, edges: seq<Edge>, sqrt: real -> real, q: nat, m: nat): Vec
    requires forall k :: 0 <= k < |vis| ==> vis[k] < |ns|
    requires m <= |edges|
  {
    if m == 0 then ORIGIN
    else AttractUpTo(ns, vis, edges, sqrt, q, m - 1).Plus(EdgePull(ns, vis, edges[m - 1], sqrt, q))
  }

  /** graph.js:423-450: the attraction the node at position `q` of `vis` accumulates in a tick. */
  function AttractOn(ns: seq<Node>, vis: seq<nat>, edges: seq<Edge>, sqrt: real -> real, q: nat): Vec
    requires forall k :: 0 <= k < |vis| ==> vis[k] < |ns|
  {
    AttractUpTo(ns, vis, edges, sqrt, q, |edges|)
  }

  /** The force a tick accumulates on the unpinned node at position `q` of `vis`, starting from zero. */
  function Accumulated(ns: seq<Node>, vis: seq<nat>, edges: seq<Edge>, sqrt: real -> real, q: nat): Vec
    requires forall k :: 0 <= k < |vis| ==> vis[k] < |ns|
    requires q < |vis|
  {
    RepelOn(ns, vis, sqrt, q).Plus(AttractOn(ns, vis, edges, sqrt, q))
  }

  /** An edge pulls only on its own ends, and only when both ends are visible nodes. */
  lemma PullOnlyAtVisibleEnds(ns: seq<Node>, vis: seq<nat>, e: Edge, sqrt: real -> real, q: nat)
    requires forall k :: 0 <= k < |vis| ==> vis[k] < |ns|
    ensures EdgePull(ns, vis, e, sqrt, q) != ORIGIN ==>
              FindVisible(ns, vis, e.source).Some? && FindVisible(ns, vis, e.target).Some? &&
              (q == FindVisible(ns, vis, e.source).value || q == FindVisible(ns, vis, e.target).value)
  {
  }

  /** A node's repulsion depends only on where the visible nodes are. */
  lemma {:induction false} RepelUpToByPosition(a: seq<Node>, b: seq<Node>, vis: seq<nat>, sqrt: real -> real, q: nat, m: nat)
    requires forall k :: 0 <= k < |vis| ==> vis[k] < |a| && vis[k] < |b|
    requires forall k :: 0 <= k < |vis| ==> a[vis[k]].Position() == b[vis[k]].Position()
    requires q < |vis| && m <= |vis|
    ensures RepelUpTo(a, vis, sqrt, q, m) == RepelUpTo(b, vis, sqrt, q, m)
  {
    if m > 0 {
      RepelUpToByPosition(a, b, vis, sqrt, q, m - 1);
    }
  }

  /** The visible-node lookup depends only on the ids of the visible nodes. */
  lemma FindVisibleById(a: seq<Node>, b: seq<Node>, vis: seq<nat>, id: string)
    requires forall k :: 0 <= k < |vis| ==> vis[k] < |a| && vis[k] < |b|
    requires forall k :: 0 <= k < |vis| ==> a[vis[k]].id == b[vis[k]].id
    ensures FindVisible(a, vis, id) == FindVisible(b, vis, id)
  {
    var ra, rb := FindVisible(a, vis, id), FindVisible(b, vis, id);
    if ra.Some? && rb.Some? {
      assert !(ra.value < rb.value) && !(rb.value < ra.value);
    }
  }

  /** A node's attraction depends only on the ids and positions of the visible nodes. */
  lemma {:induction false} AttractUpToByPosition(a: seq<Node>, b: seq<Node>, vis: seq<nat>, edges: seq<Edge>,
                                                 sqrt: real -> real, q: nat, m: nat)
    requires forall k :: 0 <= k < |vis| ==> vis[k] < |a| && vis[k] < |b|
    requires forall k :: 0 <= k < |vis| ==> a[vis[k]].id == b[vis[k]].id && a[vis[k]].Position() == b[vis[k]].Position()
    requires m <= |edges|
    ensures AttractUpTo(a, vis, edges, sqrt, q, m) == AttractUpTo(b, vis, edges, sqrt, q, m)
  {
    if m > 0 {
      AttractUpToByPosition(a, b, vis, edges, sqrt, q, m - 1);
      EdgePullByPosition(a, b, vis, edges[m - 1], sqrt, q);
    }
  }

  /** An edge's pull depends only on the ids and positions of the visible nodes. */
  lemma EdgePullByPosition(a: seq<Node>, b: seq<Node>, vis: seq<nat>, e: Edge, sqrt: real -> real, q: nat)
    requires forall k :: 0 <= k < |vis| ==> vis[k] < |a| && vis[k] < |b|
    requires forall k :: 0 <= k < |vis| ==> a[vis[k]].id == b[vis[k]].id && a[vis[k]].Position() == b[vis[k]].Position()
    ensures EdgePull(a, vis, e, sqrt, q) == EdgePull(b, vis, e, sqrt, q)
  {
    FindVisibleById(a, b, vis, e.source);
    FindVisibleById(a, b, vis, e.target);
  }

  // ---------------------------------------------------------------------------
  // Progress of the repulsion pass

  /** The pass over pairs (i, j), i < j, in source order has handled pair {p, q} before reaching (i, j). */
  predicate PairDone(i: nat, j: nat, p: nat, q: nat) {
    if p < q then p < i || (p == i && q < j) else q < i || (q == i && p < j)
  }

  /** The pushes on the node at position `q` from pairs with positions below `m` handled before (i, j). */
  function RepelSoFar(ns: seq<Node>, vis: seq<nat>, sqrt: real -> real, i: nat, j: nat, q: nat, m: nat): Vec
    requires forall k :: 0 <= k < |vis| ==> vis[k] < |ns|
    requires q < |vis| && m <= |vis|
  {
    if m == 0 then ORIGIN
    else RepelSoFar(ns, vis, sqrt, i, j, q, m - 1).Plus(
           if PairDone(i, j, m - 1, q) then PairPush(ns, vis, sqrt, m - 1, q) else ORIGIN)
  }

  /** Two stages of the pass that have handled the same pairs at `q` have pushed it alike. */
  lemma {:induction false} RepelSoFarAgree(ns: seq<Node>, vis: seq<nat>, sqrt: real -> real,
                                           i: nat, j: nat, i': nat, j': nat, q: nat, m: nat)
    requires forall k :: 0 <= k < |vis| ==> vis[k] < |ns|
    requires q < |vis| && m <= |vis|
    requires forall p :: 0 <= p < m && p != q ==> (PairDone(i, j, p, q) <==> PairDone(i', j', p, q))
    ensures RepelSoFar(ns, vis, sqrt, i, j, q, m) == RepelSoFar(ns, vis, sqrt, i', j', q, m)
  {
    if m > 0 {
      RepelSoFarAgree(ns, vis, sqrt, i, j, i', j', q, m - 1);
    }
  }

  /** Before the first pair, nothing has been pushed. */
  lemma {:induction false} RepelSoFarNone(ns: seq<Node>, vis: seq<nat>, sqrt: real -> real, q: nat, m: nat)
    requires forall k :: 0 <= k < |vis| ==> vis[k] < |ns|
    requires q < |vis| && m <= |vis|
    ensures RepelSoFar(ns, vis, sqrt, 0, 0, q, m) == ORIGIN
  {
    if m > 0 {
      RepelSoFarNone(ns, vis, sqrt, q, m - 1);
    }
  }

  /** After the last pair, every push has been made. */
  lemma {:induction false} RepelSoFarAll(ns: seq<Node>, vis: seq<nat>, sqrt: real -> real, q: nat, m: nat)
    requires forall k :: 0 <= k < |vis| ==> vis[k] < |ns|
    requires q < |vis| && m <= |vis|
    ensures RepelSoFar(ns, vis, sqrt, |vis|, |vis|, q, m) == RepelUpTo(ns, vis, sqrt, q, m)
  {
    if m > 0 {
      RepelSoFarAll(ns, vis, sqrt, q, m - 1);
    }
  }

  /** Handling pair (i, j) adds its push to the nodes at positions i and j and to no other. */
  lemma {:induction false} RepelSoFarStep(ns: seq<Node>, vis: seq<nat>, sqrt: real -> real, i: nat, j: nat, q: nat, m: nat)
    requires forall k :: 0 <= k < |vis| ==> vis[k] < |ns|
    requires i < j < |vis| && q < |vis| && m <= |vis|
    ensures RepelSoFar(ns, vis, sqrt, i, j + 1, q, m) ==
              RepelSoFar(ns, vis, sqrt, i, j, q, m).Plus(
                if q == i && j < m then PairPush(ns, vis, sqrt, j, i)
                else if q == j && i < m then PairPush(ns, vis, sqrt, i, j)
                else ORIGIN)
  {
    if m > 0 {
      RepelSoFarStep(ns, vis, sqrt, i, j, q, m - 1);
    }
  }

  /** Every visible unpinned node of `r` carries its force in `ns` plus the pushes handled before (i, j). */
  ghost predicate Repelled(r: seq<Node>, ns: seq<Node>, vis: seq<nat>, sqrt: real -> real, i: nat, j: nat)
    requires ValidIndices(ns, vis) && |r| == |ns|
  {
    forall q :: 0 <= q < |vis| && !ns[vis[q]].fixed ==>
      r[vis[q]].Force() == ns[vis[q]].Force().Plus(RepelSoFar(ns, vis, sqrt, i, j, q, |vis|))
  }

  /**
   * graph.js:404-418: the result of handling pair (i, j) in the repulsion
   * pass, starting from `r`: a push `f` within range moves the earlier node
   * of the pair by -f and the later one by f.
   */
  function PushPair(r: seq<Node>, ns: seq<Node>, vis: seq<nat>, sqrt: real -> real, i: nat, j: nat): (r': seq<Node>)
    requires ValidIndices(ns, vis) && |r| == |ns| && i < |vis| && j < |vis|
    ensures |r'| == |r|
  {
    var push := Repulsion(ns[vis[i]].Position(), ns[vis[j]].Position(), sqrt);
    if push.Some? then ExertPair(r, vis[i], vis[j], push.value.Neg()) else r
  }

  /** Handling pair (i, j) moves the force of the node at position `q` by exactly that node's push. */
  lemma RepelPairAt(r: seq<Node>, ns: seq<Node>, vis: seq<nat>, sqrt: real -> real, i: nat, j: nat, q: nat)
    requires ValidIndices(ns, vis) && |r| == |ns| && i < j < |vis| && q < |vis|
    requires !r[vis[q]].fixed
    requires r[vis[q]].Force() == ns[vis[q]].Force().Plus(RepelSoFar(ns, vis, sqrt, i, j, q, |vis|))
    ensures PushPair(r, ns, vis, sqrt, i, j)[vis[q]].Force() ==
              ns[vis[q]].Force().Plus(RepelSoFar(ns, vis, sqrt, i, j + 1, q, |vis|))
  {
    RepelSoFarStep(ns, vis, sqrt, i, j, q, |vis|);
    var push := Repulsion(ns[vis[i]].Position(), ns[vis[j]].Position(), sqrt);
    var before := RepelSoFar(ns, vis, sqrt, i, j, q, |vis|);
    var after := RepelSoFar(ns, vis, sqrt, i, j + 1, q, |vis|);
    if q == i {
      assert after == before.Plus(OrZero(push).Neg());
    } else if q == j {
      assert after == before.Plus(OrZero(push));
    } else {
      assert after == before.Plus(ORIGIN);
    }
    if push.Some? {
      ExertPairForceAt(r, vis, i, j, push.value.Neg(), q);
    }
  }

  /** One step of the inner repulsion loop keeps both loop invariants, one pair further on. */
  lemma RepelledStep(r: seq<Node>, r': seq<Node>, ns: seq<Node>, vis: seq<nat>, sqrt: real -> real, i: nat, j: nat)
    requires ValidIndices(ns, vis) && i < j < |vis|
    requires OnlyForcesMoved(r, ns, vis) && Repelled(r, ns, vis, sqrt, i, j)
    requires r' == PushPair(r, ns, vis, sqrt, i, j)
    ensures |r'| == |ns| && OnlyForcesMoved(r', ns, vis) && Repelled(r', ns, vis, sqrt, i, j + 1)
  {
    var push := Repulsion(ns[vis[i]].Position(), ns[vis[j]].Position(), sqrt);
    if push.Some? {
      OnlyForcesMovedStep(r, ns, vis, vis[i], vis[j], push.value.Neg());
    }
    forall q | 0 <= q < |vis| && !ns[vis[q]].fixed
      ensures r'[vis[q]].Force() == ns[vis[q]].Force().Plus(RepelSoFar(ns, vis, sqrt, i, j + 1, q, |vis|))
    {
      RepelPairAt(r, ns, vis, sqrt, i, j, q);
    }
  }

  /** Before the first pair, `ns` itself satisfies Repelled. */
  lemma RepelledNone(ns: seq<Node>, vis: seq<nat>, sqrt: real -> real)
    requires ValidIndices(ns, vis)
    ensures OnlyForcesMoved(ns, ns, vis) && Repelled(ns, ns, vis, sqrt, 0, 0)
  {
    forall q | 0 <= q < |vis| && !ns[vis[q]].fixed
      ensures ns[vis[q]].Force() == ns[vis[q]].Force().Plus(RepelSoFar(ns, vis, sqrt, 0, 0, q, |vis|))
    {
      RepelSoFarNone(ns, vis, sqrt, q, |vis|);
    }
  }

  /** After the last pair, Repelled says each node carries its RepelOn. */
  lemma RepelledAll(r: seq<Node>, ns: seq<Node>, vis: seq<nat>, sqrt: real -> real)
    requires ValidIndices(ns, vis) && |r| == |ns| && Repelled(r, ns, vis, sqrt, |vis|, |vis|)
    ensures forall q :: 0 <= q < |vis| && !ns[vis[q]].fixed ==>
              r[vis[q]].Force() == ns[vis[q]].Force().Plus(RepelOn(ns, vis, sqrt, q))
  {
    forall q | 0 <= q < |vis| && !ns[vis[q]].fixed
      ensures r[vis[q]].Force() == ns[vis[q]].Force().Plus(RepelOn(ns, vis, sqrt, q))
    {
      RepelSoFarAll(ns, vis, sqrt, q, |vis|);
    }
  }

  /** Stages of the pass that have handled the same pairs satisfy Repelled alike. */
  lemma RepelledAgree(r: seq<Node>, ns: seq<Node>, vis: seq<nat>, sqrt: real -> real, i: nat, j: nat, i': nat, j': nat)
    requires ValidIndices(ns, vis) && |r| == |ns|
    requires forall p, q :: 0 <= p < |vis| && 0 <= q < |vis| && p != q ==> (PairDone(i, j, p, q) <==> PairDone(i', j', p, q))
    requires Repelled(r, ns, vis, sqrt, i, j)
    ensures Repelled(r, ns, vis, sqrt, i', j')
  {
    forall q | 0 <= q < |vis| && !ns[vis[q]].fixed
      ensures r[vis[q]].Force() == ns[vis[q]].Force().Plus(RepelSoFar(ns, vis, sqrt, i', j', q, |vis|))
    {
      RepelSoFarAgree(ns, vis, sqrt, i, j, i', j', q, |vis|);
    }
  }

  // ---------------------------------------------------------------------------
  // Progress of the attraction pass

  /** Every visible unpinned node of `r` carries its force in `ns` plus the pulls of the first `m` edges. */
  ghost predicate Attracted(r: seq<Node>, ns: seq<Node>, vis: seq<nat>, edges: seq<Edge>, sqrt: real -> real, m: nat)
    requires ValidIndices(ns, vis) && |r| == |ns| && m <= |edges|
  {
    forall q :: 0 <= q < |vis| && !ns[vis[q]].fixed ==>
      r[vis[q]].Force() == ns[vis[q]].Force().Plus(AttractUpTo(ns, vis, edges, sqrt, q, m))
  }

  /** An edge whose ends are both visible pulls its source by its pull and its target by the negation. */
  lemma EdgePullBetween(ns: seq<Node>, vis: seq<nat>, e: Edge, sqrt: real -> real, q: nat)
    requires forall k :: 0 <= k < |vis| ==> vis[k] < |ns|
    requires FindVisible(ns, vis, e.source).Some? && FindVisible(ns, vis, e.target).Some?
    ensures var s, g := FindVisible(ns, vis, e.source).value, FindVisible(ns, vis, e.target).value;
            var f := OrZero(Attraction(ns[vis[s]].Position(), ns[vis[g]].Position(), e.kind, sqrt));
            EdgePull(ns, vis, e, sqrt, q) == PairShare(s, g, f, q)
  {
  }

  /**
   * Exerting a pull `f` (if there is one) between the nodes at positions `s`
   * and `g` of `vis` moves the force of the node at position `q` by `f` if it
   * is the source, by the negation if it is the target, and not otherwise.
   */
  lemma PullAt(r: seq<Node>, vis: seq<nat>, s: nat, g: nat, pull: Option<Vec>, q: nat)
    requires ValidIndices(r, vis) && s < |vis| && g < |vis| && q < |vis| && !r[vis[q]].fixed
    ensures var r' := if pull.Some? then ExertPair(r, vis[s], vis[g], pull.value) else r;
            var f := OrZero(pull);
            r'[vis[q]].Force() == r[vis[q]].Force().Plus(PairShare(s, g, f, q))
  {
    if pull.Some? {
      ExertPairForceAt(r, vis, s, g, pull.value, q);
    } else {
      PlusOrigin(r[vis[q]].Force());
    }
  }

  /** The result of handling edge `e` in the attraction pass, starting from `r`. */
  function PullEdge(r: seq<Node>, ns: seq<Node>, vis: seq<nat>, e: Edge, sqrt: real -> real): (r': seq<Node>)
    requires ValidIndices(ns, vis) && |r| == |ns|
    ensures |r'| == |r|
  {
    var source := FindVisible(ns, vis, e.source);
    var target := FindVisible(ns, vis, e.target);
    if source.Some? && target.Some? then
      var s, g := vis[source.value], vis[target.value];
      var pull := Attraction(ns[s].Position(), ns[g].Position(), e.kind, sqrt);
      if pull.Some? then ExertPair(r, s, g, pull.value) else r
    else r
  }

  /** Handling edge `e` moves the force of the unpinned node at position `q` by exactly that edge's pull on it. */
  lemma PullEdgeAt(r: seq<Node>, ns: seq<Node>, vis: seq<nat>, e: Edge, sqrt: real -> real, q: nat)
    requires ValidIndices(ns, vis) && |r| == |ns| && q < |vis| && !r[vis[q]].fixed
    ensures PullEdge(r, ns, vis, e, sqrt)[vis[q]].Force() == r[vis[q]].Force().Plus(EdgePull(ns, vis, e, sqrt, q))
  {
    var source := FindVisible(ns, vis, e.source);
    var target := FindVisible(ns, vis, e.target);
    if source.Some? && target.Some? {
      var s, g := source.value, target.value;
      EdgePullBetween(ns, vis, e, sqrt, q);
      PullAt(r, vis, s, g, Attraction(ns[vis[s]].Position(), ns[vis[g]].Position(), e.kind, sqrt), q);
    } else {
      PlusOrigin(r[vis[q]].Force());
    }
  }

  /** One step of the attraction loop keeps Attracted, one edge further on. */
  lemma AttractedStep(r: seq<Node>, ns: seq<Node>, vis: seq<nat>, edges: seq<Edge>, sqrt: real -> real, m: nat)
    requires ValidIndices(ns, vis) && |r| == |ns| && m < |edges|
    requires forall k :: 0 <= k < |ns| ==> r[k].fixed == ns[k].fixed
    requires OnlyForcesMoved(r, ns, vis) && Attracted(r, ns, vis, edges, sqrt, m)
    ensures OnlyForcesMoved(PullEdge(r, ns, vis, edges[m], sqrt), ns, vis)
    ensures Attracted(PullEdge(r, ns, vis, edges[m], sqrt), ns, vis, edges, sqrt, m + 1)
  {
    var r' := PullEdge(r, ns, vis, edges[m], sqrt);
    var source := FindVisible(ns, vis, edges[m].source);
    var target := FindVisible(ns, vis, edges[m].target);
    if source.Some? && target.Some? {
      var s, g := vis[source.value], vis[target.value];
      var pull := Attraction(ns[s].Position(), ns[g].Position(), edges[m].kind, sqrt);
      if pull.Some? {
        OnlyForcesMovedStep(r, ns, vis, s, g, pull.value);
      }
    }
    forall q | 0 <= q < |vis| && !ns[vis[q]].fixed
      ensures r'[vis[q]].Force() == ns[vis[q]].Force().Plus(AttractUpTo(ns, vis, edges, sqrt, q, m + 1))
    {
      PullEdgeAt(r, ns, vis, edges[m], sqrt, q);
      PlusAssoc(ns[vis[q]].Force(), AttractUpTo(ns, vis, edges, sqrt, q, m), EdgePull(ns, vis, edges[m], sqrt, q));
    }
  }

  // ---------------------------------------------------------------------------
  // The repulsion and attraction passes

  /**
   * What a force pass may do to `ns`: change only the forces of visible
   * unpinned nodes, and, with no pinned node, keep the net force.
   */
  ghost predicate OnlyForcesMoved(r: seq<Node>, ns: seq<Node>, vis: seq<nat>)
    requires ValidIndices(ns, vis)
  {
    && |r| == |ns|
    && (forall k :: 0 <= k < |ns| ==> r[k] == ns[k].(fx := r[k].fx, fy := r[k].fy))
    && (forall k :: 0 <= k < |ns| && (k !in vis || ns[k].fixed) ==> r[k] == ns[k])
    && (NoneFixed(ns, vis) ==> NetForce(r, vis) == NetForce(ns, vis))
  }

  /** An equal and opposite pair of forces between two visible nodes is something a force pass may do. */
  lemma OnlyForcesMovedStep(r: seq<Node>, ns: seq<Node>, vis: seq<nat>, a: nat, b: nat, f: Vec)
    requires ValidIndices(ns, vis) && OnlyForcesMoved(r, ns, vis)
    requires a in vis && b in vis
    ensures OnlyForcesMoved(ExertPair(r, a, b, f), ns, vis)
  {
    if NoneFixed(ns, vis) {
      PairBalanced(r, vis, a, b, f);
    }
  }

  /**
   * graph.js:397-420: every unordered pair of visible nodes within range
   * pushes apart; only unpinned nodes' forces change, each by exactly the
   * pushes RepelOn sums, and with no pinned node the pushes cancel in the
   * net force. Positions do not change in this pass, so the pushes are
   * computed from `ns`.
   */
  method Repel(ns: seq<Node>, vis: seq<nat>, sqrt: real -> real) returns (r: seq<Node>)
    requires ValidIndices(ns, vis)
    ensures |r| == |ns|
    ensures forall k :: 0 <= k < |ns| ==> r[k] == ns[k].(fx := r[k].fx, fy := r[k].fy)
    ensures forall k :: 0 <= k < |ns| && (k !in vis || ns[k].fixed) ==> r[k] == ns[k]
    ensures forall q :: 0 <= q < |vis| && !ns[vis[q]].fixed ==>
              r[vis[q]].Force() == ns[vis[q]].Force().Plus(RepelOn(ns, vis, sqrt, q))
    ensures NoneFixed(ns, vis) ==> NetForce(r, vis) == NetForce(ns, vis)
  {
    r := ns;
    RepelledNone(ns, vis, sqrt);
    for i := 0 to |vis|
      invariant |r| == |ns| && OnlyForcesMoved(r, ns, vis)
      invariant Repelled(r, ns, vis, sqrt, i, i)
    {
      RepelledAgree(r, ns, vis, sqrt, i, i, i, i + 1);
      for j := i + 1 to |vis|
        invariant |r| == |ns| && OnlyForcesMoved(r, ns, vis)
        invariant Repelled(r, ns, vis, sqrt, i, j)
      {
        ghost var before := r;
        r := PushPair(r, ns, vis, sqrt, i, j);
        RepelledStep(before, r, ns, vis, sqrt, i, j);
      }
      RepelledAgree(r, ns, vis, sqrt, i, |vis|, i + 1, i + 1);
    }
    RepelledAll(r, ns, vis, sqrt);
  }

  /**
   * graph.js:423-450: each visible edge whose ends are both visible pulls its
   * source by a vector and its target by the negation of that vector; only
   * unpinned nodes' forces change, each by exactly the pulls AttractOn sums.
   * Ids and positions do not change in this pass, so lookups and pulls are
   * computed from `ns`.
   */
  method Attract(ns: seq<Node>, vis: seq<nat>, edges: seq<Edge>, sqrt: real -> real) returns (r: seq<Node>)
    requires ValidIndices(ns, vis)
    ensures |r| == |ns|
    ensures forall k :: 0 <= k < |ns| ==> r[k] == ns[k].(fx := r[k].fx, fy := r[k].fy)
    ensures forall k :: 0 <= k < |ns| && (k !in vis || ns[k].fixed) ==> r[k] == ns[k]
    ensures forall q :: 0 <= q < |vis| && !ns[vis[q]].fixed ==>
              r[vis[q]].Force() == ns[vis[q]].Force().Plus(AttractOn(ns, vis, edges, sqrt, q))
    ensures NoneFixed(ns, vis) ==> NetForce(r, vis) == NetForce(ns, vis)
  {
    r := ns;
    for m := 0 to |edges|
      invariant |r| == |ns| && OnlyForcesMoved(r, ns, vis)
      invariant Attracted(r, ns, vis, edges, sqrt, m)
    {
      var e := edges[m];
      var source := FindVisible(ns, vis, e.source);
      var target := FindVisible(ns, vis, e.target);
      AttractedStep(r, ns, vis, edges, sqrt, m);
      ghost var next := PullEdge(r, ns, vis, e, sqrt);
      if source.Some? && target.Some? {
        var s, g := vis[source.value], vis[target.value];
        var pull := Attraction(ns[s].Position(), ns[g].Position(), e.kind, sqrt);
        if pull.Some? {
          r := ExertPair(r, s, g, pull.value);
        }
      }
      assert r == next;
    }
  }

  // ---------------------------------------------------------------------------
  // Integration and department containment

  /** The distance a node of kind `k` keeps from its department's walls. */
  function Margin(k: NodeKind): real {
    Radius(k) + BOUNDARY_PADDING
  }

  /**
   * graph.js:485-499, one axis: a position below `lo` is moved to `lo` and
   * bounces up at half speed; then one above `hi` is moved to `hi` and
   * bounces down at half speed.
   */
  function ClampAxis(p: real, v: real, lo: real, hi: real): (r: (real, real))
    ensures lo <= hi ==> lo <= r.0 <= hi
    ensures lo <= p <= hi ==> r == (p, v)
    ensures lo <= hi && p < lo ==> r.0 == lo && r.1 >= 0.0 && Abs(r.1) == Abs(v) * BOUNCE
    ensures lo <= hi && hi < p ==> r.0 == hi && r.1 <= 0.0 && Abs(r.1) == Abs(v) * BOUNCE
    ensures hi < lo ==> r.0 == hi
    ensures Abs(r.1) <= Abs(v)
  {
    var low := if p < lo then (lo, Abs(v) * BOUNCE) else (p, v);
    if low.0 > hi then (hi, -Abs(low.1) * BOUNCE) else low
  }

  /** The department whose box holds a node, if the node names one that exists. */
  function HomeDepartment(n: Node, depts: seq<Department>): (r: Option<Department>)
    ensures r.Some? ==> r.value in depts && r.value.id == n.department
    ensures r.None? <==> n.department == "" || forall k :: 0 <= k < |depts| ==> depts[k].id != n.department
  {
    if n.department == "" then None
    else
      match FindDepartment(depts, n.department)
      case None => None
      case Some(k) => Some(depts[k])
  }

  /** The box is at least two margins wide and high, so the shrunk box is not empty. */
  predicate BoxFits(d: Department, k: NodeKind) {
    d.width >= 2.0 * Margin(k) && d.height >= 2.0 * Margin(k)
  }

  /** The node's centre lies in its department's box shrunk by its margin. */
  predicate InsideBox(n: Node, d: Department) {
    var m := Margin(n.Kind());
    d.x - d.width / 2.0 + m <= n.x <= d.x + d.width / 2.0 - m &&
    d.y - d.height / 2.0 + m <= n.y <= d.y + d.height / 2.0 - m
  }

  /** graph.js:470-502: keep a node inside its department, bouncing off the walls. */
  function Contain(n: Node, depts: seq<Department>): (r: Node)
    ensures r == n.(x := r.x, y := r.y, vx := r.vx, vy := r.vy)
    ensures HomeDepartment(n, depts).None? ==> r == n
    ensures HomeDepartment(n, depts).Some? && InsideBox(n, HomeDepartment(n, depts).value) ==> r == n
    ensures HomeDepartment(n, depts).Some? && BoxFits(HomeDepartment(n, depts).value, n.Kind()) ==>
              InsideBox(r, HomeDepartment(n, depts).value)
    ensures Abs(r.vx) <= Abs(n.vx) && Abs(r.vy) <= Abs(n.vy)
  {
    match HomeDepartment(n, depts)
    case None => n
    case Some(d) =>
      var m := Margin(n.Kind());
      var cx := ClampAxis(n.x, n.vx, d.x - d.width / 2.0 + m, d.x + d.width / 2.0 - m);
      var cy := ClampAxis(n.y, n.vy, d.y - d.height / 2.0 + m, d.y + d.height / 2.0 - m);
      n.(x := cx.0, vx := cx.1, y := cy.0, vy := cy.1)
  }

  /** graph.js:453-454: the velocity after adding the force and damping. */
  function Damped(n: Node): Vec {
    Vec((n.vx + n.fx) * DAMPING, (n.vy + n.fy) * DAMPING)
  }

  /**
   * graph.js:457-466: a fast node loses up to a fifth of its speed more, a
   * nearly still one is stopped; the direction is never reversed.
   */
  function Settle(v: Vec, sqrt: real -> real): (r: Vec)
    ensures Abs(r.x) <= Abs(v.x) && Abs(r.y) <= Abs(v.y)
    ensures (v.x >= 0.0 ==> r.x >= 0.0) && (v.x <= 0.0 ==> r.x <= 0.0)
    ensures (v.y >= 0.0 ==> r.y >= 0.0) && (v.y <= 0.0 ==> r.y <= 0.0)
    ensures Length(v, sqrt) < SNAP_SPEED ==> r == ORIGIN
    ensures SNAP_SPEED <= Length(v, sqrt) <= FAST_SPEED ==> r == v
  {
    var speed := Length(v, sqrt);
    if speed > FAST_SPEED then
      var factor := Max(MIN_SPEED_DAMPING, 1.0 - speed * SPEED_DAMPING_RATE);
      assert MIN_SPEED_DAMPING <= factor <= 1.0;
      ScaleShrinks(v.x, factor);
      ScaleShrinks(v.y, factor);
      Vec(v.x * factor, v.y * factor)
    else if speed < SNAP_SPEED then ORIGIN
    else v
  }

  lemma ScaleShrinks(x: real, c: real)
    requires 0.0 <= c <= 1.0
    ensures Abs(x * c) <= Abs(x)
    ensures (x >= 0.0 ==> x * c >= 0.0) && (x <= 0.0 ==> x * c <= 0.0)
  {
    var d := 1.0 - c;
    assert x * c == x - x * d;
    if x >= 0.0 {
      NonNegProduct(x, c);
      NonNegProduct(x, d);
    } else {
      NonNegProduct(-x, c);
      NonNegProduct(-x, d);
    }
  }

  lemma NonNegProduct(x: real, c: real)
    requires x >= 0.0 && c >= 0.0
    ensures x * c >= 0.0
  {
  }

  /**
   * graph.js:453-502 for one unpinned node: damp, settle, move, contain.
   * The node moves by its settled velocity and keeps it, unless the move
   * leaves its department's shrunk box. Only position and velocity change;
   * the speed never exceeds that of the damped velocity; a nearly still node
   * stops dead; a node whose department exists ends inside that
   * department's box shrunk by its margin, when the box is at least two
   * margins (radius + 10) across.
   */
  function Integrate(n: Node, depts: seq<Department>, sqrt: real -> real): (r: Node)
    ensures r == n.(x := r.x, y := r.y, vx := r.vx, vy := r.vy)
    ensures Abs(r.vx) <= Abs(Damped(n).x) && Abs(r.vy) <= Abs(Damped(n).y)
    ensures Length(Damped(n), sqrt) < SNAP_SPEED ==> r.vx == 0.0 && r.vy == 0.0
    ensures HomeDepartment(n, depts).Some? && BoxFits(HomeDepartment(n, depts).value, n.Kind()) ==>
              InsideBox(r, HomeDepartment(n, depts).value)
    ensures var v := Settle(Damped(n), sqrt);
            var moved := n.(x := n.x + v.x, y := n.y + v.y, vx := v.x, vy := v.y);
            HomeDepartment(n, depts).None? || InsideBox(moved, HomeDepartment(n, depts).value) ==> r == moved
  {
    var v := Settle(Damped(n), sqrt);
    Contain(n.(vx := v.x, vy := v.y, x := n.x + v.x, y := n.y + v.y), depts)
  }

  /** graph.js:451-504: integrate every visible unpinned node; every other node is left as it is. */
  method IntegrateAll(ns: seq<Node>, vis: seq<nat>, depts: seq<Department>, sqrt: real -> real) returns (r: seq<Node>)
    requires ValidIndices(ns, vis)
    ensures |r| == |ns|
    ensures forall k :: 0 <= k < |ns| ==>
              r[k] == if k in vis && !ns[k].fixed then Integrate(ns[k], depts, sqrt) else ns[k]
  {
    r := ns;
    for p := 0 to |vis|
      invariant |r| == |ns|
      invariant forall k :: 0 <= k < |ns| ==>
                  r[k] == if k in vis[..p] && !ns[k].fixed then Integrate(ns[k], depts, sqrt) else ns[k]
    {
      var i := vis[p];
      assert i !in vis[..p];
      assert vis[..p + 1] == vis[..p] + [i];
      if !r[i].fixed {
        r := r[i := Integrate(r[i], depts, sqrt)];
      }
    }
    assert vis[..|vis|] == vis;
  }

  /** The visible nodes of `a` and `b` have the same ids and positions. */
  ghost predicate SamePlaces(a: seq<Node>, b: seq<Node>, vis: seq<nat>)
    requires forall k :: 0 <= k < |vis| ==> vis[k] < |a| && vis[k] < |b|
  {
    forall k :: 0 <= k < |vis| ==> a[vis[k]].id == b[vis[k]].id && a[vis[k]].Position() == b[vis[k]].Position()
  }

  /**
   * Resetting forces and then running two passes that change only forces
   * keeps every visible node's id and position, and leaves every node but
   * its forces, and every hidden or pinned node entirely, as it was.
   */
  lemma PassesMoveOnlyForces(ns: seq<Node>, reset: seq<Node>, repelled: seq<Node>, pulled: seq<Node>, vis: seq<nat>)
    requires ValidIndices(ns, vis) && |reset| == |ns| && |repelled| == |ns| && |pulled| == |ns|
    requires forall k :: 0 <= k < |ns| ==>
               reset[k] == if k in vis && !ns[k].fixed then ns[k].(fx := 0.0, fy := 0.0) else ns[k]
    requires forall k :: 0 <= k < |ns| ==> repelled[k] == reset[k].(fx := repelled[k].fx, fy := repelled[k].fy)
    requires forall k :: 0 <= k < |ns| && (k !in vis || reset[k].fixed) ==> repelled[k] == reset[k]
    requires forall k :: 0 <= k < |ns| ==> pulled[k] == repelled[k].(fx := pulled[k].fx, fy := pulled[k].fy)
    requires forall k :: 0 <= k < |ns| && (k !in vis || repelled[k].fixed) ==> pulled[k] == repelled[k]
    ensures SamePlaces(reset, ns, vis) && SamePlaces(repelled, ns, vis)
    ensures forall k :: 0 <= k < |ns| ==> pulled[k] == ns[k].(fx := pulled[k].fx, fy := pulled[k].fy)
    ensures forall k :: 0 <= k < |ns| && (k !in vis || ns[k].fixed) ==> pulled[k] == ns[k]
  {
  }

  /** With no visible node pinned, forces reset to zero and moved by two balanced passes sum to zero. */
  lemma PassesBalance(ns: seq<Node>, reset: seq<Node>, repelled: seq<Node>, pulled: seq<Node>, vis: seq<nat>)
    requires ValidIndices(ns, vis) && |reset| == |ns| && |repelled| == |ns| && |pulled| == |ns|
    requires NoneFixed(ns, vis)
    requires forall k :: 0 <= k < |ns| ==>
               reset[k] == if k in vis && !ns[k].fixed then ns[k].(fx := 0.0, fy := 0.0) else ns[k]
    requires forall k :: 0 <= k < |ns| ==> repelled[k] == reset[k].(fx := repelled[k].fx, fy := repelled[k].fy)
    requires NoneFixed(reset, vis) ==> NetForce(repelled, vis) == NetForce(reset, vis)
    requires NoneFixed(repelled, vis) ==> NetForce(pulled, vis) == NetForce(repelled, vis)
    ensures NetForce(pulled, vis) == ORIGIN
  {
    forall k | 0 <= k < |vis|
      ensures reset[vis[k]].Force() == ORIGIN && !reset[vis[k]].fixed && !repelled[vis[k]].fixed
    {
      assert vis[k] in vis;
    }
    NetForceOfRest(reset, vis);
  }

  /**
   * A force reset to zero, then moved by the repulsion pass over `reset` and
   * the attraction pass over `repelled`, is the force Accumulated over `ns`
   * when none of the passes moved or renamed a visible node.
   */
  lemma AccumulatedFromZero(ns: seq<Node>, reset: seq<Node>, repelled: seq<Node>, pulled: seq<Node>,
                            vis: seq<nat>, edges: seq<Edge>, sqrt: real -> real, q: nat)
    requires ValidIndices(ns, vis) && |reset| == |ns| && |repelled| == |ns| && |pulled| == |ns| && q < |vis|
    requires SamePlaces(reset, ns, vis) && SamePlaces(repelled, ns, vis)
    requires reset[vis[q]].Force() == ORIGIN
    requires repelled[vis[q]].Force() == reset[vis[q]].Force().Plus(RepelOn(reset, vis, sqrt, q))
    requires pulled[vis[q]].Force() == repelled[vis[q]].Force().Plus(AttractOn(repelled, vis, edges, sqrt, q))
    ensures pulled[vis[q]].Force() == Accumulated(ns, vis, edges, sqrt, q)
  {
    RepelUpToByPosition(reset, ns, vis, sqrt, q, |vis|);
    AttractUpToByPosition(repelled, ns, vis, edges, sqrt, q, |edges|);
  }

  /**
   * graph.js:392-450, the force half of a tick: every visible unpinned
   * node's force is reset to zero and then carries exactly the force
   * Accumulated on it; only forces change, and only those of visible
   * unpinned nodes. With no visible node pinned, the forces sum to zero.
   */
  method AccumulateForces(ns: seq<Node>, vis: seq<nat>, visibleEdges: seq<Edge>, sqrt: real -> real)
    returns (r: seq<Node>)
    requires ValidIndices(ns, vis)
    ensures |r| == |ns|
    ensures forall k :: 0 <= k < |ns| ==> r[k] == ns[k].(fx := r[k].fx, fy := r[k].fy)
    ensures forall k :: 0 <= k < |ns| && (k !in vis || ns[k].fixed) ==> r[k] == ns[k]
    ensures forall q :: 0 <= q < |vis| && !ns[vis[q]].fixed ==>
              r[vis[q]].Force() == Accumulated(ns, vis, visibleEdges, sqrt, q)
    ensures NoneFixed(ns, vis) ==> NetForce(r, vis) == ORIGIN
  {
    var reset := ResetForces(ns, vis);
    var repelled := Repel(reset, vis, sqrt);
    r := Attract(repelled, vis, visibleEdges, sqrt);
    PassesMoveOnlyForces(ns, reset, repelled, r, vis);
    forall q | 0 <= q < |vis| && !ns[vis[q]].fixed
      ensures r[vis[q]].Force() == Accumulated(ns, vis, visibleEdges, sqrt, q)
    {
      assert reset[vis[q]] == ns[vis[q]].(fx := 0.0, fy := 0.0);
      assert !repelled[vis[q]].fixed;
      AccumulatedFromZero(ns, reset, repelled, r, vis, visibleEdges, sqrt, q);
    }
    if NoneFixed(ns, vis) {
      PassesBalance(ns, reset, repelled, r, vis);
    }
  }

  /**
   * The whole tick over the visible nodes `vis` and visible edges: every
   * visible unpinned node is integrated with the force the passes
   * accumulated on it; every other node is left exactly as it was. With no
   * visible node pinned, the accumulated forces sum to zero.
   */
  method Tick(ns: seq<Node>, vis: seq<nat>, visibleEdges: seq<Edge>, depts: seq<Department>, sqrt: real -> real)
    returns (r: seq<Node>)
    requires ValidIndices(ns, vis)
    ensures |r| == |ns|
    ensures forall k :: 0 <= k < |ns| ==>
              if k in vis && !ns[k].fixed
              then r[k] == Integrate(ns[k].(fx := r[k].fx, fy := r[k].fy), depts, sqrt)
              else r[k] == ns[k]
    ensures forall k :: 0 <= k < |ns| ==> r[k].id == ns[k].id && r[k].info == ns[k].info
    ensures forall q :: 0 <= q < |vis| && !ns[vis[q]].fixed ==>
              r[vis[q]].Force() == Accumulated(ns, vis, visibleEdges, sqrt, q)
    ensures NoneFixed(ns, vis) ==> NetForce(r, vis) == ORIGIN
  {
    var pulled := AccumulateForces(ns, vis, visibleEdges, sqrt);
    r := IntegrateAll(pulled, vis, depts, sqrt);
    forall k | 0 <= k < |ns| && k in vis && !ns[k].fixed
      ensures r[k] == Integrate(ns[k].(fx := r[k].fx, fy := r[k].fy), depts, sqrt)
    {
      assert pulled[k] == ns[k].(fx := pulled[k].fx, fy := pulled[k].fy);
    }
    if NoneFixed(ns, vis) {
      NetForceFrame(r, pulled, vis);
    }
  }
}
