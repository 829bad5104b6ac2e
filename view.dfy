/**
 * The geometry behind the pointer and the camera: the screen/world
 * transform, the hit test of getNodeAt, wheel zoom, panning, node dragging,
 * and the bounding box centerGraph frames (graph.js:62-149, 717-746).
 */
module View {
  import opened Wrappers
  import opened Seqs
  import opened Model

  /** The zoom factors of one wheel step, away from and towards the user. */
  const ZOOM_OUT: real := 0.9
  const ZOOM_IN: real := 1.1

  /** Where the render transform (translate by the camera, then scale by zoom) draws world point `p`. */
  function WorldToScreen(cam: Camera, p: Vec): Vec {
    Vec(cam.x + p.x * cam.zoom, cam.y + p.y * cam.zoom)
  }

  /**
   * getMousePos: the world point under client point `client` when the
   * canvas's top-left corner is at client point `origin`. The render
   * transform draws that point back under the cursor.
   */
  function ScreenToWorld(cam: Camera, client: Vec, origin: Vec): (p: Vec)
    requires cam.zoom != 0.0
    ensures WorldToScreen(cam, p) == client.Minus(origin)
  {
    var p := Vec((client.x - origin.x - cam.x) / cam.zoom, (client.y - origin.y - cam.y) / cam.zoom);
    assert p.x * cam.zoom == client.x - origin.x - cam.x;
    assert p.y * cam.zoom == client.y - origin.y - cam.y;
    p
  }

  /** The other direction: the world point drawn at a screen point is the one getMousePos finds there. */
  lemma WorldScreenRoundTrip(cam: Camera, p: Vec, origin: Vec)
    requires cam.zoom != 0.0
    ensures ScreenToWorld(cam, WorldToScreen(cam, p).Plus(origin), origin) == p
  {
    var s := WorldToScreen(cam, p);
    assert (s.x - cam.x) / cam.zoom == p.x by {
      assert s.x - cam.x == p.x * cam.zoom;
    }
    assert (s.y - cam.y) / cam.zoom == p.y by {
      assert s.y - cam.y == p.y * cam.zoom;
    }
  }

  // ---------------------------------------------------------------------------
  // Hit test

  /** The getNodeAt test: `p` lies strictly inside the node's circle (squared distances compared). */
  predicate Hits(n: Node, p: Vec) {
    var d := n.Position().Minus(p);
    d.x * d.x + d.y * d.y < Radius(n.Kind()) * Radius(n.Kind())
  }

  /** getNodeAt: the first node, in list order, whose circle holds `p`. */
  function NodeAt(nodes: seq<Node>, p: Vec): (r: Option<nat>)
    ensures r.Some? ==> r.value < |nodes| && Hits(nodes[r.value], p)
    ensures r.Some? ==> forall k :: 0 <= k < r.value ==> !Hits(nodes[k], p)
    ensures r.None? <==> forall k :: 0 <= k < |nodes| ==> !Hits(nodes[k], p)
  {
    FindFirst(nodes, (n: Node) => Hits(n, p))
  }

  /** A press on a node's centre always finds a node: that one or an earlier one. */
  lemma CentreIsHit(nodes: seq<Node>, i: nat)
    requires i < |nodes|
    ensures NodeAt(nodes, nodes[i].Position()).Some?
    ensures NodeAt(nodes, nodes[i].Position()).value <= i
  {
    assert Hits(nodes[i], nodes[i].Position());
  }

  // ---------------------------------------------------------------------------
  // Camera moves

  /** The zoom factor of one wheel event: out when scrolling down, in otherwise. */
  function ZoomFactor(deltaY: real): (r: real)
    ensures deltaY > 0.0 ==> 0.0 < r < 1.0
    ensures deltaY <= 0.0 ==> r > 1.0
  {
    if deltaY > 0.0 then ZOOM_OUT else ZOOM_IN
  }

  /** `Math.max(0.2, Math.min(3, z))`. */
  function ClampZoom(z: real): (r: real)
    ensures MIN_ZOOM <= r <= MAX_ZOOM
    ensures MIN_ZOOM <= z <= MAX_ZOOM ==> r == z
    ensures z < MIN_ZOOM ==> r == MIN_ZOOM
    ensures z > MAX_ZOOM ==> r == MAX_ZOOM
  {
    Max(MIN_ZOOM, Min(MAX_ZOOM, z))
  }

  /**
   * onWheel: scale the zoom by one step, clamped to [MIN_ZOOM, MAX_ZOOM],
   * and move the camera so that the world point under the cursor stays
   * there. The cursor is taken in client coordinates, as the source does.
   */
  function WheelZoom(cam: Camera, mouse: Vec, deltaY: real): (r: Camera)
    requires cam.zoom != 0.0
    ensures MIN_ZOOM <= r.zoom <= MAX_ZOOM
    ensures ScreenToWorld(r, mouse, ORIGIN) == ScreenToWorld(cam, mouse, ORIGIN)
    ensures MIN_ZOOM <= cam.zoom <= MAX_ZOOM ==>
              if deltaY > 0.0 then r.zoom <= cam.zoom else cam.zoom <= r.zoom
  {
    var world := ScreenToWorld(cam, mouse, ORIGIN);
    var zoom := ClampZoom(cam.zoom * ZoomFactor(deltaY));
    var r := Camera(mouse.x - world.x * zoom, mouse.y - world.y * zoom, zoom);
    assert (mouse.x - r.x) / zoom == world.x by {
      assert mouse.x - r.x == world.x * zoom;
    }
    assert (mouse.y - r.y) / zoom == world.y by {
      assert mouse.y - r.y == world.y * zoom;
    }
    r
  }

  /** Dragging the background: the camera follows the cursor, so every world point is drawn `delta` further on. */
  function Pan(cam: Camera, delta: Vec): (r: Camera)
    ensures r.zoom == cam.zoom
    ensures forall p :: WorldToScreen(r, p) == WorldToScreen(cam, p).Plus(delta)
  {
    var r := Camera(cam.x + delta.x, cam.y + delta.y, cam.zoom);
    assert forall p :: WorldToScreen(r, p) == WorldToScreen(cam, p).Plus(delta) by {
      forall p ensures WorldToScreen(r, p) == WorldToScreen(cam, p).Plus(delta) {
        var sx, sy := p.x * cam.zoom, p.y * cam.zoom;
        var before := WorldToScreen(cam, p);
        assert before == Vec(cam.x + sx, cam.y + sy);
        assert before.Plus(delta) == Vec(cam.x + sx + delta.x, cam.y + sy + delta.y);
        assert WorldToScreen(r, p) == Vec(cam.x + delta.x + sx, cam.y + delta.y + sy);
      }
    }
    r
  }

  /**
   * Dragging a node: it moves by the cursor's displacement in world units,
   * so under any camera with this zoom it is drawn `delta` further on and
   * stays under the cursor. Nothing but its position changes.
   */
  function DragBy(n: Node, delta: Vec, zoom: real): (r: Node)
    requires zoom != 0.0
    ensures r == n.(x := r.x, y := r.y)
    ensures forall cam: Camera :: cam.zoom == zoom ==>
              WorldToScreen(cam, r.Position()) == WorldToScreen(cam, n.Position()).Plus(delta)
  {
    assert delta.x / zoom * zoom == delta.x;
    assert delta.y / zoom * zoom == delta.y;
    n.(x := n.x + delta.x / zoom, y := n.y + delta.y / zoom)
  }

  // ---------------------------------------------------------------------------
  // Bounding box

  function Xs(ns: seq<Node>): seq<real> {
    seq(|ns|, k requires 0 <= k < |ns| => ns[k].x)
  }

  function Ys(ns: seq<Node>): seq<real> {
    seq(|ns|, k requires 0 <= k < |ns| => ns[k].y)
  }

  /** The least of the first `n` elements, as a fold of Math.min from the left. */
  function MinUpTo(xs: seq<real>, n: nat): real
    requires 0 < n <= |xs|
  {
    if n == 1 then xs[0] else Min(MinUpTo(xs, n - 1), xs[n - 1])
  }

  /** The greatest of the first `n` elements, as a fold of Math.max from the left. */
  function MaxUpTo(xs: seq<real>, n: nat): real
    requires 0 < n <= |xs|
  {
    if n == 1 then xs[0] else Max(MaxUpTo(xs, n - 1), xs[n - 1])
  }

  /** The Math.min fold is the least element: one of the elements, and no greater than any. */
  lemma {:induction false} MinUpToIsLeast(xs: seq<real>, n: nat)
    requires 0 < n <= |xs|
    ensures exists i :: 0 <= i < n && xs[i] == MinUpTo(xs, n)
    ensures forall k :: 0 <= k < n ==> MinUpTo(xs, n) <= xs[k]
  {
    if n == 1 {
      assert xs[0] == MinUpTo(xs, 1);
    } else {
      MinUpToIsLeast(xs, n - 1);
      if MinUpTo(xs, n - 1) <= xs[n - 1] {
        var i :| 0 <= i < n - 1 && xs[i] == MinUpTo(xs, n - 1);
        assert xs[i] == MinUpTo(xs, n);
      } else {
        assert xs[n - 1] == MinUpTo(xs, n);
      }
    }
  }

  /** The Math.max fold is the greatest element: one of the elements, and no less than any. */
  lemma {:induction false} MaxUpToIsGreatest(xs: seq<real>, n: nat)
    requires 0 < n <= |xs|
    ensures exists i :: 0 <= i < n && xs[i] == MaxUpTo(xs, n)
    ensures forall k :: 0 <= k < n ==> xs[k] <= MaxUpTo(xs, n)
  {
    if n == 1 {
      assert xs[0] == MaxUpTo(xs, 1);
    } else {
      MaxUpToIsGreatest(xs, n - 1);
      if MaxUpTo(xs, n - 1) < xs[n - 1] {
        assert xs[n - 1] == MaxUpTo(xs, n);
      } else {
        var i :| 0 <= i < n - 1 && xs[i] == MaxUpTo(xs, n - 1);
        assert xs[i] == MaxUpTo(xs, n);
      }
    }
  }

  function MinOf(xs: seq<real>): real
    requires |xs| > 0
  {
    MinUpTo(xs, |xs|)
  }

  function MaxOf(xs: seq<real>): real
    requires |xs| > 0
  {
    MaxUpTo(xs, |xs|)
  }

  /** The centre of the bounding box of a non-empty list of nodes. */
  function BoxCentre(ns: seq<Node>): Vec
    requires |ns| > 0
  {
    Vec((MinOf(Xs(ns)) + MaxOf(Xs(ns))) / 2.0, (MinOf(Ys(ns)) + MaxOf(Ys(ns))) / 2.0)
  }

  /** The bounding box's centre lies within the box: between the extreme nodes on each axis. */
  lemma BoxCentreInside(ns: seq<Node>)
    requires |ns| > 0
    ensures exists i, j :: 0 <= i < |ns| && 0 <= j < |ns| && ns[i].x <= BoxCentre(ns).x <= ns[j].x
    ensures exists i, j :: 0 <= i < |ns| && 0 <= j < |ns| && ns[i].y <= BoxCentre(ns).y <= ns[j].y
  {
    var xs, ys := Xs(ns), Ys(ns);
    MinUpToIsLeast(xs, |xs|);
    MaxUpToIsGreatest(xs, |xs|);
    MinUpToIsLeast(ys, |ys|);
    MaxUpToIsGreatest(ys, |ys|);
    var a :| 0 <= a < |xs| && xs[a] == MinOf(xs);
    var b :| 0 <= b < |xs| && xs[b] == MaxOf(xs);
    assert MinOf(xs) <= xs[b];
    assert ns[a].x <= BoxCentre(ns).x <= ns[b].x;
    var c :| 0 <= c < |ys| && ys[c] == MinOf(ys);
    var d :| 0 <= d < |ys| && ys[d] == MaxOf(ys);
    assert MinOf(ys) <= ys[d];
    assert ns[c].y <= BoxCentre(ns).y <= ns[d].y;
  }

  /**
   * centerGraph's bounds loop (graph.js:728-737): starting from the first
   * node, fold Math.min and Math.max over every node's coordinates.
   */
  method Bounds(ns: seq<Node>) returns (minX: real, maxX: real, minY: real, maxY: real)
    requires |ns| > 0
    ensures minX == MinOf(Xs(ns)) && maxX == MaxOf(Xs(ns))
    ensures minY == MinOf(Ys(ns)) && maxY == MaxOf(Ys(ns))
  {
    var xs, ys := Xs(ns), Ys(ns);
    minX, maxX := ns[0].x, ns[0].x;
    minY, maxY := ns[0].y, ns[0].y;
    for k := 0 to |ns|
      invariant minX == MinUpTo(xs, if k == 0 then 1 else k) && maxX == MaxUpTo(xs, if k == 0 then 1 else k)
      invariant minY == MinUpTo(ys, if k == 0 then 1 else k) && maxY == MaxUpTo(ys, if k == 0 then 1 else k)
    {
      minX := Min(minX, ns[k].x);
      maxX := Max(maxX, ns[k].x);
      minY := Min(minY, ns[k].y);
      maxY := Max(maxY, ns[k].y);
    }
  }

  /**
   * The camera centerGraph leaves, starting from `before`, for a graph of
   * `nodeCount` nodes of which `vs` are visible: unchanged for an empty
   * graph; the canvas centre at zoom 1 when nothing is visible; otherwise
   * the same zoom, with the centre of the visible nodes' bounding box drawn
   * at the centre of the `width` by `height` canvas.
   */
  ghost predicate CenteredView(cam: Camera, before: Camera, nodeCount: nat, vs: seq<Node>, width: real, height: real) {
    if nodeCount == 0 then cam == before
    else if |vs| == 0 then cam == Camera(width / 2.0, height / 2.0, 1.0)
    else cam.zoom == before.zoom && WorldToScreen(cam, BoxCentre(vs)) == Vec(width / 2.0, height / 2.0)
  }

  /** centerGraph (graph.js:717-746), from the camera it starts with to the one it leaves. */
  method CenterCamera(cam: Camera, nodeCount: nat, vs: seq<Node>, width: real, height: real) returns (r: Camera)
    ensures CenteredView(r, cam, nodeCount, vs, width, height)
    ensures MIN_ZOOM <= cam.zoom <= MAX_ZOOM ==> MIN_ZOOM <= r.zoom <= MAX_ZOOM
  {
    if nodeCount == 0 {
      return cam;
    }
    if |vs| == 0 {
      return Camera(width / 2.0, height / 2.0, 1.0);
    }
    var minX, maxX, minY, maxY := Bounds(vs);
    var centreX := (minX + maxX) / 2.0;
    var centreY := (minY + maxY) / 2.0;
    r := cam.(x := width / 2.0 - centreX * cam.zoom, y := height / 2.0 - centreY * cam.zoom);
  }
}
