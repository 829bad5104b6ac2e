/**
 * The OrganizationGraph object (graph.js): its graph, its camera and pointer
 * state and its toggles as fields, and the operations that update them in
 * place.
 */
module Graph {
  import opened Wrappers
  import opened Seqs
  import opened Model
  import opened Construction
  import opened Visibility
  import opened Physics
  import opened View

  /**
   * A node reference held by the pointer state: none, the node at an index
   * of the current node list, or a node object of a node list that
   * createNodesAndEdges has since replaced.
   */
  datatype NodeRef = NoNode | InGraph(index: nat) | Detached

  function RefOf(found: Option<nat>): NodeRef {
    match found
    case None => NoNode
    case Some(i) => InGraph(i)
  }

  /** What a rebuild of the node list makes of a reference into the old one. */
  function Outdated(r: NodeRef): NodeRef {
    if r == NoNode then NoNode else Detached
  }

  /**
   * Every department box construction builds (1000 by 800) is wide and tall
   * enough to hold a node of any kind away from its walls, so the
   * containment of a tick always ends inside the shrunk box.
   */
  lemma BuiltBoxesFit(data: Dataset, i: nat, k: NodeKind)
    requires i < |Departments(data)|
    ensures BoxFits(Departments(data)[i], k)
  {
    assert Departments(data)[i].width == 1000.0;
  }

  class OrganizationGraph {
    var nodes: seq<Node>
    var edges: seq<Edge>
    var departments: seq<Department>
    /** The console warnings construction has written, oldest first. */
    var warnings: seq<Warning>

    var camera: Camera
    var isDragging: bool
    var dragTarget: NodeRef
    var lastMousePos: Vec
    var hoveredNode: NodeRef

    var physicsEnabled: bool
    var showProjects: bool
    var showMentorships: bool
    var showTeams: bool

    /** The canvas size, taken from the window when the graph is created. */
    var canvasWidth: real
    var canvasHeight: real

    /**
     * The zoom stays in range; a node being dragged is in the graph and
     * pinned, and a drag is in progress while anything is held; every
     * assignment edge joins an employee node to a project node.
     */
    ghost predicate Valid()
      reads this
    {
      MIN_ZOOM <= camera.zoom <= MAX_ZOOM &&
      (dragTarget != NoNode ==> isDragging) &&
      (dragTarget.InGraph? ==> dragTarget.index < |nodes| && nodes[dragTarget.index].fixed) &&
      (hoveredNode.InGraph? ==> hoveredNode.index < |nodes|) &&
      AssignmentsResolve(nodes, edges)
    }

    function CurrentToggles(): Toggles
      reads this`showProjects, this`showTeams, this`showMentorships
    {
      Toggles(showProjects, showTeams, showMentorships)
    }

    /** graph.js:1-44, without the canvas, the listeners and the animation loop. */
    constructor(width: real, height: real)
      ensures Valid()
      ensures nodes == [] && edges == [] && departments == [] && warnings == []
      ensures camera == Camera(0.0, 0.0, 1.0) && !isDragging && dragTarget == NoNode
      ensures lastMousePos == ORIGIN && hoveredNode == NoNode
      ensures physicsEnabled && showProjects && showMentorships && showTeams
      ensures canvasWidth == width && canvasHeight == height
    {
      nodes := [];
      edges := [];
      departments := [];
      warnings := [];
      camera := Camera(0.0, 0.0, 1.0);
      isDragging := false;
      dragTarget := NoNode;
      lastMousePos := ORIGIN;
      hoveredNode := NoNode;
      physicsEnabled := true;
      showProjects := true;
      showMentorships := true;
      showTeams := true;
      canvasWidth := width;
      canvasHeight := height;
    }

    // -------------------------------------------------------------------------
    // Construction

    /**
     * The first effect of createNodesAndEdges on the pointer state: the
     * references it held into the old node list no longer point into the
     * graph.
     */
    method Detach()
      requires Valid()
      modifies this`dragTarget, this`hoveredNode
      ensures Valid()
      ensures dragTarget == Outdated(old(dragTarget)) && hoveredNode == Outdated(old(hoveredNode))
    {
      dragTarget, hoveredNode := Outdated(dragTarget), Outdated(hoveredNode);
    }

    /**
     * createNodesAndEdges up to its closing centerGraph call: rebuild
     * departments, nodes and edges from `data` exactly as the Construction
     * functions describe and log the warnings they describe. The pointer
     * state must already hold no index into the old node list.
     */
    method Install(data: Dataset, pl: Placement)
      requires Valid() && TeamsResolve(data)
      requires !dragTarget.InGraph? && !hoveredNode.InGraph?
      modifies this`nodes, this`edges, this`departments, this`warnings
      ensures departments == Departments(data)
      ensures nodes == BuildNodes(data, pl)
      ensures edges == BuildEdges(data, nodes)
      ensures warnings == old(warnings) + BuildWarnings(data, nodes)
    {
      var depts, ns, links, log := Build(data, pl, warnings);
      departments, nodes, edges, warnings := depts, ns, links, log;
    }

    /** createNodesAndEdges: drop the old node references, rebuild the graph, then centre the camera on it. */
    method CreateNodesAndEdges(data: Dataset, pl: Placement)
      requires Valid() && TeamsResolve(data)
      modifies this`nodes, this`edges, this`departments, this`warnings,
               this`camera, this`dragTarget, this`hoveredNode
      ensures Centered(old(camera))
      ensures departments == Departments(data)
      ensures nodes == BuildNodes(data, pl)
      ensures edges == BuildEdges(data, nodes)
      ensures warnings == old(warnings) + BuildWarnings(data, nodes)
      ensures dragTarget == Outdated(old(dragTarget)) && hoveredNode == Outdated(old(hoveredNode))
      ensures Valid()
    {
      Detach();
      Install(data, pl);
      BuiltAssignmentsResolve(data, nodes);
      assert Valid();
      CenterGraph();
    }

    // -------------------------------------------------------------------------
    // The physics tick

    /**
     * updatePhysics: with physics paused nothing changes. Otherwise every
     * visible unpinned node is integrated with the force the tick
     * accumulated on it (Accumulated over the visible nodes and visible
     * edges, from the positions before the tick), and every other node (hidden, or pinned by a drag)
     * keeps its position, velocity and force. With no visible node pinned,
     * the accumulated forces sum to zero.
     */
    method UpdatePhysics(sqrt: real -> real)
      requires Valid()
      modifies this`nodes
      ensures Valid()
      ensures !physicsEnabled ==> nodes == old(nodes)
      ensures |nodes| == |old(nodes)|
      ensures forall k :: 0 <= k < |nodes| ==>
                if physicsEnabled && k in VisibleNodeIndices(old(nodes), edges, CurrentToggles()) && !old(nodes)[k].fixed
                then nodes[k] == Integrate(old(nodes)[k].(fx := nodes[k].fx, fy := nodes[k].fy), departments, sqrt)
                else nodes[k] == old(nodes)[k]
      ensures var vis := VisibleNodeIndices(old(nodes), edges, CurrentToggles());
              physicsEnabled ==>
                forall q :: 0 <= q < |vis| && !old(nodes)[vis[q]].fixed ==>
                  nodes[vis[q]].Force() == Accumulated(old(nodes), vis, VisibleEdges(old(nodes), edges, CurrentToggles()), sqrt, q)
      ensures var vis := VisibleNodeIndices(old(nodes), edges, CurrentToggles());
              physicsEnabled && NoneFixed(old(nodes), vis) ==> NetForce(nodes, vis) == ORIGIN
    {
      if !physicsEnabled {
        return;
      }
      var t := CurrentToggles();
      var vis := VisibleNodeIndices(nodes, edges, t);
      ghost var before := nodes;
      nodes := Tick(nodes, vis, VisibleEdges(nodes, edges, t), departments, sqrt);
      ResolutionKept(before, nodes, edges);
      if dragTarget.InGraph? {
        assert nodes[dragTarget.index] == before[dragTarget.index];
      }
    }

    // -------------------------------------------------------------------------
    // Pointer

    /**
     * onMouseDown: a press on a node (the first whose circle holds the
     * pointer) pins it and makes it the drag target; a press elsewhere
     * starts a pan.
     */
    method OnMouseDown(client: Vec, origin: Vec)
      requires Valid()
      modifies this`nodes, this`dragTarget, this`isDragging, this`lastMousePos
      ensures Valid()
      ensures isDragging && lastMousePos == client
      ensures match NodeAt(old(nodes), ScreenToWorld(camera, client, origin))
              case Some(i) => dragTarget == InGraph(i) && nodes == old(nodes)[i := old(nodes)[i].(fixed := true)]
              case None => dragTarget == NoNode && nodes == old(nodes)
    {
      var hit := NodeAt(nodes, ScreenToWorld(camera, client, origin));
      match hit {
        case Some(i) =>
          dragTarget := InGraph(i);
          isDragging := true;
          ResolutionKept(nodes, nodes[i := nodes[i].(fixed := true)], edges);
          nodes := nodes[i := nodes[i].(fixed := true)];
        case None =>
          isDragging := true;
          dragTarget := NoNode;
      }
      lastMousePos := client;
    }

    /**
     * onMouseMove: while dragging, the drag target follows the pointer, or
     * with no target the camera pans with it; otherwise the hovered node is
     * looked up again.
     */
    method OnMouseMove(client: Vec, origin: Vec)
      requires Valid()
      modifies this`nodes, this`camera, this`hoveredNode, this`lastMousePos
      ensures Valid() && lastMousePos == client
      ensures var delta := client.Minus(old(lastMousePos));
              if isDragging then
                hoveredNode == old(hoveredNode) &&
                match dragTarget
                case InGraph(i) =>
                  nodes == old(nodes)[i := DragBy(old(nodes)[i], delta, camera.zoom)] && camera == old(camera)
                case Detached => nodes == old(nodes) && camera == old(camera)
                case NoNode => nodes == old(nodes) && camera == Pan(old(camera), delta)
              else
                nodes == old(nodes) && camera == old(camera) &&
                hoveredNode == RefOf(NodeAt(nodes, ScreenToWorld(camera, client, origin)))
    {
      if isDragging {
        var delta := client.Minus(lastMousePos);
        match dragTarget {
          case InGraph(i) =>
            ResolutionKept(nodes, nodes[i := DragBy(nodes[i], delta, camera.zoom)], edges);
            nodes := nodes[i := DragBy(nodes[i], delta, camera.zoom)];
          case Detached =>
          case NoNode =>
            camera := Pan(camera, delta);
        }
      } else {
        hoveredNode := RefOf(NodeAt(nodes, ScreenToWorld(camera, client, origin)));
      }
      lastMousePos := client;
    }

    /** onMouseUp: release the drag target, unpinning it, and end the drag. */
    method OnMouseUp()
      requires Valid()
      modifies this`nodes, this`isDragging, this`dragTarget
      ensures Valid() && !isDragging && dragTarget == NoNode
      ensures match old(dragTarget)
              case InGraph(i) => nodes == old(nodes)[i := old(nodes)[i].(fixed := false)]
              case _ => nodes == old(nodes)
    {
      match dragTarget {
        case InGraph(i) =>
          ResolutionKept(nodes, nodes[i := nodes[i].(fixed := false)], edges);
          nodes := nodes[i := nodes[i].(fixed := false)];
        case _ =>
      }
      isDragging := false;
      dragTarget := NoNode;
    }

    /** onWheel: zoom one step towards the pointer. */
    method OnWheel(client: Vec, deltaY: real)
      requires Valid()
      modifies this`camera
      ensures Valid()
      ensures camera == WheelZoom(old(camera), client, deltaY)
    {
      camera := WheelZoom(camera, client, deltaY);
    }

    // -------------------------------------------------------------------------
    // Camera framing

    /** The camera is where centerGraph leaves it, starting from `before`; see CenteredView. */
    ghost predicate Centered(before: Camera)
      reads this`camera, this`nodes, this`edges, this`canvasWidth, this`canvasHeight
      reads this`showProjects, this`showTeams, this`showMentorships
    {
      CenteredView(camera, before, |nodes|, VisibleNodes(nodes, edges, CurrentToggles()), canvasWidth, canvasHeight)
    }

    /** centerGraph. */
    method CenterGraph()
      requires Valid()
      modifies this`camera
      ensures Centered(old(camera))
      ensures Valid()
    {
      ghost var before := camera;
      var t := CurrentToggles();
      var vis := VisibleNodes(nodes, edges, t);
      camera := CenterCamera(camera, |nodes|, vis, canvasWidth, canvasHeight);
      assert CurrentToggles() == t;
      assert CenteredView(camera, before, |nodes|, vis, canvasWidth, canvasHeight);
    }

    /** resetView: back to zoom 1 at the origin, then centerGraph. */
    method ResetView()
      requires Valid()
      modifies this`camera
      ensures Centered(Camera(0.0, 0.0, 1.0))
      ensures Valid()
    {
      camera := Camera(0.0, 0.0, 1.0);
      CenterGraph();
    }

    // -------------------------------------------------------------------------
    // Toggles (the button labels they also update are not modelled)

    method TogglePhysics()
      requires Valid()
      modifies this`physicsEnabled
      ensures Valid()
      ensures physicsEnabled == !old(physicsEnabled)
    {
      physicsEnabled := !physicsEnabled;
    }

    method ToggleProjectsVisibility()
      requires Valid()
      modifies this`showProjects
      ensures Valid()
      ensures showProjects == !old(showProjects)
    {
      showProjects := !showProjects;
    }

    method ToggleMentorshipsVisibility()
      requires Valid()
      modifies this`showMentorships
      ensures Valid()
      ensures showMentorships == !old(showMentorships)
    {
      showMentorships := !showMentorships;
    }

    method ToggleTeamsVisibility()
      requires Valid()
      modifies this`showTeams
      ensures Valid()
      ensures showTeams == !old(showTeams)
    {
      showTeams := !showTeams;
    }
  }
}
