/**
 * getVisibleNodes and getVisibleEdges (graph.js:320-375): order-preserving
 * filters of the node and edge lists, driven by the three toggles.
 */
module Visibility {
  import opened Wrappers
  import opened Seqs
  import opened Model

  /** A team node with id `teamId` exists (graph.js:326). */
  predicate HasTeamNode(nodes: seq<Node>, teamId: string) {
    HasNodeOfKind(nodes, teamId, Team)
  }

  /** An edge of kind `k` has `id` at one of its ends. */
  predicate TouchesEdge(e: Edge, id: string, k: EdgeKind) {
    e.kind == k && (e.source == id || e.target == id)
  }

  /** graph.js:329-333: an assignment edge at `n` with a project node at one of its ends. */
  predicate InvolvedInVisibleProject(nodes: seq<Node>, edges: seq<Edge>, t: Toggles, n: Node) {
    t.showProjects &&
    exists e :: e in edges && TouchesEdge(e, n.id, Assignment) &&
      exists m :: m in nodes && (m.id == e.source || m.id == e.target) && m.Kind() == Project && t.showProjects
  }

  /** graph.js:334-338: a mentor edge at `n` with an employee node at one of its ends. */
  predicate InvolvedInVisibleMentorship(nodes: seq<Node>, edges: seq<Edge>, t: Toggles, n: Node) {
    t.showMentorships &&
    exists e :: e in edges && TouchesEdge(e, n.id, Mentor) &&
      exists m :: m in nodes && (m.id == e.source || m.id == e.target) && m.Kind() == Employee && t.showMentorships
  }

  /** The filter callback of getVisibleNodes. */
  predicate NodeVisible(nodes: seq<Node>, edges: seq<Edge>, t: Toggles, n: Node) {
    if n.Kind() == Project && !t.showProjects then false
    else if n.Kind() == Team && !t.showTeams then false
    else if n.info.EmployeeInfo? && !t.showTeams && HasTeamNode(nodes, n.info.team) then
      InvolvedInVisibleProject(nodes, edges, t, n) || InvolvedInVisibleMentorship(nodes, edges, t, n)
    else true
  }

  /** The positions in `nodes` of the nodes getVisibleNodes returns, in order. */
  function VisibleNodeIndices(nodes: seq<Node>, edges: seq<Edge>, t: Toggles): (r: seq<nat>)
    ensures StrictlyIncreasing(r)
    ensures forall k :: 0 <= k < |r| ==> r[k] < |nodes|
    ensures forall i :: 0 <= i < |nodes| ==> (i in r <==> NodeVisible(nodes, edges, t, nodes[i]))
  {
    FilterIndices(nodes, (n: Node) => NodeVisible(nodes, edges, t, n))
  }

  /** getVisibleNodes: the nodes at VisibleNodeIndices, in the same order. */
  function VisibleNodes(nodes: seq<Node>, edges: seq<Edge>, t: Toggles): (r: seq<Node>)
    ensures |r| == |VisibleNodeIndices(nodes, edges, t)|
    ensures forall k :: 0 <= k < |r| ==> r[k] == nodes[VisibleNodeIndices(nodes, edges, t)[k]]
  {
    Filter(nodes, (n: Node) => NodeVisible(nodes, edges, t, n))
  }

  /** getVisibleNodes keeps exactly the nodes its callback accepts. */
  lemma VisibleNodesMembers(nodes: seq<Node>, edges: seq<Edge>, t: Toggles)
    ensures forall n :: n in VisibleNodes(nodes, edges, t) <==> n in nodes && NodeVisible(nodes, edges, t, n)
  {
    FilterMembers(nodes, (n: Node) => NodeVisible(nodes, edges, t, n));
  }

  /** The filter callback of getVisibleEdges. Ends are looked up by id, first match. */
  predicate EdgeVisible(nodes: seq<Node>, t: Toggles, e: Edge) {
    if e.kind == Assignment && !t.showProjects then false
    else if e.kind == Mentor && !t.showMentorships then false
    else if e.kind == Member && !t.showTeams then false
    else
      match (FindNode(nodes, e.source), FindNode(nodes, e.target))
      case (Some(s), Some(g)) =>
        if nodes[s].Kind() == Project && !t.showProjects then false
        else if nodes[g].Kind() == Project && !t.showProjects then false
        else if nodes[s].Kind() == Team && !t.showTeams then false
        else if nodes[g].Kind() == Team && !t.showTeams then false
        // graph.js:363-370 re-checks member edges with teams hidden; that case was already dropped above
        else if e.kind == Member && !t.showTeams then assert false; false
        else true
      case _ => true
  }

  /** getVisibleEdges. */
  function VisibleEdges(nodes: seq<Node>, edges: seq<Edge>, t: Toggles): (r: seq<Edge>)
    ensures |r| == |FilterIndices(edges, (e: Edge) => EdgeVisible(nodes, t, e))|
    ensures forall k :: 0 <= k < |r| ==> r[k] == edges[FilterIndices(edges, (e: Edge) => EdgeVisible(nodes, t, e))[k]]
  {
    Filter(edges, (e: Edge) => EdgeVisible(nodes, t, e))
  }

  /** getVisibleEdges keeps exactly the edges its callback accepts. */
  lemma VisibleEdgesMembers(nodes: seq<Node>, edges: seq<Edge>, t: Toggles)
    ensures forall e :: e in VisibleEdges(nodes, edges, t) <==> e in edges && EdgeVisible(nodes, t, e)
  {
    FilterMembers(edges, (e: Edge) => EdgeVisible(nodes, t, e));
  }

  /** The toggle that governs edges of kind `k`. */
  function KindShown(t: Toggles, k: EdgeKind): bool {
    match k
    case Assignment => t.showProjects
    case Mentor => t.showMentorships
    case Member => t.showTeams
  }

  /** Every assignment edge has a project node at its target and an employee node at its source. */
  ghost predicate AssignmentsResolve(nodes: seq<Node>, edges: seq<Edge>) {
    forall e :: e in edges && e.kind == Assignment ==>
      HasNodeOfKind(nodes, e.target, Project) && HasNodeOfKind(nodes, e.source, Employee)
  }

  /** `b` holds, position by position, nodes with the ids and kinds of those of `a`. */
  ghost predicate SameIdsAndKinds(a: seq<Node>, b: seq<Node>) {
    |a| == |b| && forall k :: 0 <= k < |a| ==> b[k].id == a[k].id && b[k].Kind() == a[k].Kind()
  }

  /**
   * Moving, pinning or pushing nodes keeps every assignment edge resolved:
   * resolution depends only on node ids and kinds.
   */
  lemma ResolutionKept(a: seq<Node>, b: seq<Node>, edges: seq<Edge>)
    requires SameIdsAndKinds(a, b) && AssignmentsResolve(a, edges)
    ensures AssignmentsResolve(b, edges)
  {
    forall e | e in edges && e.kind == Assignment
      ensures HasNodeOfKind(b, e.target, Project) && HasNodeOfKind(b, e.source, Employee)
    {
      var p :| p in a && p.id == e.target && p.Kind() == Project;
      var i :| 0 <= i < |a| && a[i] == p;
      assert b[i] in b;
      var m :| m in a && m.id == e.source && m.Kind() == Employee;
      var j :| 0 <= j < |a| && a[j] == m;
      assert b[j] in b;
    }
  }

  // ---------------------------------------------------------------------------
  // Properties of the node filter

  /** No project is visible with projects hidden, and no team with teams hidden. */
  lemma HiddenKindsInvisible(nodes: seq<Node>, edges: seq<Edge>, t: Toggles)
    ensures forall n :: n in VisibleNodes(nodes, edges, t) ==>
              (n.Kind() == Project ==> t.showProjects) && (n.Kind() == Team ==> t.showTeams)
  {
    VisibleNodesMembers(nodes, edges, t);
  }

  /** A project node is visible exactly when projects are shown, and a team node exactly when teams are shown. */
  lemma ShownKindsVisible(nodes: seq<Node>, edges: seq<Edge>, t: Toggles)
    ensures forall n :: n in nodes && n.Kind() == Project ==> (n in VisibleNodes(nodes, edges, t) <==> t.showProjects)
    ensures forall n :: n in nodes && n.Kind() == Team ==> (n in VisibleNodes(nodes, edges, t) <==> t.showTeams)
  {
    VisibleNodesMembers(nodes, edges, t);
  }

  /** With teams shown, every employee is visible. */
  lemma EmployeesVisibleWithTeams(nodes: seq<Node>, edges: seq<Edge>, t: Toggles)
    requires t.showTeams
    ensures forall n :: n in nodes && n.Kind() == Employee ==> n in VisibleNodes(nodes, edges, t)
  {
    VisibleNodesMembers(nodes, edges, t);
  }

  /** An employee whose team id names no team node stays visible whatever the toggles. */
  lemma TeamlessEmployeeVisible(nodes: seq<Node>, edges: seq<Edge>, t: Toggles, n: Node)
    requires n in nodes && n.info.EmployeeInfo? && !HasTeamNode(nodes, n.info.team)
    ensures n in VisibleNodes(nodes, edges, t)
  {
    VisibleNodesMembers(nodes, edges, t);
  }

  /**
   * The keep-alive rule: with teams hidden, an employee whose team node
   * exists stays visible exactly when it is at an end of an assignment edge
   * (and projects are shown) or of a mentor edge (and mentorships are shown).
   * The source also asks for a project (employee) node at an end of that
   * edge; for assignment edges that resolve, and for the employee itself,
   * that always holds.
   */
  lemma KeepAlive(nodes: seq<Node>, edges: seq<Edge>, t: Toggles, n: Node)
    requires AssignmentsResolve(nodes, edges)
    requires n in nodes && n.info.EmployeeInfo? && !t.showTeams && HasTeamNode(nodes, n.info.team)
    ensures n in VisibleNodes(nodes, edges, t) <==>
              (t.showProjects && exists e :: e in edges && TouchesEdge(e, n.id, Assignment)) ||
              (t.showMentorships && exists e :: e in edges && TouchesEdge(e, n.id, Mentor))
  {
    VisibleNodesMembers(nodes, edges, t);
    if t.showProjects && exists e :: e in edges && TouchesEdge(e, n.id, Assignment) {
      var e :| e in edges && TouchesEdge(e, n.id, Assignment);
      var m :| m in nodes && m.id == e.target && m.Kind() == Project;
      assert InvolvedInVisibleProject(nodes, edges, t, n);
    }
    if t.showMentorships && exists e :: e in edges && TouchesEdge(e, n.id, Mentor) {
      var e :| e in edges && TouchesEdge(e, n.id, Mentor);
      assert n.id == e.source || n.id == e.target;
      assert InvolvedInVisibleMentorship(nodes, edges, t, n);
    }
  }

  /** With every toggle on, getVisibleNodes returns the whole node list. */
  lemma AllNodesShown(nodes: seq<Node>, edges: seq<Edge>, t: Toggles)
    requires t.showProjects && t.showTeams && t.showMentorships
    ensures VisibleNodes(nodes, edges, t) == nodes
  {
    var idx := VisibleNodeIndices(nodes, edges, t);
    IncreasingCover(idx, |nodes|);
  }

  /** A strictly increasing sequence of indices below `n` that holds every index below `n` is 0, 1, ..., n-1. */
  lemma IncreasingCover(idx: seq<nat>, n: nat)
    requires StrictlyIncreasing(idx)
    requires forall k :: 0 <= k < |idx| ==> idx[k] < n
    requires forall i :: 0 <= i < n ==> i in idx
    ensures |idx| == n && forall k :: 0 <= k < n ==> idx[k] == k
  {
    if |idx| > 0 {
      IndexFloor(idx, |idx| - 1);
    }
    if n > 0 {
      CoverPrefix(idx, n, n - 1);
    }
    forall k | 0 <= k < n ensures idx[k] == k {
      CoverPrefix(idx, n, k);
    }
  }

  lemma {:induction false} CoverPrefix(idx: seq<nat>, n: nat, k: nat)
    requires StrictlyIncreasing(idx)
    requires forall i :: 0 <= i < n ==> i in idx
    requires k < n
    ensures k < |idx| && idx[k] == k
  {
    assert k in idx;
    var j :| 0 <= j < |idx| && idx[j] == k;
    IndexFloor(idx, j);
    if j < k {
      CoverPrefix(idx, n, j);
    }
  }

  lemma {:induction false} IndexFloor(idx: seq<nat>, k: nat)
    requires StrictlyIncreasing(idx) && k < |idx|
    ensures idx[k] >= k
  {
    if k > 0 {
      IndexFloor(idx, k - 1);
    }
  }

  // ---------------------------------------------------------------------------
  // Properties of the edge filter

  /** An edge is only visible while its own kind's toggle is on; in particular no member edge survives hidden teams. */
  lemma VisibleEdgeKindShown(nodes: seq<Node>, edges: seq<Edge>, t: Toggles)
    ensures forall e :: e in VisibleEdges(nodes, edges, t) ==> KindShown(t, e.kind)
  {
    VisibleEdgesMembers(nodes, edges, t);
  }

  /**
   * An edge whose own toggle is on and one of whose ends names no node is
   * kept: the filter does not require both ends to be visible.
   */
  lemma UnresolvedEdgeKept(nodes: seq<Node>, edges: seq<Edge>, t: Toggles, e: Edge)
    requires e in edges && KindShown(t, e.kind)
    requires FindNode(nodes, e.source).None? || FindNode(nodes, e.target).None?
    ensures e in VisibleEdges(nodes, edges, t)
  {
    VisibleEdgesMembers(nodes, edges, t);
  }

  /** An edge both of whose ends resolve is dropped when the first node with either id has a hidden kind. */
  lemma ResolvedHiddenEndDropped(nodes: seq<Node>, edges: seq<Edge>, t: Toggles, e: Edge)
    requires FindNode(nodes, e.source).Some? && FindNode(nodes, e.target).Some?
    requires var s := nodes[FindNode(nodes, e.source).value];
             var g := nodes[FindNode(nodes, e.target).value];
             (!t.showProjects && (s.Kind() == Project || g.Kind() == Project)) ||
             (!t.showTeams && (s.Kind() == Team || g.Kind() == Team))
    ensures e !in VisibleEdges(nodes, edges, t)
  {
    VisibleEdgesMembers(nodes, edges, t);
  }

  /**
   * An edge whose own toggle is on and both of whose ends resolve is kept
   * when neither end's first node has a hidden kind: together with
   * VisibleEdgeKindShown and ResolvedHiddenEndDropped this decides every
   * edge whose ends resolve.
   */
  lemma ResolvedShownEdgeKept(nodes: seq<Node>, edges: seq<Edge>, t: Toggles, e: Edge)
    requires e in edges && KindShown(t, e.kind)
    requires FindNode(nodes, e.source).Some? && FindNode(nodes, e.target).Some?
    requires var s := nodes[FindNode(nodes, e.source).value];
             var g := nodes[FindNode(nodes, e.target).value];
             (t.showProjects || (s.Kind() != Project && g.Kind() != Project)) &&
             (t.showTeams || (s.Kind() != Team && g.Kind() != Team))
    ensures e in VisibleEdges(nodes, edges, t)
  {
    VisibleEdgesMembers(nodes, edges, t);
  }

  /** With every toggle on, getVisibleEdges returns the whole edge list. */
  lemma AllEdgesShown(nodes: seq<Node>, edges: seq<Edge>, t: Toggles)
    requires t.showProjects && t.showTeams && t.showMentorships
    ensures VisibleEdges(nodes, edges, t) == edges
  {
    var idx := FilterIndices(edges, (e: Edge) => EdgeVisible(nodes, t, e));
    IncreasingCover(idx, |edges|);
  }
}
