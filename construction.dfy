/**
 * What createNodesAndEdges builds from a dataset (graph.js:184-318): the
 * department boxes, then project, team and employee nodes, then member,
 * mentor and assignment edges, with a warning for every entity or
 * assignment it has to skip. Each part is defined over a prefix of its input
 * list, in the order the source's forEach loops visit it.
 */
module Construction {
  import opened Wrappers
  import opened Seqs
  import opened Model

  const DEPARTMENT_PITCH: real := 1005.0
  const DEPARTMENT_WIDTH: real := 1000.0
  const DEPARTMENT_HEIGHT: real := 800.0
  /** Projects start this far below the ring they are placed on. */
  const PROJECT_Y_OFFSET: real := 50.0

  /** The diagnostics construction writes to the console. */
  datatype Warning =
    | ProjectDepartmentMissing(project: string)
    | EmployeeDepartmentMissing(employee: string)
    | AssignmentProjectMissing(project: string, employee: string)
    | AssignmentEmployeeMissing(employee: string, project: string)

  /**
   * The initial offsets from a department's centre. The source computes them
   * with cos/sin of an index-derived angle (projects; teams by index % 3) or
   * of a random angle and radius (employees); here they are given.
   */
  datatype Placement = Placement(project: nat -> Vec, team: nat -> Vec, employee: nat -> Vec)

  // ---------------------------------------------------------------------------
  // Departments

  /** The box of the department at position `index` of the dataset. */
  function DepartmentBox(d: DepartmentData, index: nat): Department {
    Department(d.id, d.name, d.description,
               (index as real - 0.5) * DEPARTMENT_PITCH, 0.0,
               DEPARTMENT_WIDTH, DEPARTMENT_HEIGHT)
  }

  /** The boxes of the first `n` departments. */
  function DepartmentBoxes(ds: seq<DepartmentData>, n: nat): (r: seq<Department>)
    requires n <= |ds|
    ensures |r| == n
    ensures forall i :: 0 <= i < n ==> r[i] == DepartmentBox(ds[i], i)
  {
    if n == 0 then [] else DepartmentBoxes(ds, n - 1) + [DepartmentBox(ds[n - 1], n - 1)]
  }

  function Departments(data: Dataset): seq<Department> {
    DepartmentBoxes(data.departments, |data.departments|)
  }

  function LeftEdge(d: Department): real { d.x - d.width / 2.0 }
  function RightEdge(d: Department): real { d.x + d.width / 2.0 }

  /** Department boxes are laid out left to right, each at least 5 units clear of the next. */
  lemma DepartmentsSideBySide(data: Dataset, i: nat, j: nat)
    requires i < j < |data.departments|
    ensures RightEdge(Departments(data)[i]) + 5.0 <= LeftEdge(Departments(data)[j])
  {
  }

  /** Every team names a department of the dataset; the source does not guard against the opposite. */
  ghost predicate TeamsResolve(data: Dataset) {
    forall t :: t in data.teams ==> exists d :: d in data.departments && d.id == t.department
  }

  lemma TeamsFindDepartments(data: Dataset)
    requires TeamsResolve(data)
    ensures forall t :: t in data.teams ==> FindDepartment(Departments(data), t.department).Some?
  {
    var depts := Departments(data);
    forall t | t in data.teams ensures FindDepartment(depts, t.department).Some? {
      var d :| d in data.departments && d.id == t.department;
      var i :| 0 <= i < |data.departments| && data.departments[i] == d;
      assert depts[i].id == t.department;
    }
  }

  // ---------------------------------------------------------------------------
  // Nodes

  function ProjectNode(p: ProjectData, d: Department, offset: Vec): Node {
    Node(p.id, p.name, ProjectInfo(p.description), p.department,
         d.x + offset.x, d.y + offset.y + PROJECT_Y_OFFSET, 0.0, 0.0, 0.0, 0.0, false)
  }

  function TeamNode(t: TeamData, d: Department, offset: Vec): Node {
    Node(t.id, t.name, TeamInfo(t.description), t.department,
         d.x + offset.x, d.y + offset.y, 0.0, 0.0, 0.0, 0.0, false)
  }

  function EmployeeNode(e: EmployeeData, d: Department, offset: Vec): Node {
    Node(e.id, e.name, EmployeeInfo(e.role, e.team, e.mentor), e.department,
         d.x + offset.x, d.y + offset.y, 0.0, 0.0, 0.0, 0.0, false)
  }

  /** The nodes of the first `n` projects: those whose department exists. */
  function ProjectNodes(ps: seq<ProjectData>, depts: seq<Department>, pl: Placement, n: nat): seq<Node>
    requires n <= |ps|
  {
    if n == 0 then []
    else
      ProjectNodes(ps, depts, pl, n - 1) +
      match FindDepartment(depts, ps[n - 1].department)
      case None => []
      case Some(k) => [ProjectNode(ps[n - 1], depts[k], pl.project(n - 1))]
  }

  function ProjectWarnings(ps: seq<ProjectData>, depts: seq<Department>, n: nat): seq<Warning>
    requires n <= |ps|
  {
    if n == 0 then []
    else
      ProjectWarnings(ps, depts, n - 1) +
      if FindDepartment(depts, ps[n - 1].department).None?
      then [ProjectDepartmentMissing(ps[n - 1].id)] else []
  }

  /** The nodes of the first `n` teams; every team has a department. */
  function TeamNodes(ts: seq<TeamData>, depts: seq<Department>, pl: Placement, n: nat): seq<Node>
    requires n <= |ts|
    requires forall t :: t in ts ==> FindDepartment(depts, t.department).Some?
  {
    if n == 0 then []
    else
      var k := FindDepartment(depts, ts[n - 1].department).value;
      TeamNodes(ts, depts, pl, n - 1) + [TeamNode(ts[n - 1], depts[k], pl.team((n - 1) % 3))]
  }

  /** The nodes of the first `n` employees: those whose department exists. */
  function EmployeeNodes(es: seq<EmployeeData>, depts: seq<Department>, pl: Placement, n: nat): seq<Node>
    requires n <= |es|
  {
    if n == 0 then []
    else
      EmployeeNodes(es, depts, pl, n - 1) +
      match FindDepartment(depts, es[n - 1].department)
      case None => []
      case Some(k) => [EmployeeNode(es[n - 1], depts[k], pl.employee(n - 1))]
  }

  function EmployeeWarnings(es: seq<EmployeeData>, depts: seq<Department>, n: nat): seq<Warning>
    requires n <= |es|
  {
    if n == 0 then []
    else
      EmployeeWarnings(es, depts, n - 1) +
      if FindDepartment(depts, es[n - 1].department).None?
      then [EmployeeDepartmentMissing(es[n - 1].id)] else []
  }

  /** All nodes, in the order they are pushed: projects, then teams, then employees. */
  function BuildNodes(data: Dataset, pl: Placement): seq<Node>
    requires TeamsResolve(data)
  {
    var depts := Departments(data);
    TeamsFindDepartments(data);
    ProjectNodes(data.projects, depts, pl, |data.projects|) +
    TeamNodes(data.teams, depts, pl, |data.teams|) +
    EmployeeNodes(data.employees, depts, pl, |data.employees|)
  }

  // ---------------------------------------------------------------------------
  // Edges

  /** One member edge per employee, from the employee to its team id. */
  function MemberEdges(es: seq<EmployeeData>, n: nat): (r: seq<Edge>)
    requires n <= |es|
    ensures |r| == n
    ensures forall i :: 0 <= i < n ==> r[i] == Edge(es[i].id, es[i].team, Member)
  {
    if n == 0 then [] else MemberEdges(es, n - 1) + [Edge(es[n - 1].id, es[n - 1].team, Member)]
  }

  /** The source's `if (employee.mentor)`: present and not the empty string. */
  predicate HasMentor(e: EmployeeData) {
    e.mentor.Some? && e.mentor.value != ""
  }

  /** One mentor edge, mentor to employee, per employee that has a mentor. */
  function MentorEdges(es: seq<EmployeeData>, n: nat): seq<Edge>
    requires n <= |es|
  {
    if n == 0 then []
    else
      MentorEdges(es, n - 1) +
      if HasMentor(es[n - 1]) then [Edge(es[n - 1].mentor.value, es[n - 1].id, Mentor)] else []
  }

  /** Both ends of an assignment of project `p` to employee `e` exist as nodes of the right kind. */
  predicate AssignmentResolves(nodes: seq<Node>, e: EmployeeData, p: string) {
    HasNodeOfKind(nodes, p, Project) && HasNodeOfKind(nodes, e.id, Employee)
  }

  /** The assignment edges of employee `e`'s first `m` projects. */
  function EmployeeAssignments(e: EmployeeData, nodes: seq<Node>, m: nat): seq<Edge>
    requires m <= |e.projects|
  {
    if m == 0 then []
    else
      var p := e.projects[m - 1];
      EmployeeAssignments(e, nodes, m - 1) +
      if AssignmentResolves(nodes, e, p) then [Edge(e.id, p, Assignment)] else []
  }

  function EmployeeAssignmentWarnings(e: EmployeeData, nodes: seq<Node>, m: nat): seq<Warning>
    requires m <= |e.projects|
  {
    if m == 0 then []
    else
      var p := e.projects[m - 1];
      EmployeeAssignmentWarnings(e, nodes, m - 1) +
      (if HasNodeOfKind(nodes, p, Project) then [] else [AssignmentProjectMissing(p, e.id)]) +
      (if HasNodeOfKind(nodes, e.id, Employee) then [] else [AssignmentEmployeeMissing(e.id, p)])
  }

  /** The assignment edges of the first `n` employees. */
  function AssignmentEdges(es: seq<EmployeeData>, nodes: seq<Node>, n: nat): seq<Edge>
    requires n <= |es|
  {
    if n == 0 then []
    else AssignmentEdges(es, nodes, n - 1) + EmployeeAssignments(es[n - 1], nodes, |es[n - 1].projects|)
  }

  function AssignmentWarnings(es: seq<EmployeeData>, nodes: seq<Node>, n: nat): seq<Warning>
    requires n <= |es|
  {
    if n == 0 then []
    else AssignmentWarnings(es, nodes, n - 1) + EmployeeAssignmentWarnings(es[n - 1], nodes, |es[n - 1].projects|)
  }

  /** All edges, in the order they are pushed: member, then mentor, then assignment edges. */
  function BuildEdges(data: Dataset, nodes: seq<Node>): seq<Edge> {
    var es := data.employees;
    MemberEdges(es, |es|) + MentorEdges(es, |es|) + AssignmentEdges(es, nodes, |es|)
  }

  /** The warnings logged while the nodes are placed: skipped projects, then skipped employees. */
  function NodeWarnings(data: Dataset): seq<Warning> {
    var depts := Departments(data);
    ProjectWarnings(data.projects, depts, |data.projects|) +
    EmployeeWarnings(data.employees, depts, |data.employees|)
  }

  /** All warnings, in the order they are logged. */
  function BuildWarnings(data: Dataset, nodes: seq<Node>): seq<Warning> {
    NodeWarnings(data) + AssignmentWarnings(data.employees, nodes, |data.employees|)
  }

  // ---------------------------------------------------------------------------
  // Properties of construction

  /** Every project yields a node or a warning, never both and never neither. */
  lemma {:induction false} ProjectsNodeOrWarning(ps: seq<ProjectData>, depts: seq<Department>, pl: Placement, n: nat)
    requires n <= |ps|
    ensures |ProjectNodes(ps, depts, pl, n)| + |ProjectWarnings(ps, depts, n)| == n
  {
    if n > 0 {
      ProjectsNodeOrWarning(ps, depts, pl, n - 1);
    }
  }

  /** The project segment holds only project nodes whose department exists. */
  lemma {:induction false} ProjectNodesAreProjects(ps: seq<ProjectData>, depts: seq<Department>, pl: Placement, n: nat)
    requires n <= |ps|
    ensures forall k :: 0 <= k < |ProjectNodes(ps, depts, pl, n)| ==>
              ProjectNodes(ps, depts, pl, n)[k].Kind() == Project &&
              FindDepartment(depts, ProjectNodes(ps, depts, pl, n)[k].department).Some?
  {
    if n > 0 {
      ProjectNodesAreProjects(ps, depts, pl, n - 1);
    }
  }

  /** A project whose department exists is placed in that department's box. */
  lemma {:induction false} ProjectPlaced(ps: seq<ProjectData>, depts: seq<Department>, pl: Placement, n: nat, i: nat)
    requires i < n <= |ps|
    requires FindDepartment(depts, ps[i].department).Some?
    ensures ProjectNode(ps[i], depts[FindDepartment(depts, ps[i].department).value], pl.project(i))
              in ProjectNodes(ps, depts, pl, n)
  {
    if i < n - 1 {
      ProjectPlaced(ps, depts, pl, n - 1, i);
    }
  }

  /** A project whose department is missing is reported. */
  lemma {:induction false} ProjectWarned(ps: seq<ProjectData>, depts: seq<Department>, n: nat, i: nat)
    requires i < n <= |ps|
    requires FindDepartment(depts, ps[i].department).None?
    ensures ProjectDepartmentMissing(ps[i].id) in ProjectWarnings(ps, depts, n)
  {
    if i < n - 1 {
      ProjectWarned(ps, depts, n - 1, i);
    }
  }

  /** Every employee yields a node or a warning, never both and never neither. */
  lemma {:induction false} EmployeesNodeOrWarning(es: seq<EmployeeData>, depts: seq<Department>, pl: Placement, n: nat)
    requires n <= |es|
    ensures |EmployeeNodes(es, depts, pl, n)| + |EmployeeWarnings(es, depts, n)| == n
  {
    if n > 0 {
      EmployeesNodeOrWarning(es, depts, pl, n - 1);
    }
  }

  /** The employee segment holds only employee nodes whose department exists. */
  lemma {:induction false} EmployeeNodesAreEmployees(es: seq<EmployeeData>, depts: seq<Department>, pl: Placement, n: nat)
    requires n <= |es|
    ensures forall k :: 0 <= k < |EmployeeNodes(es, depts, pl, n)| ==>
              EmployeeNodes(es, depts, pl, n)[k].Kind() == Employee &&
              FindDepartment(depts, EmployeeNodes(es, depts, pl, n)[k].department).Some?
  {
    if n > 0 {
      EmployeeNodesAreEmployees(es, depts, pl, n - 1);
    }
  }

  /** An employee whose department exists is placed in that department's box. */
  lemma {:induction false} EmployeePlaced(es: seq<EmployeeData>, depts: seq<Department>, pl: Placement, n: nat, i: nat)
    requires i < n <= |es|
    requires FindDepartment(depts, es[i].department).Some?
    ensures EmployeeNode(es[i], depts[FindDepartment(depts, es[i].department).value], pl.employee(i))
              in EmployeeNodes(es, depts, pl, n)
  {
    if i < n - 1 {
      EmployeePlaced(es, depts, pl, n - 1, i);
    }
  }

  /** An employee whose department is missing is reported. */
  lemma {:induction false} EmployeeWarned(es: seq<EmployeeData>, depts: seq<Department>, n: nat, i: nat)
    requires i < n <= |es|
    requires FindDepartment(depts, es[i].department).None?
    ensures EmployeeDepartmentMissing(es[i].id) in EmployeeWarnings(es, depts, n)
  {
    if i < n - 1 {
      EmployeeWarned(es, depts, n - 1, i);
    }
  }

  /** Every team yields exactly one team node, at its own position in the list. */
  lemma {:induction false} TeamsAllPlaced(ts: seq<TeamData>, depts: seq<Department>, pl: Placement, n: nat)
    requires n <= |ts|
    requires forall t :: t in ts ==> FindDepartment(depts, t.department).Some?
    ensures |TeamNodes(ts, depts, pl, n)| == n
    ensures forall i :: 0 <= i < n ==>
              TeamNodes(ts, depts, pl, n)[i].Kind() == Team && TeamNodes(ts, depts, pl, n)[i].id == ts[i].id
  {
    if n > 0 {
      TeamsAllPlaced(ts, depts, pl, n - 1);
      assert ts[n - 1] in ts;
      var k := FindDepartment(depts, ts[n - 1].department).value;
      var prev, node := TeamNodes(ts, depts, pl, n - 1), TeamNode(ts[n - 1], depts[k], pl.team((n - 1) % 3));
      var all := TeamNodes(ts, depts, pl, n);
      assert all == prev + [node];
      forall i | 0 <= i < n ensures all[i].Kind() == Team && all[i].id == ts[i].id {
        if i < n - 1 {
          assert all[i] == prev[i];
        } else {
          assert all[i] == node;
        }
      }
    }
  }
  /** The `i`-th team node is that team placed at its department's centre plus the `i % 3`-th team offset. */
  lemma {:induction false} TeamPlaced(ts: seq<TeamData>, depts: seq<Department>, pl: Placement, n: nat, i: nat)
    requires i < n <= |ts|
    requires forall t :: t in ts ==> FindDepartment(depts, t.department).Some?
    ensures |TeamNodes(ts, depts, pl, n)| == n
    ensures TeamNodes(ts, depts, pl, n)[i] ==
              TeamNode(ts[i], depts[FindDepartment(depts, ts[i].department).value], pl.team(i % 3))
  {
    TeamsAllPlaced(ts, depts, pl, n - 1);
    TeamsAllPlaced(ts, depts, pl, n);
    if i < n - 1 {
      TeamPlaced(ts, depts, pl, n - 1, i);
    }
  }


  /** The rank of a kind in the push order. */
  function KindRank(k: NodeKind): nat {
    match k
    case Project => 0
    case Team => 1
    case Employee => 2
  }

  /** Every node of `ns` is of kind `k`. */
  ghost predicate AllOfKind(ns: seq<Node>, k: NodeKind) {
    forall i :: 0 <= i < |ns| ==> ns[i].Kind() == k
  }

  /** Three runs of one kind each, in rank order, concatenate into a list ordered by rank. */
  lemma RunsOrdered(ps: seq<Node>, ts: seq<Node>, es: seq<Node>)
    requires AllOfKind(ps, Project) && AllOfKind(ts, Team) && AllOfKind(es, Employee)
    ensures forall i, j :: 0 <= i < j < |ps + ts + es| ==>
              KindRank((ps + ts + es)[i].Kind()) <= KindRank((ps + ts + es)[j].Kind())
  {
    var all := ps + ts + es;
    forall i | 0 <= i < |all|
      ensures KindRank(all[i].Kind()) == if i < |ps| then 0 else if i < |ps| + |ts| then 1 else 2
    {
      if i < |ps| {
        assert all[i] == ps[i];
      } else if i < |ps| + |ts| {
        assert all[i] == ts[i - |ps|];
      } else {
        assert all[i] == es[i - |ps| - |ts|];
      }
    }
  }

  /** Projects come first, then teams, then employees. */
  lemma BuiltNodesOrdered(data: Dataset, pl: Placement)
    requires TeamsResolve(data)
    ensures forall i, j :: 0 <= i < j < |BuildNodes(data, pl)| ==>
              KindRank(BuildNodes(data, pl)[i].Kind()) <= KindRank(BuildNodes(data, pl)[j].Kind())
  {
    var depts := Departments(data);
    TeamsFindDepartments(data);
    ProjectNodesAreProjects(data.projects, depts, pl, |data.projects|);
    TeamsAllPlaced(data.teams, depts, pl, |data.teams|);
    EmployeeNodesAreEmployees(data.employees, depts, pl, |data.employees|);
    RunsOrdered(ProjectNodes(data.projects, depts, pl, |data.projects|),
                TeamNodes(data.teams, depts, pl, |data.teams|),
                EmployeeNodes(data.employees, depts, pl, |data.employees|));
  }

  /** A mentor edge exists exactly for each employee with a mentor, pointing from mentor to employee. */
  lemma {:induction false} MentorEdgesExact(es: seq<EmployeeData>, n: nat, edge: Edge)
    requires n <= |es|
    ensures edge in MentorEdges(es, n) <==>
              exists i :: 0 <= i < n && HasMentor(es[i]) && edge == Edge(es[i].mentor.value, es[i].id, Mentor)
  {
    if n > 0 {
      MentorEdgesExact(es, n - 1, edge);
    }
  }

  /** The assignment edges of one employee: exactly the projects of its list whose both ends resolve. */
  lemma {:induction false} EmployeeAssignmentsExact(e: EmployeeData, nodes: seq<Node>, m: nat, edge: Edge)
    requires m <= |e.projects|
    ensures edge in EmployeeAssignments(e, nodes, m) <==>
              exists k :: 0 <= k < m && AssignmentResolves(nodes, e, e.projects[k]) &&
                          edge == Edge(e.id, e.projects[k], Assignment)
  {
    if m > 0 {
      EmployeeAssignmentsExact(e, nodes, m - 1, edge);
    }
  }

  /**
   * An assignment edge is added for (employee, project id) exactly when a
   * project node with that id and an employee node with the employee's id
   * both exist.
   */
  lemma {:induction false} AssignmentEdgesExact(es: seq<EmployeeData>, nodes: seq<Node>, n: nat, edge: Edge)
    requires n <= |es|
    ensures edge in AssignmentEdges(es, nodes, n) <==>
              exists i, k :: 0 <= i < n && 0 <= k < |es[i].projects| &&
                             AssignmentResolves(nodes, es[i], es[i].projects[k]) &&
                             edge == Edge(es[i].id, es[i].projects[k], Assignment)
  {
    if n > 0 {
      AssignmentEdgesExact(es, nodes, n - 1, edge);
      EmployeeAssignmentsExact(es[n - 1], nodes, |es[n - 1].projects|, edge);
    }
  }

  /** An assignment that does not resolve leaves a warning naming each missing end. */
  lemma {:induction false} UnresolvedAssignmentWarned(es: seq<EmployeeData>, nodes: seq<Node>, n: nat, i: nat, k: nat)
    requires i < n <= |es| && k < |es[i].projects|
    ensures !HasNodeOfKind(nodes, es[i].projects[k], Project) ==>
              AssignmentProjectMissing(es[i].projects[k], es[i].id) in AssignmentWarnings(es, nodes, n)
    ensures !HasNodeOfKind(nodes, es[i].id, Employee) ==>
              AssignmentEmployeeMissing(es[i].id, es[i].projects[k]) in AssignmentWarnings(es, nodes, n)
  {
    var last := EmployeeAssignmentWarnings(es[n - 1], nodes, |es[n - 1].projects|);
    assert AssignmentWarnings(es, nodes, n) == AssignmentWarnings(es, nodes, n - 1) + last;
    if i < n - 1 {
      UnresolvedAssignmentWarned(es, nodes, n - 1, i, k);
    } else {
      OneAssignmentWarned(es[i], nodes, |es[i].projects|, k);
    }
  }

  lemma {:induction false} OneAssignmentWarned(e: EmployeeData, nodes: seq<Node>, m: nat, k: nat)
    requires k < m <= |e.projects|
    ensures !HasNodeOfKind(nodes, e.projects[k], Project) ==>
              AssignmentProjectMissing(e.projects[k], e.id) in EmployeeAssignmentWarnings(e, nodes, m)
    ensures !HasNodeOfKind(nodes, e.id, Employee) ==>
              AssignmentEmployeeMissing(e.id, e.projects[k]) in EmployeeAssignmentWarnings(e, nodes, m)
  {
    if k < m - 1 {
      OneAssignmentWarned(e, nodes, m - 1, k);
    }
  }

  /** Every assignment edge of a built graph has a project node at its target and an employee node at its source. */
  lemma BuiltAssignmentsResolve(data: Dataset, nodes: seq<Node>)
    ensures forall e :: e in BuildEdges(data, nodes) && e.kind == Assignment ==>
              HasNodeOfKind(nodes, e.target, Project) && HasNodeOfKind(nodes, e.source, Employee)
  {
    var es := data.employees;
    forall e | e in BuildEdges(data, nodes) && e.kind == Assignment
      ensures HasNodeOfKind(nodes, e.target, Project) && HasNodeOfKind(nodes, e.source, Employee)
    {
      MentorEdgesExact(es, |es|, e);
      assert e in AssignmentEdges(es, nodes, |es|);
      AssignmentEdgesExact(es, nodes, |es|, e);
    }
  }

  // ---------------------------------------------------------------------------
  // The construction loops: each pushes onto the lists it is given, in the
  // order the source's forEach visits its input

  /** graph.js:191-203: one box per department. */
  method PlaceDepartments(ds: seq<DepartmentData>) returns (depts: seq<Department>)
    ensures depts == DepartmentBoxes(ds, |ds|)
  {
    depts := [];
    for i := 0 to |ds|
      invariant depts == DepartmentBoxes(ds, i)
    {
      depts := depts + [DepartmentBox(ds[i], i)];
    }
  }

  /** graph.js:206-229: a node for each project whose department exists, a warning for each other. */
  method PlaceProjects(ps: seq<ProjectData>, depts: seq<Department>, pl: Placement,
                       ns: seq<Node>, log: seq<Warning>)
    returns (ns': seq<Node>, log': seq<Warning>)
    ensures ns' == ns + ProjectNodes(ps, depts, pl, |ps|)
    ensures log' == log + ProjectWarnings(ps, depts, |ps|)
  {
    ns', log' := ns, log;
    for i := 0 to |ps|
      invariant ns' == ns + ProjectNodes(ps, depts, pl, i)
      invariant log' == log + ProjectWarnings(ps, depts, i)
    {
      match FindDepartment(depts, ps[i].department) {
        case None =>
          AppendAssoc(log, ProjectWarnings(ps, depts, i), [ProjectDepartmentMissing(ps[i].id)]);
          log' := log' + [ProjectDepartmentMissing(ps[i].id)];
        case Some(k) =>
          AppendAssoc(ns, ProjectNodes(ps, depts, pl, i), [ProjectNode(ps[i], depts[k], pl.project(i))]);
          ns' := ns' + [ProjectNode(ps[i], depts[k], pl.project(i))];
      }
    }
  }

  /** graph.js:232-247: a node for each team, in its department's box. */
  method PlaceTeams(ts: seq<TeamData>, depts: seq<Department>, pl: Placement, ns: seq<Node>)
    returns (ns': seq<Node>)
    requires forall t :: t in ts ==> FindDepartment(depts, t.department).Some?
    ensures ns' == ns + TeamNodes(ts, depts, pl, |ts|)
  {
    ns' := ns;
    for i := 0 to |ts|
      invariant ns' == ns + TeamNodes(ts, depts, pl, i)
    {
      assert ts[i] in ts;
      var k := FindDepartment(depts, ts[i].department).value;
      AppendAssoc(ns, TeamNodes(ts, depts, pl, i), [TeamNode(ts[i], depts[k], pl.team(i % 3))]);
      ns' := ns' + [TeamNode(ts[i], depts[k], pl.team(i % 3))];
    }
  }

  /** graph.js:250-274: a node for each employee whose department exists, a warning for each other. */
  method PlaceEmployees(es: seq<EmployeeData>, depts: seq<Department>, pl: Placement,
                        ns: seq<Node>, log: seq<Warning>)
    returns (ns': seq<Node>, log': seq<Warning>)
    ensures ns' == ns + EmployeeNodes(es, depts, pl, |es|)
    ensures log' == log + EmployeeWarnings(es, depts, |es|)
  {
    ns', log' := ns, log;
    for i := 0 to |es|
      invariant ns' == ns + EmployeeNodes(es, depts, pl, i)
      invariant log' == log + EmployeeWarnings(es, depts, i)
    {
      match FindDepartment(depts, es[i].department) {
        case None =>
          AppendAssoc(log, EmployeeWarnings(es, depts, i), [EmployeeDepartmentMissing(es[i].id)]);
          log' := log' + [EmployeeDepartmentMissing(es[i].id)];
        case Some(k) =>
          AppendAssoc(ns, EmployeeNodes(es, depts, pl, i), [EmployeeNode(es[i], depts[k], pl.employee(i))]);
          ns' := ns' + [EmployeeNode(es[i], depts[k], pl.employee(i))];
      }
    }
  }

  /** graph.js:277-284 and 287-295: a member edge per employee, then a mentor edge per mentored employee. */
  method LinkPeople(es: seq<EmployeeData>, links: seq<Edge>) returns (links': seq<Edge>)
    ensures links' == links + MemberEdges(es, |es|) + MentorEdges(es, |es|)
  {
    links' := links;
    for i := 0 to |es|
      invariant links' == links + MemberEdges(es, i)
    {
      links' := links' + [Edge(es[i].id, es[i].team, Member)];
    }
    for i := 0 to |es|
      invariant links' == links + MemberEdges(es, |es|) + MentorEdges(es, i)
    {
      if HasMentor(es[i]) {
        links' := links' + [Edge(es[i].mentor.value, es[i].id, Mentor)];
      }
    }
  }

  /**
   * graph.js:298-315: for each employee and each of its project ids, an
   * assignment edge when both ends exist as nodes of the right type, and a
   * warning for each end that does not.
   */
  method LinkAssignments(es: seq<EmployeeData>, nodes: seq<Node>, links: seq<Edge>, log: seq<Warning>)
    returns (links': seq<Edge>, log': seq<Warning>)
    ensures links' == links + AssignmentEdges(es, nodes, |es|)
    ensures log' == log + AssignmentWarnings(es, nodes, |es|)
  {
    links', log' := links, log;
    for i := 0 to |es|
      invariant links' == links + AssignmentEdges(es, nodes, i)
      invariant log' == log + AssignmentWarnings(es, nodes, i)
    {
      var e := es[i];
      ghost var linked, logged := links', log';
      for m := 0 to |e.projects|
        invariant links' == linked + EmployeeAssignments(e, nodes, m)
        invariant log' == logged + EmployeeAssignmentWarnings(e, nodes, m)
      {
        var p := e.projects[m];
        var projectNode := HasNodeOfKind(nodes, p, Project);
        var employeeNode := HasNodeOfKind(nodes, e.id, Employee);
        if projectNode && employeeNode {
          links' := links' + [Edge(e.id, p, Assignment)];
        } else {
          if !projectNode {
            log' := log' + [AssignmentProjectMissing(p, e.id)];
          }
          if !employeeNode {
            log' := log' + [AssignmentEmployeeMissing(e.id, p)];
          }
        }
      }
      AppendAssoc(links, AssignmentEdges(es, nodes, i), EmployeeAssignments(e, nodes, |e.projects|));
      AppendAssoc(log, AssignmentWarnings(es, nodes, i), EmployeeAssignmentWarnings(e, nodes, |e.projects|));
    }
  }

  /** graph.js:206-274: the project, team and employee nodes, placed in `depts`, with their warnings. */
  method PlaceNodes(data: Dataset, depts: seq<Department>, pl: Placement, log: seq<Warning>)
    returns (ns: seq<Node>, log': seq<Warning>)
    requires forall t :: t in data.teams ==> FindDepartment(depts, t.department).Some?
    ensures ns == ProjectNodes(data.projects, depts, pl, |data.projects|)
                  + TeamNodes(data.teams, depts, pl, |data.teams|)
                  + EmployeeNodes(data.employees, depts, pl, |data.employees|)
    ensures log' == log + (ProjectWarnings(data.projects, depts, |data.projects|)
                           + EmployeeWarnings(data.employees, depts, |data.employees|))
  {
    ghost var projects := ProjectNodes(data.projects, depts, pl, |data.projects|);
    ghost var projectWarnings := ProjectWarnings(data.projects, depts, |data.projects|);
    ns, log' := PlaceProjects(data.projects, depts, pl, [], log);
    assert ns == projects && log' == log + projectWarnings;
    ns := PlaceTeams(data.teams, depts, pl, ns);
    ns, log' := PlaceEmployees(data.employees, depts, pl, ns, log');
    AppendAssoc(log, projectWarnings, EmployeeWarnings(data.employees, depts, |data.employees|));
  }

  /** graph.js:185-274: the department boxes, then the nodes, with the warnings for skipped entities. */
  method PlaceAll(data: Dataset, pl: Placement, log: seq<Warning>)
    returns (depts: seq<Department>, ns: seq<Node>, log': seq<Warning>)
    requires TeamsResolve(data)
    ensures depts == Departments(data)
    ensures ns == BuildNodes(data, pl)
    ensures log' == log + NodeWarnings(data)
  {
    depts := PlaceDepartments(data.departments);
    TeamsFindDepartments(data);
    ns, log' := PlaceNodes(data, depts, pl, log);
  }

  /** graph.js:277-315: member, mentor and assignment edges, with the warnings for unresolved assignments. */
  method LinkAll(data: Dataset, ns: seq<Node>, log: seq<Warning>)
    returns (links: seq<Edge>, log': seq<Warning>)
    ensures links == BuildEdges(data, ns)
    ensures log' == log + AssignmentWarnings(data.employees, ns, |data.employees|)
  {
    links := LinkPeople(data.employees, []);
    links, log' := LinkAssignments(data.employees, ns, links, log);
  }

  /**
   * The body of createNodesAndEdges (graph.js:184-315), with `log` the
   * warnings written so far: departments, then nodes, then edges, each
   * exactly as the functions above describe.
   */
  method Build(data: Dataset, pl: Placement, log: seq<Warning>)
    returns (depts: seq<Department>, ns: seq<Node>, links: seq<Edge>, log': seq<Warning>)
    requires TeamsResolve(data)
    ensures depts == Departments(data)
    ensures ns == BuildNodes(data, pl)
    ensures links == BuildEdges(data, ns)
    ensures log' == log + BuildWarnings(data, ns)
  {
    depts, ns, log' := PlaceAll(data, pl, log);
    links, log' := LinkAll(data, ns, log');
    AppendAssoc(log, NodeWarnings(data), AssignmentWarnings(data.employees, ns, |data.employees|));
  }
}
