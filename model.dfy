/**
 * The records of an organization graph: the dataset it is built from, the
 * department boxes, the nodes and edges it draws, the camera and the
 * visibility toggles (graph.js, OrganizationGraph).
 */
module Model {
  import opened Wrappers
  import opened Seqs

  /** A point or a vector of the plane, in world or screen units. */
  datatype Vec = Vec(x: real, y: real) {
    function Plus(other: Vec): Vec { Vec(x + other.x, y + other.y) }
    function Minus(other: Vec): Vec { Vec(x - other.x, y - other.y) }
    function Neg(): Vec { Vec(-x, -y) }
  }

  const ORIGIN: Vec := Vec(0.0, 0.0)

  function Abs(x: real): real { if x < 0.0 then -x else x }
  /** `Math.min` and `Math.max` on two reals. */
  function Min(a: real, b: real): real { if a <= b then a else b }
  function Max(a: real, b: real): real { if a < b then b else a }

  // ---------------------------------------------------------------------------
  // The dataset handed to createNodesAndEdges

  datatype DepartmentData = DepartmentData(id: string, name: string, description: string)
  datatype ProjectData = ProjectData(id: string, name: string, description: string, department: string)
  datatype TeamData = TeamData(id: string, name: string, description: string, department: string)
  /** An employee; `mentor` is absent for most, `projects` may be empty. */
  datatype EmployeeData = EmployeeData(
    id: string, name: string, role: string, team: string, department: string,
    mentor: Option<string>, projects: seq<string>)

  datatype Dataset = Dataset(
    departments: seq<DepartmentData>,
    projects: seq<ProjectData>,
    employees: seq<EmployeeData>,
    teams: seq<TeamData>)

  // ---------------------------------------------------------------------------
  // The graph

  /** A department container: a box centred on (x, y). */
  datatype Department = Department(
    id: string, name: string, description: string,
    x: real, y: real, width: real, height: real)

  datatype NodeKind = Project | Team | Employee

  /** What a node carries besides its identity, by the node's `type`. */
  datatype NodeInfo =
    | ProjectInfo(description: string)
    | TeamInfo(description: string)
    | EmployeeInfo(role: string, team: string, mentor: Option<string>)

  /**
   * A node of the force graph: identity, position, velocity, the force
   * accumulated in the current tick, and the `fixed` pin set while dragging.
   */
  datatype Node = Node(
    id: string, name: string, info: NodeInfo, department: string,
    x: real, y: real, vx: real, vy: real, fx: real, fy: real,
    fixed: bool)
  {
    function Kind(): NodeKind {
      match info
      case ProjectInfo(_) => Project
      case TeamInfo(_) => Team
      case EmployeeInfo(_, _, _) => Employee
    }

    function Position(): Vec { Vec(x, y) }
    function Force(): Vec { Vec(fx, fy) }
  }

  datatype EdgeKind = Member | Mentor | Assignment

  /** An edge between two node ids; the ids need not name existing nodes. */
  datatype Edge = Edge(source: string, target: string, kind: EdgeKind)

  /** The camera: the screen offset of the world origin, and the zoom scale. */
  datatype Camera = Camera(x: real, y: real, zoom: real)

  const MIN_ZOOM: real := 0.2
  const MAX_ZOOM: real := 3.0

  /** The three visibility toggles the filters read. */
  datatype Toggles = Toggles(showProjects: bool, showTeams: bool, showMentorships: bool)

  // ---------------------------------------------------------------------------
  // Radii used by the hit test and by department containment

  const EMPLOYEE_RADIUS: real := 12.5
  const TEAM_RADIUS: real := 50.0
  const PROJECT_RADIUS: real := 22.0

  /** The drawn radius of a node of kind `k`. */
  function Radius(k: NodeKind): (r: real)
    ensures 12.5 <= r <= 50.0
  {
    match k
    case Employee => EMPLOYEE_RADIUS
    case Team => TEAM_RADIUS
    case Project => PROJECT_RADIUS
  }

  // ---------------------------------------------------------------------------
  // Lookups by id, all first-match (`find`)

  /** `departments.find(d => d.id === id)`. */
  function FindDepartment(departments: seq<Department>, id: string): (r: Option<nat>)
    ensures r.Some? ==> r.value < |departments| && departments[r.value].id == id
    ensures r.Some? ==> forall k :: 0 <= k < r.value ==> departments[k].id != id
    ensures r.None? <==> forall k :: 0 <= k < |departments| ==> departments[k].id != id
  {
    FindFirst(departments, (d: Department) => d.id == id)
  }

  /** `nodes.find(n => n.id === id)`. */
  function FindNode(nodes: seq<Node>, id: string): (r: Option<nat>)
    ensures r.Some? ==> r.value < |nodes| && nodes[r.value].id == id
    ensures r.Some? ==> forall k :: 0 <= k < r.value ==> nodes[k].id != id
    ensures r.None? <==> forall k :: 0 <= k < |nodes| ==> nodes[k].id != id
  {
    FindFirst(nodes, (n: Node) => n.id == id)
  }

  /** Some node of kind `k` has id `id` (`nodes.find(n => n.id === id && n.type === k)` is truthy). */
  predicate HasNodeOfKind(nodes: seq<Node>, id: string, k: NodeKind) {
    exists n :: n in nodes && n.id == id && n.Kind() == k
  }
}
