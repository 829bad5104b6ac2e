# OrganizationGraph, modelled in Dafny

This project models the core of `OrganizationGraph` (graph.js), a canvas
force-directed view of a company. Departments are drawn as boxes. Projects,
teams and employees are nodes inside their department's box. Employees are
linked to their team (`member`), to their mentor (`mentor`) and to their
projects (`assignment`).

The model covers five parts of the class:

- **Graph construction** (`createNodesAndEdges`). Department boxes are laid
  out left to right. Then come project, team and employee nodes, in that
  order, followed by member, mentor and assignment edges. A project or
  employee whose department is unknown is skipped with a warning. An
  assignment that does not resolve is skipped with a warning for each
  missing end.
- **Visibility filters** (`getVisibleNodes`, `getVisibleEdges`). These are
  order-preserving filters driven by the three toggles `showProjects`,
  `showTeams` and `showMentorships`. They include the keep-alive rule for
  employees while teams are hidden.
- **The physics tick** (`updatePhysics`). It has a force reset, pairwise
  repulsion, edge attraction, damping, settling, integration and a clamp
  into the department box with an inelastic bounce.
- **Pointer and camera** (`getNodeAt`, the mouse and wheel handlers,
  `centerGraph`, `resetView`).
- **The four toggles.**

Modules, one file each:

- `Seqs` (`seqs.dfy`): JavaScript's `find` and `filter` as first-match
  search and order-preserving filtering, with their defining properties.
- `Model` (`model.dfy`): the dataset, nodes, edges, departments, camera,
  toggles and node radii.
- `Construction` (`construction.dfy`):
  - specification functions describing the departments, nodes, edges and
    warnings that construction produces;
  - the loops of `createNodesAndEdges` as methods proved against those
    functions;
  - lemmas for the skip-and-warn, ordering and edge rules.
- `Visibility` (`visibility.dfy`): the two filters and their properties.
- `Physics` (`physics.dfy`):
  - the force passes as methods over the node list, proved against sums
    (`RepelOn`, `AttractOn`) of the push each pair and the pull each edge
    contributes to a node;
  - integration and containment as functions;
  - the zero net force argument.
- `View` (`view.dfy`): screen/world transforms, the hit test, zoom, pan,
  node dragging and the bounding-box loop of `centerGraph`.
- `Graph` (`graph.dfy`): the class `OrganizationGraph`. Its fields are
  updated in place by methods that mirror the source's methods.

Nodes are values in a sequence. The source keeps `dragTarget` and
`hoveredNode` as references to node objects; here a `NodeRef` holds one of
three things:

- nothing;
- the index of a node of the current list;
- `Detached`: a node object of a list that `createNodesAndEdges` has since
  replaced.

Dragging a detached node moves an object that is no longer drawn, so in the
model it changes nothing.

Edges whose ends do not resolve to nodes are kept by `getVisibleEdges`
(graph.js:356, 373), so the edge filter does not require both ends of an
edge to be visible.

## Model

| member | source | states |
|---|---|---|
| Seqs.FindFirst | graph.js:207 | `Array.prototype.find`: the result is the first index whose element satisfies the predicate, and None exactly when no element does |
| Seqs.FilterIndices | graph.js:321 | `Array.prototype.filter`: the kept positions are strictly increasing, and a position is kept iff its element satisfies the predicate |
| Seqs.Filter | graph.js:321 | the filtered list is the subsequence of the input at the kept positions, in order |
| Seqs.FilterMembers | graph.js:347 | an element is in the filtered list iff it is in the input and satisfies the predicate |
| Model.Radius | graph.js:25-28 | the radii are the employee, team and project radii 12.5, 50 and 22, all within [12.5, 50] |
| Model.FindDepartment | graph.js:207 | the department lookup by id is first-match, and None exactly when no department has that id |
| Model.FindNode | graph.js:353-354 | the node lookup by id is first-match, and None exactly when no node has that id |
| Construction.DepartmentBoxes | graph.js:191-203 | the i-th department box is centred at ((i - 0.5) * 1005, 0), is 1000 x 800, and carries department i's id, name and description |
| Construction.DepartmentBox | graph.js:192-202 | one department's box; its placement is stated by DepartmentBoxes |
| Construction.Departments | graph.js:191-203 | the boxes of all departments, in data order; stated by DepartmentBoxes and DepartmentsSideBySide |
| Construction.TeamsResolve | graph.js:233-242 | every team names an existing department, the condition under which the team loop cannot crash; used by TeamsFindDepartments |
| Construction.ProjectNode | graph.js:216-228 | the node of a placed project: project kind, its department's centre plus the placement offset, 50 lower, at rest and unpinned; stated by ProjectPlaced |
| Construction.TeamNode | graph.js:236-247 | the node of a placed team, at its department's centre plus the offset, at rest and unpinned; stated by TeamPlaced |
| Construction.EmployeeNode | graph.js:260-273 | the node of a placed employee with role, team and mentor, at rest and unpinned; stated by EmployeePlaced |
| Construction.ProjectNodes | graph.js:206-229 | the project loop's nodes; stated by ProjectsNodeOrWarning, ProjectNodesAreProjects and ProjectPlaced |
| Construction.ProjectWarnings | graph.js:208-210 | the project loop's warnings; stated by ProjectsNodeOrWarning and ProjectWarned |
| Construction.TeamNodes | graph.js:232-248 | the team loop's nodes; stated by TeamsAllPlaced |
| Construction.EmployeeNodes | graph.js:251-274 | the employee loop's nodes; stated by EmployeesNodeOrWarning, EmployeeNodesAreEmployees and EmployeePlaced |
| Construction.EmployeeWarnings | graph.js:253-255 | the employee loop's warnings; stated by EmployeesNodeOrWarning and EmployeeWarned |
| Construction.BuildNodes | graph.js:206-274 | the whole node list, projects then teams then employees; stated by BuiltNodesOrdered and PlaceAll |
| Construction.DepartmentsSideBySide | graph.js:191-203 | department boxes run left to right, each at least 5 units clear of every later one |
| Construction.TeamsFindDepartments | graph.js:233 | when every team names an existing department, each team's department lookup succeeds, so line 242 never reads a missing box |
| Construction.ProjectsNodeOrWarning | graph.js:206-229 | every project yields exactly one of a node and a warning |
| Construction.ProjectNodesAreProjects | graph.js:206-229 | every node built from projects is a project node whose department exists |
| Construction.ProjectPlaced | graph.js:206-229 | a project whose department exists becomes a project node in its department, 50 below its placement offset |
| Construction.ProjectWarned | graph.js:207-210 | a project whose department is missing is reported with its id |
| Construction.TeamsAllPlaced | graph.js:232-248 | every team becomes a team node with its own id, in team order, with none skipped |
| Construction.TeamPlaced | graph.js:232-248 | the i-th team node is exactly the i-th team placed at its department's centre plus the (i mod 3)-th team offset |
| Construction.EmployeesNodeOrWarning | graph.js:251-274 | every employee yields exactly one of a node and a warning |
| Construction.EmployeeNodesAreEmployees | graph.js:251-274 | every node built from employees is an employee node whose department exists |
| Construction.EmployeePlaced | graph.js:251-274 | an employee whose department exists becomes an employee node in its department, carrying role, team and mentor |
| Construction.EmployeeWarned | graph.js:252-256 | an employee whose department is missing is reported with its id |
| Construction.RunsOrdered | graph.js:206-274 | a run of projects, then teams, then employees is ordered by kind |
| Construction.BuiltNodesOrdered | graph.js:206-274 | in the built node list no node comes before a node of an earlier kind (projects, then teams, then employees) |
| Construction.MemberEdges | graph.js:277-283 | there is exactly one member edge per employee, from the employee to its team id, in employee order and unconditionally |
| Construction.HasMentor | graph.js:287 | the truthiness test on `employee.mentor`: present and not the empty string; used by MentorEdgesExact |
| Construction.MentorEdges | graph.js:286-294 | the mentor loop's edges; stated by MentorEdgesExact |
| Construction.AssignmentResolves | graph.js:300-302 | a project-typed node with the project id and an employee-typed node with the employee id both exist |
| Construction.EmployeeAssignments | graph.js:299-313 | one employee's assignment edges; stated by EmployeeAssignmentsExact |
| Construction.EmployeeAssignmentWarnings | graph.js:309-312 | one employee's assignment warnings; stated by OneAssignmentWarned |
| Construction.AssignmentEdges | graph.js:297-315 | the assignment loop's edges; stated by AssignmentEdgesExact and BuiltAssignmentsResolve |
| Construction.AssignmentWarnings | graph.js:297-315 | the assignment loop's warnings; stated by UnresolvedAssignmentWarned |
| Construction.BuildEdges | graph.js:277-315 | member, then mentor, then assignment edges; stated by MemberEdges, MentorEdgesExact, AssignmentEdgesExact and LinkAll |
| Construction.NodeWarnings | graph.js:206-274 | the warnings of the node loops, projects first; stated by PlaceAll |
| Construction.BuildWarnings | graph.js:209-311 | all warnings in logging order; stated by Build |
| Construction.MentorEdgesExact | graph.js:286-294 | an edge is a mentor edge iff some employee has a (non-empty) mentor and the edge runs from that mentor to the employee |
| Construction.EmployeeAssignmentsExact | graph.js:299-313 | an edge is among one employee's assignment edges iff it runs from the employee to one of its projects and both a project node with that id and an employee node with the employee's id exist |
| Construction.AssignmentEdgesExact | graph.js:297-315 | an edge is an assignment edge iff it runs from some employee to one of its projects and both ends exist as nodes of the right kind |
| Construction.OneAssignmentWarned | graph.js:309-312 | for one employee, a missing project node and a missing employee node are each reported with the project and employee ids |
| Construction.UnresolvedAssignmentWarned | graph.js:297-315 | for any employee and project, a missing project node and a missing employee node are each reported |
| Construction.BuiltAssignmentsResolve | graph.js:300-308 | every assignment edge built has a project node at its target and an employee node at its source |
| Construction.PlaceDepartments | graph.js:191-203 | the department loop produces exactly the boxes of the department layout |
| Construction.PlaceProjects | graph.js:206-229 | the project loop appends the project nodes and logs the project warnings |
| Construction.PlaceTeams | graph.js:232-248 | the team loop appends one node per team |
| Construction.PlaceEmployees | graph.js:251-274 | the employee loop appends the employee nodes and logs the employee warnings |
| Construction.LinkPeople | graph.js:277-294 | the member loop and the mentor loop append the member edges, then the mentor edges |
| Construction.LinkAssignments | graph.js:297-315 | the nested assignment loop appends the resolving assignment edges and logs the warnings for the rest |
| Construction.PlaceNodes | graph.js:206-274 | the three node loops produce project, then team, then employee nodes, and log project warnings, then employee warnings |
| Construction.PlaceAll | graph.js:185-274 | from empty lists, the department and node loops produce the department boxes, the node list and the node warnings |
| Construction.LinkAll | graph.js:276-315 | the edge loops produce member, then mentor, then assignment edges, and the assignment warnings |
| Construction.Build | graph.js:185-315 | the whole of construction produces the boxes, nodes, edges and warnings, in logging order |
| Visibility.VisibleNodeIndices | graph.js:320-344 | the visible positions are strictly increasing, and a node is kept iff the filter callback accepts it |
| Visibility.VisibleNodes | graph.js:320-344 | getVisibleNodes is the order-preserving subsequence of the nodes at the visible positions |
| Visibility.VisibleNodesMembers | graph.js:320-344 | a node is visible iff it is in the graph and the filter accepts it |
| Visibility.InvolvedInVisibleProject | graph.js:329-333 | projects are shown and some assignment edge at the employee has a project node at one of its ends; used by KeepAlive |
| Visibility.InvolvedInVisibleMentorship | graph.js:334-338 | mentorships are shown and some mentor edge at the employee has an employee node at one of its ends; used by KeepAlive |
| Visibility.NodeVisible | graph.js:321-343 | the node filter callback, branch by branch; stated by HiddenKindsInvisible, EmployeesVisibleWithTeams, TeamlessEmployeeVisible and KeepAlive |
| Visibility.HiddenKindsInvisible | graph.js:322-323 | no project is visible with projects hidden, and no team with teams hidden |
| Visibility.ShownKindsVisible | graph.js:321-343 | a project node is visible exactly when projects are shown, and a team node exactly when teams are shown |
| Visibility.EmployeesVisibleWithTeams | graph.js:325 | with teams shown, every employee node is visible |
| Visibility.TeamlessEmployeeVisible | graph.js:326-327 | an employee whose team id resolves to no team node is always visible |
| Visibility.KeepAlive | graph.js:325-340 | with teams hidden and the employee's team present, an employee is visible iff (projects shown and it has an assignment edge) or (mentorships shown and it has a mentor edge), given that assignment edges resolve as construction builds them |
| Visibility.AllNodesShown | graph.js:320-344 | with every toggle on, the visible nodes are all nodes, in order |
| Visibility.VisibleEdges | graph.js:346-375 | getVisibleEdges is the order-preserving subsequence of the edges accepted by the edge callback |
| Visibility.VisibleEdgesMembers | graph.js:346-375 | an edge is visible iff it is in the graph and the edge callback accepts it |
| Visibility.EdgeVisible | graph.js:347-374 | the edge filter callback; its member-edge branch for hidden teams (graph.js:363-370) is proved unreachable; stated by VisibleEdgeKindShown, UnresolvedEdgeKept and ResolvedHiddenEndDropped |
| Visibility.AssignmentsResolve | graph.js:300-308 | every assignment edge has a project node at its target and an employee node at its source, as construction guarantees |
| Visibility.ResolutionKept | graph.js:300-302 | assignment edges stay resolved when nodes keep their ids and kinds position by position, so moving, pinning or pushing nodes cannot break resolution |
| Visibility.VisibleEdgeKindShown | graph.js:348-350 | no visible edge is of a kind whose toggle is off |
| Visibility.UnresolvedEdgeKept | graph.js:353-356 | an edge of a shown kind with an end that resolves to no node is always visible |
| Visibility.ResolvedHiddenEndDropped | graph.js:356-360 | an edge whose resolved end is a hidden project or hidden team is not visible |
| Visibility.ResolvedShownEdgeKept | graph.js:347-374 | an edge whose own toggle is on and whose ends both resolve is kept when neither end is a hidden project or hidden team |
| Visibility.AllEdgesShown | graph.js:346-375 | with every toggle on, the visible edges are all edges, in order |
| Physics.NetForceUpdate | graph.js:389-450 | replacing one node changes the net visible force by that node's change of force, and only if it is visible |
| Physics.NetForceFrame | graph.js:389-450 | the net force depends only on the visible nodes' forces |
| Physics.NetForceOfRest | graph.js:389-394 | visible nodes at rest have net force zero |
| Physics.Length | graph.js:403 | the distance as the host's square root of the squared length |
| Physics.Repulsion | graph.js:401-408 | the push between two positions (the nodes' positions are passed, not the nodes); a push exists exactly when the distance is strictly between 0 and 250 |
| Physics.TargetDistance | graph.js:431-433 | the rest length of an edge: 80 for mentor, 110 for assignment, 120 otherwise |
| Physics.Attraction | graph.js:428-438 | the pull between the source and target positions (the nodes' positions are passed, not the nodes); a pull exists exactly when the distance is positive |
| Physics.Exert | graph.js:410-416 | adds a contribution to an unpinned node's force and leaves a pinned node alone; stated by ExertPair |
| Physics.ExertPair | graph.js:410-417 | a contribution changes only the forces of its two nodes, and never those of a pinned node |
| Physics.ExertPairForce | graph.js:410-417 | a pair contribution moves an unpinned node's force by exactly its share: f at the first node, -f at the second, nothing when it is both |
| Physics.PairBalanced | graph.js:410-417 | a contribution added to one unpinned visible node and subtracted from another leaves the net force unchanged |
| Physics.FindVisible | graph.js:424-425 | the endpoint lookup among the visible nodes is first-match, and None exactly when no visible node has that id |
| Physics.ResetForces | graph.js:389-394 | exactly the visible unpinned nodes get force zero |
| Physics.PairPush | graph.js:397-418 | the push a visible node gets from one other visible node: the pair's push when the other comes first in the list, its negation when the node itself comes first; stated by Repel |
| Physics.RepelOn | graph.js:397-420 | the repulsion a visible node accumulates: the sum of its pushes from every other visible node; stated by Repel and RepelUpToByPosition |
| Physics.EdgePull | graph.js:423-449 | the pull one edge puts on a visible node: +f at the source, -f at the target, nothing unless both ends are visible nodes; stated by PullOnlyAtVisibleEnds and EdgePullBetween |
| Physics.AttractOn | graph.js:423-450 | the attraction a visible node accumulates: the sum of its pulls from every visible edge; stated by Attract and AttractUpToByPosition |
| Physics.Accumulated | graph.js:389-450 | the force a tick accumulates on a visible unpinned node: its repulsion plus its attraction, from zero; stated by AccumulateForces |
| Physics.PullOnlyAtVisibleEnds | graph.js:424-427 | an edge pulls on nothing unless both ends are visible nodes, and then only on those two ends |
| Physics.EdgePullBetween | graph.js:427-448 | an edge with both ends visible gives its source the pull and its target the negated pull |
| Physics.RepelUpToByPosition | graph.js:397-420 | a node's repulsion depends only on where the visible nodes are, so resetting forces does not change it |
| Physics.AttractUpToByPosition | graph.js:423-450 | a node's attraction depends only on the ids and positions of the visible nodes, so the repulsion pass does not change it |
| Physics.RepelSoFarAll | graph.js:397-420 | the pushes received over the whole pair loop, in its i < j order, are the node's full repulsion RepelOn |
| Physics.PushPair | graph.js:404-418 | one step of the pair loop: a push f in range moves the earlier node by -f and the later by f; stated by RepelPairAt |
| Physics.RepelPairAt | graph.js:404-418 | handling pair (i, j) adds to a visible unpinned node exactly its share of that pair's push |
| Physics.PullEdge | graph.js:424-449 | one step of the edge loop; stated by PullEdgeAt |
| Physics.PullEdgeAt | graph.js:424-449 | handling one edge adds to a visible unpinned node exactly that edge's pull on it |
| Physics.Repel | graph.js:397-420 | repulsion changes only the forces of visible unpinned nodes, each by exactly its RepelOn, and, with none pinned, keeps the net force |
| Physics.Attract | graph.js:423-450 | attraction changes only the forces of visible unpinned nodes, each by exactly its AttractOn (so an edge with an invisible end pulls nothing), and, with none pinned, keeps the net force |
| Physics.ClampAxis | graph.js:485-500 | a clamped coordinate lies in [lo, hi]; an inside coordinate is untouched; below lo it becomes lo with velocity >= 0 at half magnitude; above hi it becomes hi with velocity <= 0 at half magnitude; speed never grows |
| Physics.Margin | graph.js:474-479 | the node radius of its kind plus 10 |
| Physics.HomeDepartment | graph.js:471-473 | a found box has the node's department id; none is found exactly when the node's department is empty or matches no box |
| Physics.InsideBox | graph.js:479-483 | the node's centre lies within the box shrunk by its margin on both axes; used by Contain and Integrate |
| Physics.Contain | graph.js:471-502 | a node without an existing department, or already inside its shrunk box, is untouched; otherwise, when the box is at least two margins (radius + 10) across, the node ends inside the box shrunk by the margin; only position and velocity change, and speed never grows |
| Physics.Damped | graph.js:453-454 | the accumulated force added to the velocity, times the damping 0.92; used by Integrate |
| Physics.Settle | graph.js:457-466 | settling never grows a velocity component or flips its sign, snaps speeds below 0.01 to zero, and leaves speeds in [0.01, 0.1] unchanged |
| Physics.Integrate | graph.js:452-502 | integrating a node changes only its position and velocity; the node moves by its settled damped velocity and keeps it unless that move leaves its department's shrunk box; it is never faster than its damped velocity, stops when that is slower than 0.01, and ends inside its department's shrunk box when the box is at least two margins (radius + 10) across, as every built box is (BuiltBoxesFit) |
| Physics.IntegrateAll | graph.js:451-504 | exactly the visible unpinned nodes are integrated |
| Physics.AccumulateForces | graph.js:389-450 | the reset and both passes: only forces of visible unpinned nodes change, each becoming exactly Accumulated from the positions before the tick; with none pinned they sum to zero |
| Physics.AccumulatedFromZero | graph.js:389-450 | a force reset to zero and moved by the two passes equals Accumulated over the original nodes |
| Physics.PassesBalance | graph.js:389-450 | with no visible node pinned, reset forces moved by two balanced passes sum to zero |
| Physics.Tick | graph.js:380-504 | only visible unpinned nodes change, each becoming the integration of itself with the force it accumulated, which is exactly Accumulated (its repulsion plus its attraction); no node changes id or kind; with no visible node pinned, the accumulated forces sum to zero |
| View.ScreenToWorld | graph.js:63-69 | getMousePos gives the world point that the camera draws back under the cursor |
| View.WorldScreenRoundTrip | graph.js:63-69 | mapping a world point to the screen and back gives the same point |
| View.NodeAt | graph.js:70-80 | getNodeAt gives the first node whose circle strictly contains the point, and None exactly when no circle does |
| View.Hits | graph.js:72-78 | the point lies strictly inside the node's circle of its kind's radius (squared distances); used by NodeAt and CentreIsHit |
| View.CentreIsHit | graph.js:70-80 | a press on a node's centre finds that node or one before it |
| View.ClampZoom | graph.js:138 | the zoom is clamped into [0.2, 3]: a zoom in range is kept, one below 0.2 becomes 0.2 and one above 3 becomes 3 |
| View.ZoomFactor | graph.js:137 | scrolling down gives a factor in (0, 1), anything else a factor above 1 |
| View.WheelZoom | graph.js:137-148 | after a wheel step the zoom is in [0.2, 3] whatever it was, the world point under the cursor is unchanged, and scrolling down never zooms in while scrolling up never zooms out |
| View.Pan | graph.js:107-111 | panning shifts every world point's screen position by the pointer's movement and keeps the zoom |
| View.DragBy | graph.js:103-106 | a dragged node moves on screen exactly with the pointer, and nothing but its position changes |
| View.MinUpToIsLeast | graph.js:730-738 | the running Math.min is one of the values and no greater than any |
| View.MaxUpToIsGreatest | graph.js:730-738 | the running Math.max is one of the values and no less than any |
| View.BoxCentreInside | graph.js:741-742 | the bounding-box centre lies between the smallest and largest coordinate of the visible nodes on each axis |
| View.Bounds | graph.js:730-738 | the bounds loop computes the least and greatest x and y of the visible nodes |
| View.CenterCamera | graph.js:717-746 | with no nodes the camera is untouched; with none visible it is reset to the canvas centre at zoom 1; otherwise the zoom is kept and the bounding-box centre is drawn at the canvas centre; a zoom in range stays in range |
| Graph.BuiltBoxesFit | graph.js:192-202 | every department box construction builds is at least two margins across for a node of any kind, so containment always ends inside it |
| Graph.OrganizationGraph.constructor | graph.js:1-45 | a new graph is empty, with the camera at the origin at zoom 1, no drag or hover, physics on and every toggle on |
| Graph.OrganizationGraph.Detach | graph.js:185-187 | replacing the node list leaves the drag target and hovered node pointing at discarded objects |
| Graph.OrganizationGraph.Install | graph.js:185-315 | the graph's departments, nodes and edges become exactly those construction describes, and its warnings are appended to the log |
| Graph.OrganizationGraph.CreateNodesAndEdges | graph.js:184-318 | the graph is rebuilt from the data, warnings are logged, old node references are detached and the camera is centred on the new graph |
| Graph.OrganizationGraph.UpdatePhysics | graph.js:377-505 | paused physics changes nothing; otherwise only visible unpinned nodes change, each by integration with its accumulated force, which is exactly Accumulated over the visible nodes and edges before the tick; with no visible node pinned the forces sum to zero; assignment edges stay resolved |
| Graph.OrganizationGraph.OnMouseDown | graph.js:82-96 | a press on a node pins it and makes it the drag target; a press elsewhere starts a pan with no target; both record the pointer |
| Graph.OrganizationGraph.OnMouseMove | graph.js:98-119 | while dragging, the target follows the pointer, or with no target the camera pans; otherwise the hovered node is looked up again; the pointer is recorded |
| Graph.OrganizationGraph.OnMouseUp | graph.js:121-127 | releasing unpins the drag target, clears it and ends the drag |
| Graph.OrganizationGraph.OnWheel | graph.js:129-149 | the camera becomes one wheel-zoom step towards the pointer, so the zoom stays in [0.2, 3] |
| Graph.OrganizationGraph.CenterGraph | graph.js:717-746 | the camera is centred on the visible nodes as centerGraph does, and the zoom stays in range |
| Graph.OrganizationGraph.ResetView | graph.js:712-715 | the camera is centred starting from the origin at zoom 1 |
| Graph.OrganizationGraph.TogglePhysics | graph.js:688-692 | physicsEnabled is flipped |
| Graph.OrganizationGraph.ToggleProjectsVisibility | graph.js:694-698 | showProjects is flipped |
| Graph.OrganizationGraph.ToggleMentorshipsVisibility | graph.js:700-704 | showMentorships is flipped |
| Graph.OrganizationGraph.ToggleTeamsVisibility | graph.js:706-710 | showTeams is flipped |

`Visibility.EdgeVisible` has a branch for member edges while teams are hidden
(graph.js:363-370). That branch is proved unreachable: such edges are
dropped earlier, at graph.js:350.

## Left out

- Rendering (`render`, the tooltip text, team-label wrapping), `resizeCanvas`, the event listener setup and the animation loop are not modelled. They are drawing and DOM plumbing.
- The toggles also rewrite their button's label text. That DOM update is not modelled; only the boolean flip is.
- `loadData` is not modelled: it is a hard-coded sample dataset. The dataset is a parameter of `CreateNodesAndEdges`.
- search.js is not part of this model. It is DOM glue around search methods that graph.js does not define.
- Construction.Build: initial positions come from `Math.random`, `Math.cos` and `Math.sin`. The model takes them as a `Placement` of arbitrary offset functions, so no claim about the exact starting coordinates is made.
- Physics.Tick: `Math.sqrt` is a parameter `sqrt` about which nothing is assumed. Each node's force is stated to be exactly the sum of the pushes and pulls `Repulsion` and `Attraction` compute, and those transcribe the formulas, but with `sqrt` unconstrained no numeric value of a force (inverse-square repulsion, spring attraction) or of the speed-dependent damping factor is stated.
- Physics.Settle: the snap to zero is stated for speeds below 0.01. The extra damping above 0.1 is stated only as never growing a component or flipping its sign; its factor max(0.8, 1 - 0.01 * speed) is computed but its value is not stated.
- Floating point is modelled as exact real arithmetic.
- View.NodeAt: the hit test compares squared distance with the squared radius instead of taking a square root. For non-negative reals the two are equivalent.
- Model.Radius: the fallback radius 25 (graph.js:25, 74, 474) applies only to a node of unknown type. The node kinds here are closed, so it cannot arise.
- Graph.OrganizationGraph.CreateNodesAndEdges: a team whose department is missing makes the source throw at graph.js:242. The model requires every team's department to exist (`TeamsResolve`).
- View.ScreenToWorld: a camera with zoom 0 is excluded. The zoom is always within [0.2, 3].
- `getBoundingClientRect` is not modelled: the canvas origin is a parameter `origin` of the pointer handlers. `onWheel` uses raw client coordinates, as the source does.
- Graph.OrganizationGraph.OnMouseMove: dragging a node object that a rebuild has discarded (`Detached`) moves an object the source no longer draws. The model does not track that object and leaves the graph unchanged.
- Node identity and aliasing are not modelled: nodes are values, and the source's shared node objects (a visible-node array aliasing `this.nodes`) become index lists into one sequence.
- The per-node `fx`/`fy` fields do not exist on a freshly built node in the source. Here they start at 0, and a tick resets them before use for every node it moves.
- The source creates `this.departments` only in `createNodesAndEdges`; the model starts it empty.
- The `color` fields of project nodes and assignment edges (graph.js:222, 307) are not modelled. Every node's `label` is modelled as its `name`.
