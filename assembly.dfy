/** The graph-assembly logic shared by the three diagram tools, written once and
    parameterised by a registry table: pass 1 draws the members of each group
    inside that group's container, pass 2 draws what no group placed at top
    level, then the connections become edges between pool entries.

    A node's identity is its position in `nodes`, the order of drawing; the pool
    maps a component name to the position of the node it currently refers to. */
module Assembly {
  import opened Wrappers
  import opened Registry

  /** A component descriptor `{type, name}`. */
  datatype Component = Component(typeName: string, name: string)

  /** A cluster/VPC descriptor `{name?, components?}`. */
  datatype Grouping = Grouping(name: Option<string>, members: Option<seq<string>>)

  /** A connection descriptor `{from, to, label?}`. */
  datatype Connection = Connection(from: string, to: string, labelText: Option<string>)

  /** Where a node is drawn: at top level or inside the container at that index. */
  datatype Scope = Top | Group(index: nat)

  datatype Node = Node(name: string, kind: Kind, scope: Scope)

  /** A directed edge between two drawn nodes, by position. */
  datatype Edge = Edge(from: nat, to: nat, labelText: Option<string>)

  /** Everything drawn while the diagram context is open. */
  datatype Diagram = Diagram(
    title: string,
    containers: seq<string>,
    nodes: seq<Node>,
    pool: map<string, nat>,
    edges: seq<Edge>)

  /** The invariant of a diagram under construction: the pool refers to drawn
      nodes of the same name, nodes sit in opened containers, edges join drawn nodes. */
  ghost predicate WellFormed(d: Diagram) {
    && (forall n :: n in d.pool ==> d.pool[n] < |d.nodes| && d.nodes[d.pool[n]].name == n)
    && (forall i :: 0 <= i < |d.nodes| ==> ScopeOpen(d, d.nodes[i].scope))
    && (forall e :: e in d.edges ==> e.from < |d.nodes| && e.to < |d.nodes|)
  }

  /** The pool entry of `n`, if any, is the last node drawn with that name:
      later nodes carry other names. */
  predicate PoolIsLatest(d: Diagram, n: string) {
    n in d.pool ==> forall i :: d.pool[n] < i < |d.nodes| ==> d.nodes[i].name != n
  }

  predicate ScopeOpen(d: Diagram, scope: Scope) {
    scope.Group? ==> scope.index < |d.containers|
  }

  function Empty(title: string): Diagram {
    Diagram(title, [], [], map[], [])
  }

  predicate Resolvable(table: Table, c: Component) {
    Lookup(table, c.typeName).Some?
  }

  function GroupName(g: Grouping, default: string): string {
    g.name.GetOr(default)
  }

  function GroupMembers(g: Grouping): seq<string> {
    g.members.GetOr([])
  }

  // ---------------------------------------------------------------------------
  // The steps, as the source takes them
  // ---------------------------------------------------------------------------

  /** Resolve one descriptor in `scope`: when its type is known, draw a node
      there and make the pool entry for its name refer to it. */
  function Place(table: Table, d: Diagram, c: Component, scope: Scope): Diagram {
    match Lookup(table, c.typeName)
    case None => d
    case Some(k) => d.(nodes := d.nodes + [Node(c.name, k, scope)], pool := d.pool[c.name := |d.nodes|])
  }

  /** Pass 1 inside one container: every descriptor whose name the group lists,
      in descriptor order, with no check of the pool. */
  function PlaceMembers(table: Table, members: seq<string>, scope: Scope, cs: seq<Component>, d: Diagram): Diagram
    decreases |cs|
  {
    if cs == [] then d
    else PlaceMembers(table, members, scope, cs[1..],
                      if cs[0].name in members then Place(table, d, cs[0], scope) else d)
  }

  /** Pass 1: each grouping opens a container (named `default` when it has no
      name), then its members are placed inside it. */
  function PlaceGroups(table: Table, default: string, groups: seq<Grouping>, cs: seq<Component>, d: Diagram): Diagram
    decreases |groups|
  {
    if groups == [] then d
    else
      var withContainer := d.(containers := d.containers + [GroupName(groups[0], default)]);
      PlaceGroups(table, default, groups[1..], cs,
                  PlaceMembers(table, GroupMembers(groups[0]), Group(|d.containers|), cs, withContainer))
  }

  /** Pass 2: every descriptor whose name is not yet in the pool, at top level. */
  function PlaceUngrouped(table: Table, cs: seq<Component>, d: Diagram): Diagram
    decreases |cs|
  {
    if cs == [] then d
    else PlaceUngrouped(table, cs[1..], if cs[0].name in d.pool then d else Place(table, d, cs[0], Top))
  }

  /** An edge is labelled only by a present, non-empty label. */
  function EdgeLabel(given: Option<string>): Option<string> {
    if given.Some? && given.value != "" then given else None
  }

  /** One connection: an edge when both endpoints are pool keys, else nothing. */
  function Connect(d: Diagram, c: Connection): Diagram {
    if c.from in d.pool && c.to in d.pool then
      d.(edges := d.edges + [Edge(d.pool[c.from], d.pool[c.to], EdgeLabel(c.labelText))])
    else d
  }

  function ConnectAll(conns: seq<Connection>, d: Diagram): Diagram
    decreases |conns|
  {
    if conns == [] then d else ConnectAll(conns[1..], Connect(d, conns[0]))
  }

  /** The whole assembly inside one diagram context. */
  function Assemble(table: Table, title: string, default: string,
                    cs: seq<Component>, groups: seq<Grouping>, conns: seq<Connection>): Diagram
  {
    ConnectAll(conns, PlaceUngrouped(table, cs, PlaceGroups(table, default, groups, cs, Empty(title))))
  }

  // ---------------------------------------------------------------------------
  // Reference definitions the steps are compared with
  // ---------------------------------------------------------------------------

  /** The names of the descriptors whose type resolves. */
  function ResolvableNames(table: Table, cs: seq<Component>): set<string> {
    set c | c in cs && Resolvable(table, c) :: c.name
  }

  /** The kind of the first descriptor named `n` whose type resolves. */
  function FirstKind(table: Table, cs: seq<Component>, n: string): Option<Kind>
    decreases |cs|
  {
    if cs == [] then None
    else if cs[0].name == n && Resolvable(table, cs[0]) then Lookup(table, cs[0].typeName)
    else FirstKind(table, cs[1..], n)
  }

  /** The kind of the last descriptor named `n` whose type resolves. */
  function LastKind(table: Table, cs: seq<Component>, n: string): Option<Kind>
    decreases |cs|
  {
    if cs == [] then None
    else
      var later := LastKind(table, cs[1..], n);
      if later.Some? then later
      else if cs[0].name == n then Lookup(table, cs[0].typeName)
      else None
  }

  /** The position of the last grouping that lists `n`. */
  function LastListing(groups: seq<Grouping>, n: string): Option<nat>
    decreases |groups|
  {
    if groups == [] then None
    else
      var later := LastListing(groups[1..], n);
      if later.Some? then Some(later.value + 1)
      else if n in GroupMembers(groups[0]) then Some(0)
      else None
  }

  /** The nodes a group draws: one per resolvable listed descriptor, in order. */
  function MemberNodes(table: Table, members: seq<string>, scope: Scope, cs: seq<Component>): seq<Node>
    decreases |cs|
  {
    if cs == [] then []
    else
      var rest := MemberNodes(table, members, scope, cs[1..]);
      if cs[0].name in members && Resolvable(table, cs[0])
      then [Node(cs[0].name, Lookup(table, cs[0].typeName).value, scope)] + rest
      else rest
  }

  /** The nodes pass 1 draws: each grouping's member nodes, container by
      container, the first container being number `base`. */
  function GroupsNodes(table: Table, groups: seq<Grouping>, base: nat, cs: seq<Component>): seq<Node>
    decreases |groups|
  {
    if groups == [] then []
    else MemberNodes(table, GroupMembers(groups[0]), Group(base), cs) + GroupsNodes(table, groups[1..], base + 1, cs)
  }

  /** A node is drawn from descriptor `c`: its type resolves, and the node
      carries its name and the kind it resolves to. */
  predicate DrawnFrom(table: Table, c: Component, node: Node) {
    Resolvable(table, c) && node.name == c.name && node.kind == Lookup(table, c.typeName).value
  }

  /** Some descriptor of `cs` draws `node`. */
  predicate DrawnFromSome(table: Table, cs: seq<Component>, node: Node) {
    exists c :: c in cs && DrawnFrom(table, c, node)
  }

  function GroupNames(groups: seq<Grouping>, default: string): (names: seq<string>)
    ensures |names| == |groups|
    ensures forall j :: 0 <= j < |groups| ==> names[j] == GroupName(groups[j], default)
    decreases |groups|
  {
    if groups == [] then [] else [GroupName(groups[0], default)] + GroupNames(groups[1..], default)
  }

  function EdgeOf(c: Connection, pool: map<string, nat>): Edge
    requires c.from in pool && c.to in pool
  {
    Edge(pool[c.from], pool[c.to], EdgeLabel(c.labelText))
  }

  /** How many connections have both endpoints among the pool keys. */
  function CountResolved(conns: seq<Connection>, pool: map<string, nat>): nat
    decreases |conns|
  {
    if conns == [] then 0
    else (if conns[0].from in pool && conns[0].to in pool then 1 else 0) + CountResolved(conns[1..], pool)
  }

  /** The edges a connection list yields against a fixed pool. */
  function ExpectedEdges(conns: seq<Connection>, pool: map<string, nat>): seq<Edge>
    decreases |conns|
  {
    if conns == [] then []
    else
      (if conns[0].from in pool && conns[0].to in pool then [EdgeOf(conns[0], pool)] else [])
      + ExpectedEdges(conns[1..], pool)
  }
}
