/** The imperative side of `call_tool`: a builder that owns the names-to-nodes
    pool and the drawing made so far, with one method per loop of the source.
    The ambient "currently open Cluster" of the drawing library is made explicit:
    every node is placed with the scope it is drawn in. */
module Builder {
  import opened Wrappers
  import opened Registry
  import opened Assembly
  import opened AssemblyProperties

  class DiagramBuilder {
    const title: string
    const table: Table
    var containers: seq<string>
    var nodes: seq<Node>
    var pool: map<string, nat>
    var edges: seq<Edge>

    /** The drawing as a value. */
    function Snapshot(): Diagram
      reads this
    {
      Diagram(title, containers, nodes, pool, edges)
    }

    ghost predicate Valid()
      reads this
    {
      WellFormed(Snapshot())
    }

    /** Entering the diagram context: nothing drawn, an empty pool. */
    constructor (title: string, table: Table)
      ensures Valid() && this.table == table
      ensures Snapshot() == Empty(title)
    {
      this.title := title;
      this.table := table;
      containers := [];
      nodes := [];
      pool := map[];
      edges := [];
    }

    /** Resolve one descriptor through the registry and, when its type is
        known, draw its node in `scope` and record it under its name. */
    method Place(c: Component, scope: Scope)
      requires Valid() && ScopeOpen(Snapshot(), scope)
      modifies this
      ensures Valid()
      ensures Snapshot() == Assembly.Place(table, old(Snapshot()), c, scope)
    {
      PlaceWellFormed(table, Snapshot(), c, scope);
      var kind := Lookup(table, c.typeName);
      if kind.Some? {
        pool := pool[c.name := |nodes|];
        nodes := nodes + [Node(c.name, kind.value, scope)];
      }
    }

    /** Open a named container; nodes placed in the returned scope are drawn in it. */
    method OpenContainer(name: string) returns (scope: Scope)
      requires Valid()
      modifies this
      ensures Valid()
      ensures scope == Group(|old(containers)|) && ScopeOpen(Snapshot(), scope)
      ensures Snapshot() == old(Snapshot()).(containers := old(containers) + [name])
    {
      OpenContainerWellFormed(Snapshot(), name);
      scope := Group(|containers|);
      containers := containers + [name];
    }

    /** Inside one container: every descriptor whose name the grouping lists. */
    method PlaceMembers(members: seq<string>, scope: Scope, cs: seq<Component>)
      requires Valid() && ScopeOpen(Snapshot(), scope)
      modifies this
      ensures Valid()
      ensures Snapshot() == Assembly.PlaceMembers(table, members, scope, cs, old(Snapshot()))
    {
      var i := 0;
      while i < |cs|
        invariant 0 <= i <= |cs|
        invariant Valid() && ScopeOpen(Snapshot(), scope)
        invariant Assembly.PlaceMembers(table, members, scope, cs[i..], Snapshot()) ==
                  Assembly.PlaceMembers(table, members, scope, cs, old(Snapshot()))
      {
        assert cs[i..][1..] == cs[i + 1..];
        if cs[i].name in members {
          Place(cs[i], scope);
        }
        i := i + 1;
      }
    }

    /** Pass 1: for each grouping, open its container and place its members. */
    method PlaceGroups(default: string, groups: seq<Grouping>, cs: seq<Component>)
      requires Valid()
      modifies this
      ensures Valid()
      ensures Snapshot() == Assembly.PlaceGroups(table, default, groups, cs, old(Snapshot()))
    {
      var j := 0;
      while j < |groups|
        invariant 0 <= j <= |groups|
        invariant Valid()
        invariant Assembly.PlaceGroups(table, default, groups[j..], cs, Snapshot()) ==
                  Assembly.PlaceGroups(table, default, groups, cs, old(Snapshot()))
      {
        assert groups[j..][1..] == groups[j + 1..];
        var scope := OpenContainer(GroupName(groups[j], default));
        PlaceMembers(GroupMembers(groups[j]), scope, cs);
        j := j + 1;
      }
    }

    /** Pass 2: every descriptor whose name is not yet in the pool, at top level. */
    method PlaceUngrouped(cs: seq<Component>)
      requires Valid()
      modifies this
      ensures Valid()
      ensures Snapshot() == Assembly.PlaceUngrouped(table, cs, old(Snapshot()))
    {
      var i := 0;
      while i < |cs|
        invariant 0 <= i <= |cs|
        invariant Valid()
        invariant Assembly.PlaceUngrouped(table, cs[i..], Snapshot()) ==
                  Assembly.PlaceUngrouped(table, cs, old(Snapshot()))
      {
        assert cs[i..][1..] == cs[i + 1..];
        if cs[i].name !in pool {
          Place(cs[i], Top);
        }
        i := i + 1;
      }
    }

    /** The connection loop: an edge, labelled when the label is non-empty,
        for each connection whose endpoints are both in the pool. */
    method ConnectAll(conns: seq<Connection>)
      requires Valid()
      modifies this
      ensures Valid()
      ensures Snapshot() == Assembly.ConnectAll(conns, old(Snapshot()))
      ensures pool == old(pool) && nodes == old(nodes) && containers == old(containers)
      ensures edges == old(edges) + ExpectedEdges(conns, old(pool))
    {
      ConnectAllEdges(conns, Snapshot());
      var i := 0;
      while i < |conns|
        invariant 0 <= i <= |conns|
        invariant Valid()
        invariant Assembly.ConnectAll(conns[i..], Snapshot()) == Assembly.ConnectAll(conns, old(Snapshot()))
      {
        assert conns[i..][1..] == conns[i + 1..];
        var c := conns[i];
        ConnectWellFormed(Snapshot(), c);
        if c.from in pool && c.to in pool {
          var text := c.labelText.GetOr("");
          if text != "" {
            edges := edges + [Edge(pool[c.from], pool[c.to], Some(text))];
          } else {
            edges := edges + [Edge(pool[c.from], pool[c.to], None)];
          }
        }
        i := i + 1;
      }
    }
  }

  /** One pipeline inside its diagram context: pass 1 only when groupings were
      given, then pass 2, then the connections. */
  method BuildDiagram(table: Table, title: string, default: string,
                      cs: seq<Component>, groups: seq<Grouping>, conns: seq<Connection>)
    returns (d: Diagram)
    ensures d == Assemble(table, title, default, cs, groups, conns)
    ensures WellFormed(d)
  {
    var b := new DiagramBuilder(title, table);
    if |groups| > 0 {
      b.PlaceGroups(default, groups, cs);
    }
    b.PlaceUngrouped(cs);
    b.ConnectAll(conns);
    d := b.Snapshot();
  }
}
