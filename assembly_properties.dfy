/** What the two passes and the connection loop guarantee, stated against the
    reference definitions of Assembly and proved by induction over the inputs. */
module AssemblyProperties {
  import opened Wrappers
  import opened Registry
  import opened Assembly

  // ---------------------------------------------------------------------------
  // The reference definitions
  // ---------------------------------------------------------------------------

  lemma ResolvableNamesCons(table: Table, cs: seq<Component>, n: string)
    requires cs != []
    ensures n in ResolvableNames(table, cs) <==>
            (cs[0].name == n && Resolvable(table, cs[0])) || n in ResolvableNames(table, cs[1..])
  {
    assert cs == [cs[0]] + cs[1..];
    if n in ResolvableNames(table, cs) {
      var c :| c in cs && Resolvable(table, c) && c.name == n;
      assert c == cs[0] || c in cs[1..];
    }
  }

  /** A first and a last resolvable descriptor named `n` exist exactly when `n`
      is the name of some resolvable descriptor. */
  lemma {:induction false} KindExistsIffResolvable(table: Table, cs: seq<Component>, n: string)
    ensures FirstKind(table, cs, n).Some? <==> n in ResolvableNames(table, cs)
    ensures LastKind(table, cs, n).Some? <==> n in ResolvableNames(table, cs)
    decreases |cs|
  {
    if cs != [] {
      ResolvableNamesCons(table, cs, n);
      KindExistsIffResolvable(table, cs[1..], n);
    }
  }

  /** FirstKind is the kind of the earliest resolvable descriptor named `n`. */
  lemma {:induction false} FirstKindIsFirst(table: Table, cs: seq<Component>, n: string)
    requires FirstKind(table, cs, n).Some?
    ensures exists i :: 0 <= i < |cs| && cs[i].name == n &&
                        Lookup(table, cs[i].typeName) == FirstKind(table, cs, n) &&
                        forall j :: 0 <= j < i ==> !(cs[j].name == n && Resolvable(table, cs[j]))
    decreases |cs|
  {
    if !(cs[0].name == n && Resolvable(table, cs[0])) {
      FirstKindIsFirst(table, cs[1..], n);
      var i :| 0 <= i < |cs[1..]| && cs[1..][i].name == n &&
               Lookup(table, cs[1..][i].typeName) == FirstKind(table, cs[1..], n) &&
               forall j :: 0 <= j < i ==> !(cs[1..][j].name == n && Resolvable(table, cs[1..][j]));
      assert forall j :: 0 <= j < i + 1 ==> !(cs[j].name == n && Resolvable(table, cs[j])) by {
        forall j | 0 < j < i + 1 ensures !(cs[j].name == n && Resolvable(table, cs[j])) {
          assert cs[j] == cs[1..][j - 1];
        }
      }
      assert cs[i + 1] == cs[1..][i];
    } else {
      assert 0 <= 0 < |cs| && cs[0].name == n && Lookup(table, cs[0].typeName) == FirstKind(table, cs, n);
    }
  }

  /** LastKind is the kind of the latest resolvable descriptor named `n`. */
  lemma {:induction false} LastKindIsLast(table: Table, cs: seq<Component>, n: string)
    requires LastKind(table, cs, n).Some?
    ensures exists i :: 0 <= i < |cs| && cs[i].name == n &&
                        Lookup(table, cs[i].typeName) == LastKind(table, cs, n) &&
                        forall j :: i < j < |cs| ==> !(cs[j].name == n && Resolvable(table, cs[j]))
    decreases |cs|
  {
    var later := LastKind(table, cs[1..], n);
    if later.Some? {
      LastKindIsLast(table, cs[1..], n);
      var i :| 0 <= i < |cs[1..]| && cs[1..][i].name == n &&
               Lookup(table, cs[1..][i].typeName) == later &&
               forall j :: i < j < |cs[1..]| ==> !(cs[1..][j].name == n && Resolvable(table, cs[1..][j]));
      assert cs[i + 1] == cs[1..][i];
      assert forall j :: i + 1 < j < |cs| ==> cs[j] == cs[1..][j - 1];
    } else {
      KindExistsIffResolvable(table, cs[1..], n);
      forall j | 0 < j < |cs| ensures !(cs[j].name == n && Resolvable(table, cs[j])) {
        assert cs[j] in cs[1..];
      }
    }
  }

  /** LastListing is the position of the last grouping that lists `n`, and is
      absent exactly when no grouping lists it. */
  lemma {:induction false} LastListingIsLast(groups: seq<Grouping>, n: string)
    ensures LastListing(groups, n).None? <==> forall j :: 0 <= j < |groups| ==> n !in GroupMembers(groups[j])
    ensures LastListing(groups, n).Some? ==>
              var j := LastListing(groups, n).value;
              j < |groups| && n in GroupMembers(groups[j]) &&
              forall k :: j < k < |groups| ==> n !in GroupMembers(groups[k])
    decreases |groups|
  {
    if groups != [] {
      LastListingIsLast(groups[1..], n);
      assert forall k :: 0 < k < |groups| ==> groups[k] == groups[1..][k - 1];
    }
  }

  /** Every node a group draws is listed by it and sits in its scope. */
  lemma {:induction false} MemberNodesListed(table: Table, members: seq<string>, scope: Scope, cs: seq<Component>)
    ensures var m := MemberNodes(table, members, scope, cs);
              |m| <= |cs| && forall i :: 0 <= i < |m| ==> m[i].scope == scope && m[i].name in members
    decreases |cs|
  {
    if cs != [] {
      MemberNodesListed(table, members, scope, cs[1..]);
    }
  }

  /** Every node a group draws comes from a resolvable descriptor. */
  lemma {:induction false} MemberNodesSound(table: Table, members: seq<string>, scope: Scope, cs: seq<Component>)
    ensures forall i :: 0 <= i < |MemberNodes(table, members, scope, cs)| ==>
              DrawnFromSome(table, cs, MemberNodes(table, members, scope, cs)[i])
    decreases |cs|
  {
    if cs != [] {
      MemberNodesSound(table, members, scope, cs[1..]);
      var m := MemberNodes(table, members, scope, cs);
      var rest := MemberNodes(table, members, scope, cs[1..]);
      forall i | 0 <= i < |m| ensures DrawnFromSome(table, cs, m[i]) {
        if cs[0].name in members && Resolvable(table, cs[0]) && i == 0 {
          assert DrawnFrom(table, cs[0], m[0]);
        } else {
          var k := if cs[0].name in members && Resolvable(table, cs[0]) then i - 1 else i;
          assert 0 <= k < |rest| && m[i] == rest[k];
          assert DrawnFromSome(table, cs[1..], rest[k]);
          var c :| c in cs[1..] && DrawnFrom(table, c, rest[k]);
          assert c in cs;
        }
      }
    }
  }

  /** A group draws every resolvable descriptor whose name it lists. */
  lemma {:induction false} MemberNodesComplete(table: Table, members: seq<string>, scope: Scope,
                                               cs: seq<Component>, c: Component)
    requires c in cs && c.name in members && Resolvable(table, c)
    ensures Node(c.name, Lookup(table, c.typeName).value, scope) in MemberNodes(table, members, scope, cs)
    decreases |cs|
  {
    if cs[0] != c {
      MemberNodesComplete(table, members, scope, cs[1..], c);
    }
  }

  // ---------------------------------------------------------------------------
  // Pass 1
  // ---------------------------------------------------------------------------

  /** Inside one container, pass 1 draws exactly the resolvable listed
      descriptors, in order, and touches nothing but the nodes and the pool. */
  lemma {:induction false} PlaceMembersNodes(table: Table, members: seq<string>, scope: Scope, cs: seq<Component>, d: Diagram)
    ensures var r := PlaceMembers(table, members, scope, cs, d);
              && r.title == d.title && r.containers == d.containers && r.edges == d.edges
              && r.nodes == d.nodes + MemberNodes(table, members, scope, cs)
    decreases |cs|
  {
    if cs != [] {
      var next := if cs[0].name in members then Place(table, d, cs[0], scope) else d;
      PlaceMembersNodes(table, members, scope, cs[1..], next);
    }
  }

  /** Inside one container the pool entry of a listed, resolvable name becomes
      the node of the last resolvable descriptor of that name; every other
      entry is left as it was. */
  lemma {:induction false} PlaceMembersPoolAt(table: Table, members: seq<string>, scope: Scope,
                                              cs: seq<Component>, d: Diagram, n: string)
    ensures var r := PlaceMembers(table, members, scope, cs, d);
              if n in members && LastKind(table, cs, n).Some? then
                && n in r.pool && |d.nodes| <= r.pool[n] < |r.nodes|
                && r.nodes[r.pool[n]] == Node(n, LastKind(table, cs, n).value, scope)
                && PoolIsLatest(r, n)
              else
                && (n in r.pool <==> n in d.pool)
                && (n in d.pool ==> r.pool[n] == d.pool[n])
    decreases |cs|
  {
    if cs != [] {
      var next := if cs[0].name in members then Place(table, d, cs[0], scope) else d;
      PlaceMembersPoolAt(table, members, scope, cs[1..], next, n);
      PlaceMembersNodes(table, members, scope, cs[1..], next);
      PlaceMembersLatest(table, members, scope, cs, d, n);
    }
  }

  /** Inside one container the pool entry of `n` stays the last node drawn
      with that name, and becomes so once a listed descriptor of it resolves. */
  lemma {:induction false} PlaceMembersLatest(table: Table, members: seq<string>, scope: Scope,
                                              cs: seq<Component>, d: Diagram, n: string)
    ensures PoolIsLatest(d, n) ==> PoolIsLatest(PlaceMembers(table, members, scope, cs, d), n)
    ensures n in members && LastKind(table, cs, n).Some? ==> PoolIsLatest(PlaceMembers(table, members, scope, cs, d), n)
    decreases |cs|
  {
    if cs != [] {
      var next := if cs[0].name in members then Place(table, d, cs[0], scope) else d;
      PlaceMembersLatest(table, members, scope, cs[1..], next, n);
      assert PlaceMembers(table, members, scope, cs, d) == PlaceMembers(table, members, scope, cs[1..], next);
    }
  }

  /** Pass 1 opens one container per grouping, in order, even an empty one,
      and leaves the title and the edges alone. */
  lemma {:induction false} PlaceGroupsFrame(table: Table, default: string, groups: seq<Grouping>,
                                            cs: seq<Component>, d: Diagram)
    ensures var r := PlaceGroups(table, default, groups, cs, d);
              && r.title == d.title && r.edges == d.edges
              && r.containers == d.containers + GroupNames(groups, default)
    decreases |groups|
  {
    if groups != [] {
      var name := GroupName(groups[0], default);
      var withContainer := d.(containers := d.containers + [name]);
      var d1 := PlaceMembers(table, GroupMembers(groups[0]), Group(|d.containers|), cs, withContainer);
      PlaceMembersNodes(table, GroupMembers(groups[0]), Group(|d.containers|), cs, withContainer);
      PlaceGroupsFrame(table, default, groups[1..], cs, d1);
      calc {
        PlaceGroups(table, default, groups, cs, d).containers;
        PlaceGroups(table, default, groups[1..], cs, d1).containers;
        d1.containers + GroupNames(groups[1..], default);
        (d.containers + [name]) + GroupNames(groups[1..], default);
        d.containers + ([name] + GroupNames(groups[1..], default));
      }
    }
  }

  /** Pass 1 only appends nodes. */
  lemma {:induction false} PlaceGroupsPrefix(table: Table, default: string, groups: seq<Grouping>,
                                             cs: seq<Component>, d: Diagram)
    ensures var r := PlaceGroups(table, default, groups, cs, d);
              |d.nodes| <= |r.nodes| && r.nodes[..|d.nodes|] == d.nodes
    decreases |groups|
  {
    if groups != [] {
      var withContainer := d.(containers := d.containers + [GroupName(groups[0], default)]);
      var d1 := PlaceMembers(table, GroupMembers(groups[0]), Group(|d.containers|), cs, withContainer);
      PlaceMembersNodes(table, GroupMembers(groups[0]), Group(|d.containers|), cs, withContainer);
      PlaceGroupsPrefix(table, default, groups[1..], cs, d1);
      var r := PlaceGroups(table, default, groups[1..], cs, d1);
      assert r.nodes[..|d.nodes|] == r.nodes[..|d1.nodes|][..|d.nodes|];
    }
  }

  /** Pass 1 appends exactly the member nodes of each grouping, container by
      container, in grouping order. */
  lemma {:induction false} PlaceGroupsNodes(table: Table, default: string, groups: seq<Grouping>,
                                            cs: seq<Component>, d: Diagram)
    ensures PlaceGroups(table, default, groups, cs, d).nodes == d.nodes + GroupsNodes(table, groups, |d.containers|, cs)
    decreases |groups|
  {
    if groups != [] {
      var withContainer := d.(containers := d.containers + [GroupName(groups[0], default)]);
      var scope := Group(|d.containers|);
      var d1 := PlaceMembers(table, GroupMembers(groups[0]), scope, cs, withContainer);
      PlaceMembersNodes(table, GroupMembers(groups[0]), scope, cs, withContainer);
      PlaceGroupsNodes(table, default, groups[1..], cs, d1);
      assert d.nodes + GroupsNodes(table, groups, |d.containers|, cs) ==
             (d.nodes + MemberNodes(table, GroupMembers(groups[0]), scope, cs))
               + GroupsNodes(table, groups[1..], |d1.containers|, cs);
    }
  }

  /** A resolvable descriptor is drawn in the container of every grouping that
      lists its name. */
  lemma {:induction false} GroupsNodesComplete(table: Table, groups: seq<Grouping>, base: nat,
                                               cs: seq<Component>, j: nat, c: Component)
    requires j < |groups| && c in cs && c.name in GroupMembers(groups[j]) && Resolvable(table, c)
    ensures Node(c.name, Lookup(table, c.typeName).value, Group(base + j)) in GroupsNodes(table, groups, base, cs)
    decreases |groups|
  {
    if j == 0 {
      MemberNodesComplete(table, GroupMembers(groups[0]), Group(base), cs, c);
    } else {
      assert groups[1..][j - 1] == groups[j];
      GroupsNodesComplete(table, groups[1..], base + 1, cs, j - 1, c);
    }
  }

  /** Every node pass 1 draws comes from a resolvable descriptor. */
  lemma {:induction false} GroupsNodesSound(table: Table, groups: seq<Grouping>, base: nat, cs: seq<Component>)
    ensures forall i :: 0 <= i < |GroupsNodes(table, groups, base, cs)| ==>
              DrawnFromSome(table, cs, GroupsNodes(table, groups, base, cs)[i])
    decreases |groups|
  {
    if groups != [] {
      var m := MemberNodes(table, GroupMembers(groups[0]), Group(base), cs);
      var rest := GroupsNodes(table, groups[1..], base + 1, cs);
      MemberNodesSound(table, GroupMembers(groups[0]), Group(base), cs);
      GroupsNodesSound(table, groups[1..], base + 1, cs);
      var g := GroupsNodes(table, groups, base, cs);
      assert g == m + rest;
      forall i | 0 <= i < |g| ensures DrawnFromSome(table, cs, g[i]) {
        if i < |m| {
          assert g[i] == m[i] && DrawnFromSome(table, cs, m[i]);
        } else {
          assert g[i] == rest[i - |m|] && DrawnFromSome(table, cs, rest[i - |m|]);
        }
      }
    }
  }

  /** Every node pass 1 draws sits in one of the containers it opened and is
      listed by that container's grouping. */
  lemma {:induction false} PlaceGroupsNode(table: Table, default: string, groups: seq<Grouping>,
                                           cs: seq<Component>, d: Diagram, i: nat)
    requires |d.nodes| <= i < |PlaceGroups(table, default, groups, cs, d).nodes|
    ensures var node := PlaceGroups(table, default, groups, cs, d).nodes[i];
              && node.scope.Group?
              && |d.containers| <= node.scope.index < |d.containers| + |groups|
              && node.name in GroupMembers(groups[node.scope.index - |d.containers|])
    decreases |groups|
  {
    var withContainer := d.(containers := d.containers + [GroupName(groups[0], default)]);
    var scope := Group(|d.containers|);
    var members := GroupMembers(groups[0]);
    var d1 := PlaceMembers(table, members, scope, cs, withContainer);
    var r := PlaceGroups(table, default, groups, cs, d);
    assert r == PlaceGroups(table, default, groups[1..], cs, d1);
    PlaceMembersNodes(table, members, scope, cs, withContainer);
    if i < |d1.nodes| {
      PlaceGroupsPrefix(table, default, groups[1..], cs, d1);
      MemberNodesListed(table, members, scope, cs);
      assert r.nodes[i] == r.nodes[..|d1.nodes|][i] == d1.nodes[i];
      assert d1.nodes[i] == MemberNodes(table, members, scope, cs)[i - |d.nodes|];
    } else {
      PlaceGroupsNode(table, default, groups[1..], cs, d1, i);
      var j := r.nodes[i].scope.index;
      assert groups[1..][j - |d1.containers|] == groups[j - |d.containers|];
    }
  }

  /** After pass 1 the pool entry of a name that some grouping lists and some
      descriptor resolves is the node of the last resolvable descriptor of that
      name, drawn in the container of the last grouping that lists it; the
      entries of all other names are left as they were. */
  lemma {:induction false} PlaceGroupsPoolAt(table: Table, default: string, groups: seq<Grouping>,
                                             cs: seq<Component>, d: Diagram, n: string)
    ensures var r := PlaceGroups(table, default, groups, cs, d);
              if LastListing(groups, n).Some? && LastKind(table, cs, n).Some? then
                && n in r.pool && |d.nodes| <= r.pool[n] < |r.nodes|
                && r.nodes[r.pool[n]] ==
                     Node(n, LastKind(table, cs, n).value, Group(|d.containers| + LastListing(groups, n).value))
                && PoolIsLatest(r, n)
              else
                && (n in r.pool <==> n in d.pool)
                && (n in d.pool ==> r.pool[n] == d.pool[n])
    decreases |groups|
  {
    if groups != [] {
      var withContainer := d.(containers := d.containers + [GroupName(groups[0], default)]);
      var scope := Group(|d.containers|);
      var d1 := PlaceMembers(table, GroupMembers(groups[0]), scope, cs, withContainer);
      PlaceMembersNodes(table, GroupMembers(groups[0]), scope, cs, withContainer);
      PlaceMembersPoolAt(table, GroupMembers(groups[0]), scope, cs, withContainer, n);
      PlaceGroupsPoolAt(table, default, groups[1..], cs, d1, n);
      PlaceGroupsFrame(table, default, groups[1..], cs, d1);
      PlaceGroupsPrefix(table, default, groups[1..], cs, d1);
      var r := PlaceGroups(table, default, groups, cs, d);
      assert r == PlaceGroups(table, default, groups[1..], cs, d1);
      if !(LastListing(groups[1..], n).Some? && LastKind(table, cs, n).Some?) &&
         n in GroupMembers(groups[0]) && LastKind(table, cs, n).Some? {
        assert r.nodes[d1.pool[n]] == r.nodes[..|d1.nodes|][d1.pool[n]];
      }
      PlaceGroupsLatest(table, default, groups, cs, d, n);
    }
  }

  /** Pass 1 keeps the pool entry of `n` the last node drawn with that name,
      and makes it so once a grouping lists a resolvable descriptor of it. */
  lemma {:induction false} PlaceGroupsLatest(table: Table, default: string, groups: seq<Grouping>,
                                             cs: seq<Component>, d: Diagram, n: string)
    ensures PoolIsLatest(d, n) ==> PoolIsLatest(PlaceGroups(table, default, groups, cs, d), n)
    ensures LastListing(groups, n).Some? && LastKind(table, cs, n).Some? ==>
              PoolIsLatest(PlaceGroups(table, default, groups, cs, d), n)
    decreases |groups|
  {
    if groups != [] {
      var withContainer := d.(containers := d.containers + [GroupName(groups[0], default)]);
      var d1 := PlaceMembers(table, GroupMembers(groups[0]), Group(|d.containers|), cs, withContainer);
      PlaceMembersLatest(table, GroupMembers(groups[0]), Group(|d.containers|), cs, withContainer, n);
      PlaceGroupsLatest(table, default, groups[1..], cs, d1, n);
      assert PlaceGroups(table, default, groups, cs, d) == PlaceGroups(table, default, groups[1..], cs, d1);
    }
  }

  // ---------------------------------------------------------------------------
  // Pass 2
  // ---------------------------------------------------------------------------

  /** Pass 2 keeps every existing pool entry, draws only at top level, draws
      only names the pool lacked, and each node it draws is the pool entry of
      its name (so it draws no name twice). */
  lemma {:induction false} PlaceUngroupedShape(table: Table, cs: seq<Component>, d: Diagram)
    ensures var r := PlaceUngrouped(table, cs, d);
              && r.title == d.title && r.containers == d.containers && r.edges == d.edges
              && |d.nodes| <= |r.nodes| && r.nodes[..|d.nodes|] == d.nodes
              && d.pool.Keys <= r.pool.Keys
              && (forall n :: n in d.pool ==> r.pool[n] == d.pool[n])
              && forall i :: |d.nodes| <= i < |r.nodes| ==>
                   && r.nodes[i].scope == Top
                   && r.nodes[i].name !in d.pool
                   && r.nodes[i].name in r.pool && r.pool[r.nodes[i].name] == i
    decreases |cs|
  {
    if cs != [] {
      var next := if cs[0].name in d.pool then d else Place(table, d, cs[0], Top);
      PlaceUngroupedShape(table, cs[1..], next);
      var r := PlaceUngrouped(table, cs, d);
      assert r == PlaceUngrouped(table, cs[1..], next);
      if |next.nodes| > |d.nodes| {
        assert r.nodes[|d.nodes|] == r.nodes[..|next.nodes|][|d.nodes|];
      }
      assert r.nodes[..|d.nodes|] == r.nodes[..|next.nodes|][..|d.nodes|];
    }
  }

  /** Pass 2 gives a name the pool lacked an entry exactly when some descriptor
      of that name resolves, and that entry is the first such descriptor's node,
      at top level. */
  lemma {:induction false} PlaceUngroupedPoolAt(table: Table, cs: seq<Component>, d: Diagram, n: string)
    requires n !in d.pool
    ensures var r := PlaceUngrouped(table, cs, d);
              && (n in r.pool <==> FirstKind(table, cs, n).Some?)
              && (n in r.pool ==> |d.nodes| <= r.pool[n] < |r.nodes| &&
                                  r.nodes[r.pool[n]] == Node(n, FirstKind(table, cs, n).value, Top))
    decreases |cs|
  {
    if cs != [] {
      var next := if cs[0].name in d.pool then d else Place(table, d, cs[0], Top);
      PlaceUngroupedShape(table, cs[1..], next);
      var r := PlaceUngrouped(table, cs, d);
      assert r == PlaceUngrouped(table, cs[1..], next);
      if cs[0].name == n && Resolvable(table, cs[0]) {
        assert r.nodes[|d.nodes|] == r.nodes[..|next.nodes|][|d.nodes|];
      } else {
        PlaceUngroupedPoolAt(table, cs[1..], next, n);
      }
    }
  }

  /** Pass 2 keeps the pool entry of `n` the last node drawn with that name. */
  lemma {:induction false} PlaceUngroupedLatest(table: Table, cs: seq<Component>, d: Diagram, n: string)
    requires PoolIsLatest(d, n)
    ensures PoolIsLatest(PlaceUngrouped(table, cs, d), n)
    decreases |cs|
  {
    if cs != [] {
      var next := if cs[0].name in d.pool then d else Place(table, d, cs[0], Top);
      PlaceUngroupedLatest(table, cs[1..], next, n);
    }
  }

  /** Every node pass 2 draws comes from a resolvable descriptor. */
  lemma {:induction false} PlaceUngroupedSound(table: Table, cs: seq<Component>, d: Diagram, i: nat)
    requires |d.nodes| <= i < |PlaceUngrouped(table, cs, d).nodes|
    ensures DrawnFromSome(table, cs, PlaceUngrouped(table, cs, d).nodes[i])
    decreases |cs|
  {
    if cs != [] {
      var next := if cs[0].name in d.pool then d else Place(table, d, cs[0], Top);
      var r := PlaceUngrouped(table, cs, d);
      assert r == PlaceUngrouped(table, cs[1..], next);
      if i < |next.nodes| {
        PlaceUngroupedShape(table, cs[1..], next);
        assert r.nodes[i] == r.nodes[..|next.nodes|][i];
        assert DrawnFrom(table, cs[0], r.nodes[i]);
      } else {
        PlaceUngroupedSound(table, cs[1..], next, i);
        var c :| c in cs[1..] && DrawnFrom(table, c, r.nodes[i]);
        assert c in cs;
      }
    }
  }

  // ---------------------------------------------------------------------------
  // Connections
  // ---------------------------------------------------------------------------

  /** The connection loop only appends edges: exactly the expected ones for
      the pool, which it never changes. */
  lemma {:induction false} ConnectAllEdges(conns: seq<Connection>, d: Diagram)
    ensures ConnectAll(conns, d) == d.(edges := d.edges + ExpectedEdges(conns, d.pool))
    decreases |conns|
  {
    if conns != [] {
      ConnectAllEdges(conns[1..], Connect(d, conns[0]));
    }
  }

  /** Connections are handled in order: the edges of a concatenation are the
      edges of each part, one after the other (so a repeated connection adds a
      parallel edge). */
  lemma {:induction false} ExpectedEdgesAppend(a: seq<Connection>, b: seq<Connection>, pool: map<string, nat>)
    ensures ExpectedEdges(a + b, pool) == ExpectedEdges(a, pool) + ExpectedEdges(b, pool)
    decreases |a|
  {
    if a != [] {
      assert (a + b)[0] == a[0];
      assert (a + b)[1..] == a[1..] + b;
      ExpectedEdgesAppend(a[1..], b, pool);
    } else {
      assert a + b == b;
    }
  }

  /** A connection whose endpoints are both pool keys yields its edge. */
  lemma {:induction false} ExpectedEdgesComplete(conns: seq<Connection>, pool: map<string, nat>, i: nat)
    requires i < |conns| && conns[i].from in pool && conns[i].to in pool
    ensures EdgeOf(conns[i], pool) in ExpectedEdges(conns, pool)
    decreases |conns|
  {
    if i > 0 {
      ExpectedEdgesComplete(conns[1..], pool, i - 1);
    }
  }

  /** Every edge comes from a connection whose endpoints are both pool keys. */
  lemma {:induction false} ExpectedEdgesSound(conns: seq<Connection>, pool: map<string, nat>, e: Edge)
    requires e in ExpectedEdges(conns, pool)
    ensures exists i :: 0 <= i < |conns| && conns[i].from in pool && conns[i].to in pool &&
                        e == EdgeOf(conns[i], pool)
    decreases |conns|
  {
    var head := if conns[0].from in pool && conns[0].to in pool then [EdgeOf(conns[0], pool)] else [];
    if e in head {
      assert e == EdgeOf(conns[0], pool);
    } else {
      ExpectedEdgesSound(conns[1..], pool, e);
      var i :| 0 <= i < |conns[1..]| && conns[1..][i].from in pool && conns[1..][i].to in pool &&
               e == EdgeOf(conns[1..][i], pool);
      assert conns[i + 1] == conns[1..][i];
    }
  }

  /** There is one edge per connection whose two endpoints are pool keys, so
      never more edges than connections, and exactly as many when every
      connection resolves. */
  lemma {:induction false} ExpectedEdgesCount(conns: seq<Connection>, pool: map<string, nat>)
    ensures |ExpectedEdges(conns, pool)| == CountResolved(conns, pool)
    ensures |ExpectedEdges(conns, pool)| <= |conns|
    ensures |ExpectedEdges(conns, pool)| == |conns| <==>
            forall i :: 0 <= i < |conns| ==> conns[i].from in pool && conns[i].to in pool
    decreases |conns|
  {
    if conns != [] {
      ExpectedEdgesCount(conns[1..], pool);
      assert forall i :: 0 < i < |conns| ==> conns[i] == conns[1..][i - 1];
    }
  }

  // ---------------------------------------------------------------------------
  // The whole assembly
  // ---------------------------------------------------------------------------

  /** The final pool has exactly one key per resolvable descriptor name: no
      more (unknown types never enter), no fewer (pass 2 sweeps up whatever
      pass 1 left out). */
  lemma PoolKeysAreResolvableNames(table: Table, title: string, default: string,
                                   cs: seq<Component>, groups: seq<Grouping>, conns: seq<Connection>)
    ensures Assemble(table, title, default, cs, groups, conns).pool.Keys == ResolvableNames(table, cs)
  {
    var g := PlaceGroups(table, default, groups, cs, Empty(title));
    var u := PlaceUngrouped(table, cs, g);
    ConnectAllEdges(conns, u);
    forall n ensures n in u.pool <==> n in ResolvableNames(table, cs) {
      KindExistsIffResolvable(table, cs, n);
      PlaceGroupsPoolAt(table, default, groups, cs, Empty(title), n);
      if n !in g.pool {
        PlaceUngroupedPoolAt(table, cs, g, n);
      } else {
        PlaceUngroupedShape(table, cs, g);
      }
    }
  }

  /** Where each resolvable name ends up. When some grouping lists it, its pool
      entry is the last resolvable descriptor's node inside the last listing
      grouping's container, and it is never drawn at top level. Otherwise it is
      drawn exactly once, at top level, from the first resolvable descriptor. */
  lemma Placement(table: Table, title: string, default: string,
                  cs: seq<Component>, groups: seq<Grouping>, conns: seq<Connection>, n: string)
    requires n in ResolvableNames(table, cs)
    ensures var r := Assemble(table, title, default, cs, groups, conns);
              && FirstKind(table, cs, n).Some? && LastKind(table, cs, n).Some?
              && n in r.pool && r.pool[n] < |r.nodes|
              && (LastListing(groups, n).Some? ==>
                    && r.nodes[r.pool[n]] == Node(n, LastKind(table, cs, n).value, Group(LastListing(groups, n).value))
                    && PoolIsLatest(r, n)
                    && forall i :: 0 <= i < |r.nodes| && r.nodes[i].name == n ==> r.nodes[i].scope.Group?)
              && (LastListing(groups, n).None? ==>
                    && r.nodes[r.pool[n]] == Node(n, FirstKind(table, cs, n).value, Top)
                    && forall i :: 0 <= i < |r.nodes| && r.nodes[i].name == n ==> i == r.pool[n])
  {
    var e := Empty(title);
    var g := PlaceGroups(table, default, groups, cs, e);
    var u := PlaceUngrouped(table, cs, g);
    ConnectAllEdges(conns, u);
    KindExistsIffResolvable(table, cs, n);
    PlaceGroupsPoolAt(table, default, groups, cs, e, n);
    PlaceGroupsFrame(table, default, groups, cs, e);
    PlaceGroupsPrefix(table, default, groups, cs, e);
    PlaceUngroupedShape(table, cs, g);
    LastListingIsLast(groups, n);
    if LastListing(groups, n).Some? {
      PlaceUngroupedLatest(table, cs, g, n);
      forall i | 0 <= i < |u.nodes| && u.nodes[i].name == n ensures u.nodes[i].scope.Group? {
        if i < |g.nodes| {
          PlaceGroupsNode(table, default, groups, cs, e, i);
          assert u.nodes[i] == u.nodes[..|g.nodes|][i];
        }
      }
      assert u.nodes[u.pool[n]] == u.nodes[..|g.nodes|][u.pool[n]];
    } else {
      PlaceUngroupedPoolAt(table, cs, g, n);
      forall i | 0 <= i < |u.nodes| && u.nodes[i].name == n ensures i == u.pool[n] {
        if i < |g.nodes| {
          PlaceGroupsNode(table, default, groups, cs, e, i);
        }
      }
    }
  }

  /** The diagram's nodes are pass 1's member nodes, grouping by grouping,
      followed only by nodes at top level. */
  lemma AssembleNodes(table: Table, title: string, default: string,
                      cs: seq<Component>, groups: seq<Grouping>, conns: seq<Connection>)
    ensures |GroupsNodes(table, groups, 0, cs)| <= |Assemble(table, title, default, cs, groups, conns).nodes|
    ensures Assemble(table, title, default, cs, groups, conns).nodes[..|GroupsNodes(table, groups, 0, cs)|]
              == GroupsNodes(table, groups, 0, cs)
    ensures forall i :: |GroupsNodes(table, groups, 0, cs)| <= i < |Assemble(table, title, default, cs, groups, conns).nodes| ==>
              Assemble(table, title, default, cs, groups, conns).nodes[i].scope == Top
  {
    var e := Empty(title);
    var g := PlaceGroups(table, default, groups, cs, e);
    PlaceGroupsNodes(table, default, groups, cs, e);
    assert g.nodes == GroupsNodes(table, groups, 0, cs);
    PlaceUngroupedShape(table, cs, g);
    ConnectAllEdges(conns, PlaceUngrouped(table, cs, g));
  }

  /** A resolvable descriptor is drawn in the container of every grouping that
      lists its name, whichever other groupings list it too. */
  lemma AssembleDrawsListed(table: Table, title: string, default: string,
                            cs: seq<Component>, groups: seq<Grouping>, conns: seq<Connection>,
                            j: nat, c: Component)
    requires j < |groups| && c in cs && c.name in GroupMembers(groups[j]) && Resolvable(table, c)
    ensures Node(c.name, Lookup(table, c.typeName).value, Group(j)) in Assemble(table, title, default, cs, groups, conns).nodes
  {
    var r := Assemble(table, title, default, cs, groups, conns);
    var gn := GroupsNodes(table, groups, 0, cs);
    var node := Node(c.name, Lookup(table, c.typeName).value, Group(j));
    GroupsNodesComplete(table, groups, 0, cs, j, c);
    AssembleNodes(table, title, default, cs, groups, conns);
    var k :| 0 <= k < |gn| && gn[k] == node;
    assert r.nodes[k] == r.nodes[..|gn|][k];
  }

  /** No node is drawn but from a descriptor whose type the registry knows: a
      descriptor of unknown type leaves no trace in the drawing. */
  lemma AssembleNodesSound(table: Table, title: string, default: string,
                           cs: seq<Component>, groups: seq<Grouping>, conns: seq<Connection>)
    ensures forall i :: 0 <= i < |Assemble(table, title, default, cs, groups, conns).nodes| ==>
              DrawnFromSome(table, cs, Assemble(table, title, default, cs, groups, conns).nodes[i])
  {
    var r := Assemble(table, title, default, cs, groups, conns);
    var e := Empty(title);
    var g := PlaceGroups(table, default, groups, cs, e);
    var u := PlaceUngrouped(table, cs, g);
    var gn := GroupsNodes(table, groups, 0, cs);
    PlaceGroupsNodes(table, default, groups, cs, e);
    assert g.nodes == gn;
    PlaceUngroupedShape(table, cs, g);
    ConnectAllEdges(conns, u);
    GroupsNodesSound(table, groups, 0, cs);
    forall i | 0 <= i < |r.nodes| ensures DrawnFromSome(table, cs, r.nodes[i]) {
      if i < |gn| {
        assert r.nodes[i] == u.nodes[..|g.nodes|][i] == gn[i];
      } else {
        PlaceUngroupedSound(table, cs, g, i);
      }
    }
  }

  /** Every pool entry of the diagram is the last node drawn with its name, so
      the edges of a name attach to that node. */
  lemma AssemblePoolIsLatest(table: Table, title: string, default: string,
                             cs: seq<Component>, groups: seq<Grouping>, conns: seq<Connection>, n: string)
    ensures PoolIsLatest(Assemble(table, title, default, cs, groups, conns), n)
  {
    var e := Empty(title);
    var g := PlaceGroups(table, default, groups, cs, e);
    PlaceGroupsLatest(table, default, groups, cs, e, n);
    PlaceUngroupedLatest(table, cs, g, n);
    ConnectAllEdges(conns, PlaceUngrouped(table, cs, g));
  }

  /** The edges of the diagram are the expected edges of the connection list
      against the final pool. */
  lemma AssembleEdges(table: Table, title: string, default: string,
                      cs: seq<Component>, groups: seq<Grouping>, conns: seq<Connection>)
    ensures var r := Assemble(table, title, default, cs, groups, conns);
              r.edges == ExpectedEdges(conns, r.pool)
  {
    var g := PlaceGroups(table, default, groups, cs, Empty(title));
    PlaceGroupsFrame(table, default, groups, cs, Empty(title));
    PlaceGroupsPrefix(table, default, groups, cs, Empty(title));
    PlaceUngroupedShape(table, cs, g);
    ConnectAllEdges(conns, PlaceUngrouped(table, cs, g));
  }

  /** The diagram has one container per grouping, in order, named by the
      grouping or by the default. */
  lemma AssembleContainers(table: Table, title: string, default: string,
                           cs: seq<Component>, groups: seq<Grouping>, conns: seq<Connection>)
    ensures Assemble(table, title, default, cs, groups, conns).containers == GroupNames(groups, default)
  {
    var g := PlaceGroups(table, default, groups, cs, Empty(title));
    PlaceGroupsFrame(table, default, groups, cs, Empty(title));
    PlaceGroupsPrefix(table, default, groups, cs, Empty(title));
    PlaceUngroupedShape(table, cs, g);
    ConnectAllEdges(conns, PlaceUngrouped(table, cs, g));
  }

  // ---------------------------------------------------------------------------
  // The invariant
  // ---------------------------------------------------------------------------

  lemma PlaceWellFormed(table: Table, d: Diagram, c: Component, scope: Scope)
    requires WellFormed(d) && ScopeOpen(d, scope)
    ensures WellFormed(Place(table, d, c, scope))
  {
  }

  lemma OpenContainerWellFormed(d: Diagram, name: string)
    requires WellFormed(d)
    ensures WellFormed(d.(containers := d.containers + [name]))
  {
  }

  lemma ConnectWellFormed(d: Diagram, c: Connection)
    requires WellFormed(d)
    ensures WellFormed(Connect(d, c))
  {
  }

  lemma {:induction false} PlaceMembersWellFormed(table: Table, members: seq<string>, scope: Scope, cs: seq<Component>, d: Diagram)
    requires WellFormed(d) && ScopeOpen(d, scope)
    ensures WellFormed(PlaceMembers(table, members, scope, cs, d))
    decreases |cs|
  {
    if cs != [] {
      if cs[0].name in members {
        PlaceWellFormed(table, d, cs[0], scope);
      }
      PlaceMembersWellFormed(table, members, scope, cs[1..],
                             if cs[0].name in members then Place(table, d, cs[0], scope) else d);
    }
  }

  lemma {:induction false} PlaceGroupsWellFormed(table: Table, default: string, groups: seq<Grouping>, cs: seq<Component>, d: Diagram)
    requires WellFormed(d)
    ensures WellFormed(PlaceGroups(table, default, groups, cs, d))
    decreases |groups|
  {
    if groups != [] {
      var withContainer := d.(containers := d.containers + [GroupName(groups[0], default)]);
      OpenContainerWellFormed(d, GroupName(groups[0], default));
      PlaceMembersWellFormed(table, GroupMembers(groups[0]), Group(|d.containers|), cs, withContainer);
      PlaceMembersNodes(table, GroupMembers(groups[0]), Group(|d.containers|), cs, withContainer);
      PlaceGroupsWellFormed(table, default, groups[1..], cs,
                            PlaceMembers(table, GroupMembers(groups[0]), Group(|d.containers|), cs, withContainer));
    }
  }

  lemma {:induction false} PlaceUngroupedWellFormed(table: Table, cs: seq<Component>, d: Diagram)
    requires WellFormed(d)
    ensures WellFormed(PlaceUngrouped(table, cs, d))
    decreases |cs|
  {
    if cs != [] {
      PlaceWellFormed(table, d, cs[0], Top);
      PlaceUngroupedWellFormed(table, cs[1..], if cs[0].name in d.pool then d else Place(table, d, cs[0], Top));
    }
  }

  lemma {:induction false} ConnectAllWellFormed(conns: seq<Connection>, d: Diagram)
    requires WellFormed(d)
    ensures WellFormed(ConnectAll(conns, d))
    decreases |conns|
  {
    if conns != [] {
      ConnectWellFormed(d, conns[0]);
      ConnectAllWellFormed(conns[1..], Connect(d, conns[0]));
    }
  }

  /** Every assembled diagram satisfies the invariant. */
  lemma AssembleWellFormed(table: Table, title: string, default: string,
                           cs: seq<Component>, groups: seq<Grouping>, conns: seq<Connection>)
    ensures WellFormed(Assemble(table, title, default, cs, groups, conns))
  {
    var g := PlaceGroups(table, default, groups, cs, Empty(title));
    PlaceGroupsWellFormed(table, default, groups, cs, Empty(title));
    PlaceUngroupedWellFormed(table, cs, g);
    ConnectAllWellFormed(conns, PlaceUngrouped(table, cs, g));
  }
}
