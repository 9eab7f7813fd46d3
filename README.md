# Cloud-native architecture diagrams: component resolution and graph assembly

This project models the core of an MCP server that turns a JSON description of a
Kubernetes, AWS or GCP topology into an architecture diagram. The core is the body
of `call_tool` in `src/cloud_native_architecture_mcp/server.py`:

* three **type registries** (`get_k8s_component`, `get_aws_component`,
  `get_gcp_component`). Each is a static table from a lower-case type keyword to a
  node class, consulted after lower-casing the requested type;
* **pool assembly in two passes**. Pass 1 opens one `Cluster` container per
  cluster/VPC entry. Inside it, it draws every component whose name that entry
  lists. Pass 2 draws at top level every component whose name is not yet a key of
  the `components` dictionary (the *pool*);
* **edge materialisation**. Each connection becomes a directed edge, labelled when
  its label is non-empty, provided both endpoint names are pool keys;
* **dispatch and status**. The tool name selects the registry and the defaults.
  The status text reports the number of pool keys. An unknown tool name raises
  `ValueError`;
* `parse_component_config`, a small `':'`-separated parser.

The source has three copies of the pipeline. They differ only in the registry,
the defaults, the argument key the groupings are read from (`clusters` for
Kubernetes, `vpcs` for AWS and GCP) and the status-text prefix, so the model writes
the pipeline once, parameterised by a registry table (`Registry.Table`), with
`Tools.Groupings` choosing the key.

Layout:

* `wrappers.dfy`: `Option` and `Result`.
* `text.dfy`: ASCII lower-casing, decimal rendering and parsing of integers
  (`str(n)` and `int(s)`), and `str.split`/`str.join` for a one-character
  separator, with their round trips.
* `registry.dfy`: the node kinds, the three tables and `Lookup`.
* `component_config.dfy`: `parse_component_config`.
* `assembly.dfy`: the pure specification of the pipeline, as functions over a
  `Diagram` value. `Place` is one resolution. `PlaceMembers`/`PlaceGroups` are
  pass 1, `PlaceUngrouped` is pass 2, and `Connect`/`ConnectAll` are the
  connection loop. It also has the reference definitions the lemmas compare
  against: `ResolvableNames`, `FirstKind`, `LastKind`, `LastListing`,
  `MemberNodes`, `GroupsNodes`, `DrawnFrom`, `CountResolved` and `ExpectedEdges`.
* `assembly_properties.dfy`: the lemmas about the passes and the edges.
* `builder.dfy`: the imperative pipeline. `DiagramBuilder` is a class whose
  fields are the containers, the drawn nodes, the pool and the edges. It has one
  method per loop of the source, each proved equal to the matching function of
  `assembly.dfy`. `BuildDiagram` runs the three stages.
* `tools.dfy`: the tool names, the defaults, the status text and `CallTool`.
* `scenarios.dfy`: worked requests.

The drawing library registers each node with whichever `Cluster` block is open.
The model makes that explicit: every node is drawn with a `Scope` (`Top` or
`Group(i)`, the i-th opened container). A node's identity is its position in the
sequence of drawn nodes. The pool maps a name to a position, so "which node the
pool keeps" can be stated.

How the code treats a name shared by several descriptors or groupings:

* Pass 1 has no pool-membership test (server.py:333 tests only the grouping's
  member list). A component listed by two clusters is drawn in both, and the pool
  keeps the node from the later cluster. `AssemblyProperties.Placement`,
  `AssemblyProperties.AssembleDrawsListed` and `Scenarios.ScenarioC` state this.
* Pass 2 tests the pool (server.py:340). Among ungrouped descriptors sharing a
  name, the first resolvable one is drawn and no other. `Scenarios.ScenarioE`
  shows it. Within one container the last matching descriptor wins, since pass 1
  does not test the pool.
* The tool names are `build-kubernetes-diagram`, `build-aws-diagram` and
  `build-gcp-diagram`.

## Model

| member | source | states |
|---|---|---|
| `Registry.Lookup` | src/cloud_native_architecture_mcp/server.py:247-250 | a resolved type always yields one of the table's own kinds |
| `Registry.KubernetesTable` | src/cloud_native_architecture_mcp/server.py:231-246 | definition: the fourteen keyword-to-kind entries of `get_k8s_component`; `KubernetesKeysLower` and `KubernetesExamples` are proved about it |
| `Registry.AwsTable` | src/cloud_native_architecture_mcp/server.py:255-276 | definition: the twenty keyword-to-kind entries of `get_aws_component`; `AwsKeysLower` is proved about it |
| `Registry.GcpTable` | src/cloud_native_architecture_mcp/server.py:285-302 | definition: the sixteen keyword-to-kind entries of `get_gcp_component`; `GcpKeysLower` is proved about it |
| `Registry.KubernetesKeysLower` | src/cloud_native_architecture_mcp/server.py:231-246 | every keyword of the Kubernetes table is lower case |
| `Registry.AwsKeysLower` | src/cloud_native_architecture_mcp/server.py:255-276 | every keyword of the AWS table is lower case |
| `Registry.GcpKeysLower` | src/cloud_native_architecture_mcp/server.py:285-302 | every keyword of the GCP table is lower case |
| `Registry.LookupIgnoresCase` | src/cloud_native_architecture_mcp/server.py:277-280 | two spellings that lower-case alike resolve to the same result |
| `Registry.LookupFindsKeyword` | src/cloud_native_architecture_mcp/server.py:303-306 | with lower-case keywords, a type resolves iff it equals a keyword up to case, and then to that keyword's kind |
| `Registry.LookupOfLower` | src/cloud_native_architecture_mcp/server.py:247 | looking up the lower-cased type gives the same result as looking up the type |
| `Registry.KubernetesExamples` | src/cloud_native_architecture_mcp/server.py:232-250 | "Deployment", "DEPLOYMENT" and "deployment" all resolve to Deployment, "service" to Service, and "bogus" resolves to nothing |
| `Text.Lower` | src/cloud_native_architecture_mcp/server.py:247 | definition: the `.lower()` applied to the requested type, character by character; `LowerIsLower`, `LowerFixesLower` and `LowerIdempotent` are proved about it |
| `Text.LowerIsLower` | src/cloud_native_architecture_mcp/server.py:247 | the result of lower-casing has no upper-case letter |
| `Text.LowerIdempotent` | src/cloud_native_architecture_mcp/server.py:247 | lower-casing twice is lower-casing once |
| `Text.LowerFixesLower` | src/cloud_native_architecture_mcp/server.py:247 | lower-casing leaves a lower-case keyword unchanged |
| `Text.NatToString` | src/cloud_native_architecture_mcp/server.py:365 | the rendering of a count is a non-empty digit string without a leading zero |
| `Text.DigitsValueOfNatToString` | src/cloud_native_architecture_mcp/server.py:365 | reading back the rendering of n gives n |
| `Text.NatToStringInjective` | src/cloud_native_architecture_mcp/server.py:365 | distinct counts render differently |
| `Text.ParseInt` | src/cloud_native_architecture_mcp/server.py:58 | the model's `ParseInt` succeeds exactly on an optional sign followed by one or more decimal digits |
| `Text.ParseIntOfNatToString` | src/cloud_native_architecture_mcp/server.py:58 | `int(str(n)) == n` and `int("-" + str(n)) == -n` |
| `Text.Split` | src/cloud_native_architecture_mcp/server.py:54 | `split(':')` always yields at least one piece, and no piece contains the separator |
| `Text.JoinSplit` | src/cloud_native_architecture_mcp/server.py:54 | joining the pieces of a split with the separator gives back the string |
| `Text.SplitJoin` | src/cloud_native_architecture_mcp/server.py:54 | splitting a join of separator-free pieces gives back the pieces |
| `Text.SplitCons` | src/cloud_native_architecture_mcp/server.py:54 | a separator-free first piece followed by the separator splits off as a piece of its own |
| `Text.SplitFree` | src/cloud_native_architecture_mcp/server.py:54 | a separator-free string splits into itself alone |
| `ComponentConfig.ParseComponentConfig` | src/cloud_native_architecture_mcp/server.py:52-59 | on success the type is a separator-free prefix of the input; a failure names a third piece that is not an integer literal |
| `ComponentConfig.PartsPrefix` | src/cloud_native_architecture_mcp/server.py:56 | the first piece of a split, which becomes the type, is a prefix of the input |
| `ComponentConfig.ParseEmpty` | src/cloud_native_architecture_mcp/server.py:54-58 | "" parses to type "", name "unnamed", 1 replica |
| `ComponentConfig.ParseTypeOnly` | src/cloud_native_architecture_mcp/server.py:56-58 | a colon-free string is the type, with name "unnamed" and 1 replica |
| `ComponentConfig.ParseTypeAndName` | src/cloud_native_architecture_mcp/server.py:56-58 | "type:name" parses to that type and name with 1 replica |
| `ComponentConfig.ThreePieces` | src/cloud_native_architecture_mcp/server.py:54 | three colon-free pieces joined by ':' split into exactly those three pieces |
| `ComponentConfig.ParseRoundTrip` | src/cloud_native_architecture_mcp/server.py:52-59 | for a colon-free type and name, "type:name:n" parses back to (type, name, n) |
| `ComponentConfig.ParseGoodReplicas` | src/cloud_native_architecture_mcp/server.py:58 | for a colon-free type and name, a third piece that the model's `ParseInt` accepts (signed or zero-padded included) becomes the replica count |
| `ComponentConfig.ParseIgnoresExtraPieces` | src/cloud_native_architecture_mcp/server.py:54-58 | pieces after the third do not change the result |
| `ComponentConfig.ParseBadReplicas` | src/cloud_native_architecture_mcp/server.py:58 | for any colon-free type and name, a third piece that is not an integer literal is the ValueError path, naming that piece |
| `Assembly.GroupNames` | src/cloud_native_architecture_mcp/server.py:327-331 | one container name per grouping, in order: the grouping's name or the default |
| `Assembly.Place` | src/cloud_native_architecture_mcp/server.py:334-336 | definition: one resolution (also lines 341-343); a known type draws a node in the given scope and makes the name's pool entry point at it, an unknown one changes nothing. `Builder.DiagramBuilder.Place` is proved to have this effect |
| `Assembly.PlaceMembers` | src/cloud_native_architecture_mcp/server.py:332-336 | definition: the inner loop of pass 1, resolving every descriptor the grouping lists with no pool test; characterised by `PlaceMembersNodes` and `PlaceMembersPoolAt` |
| `Assembly.PlaceGroups` | src/cloud_native_architecture_mcp/server.py:326-336 | definition: pass 1, one container per grouping and then its members; characterised by `PlaceGroupsFrame`, `PlaceGroupsNodes`, `PlaceGroupsNode` and `PlaceGroupsPoolAt` |
| `Assembly.PlaceUngrouped` | src/cloud_native_architecture_mcp/server.py:339-343 | definition: pass 2, resolving at top level every descriptor whose name is not a pool key; characterised by `PlaceUngroupedShape`, `PlaceUngroupedPoolAt` and `PlaceUngroupedSound` |
| `Assembly.EdgeLabel` | src/cloud_native_architecture_mcp/server.py:349-352 | definition: a connection's label is used only when present and non-empty |
| `Assembly.Connect` | src/cloud_native_architecture_mcp/server.py:347-355 | definition: one connection; an edge between the two pool entries when both endpoints are pool keys, else nothing |
| `Assembly.ConnectAll` | src/cloud_native_architecture_mcp/server.py:346-355 | definition: the connection loop, in order; `ConnectAllEdges` ties it to `ExpectedEdges` |
| `Assembly.Assemble` | src/cloud_native_architecture_mcp/server.py:321-355 | definition: pass 1, then pass 2, then the connection loop, starting from an empty diagram; `PoolKeysAreResolvableNames`, `Placement`, `AssembleNodes`, `AssembleNodesSound`, `AssembleDrawsListed`, `AssembleEdges`, `AssembleContainers` and `AssembleWellFormed` are proved about it |
| `AssemblyProperties.KindExistsIffResolvable` | src/cloud_native_architecture_mcp/server.py:334-343 | a first and a last resolvable descriptor of a name exist exactly when the name belongs to some descriptor with a known type |
| `AssemblyProperties.FirstKindIsFirst` | src/cloud_native_architecture_mcp/server.py:339-343 | FirstKind is the kind of the earliest resolvable descriptor of that name, with none resolvable before it |
| `AssemblyProperties.LastKindIsLast` | src/cloud_native_architecture_mcp/server.py:332-336 | LastKind is the kind of the latest resolvable descriptor of that name, with none resolvable after it |
| `AssemblyProperties.LastListingIsLast` | src/cloud_native_architecture_mcp/server.py:327-333 | LastListing is the last grouping listing the name, and is absent exactly when no grouping lists it |
| `AssemblyProperties.MemberNodesListed` | src/cloud_native_architecture_mcp/server.py:331-336 | every node a container receives is listed by its grouping and drawn in that container |
| `AssemblyProperties.MemberNodesSound` | src/cloud_native_architecture_mcp/server.py:333-336 | every node a container receives comes from a descriptor of that name whose type resolves to the node's kind |
| `AssemblyProperties.MemberNodesComplete` | src/cloud_native_architecture_mcp/server.py:332-336 | a container receives a node for every resolvable descriptor its grouping lists |
| `AssemblyProperties.PlaceMembersNodes` | src/cloud_native_architecture_mcp/server.py:332-336 | inside one container, pass 1 appends exactly one node per resolvable listed descriptor, in order, and changes neither containers nor edges |
| `AssemblyProperties.PlaceMembersPoolAt` | src/cloud_native_architecture_mcp/server.py:332-336 | inside one container, the pool entry of a listed resolvable name becomes the node of its last resolvable descriptor, and no later node carries that name; any other entry is unchanged |
| `AssemblyProperties.PlaceMembersLatest` | src/cloud_native_architecture_mcp/server.py:332-336 | inside one container, a name's pool entry stays the last node drawn with that name, and becomes so once a listed descriptor of it resolves |
| `AssemblyProperties.PlaceGroupsFrame` | src/cloud_native_architecture_mcp/server.py:326-331 | pass 1 opens one container per grouping, in order, even an empty one, and leaves title and edges alone |
| `AssemblyProperties.PlaceGroupsPrefix` | src/cloud_native_architecture_mcp/server.py:326-336 | pass 1 only appends nodes: the nodes already drawn stay as they were |
| `AssemblyProperties.PlaceGroupsNodes` | src/cloud_native_architecture_mcp/server.py:326-336 | pass 1 appends exactly each grouping's member nodes, container by container, in grouping order |
| `AssemblyProperties.GroupsNodesComplete` | src/cloud_native_architecture_mcp/server.py:326-336 | a resolvable descriptor is drawn in the container of every grouping that lists its name |
| `AssemblyProperties.GroupsNodesSound` | src/cloud_native_architecture_mcp/server.py:333-336 | every node pass 1 draws comes from a descriptor of that name whose type resolves to the node's kind |
| `AssemblyProperties.PlaceGroupsNode` | src/cloud_native_architecture_mcp/server.py:327-336 | every node pass 1 draws sits in a container it opened, and its name is listed by that container's grouping |
| `AssemblyProperties.PlaceGroupsPoolAt` | src/cloud_native_architecture_mcp/server.py:326-336 | after pass 1, a listed resolvable name maps to its last resolvable descriptor's node inside the last listing container, and no later node carries that name; any other entry is unchanged |
| `AssemblyProperties.PlaceGroupsLatest` | src/cloud_native_architecture_mcp/server.py:326-336 | pass 1 keeps a name's pool entry the last node drawn with that name, and makes it so once a grouping lists a resolvable descriptor of it |
| `AssemblyProperties.PlaceUngroupedShape` | src/cloud_native_architecture_mcp/server.py:339-343 | pass 2 keeps existing entries and draws only at top level. It draws only names missing from the pool, and each node it draws is its name's pool entry, so no name is drawn twice |
| `AssemblyProperties.PlaceUngroupedPoolAt` | src/cloud_native_architecture_mcp/server.py:339-343 | a name missing from the pool gets an entry in pass 2 exactly when some descriptor of it resolves, and the entry is the first such descriptor's node at top level |
| `AssemblyProperties.PlaceUngroupedLatest` | src/cloud_native_architecture_mcp/server.py:339-343 | pass 2 keeps every pool entry the last node drawn with its name |
| `AssemblyProperties.PlaceUngroupedSound` | src/cloud_native_architecture_mcp/server.py:339-343 | every node pass 2 draws comes from a descriptor of that name whose type resolves to the node's kind |
| `AssemblyProperties.ConnectAllEdges` | src/cloud_native_architecture_mcp/server.py:346-355 | the connection loop appends exactly the expected edges and changes nothing else |
| `AssemblyProperties.ExpectedEdgesAppend` | src/cloud_native_architecture_mcp/server.py:346 | connections are handled in order, and a repeated connection adds a parallel edge |
| `AssemblyProperties.ExpectedEdgesComplete` | src/cloud_native_architecture_mcp/server.py:347-355 | a connection whose two endpoints are pool keys yields its edge |
| `AssemblyProperties.ExpectedEdgesSound` | src/cloud_native_architecture_mcp/server.py:347-351 | every edge comes from a connection whose two endpoints are pool keys |
| `AssemblyProperties.ExpectedEdgesCount` | src/cloud_native_architecture_mcp/server.py:346-351 | the number of edges equals the number of connections whose two endpoints are pool keys; hence at most one edge per connection, and exactly one per connection iff every connection resolves |
| `AssemblyProperties.PoolKeysAreResolvableNames` | src/cloud_native_architecture_mcp/server.py:323-343 | after both passes, the pool keys are exactly the names of descriptors whose type resolves |
| `AssemblyProperties.Placement` | src/cloud_native_architecture_mcp/server.py:326-343 | a listed name maps to the last resolvable descriptor's node in the last listing container, no later node carries that name, and it is never drawn at top level. An unlisted name is drawn once, at top level, from the first resolvable descriptor |
| `AssemblyProperties.AssembleNodes` | src/cloud_native_architecture_mcp/server.py:321-343 | the diagram's nodes are pass 1's member nodes, grouping by grouping, followed only by top-level nodes |
| `AssemblyProperties.AssemblePoolIsLatest` | src/cloud_native_architecture_mcp/server.py:323-355 | in the finished diagram every pool entry is the last node drawn with its name, so a name's edges attach to that node |
| `AssemblyProperties.AssembleDrawsListed` | src/cloud_native_architecture_mcp/server.py:326-336 | a resolvable descriptor is drawn in every grouping that lists its name, even when several do |
| `AssemblyProperties.AssembleNodesSound` | src/cloud_native_architecture_mcp/server.py:334-343 | every drawn node comes from a descriptor whose type the registry knows, so a type the registry lacks draws nothing |
| `AssemblyProperties.AssembleEdges` | src/cloud_native_architecture_mcp/server.py:346-355 | the diagram's edges are the expected edges of the connections against the final pool |
| `AssemblyProperties.AssembleContainers` | src/cloud_native_architecture_mcp/server.py:326-331 | the diagram has one container per grouping, in order |
| `AssemblyProperties.AssembleWellFormed` | src/cloud_native_architecture_mcp/server.py:323-355 | each pool entry is a drawn node of that name, nodes sit in opened containers, and edges join drawn nodes |
| `Builder.DiagramBuilder.constructor` | src/cloud_native_architecture_mcp/server.py:321-323 | the diagram context starts with nothing drawn and an empty pool |
| `Builder.DiagramBuilder.Place` | src/cloud_native_architecture_mcp/server.py:334-336 | one resolution: draws the node in the given scope and records it under its name when the type is known |
| `Builder.DiagramBuilder.OpenContainer` | src/cloud_native_architecture_mcp/server.py:328-331 | appends a container and returns the scope that draws into it |
| `Builder.DiagramBuilder.PlaceMembers` | src/cloud_native_architecture_mcp/server.py:332-336 | the inner loop of pass 1 has the effect of `Assembly.PlaceMembers` |
| `Builder.DiagramBuilder.PlaceGroups` | src/cloud_native_architecture_mcp/server.py:327-336 | pass 1 has the effect of `Assembly.PlaceGroups` |
| `Builder.DiagramBuilder.PlaceUngrouped` | src/cloud_native_architecture_mcp/server.py:339-343 | pass 2 has the effect of `Assembly.PlaceUngrouped` |
| `Builder.DiagramBuilder.ConnectAll` | src/cloud_native_architecture_mcp/server.py:346-355 | only edges change: they grow by the expected edges against the unchanged pool |
| `Builder.BuildDiagram` | src/cloud_native_architecture_mcp/server.py:321-355 | the pipeline builds exactly `Assemble` of its inputs, which is well formed |
| `Tools.Dispatch` | src/cloud_native_architecture_mcp/server.py:313-495 | a tool name selects the platform whose tool name it is, and no other name selects any |
| `Tools.TableOf` | src/cloud_native_architecture_mcp/server.py:334 | the registry a platform resolves with (also lines 394 and 454); its keywords are all lower case |
| `Tools.DefaultTitle` | src/cloud_native_architecture_mcp/server.py:314 | definition: the diagram name used (also lines 375 and 435) when the arguments carry none (`k8s-architecture`, `aws-architecture`, `gcp-architecture`) |
| `Tools.DefaultGroupName` | src/cloud_native_architecture_mcp/server.py:328 | definition: the container name (also lines 388 and 448) for a grouping without one, `Cluster` on Kubernetes and `VPC` otherwise |
| `Tools.Groupings` | src/cloud_native_architecture_mcp/server.py:316 | definition: the groupings (also lines 377 and 437) are read from `clusters` on Kubernetes and from `vpcs` otherwise, absent meaning none |
| `Tools.StatusText` | src/cloud_native_architecture_mcp/server.py:365 | definition: the status line (also lines 425 and 485) with the platform's word, the diagram name and the rendered count; `StatusTextInjective` is proved about it |
| `Tools.CallTool` | src/cloud_native_architecture_mcp/server.py:310-495 | an unknown tool fails with "Unknown tool: name". A known one builds the diagram from its registry and defaults, and reports the number of resolvable names |
| `Tools.StatusTextInjective` | src/cloud_native_architecture_mcp/server.py:365 | the count printed in the status text determines the count |
| `Scenarios.ScenarioA` | src/cloud_native_architecture_mcp/server.py:339-355 | a deployment and a service joined by one connection give two pool entries and one unlabelled edge |
| `Scenarios.ScenarioB` | src/cloud_native_architecture_mcp/server.py:339-343 | an unknown type leaves the pool empty, so the status reports "0" |
| `Scenarios.ScenarioC` | src/cloud_native_architecture_mcp/server.py:327-336 | a component listed by two namespaces is drawn in both, and the pool keeps the later one |
| `Scenarios.ScenarioD` | src/cloud_native_architecture_mcp/server.py:347-351 | a connection to an absent name adds no edge |
| `Scenarios.ScenarioE` | src/cloud_native_architecture_mcp/server.py:339-343 | of two ungrouped descriptors with one name, the first resolvable one wins |
| `Scenarios.ScenarioF` | src/cloud_native_architecture_mcp/server.py:332-355 | two listed descriptors of one name and kind draw two equal nodes in one container; the pool keeps the second, and the edge to that name attaches to it |
| `Scenarios.EmptyGrouping` | src/cloud_native_architecture_mcp/server.py:328-331 | a grouping with no name and no member list opens an empty "Cluster" container |

## Left out

- MCP transport and tool discovery (`list_tools` and its schemas, the decorators, `async_main`, `main`, stdio): protocol plumbing and static data.
- The drawing library: layout, rendering, and the `direction="LR"`/`show=False` options. `Tools.Response` carries the assembled `Diagram` value in place of the image item.
- File-system work: creating `OUTPUT_DIR`, deriving the output and `.png` paths, reading the image back, and base64 encoding. This is I/O, with no logic of the core in it.
- Node kinds are opaque labels named after the classes the source uses. Class aliases inside the drawing library are not modelled.
- The truthiness tests `if component_class`, `if comp` and `if from_comp and to_comp` are taken to pass for every found class and node. Both are ordinary objects.
- `Text.Lower`: ASCII lower-casing only; `str.lower()` also folds non-ASCII letters.
- `Text.ParseInt`: accepts only an optional sign followed by ASCII digits. Python's `int()` also accepts surrounding whitespace, underscores between digits and non-ASCII digits.
- A descriptor lacking "name", "type", "from" or "to" raises `KeyError` in the source. The descriptor datatypes make these fields mandatory, as the input schemas do.
- JSON `null` or wrongly typed values for optional keys are not modelled. An absent key takes its default.
- `replicas` on a component descriptor is not part of `Assembly.Component`, because nothing in the drawing reads it.
- Concurrency: output-path collisions between concurrent calls.
