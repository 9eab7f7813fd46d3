/** The tool dispatcher of `call_tool`: the tool name selects a registry and
    its defaults, the pipeline assembles the diagram, and the status text
    reports how many components the pool ended with. */
module Tools {
  import opened Wrappers
  import opened Text
  import opened Registry
  import opened Assembly
  import opened AssemblyProperties
  import opened Builder

  datatype Platform = Kubernetes | Aws | Gcp

  function ToolName(p: Platform): string {
    match p
    case Kubernetes => "build-kubernetes-diagram"
    case Aws => "build-aws-diagram"
    case Gcp => "build-gcp-diagram"
  }

  /** Which pipeline a tool name selects; no pipeline for any other name. */
  function Dispatch(tool: string): (r: Option<Platform>)
    ensures r.Some? ==> ToolName(r.value) == tool
    ensures r.None? ==> forall p: Platform :: ToolName(p) != tool
  {
    if tool == "build-kubernetes-diagram" then Some(Kubernetes)
    else if tool == "build-aws-diagram" then Some(Aws)
    else if tool == "build-gcp-diagram" then Some(Gcp)
    else None
  }

  /** The registry a platform resolves types with; its keywords are all lower
      case, so each of them is reachable through `Lookup`. */
  function TableOf(p: Platform): (t: Table)
    ensures KeysLower(t)
  {
    match p
    case Kubernetes => KubernetesKeysLower(); KubernetesTable
    case Aws => AwsKeysLower(); AwsTable
    case Gcp => GcpKeysLower(); GcpTable
  }

  /** The diagram name used when the arguments carry none. */
  function DefaultTitle(p: Platform): string {
    match p
    case Kubernetes => "k8s-architecture"
    case Aws => "aws-architecture"
    case Gcp => "gcp-architecture"
  }

  /** The container name used for a grouping that carries none. */
  function DefaultGroupName(p: Platform): string {
    if p == Kubernetes then "Cluster" else "VPC"
  }

  /** The platform's word in the status text. */
  function PlatformLabel(p: Platform): string {
    match p
    case Kubernetes => "Kubernetes"
    case Aws => "AWS"
    case Gcp => "GCP"
  }

  /** The JSON argument object; an absent key is None. */
  datatype Arguments = Arguments(
    name: Option<string>,
    components: Option<seq<Component>>,
    clusters: Option<seq<Grouping>>,
    vpcs: Option<seq<Grouping>>,
    connections: Option<seq<Connection>>)

  /** The groupings a pipeline reads: "clusters" for Kubernetes, "vpcs" otherwise. */
  function Groupings(p: Platform, args: Arguments): seq<Grouping> {
    if p == Kubernetes then args.clusters.GetOr([]) else args.vpcs.GetOr([])
  }

  function StatusText(p: Platform, title: string, count: nat): string {
    PlatformLabel(p) + " architecture diagram '" + title + "' created successfully with "
      + NatToString(count) + " components."
  }

  /** The text item and, standing for the image item, the drawing it renders. */
  datatype Response = Response(text: string, diagram: Diagram)

  /** Handle one tool call. An unknown tool name is the ValueError path. */
  method CallTool(tool: string, args: Arguments) returns (r: Result<Response, string>)
    ensures r.Failure? <==> Dispatch(tool).None?
    ensures r.Failure? ==> r.error == "Unknown tool: " + tool
    ensures r.Success? ==>
              var p := Dispatch(tool).value;
              var title := args.name.GetOr(DefaultTitle(p));
              var cs := args.components.GetOr([]);
              && r.value.diagram == Assemble(TableOf(p), title, DefaultGroupName(p), cs,
                                             Groupings(p, args), args.connections.GetOr([]))
              && r.value.text == StatusText(p, title, |ResolvableNames(TableOf(p), cs)|)
  {
    var platform := Dispatch(tool);
    if platform.None? {
      return Failure("Unknown tool: " + tool);
    }
    var p := platform.value;
    var title := args.name.GetOr(DefaultTitle(p));
    var cs := args.components.GetOr([]);
    var groups := Groupings(p, args);
    var conns := args.connections.GetOr([]);
    var d := BuildDiagram(TableOf(p), title, DefaultGroupName(p), cs, groups, conns);
    PoolKeysAreResolvableNames(TableOf(p), title, DefaultGroupName(p), cs, groups, conns);
    assert |d.pool| == |d.pool.Keys|;
    r := Success(Response(StatusText(p, title, |d.pool|), d));
  }

  /** The count in the status text determines the count. */
  lemma StatusTextInjective(p: Platform, title: string, a: nat, b: nat)
    requires StatusText(p, title, a) == StatusText(p, title, b)
    ensures a == b
  {
    var prefix := PlatformLabel(p) + " architecture diagram '" + title + "' created successfully with ";
    var suffix := " components.";
    var sa := StatusText(p, title, a);
    assert sa == prefix + NatToString(a) + suffix;
    assert StatusText(p, title, b) == prefix + NatToString(b) + suffix;
    assert |NatToString(a)| == |NatToString(b)|;
    assert sa[|prefix|..|sa| - |suffix|] == NatToString(a);
    assert sa[|prefix|..|sa| - |suffix|] == NatToString(b);
    NatToStringInjective(a, b);
  }
}
