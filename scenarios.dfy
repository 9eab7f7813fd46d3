/** Worked requests for the Kubernetes pipeline, as the code handles them. */
module Scenarios {
  import opened Wrappers
  import opened Text
  import opened Registry
  import opened Assembly

  /** A deployment, a service and one connection: two pool entries, one edge. */
  lemma ScenarioA()
    ensures var d := Assemble(KubernetesTable, "k8s-architecture", "Cluster",
                              [Component("deployment", "api"), Component("service", "api-svc")],
                              [], [Connection("api-svc", "api", None)]);
              && d.pool == map["api" := 0, "api-svc" := 1]
              && d.nodes == [Node("api", Deployment, Top), Node("api-svc", Service, Top)]
              && d.edges == [Edge(1, 0, None)]
  {
    KubernetesExamples();
  }

  /** An unknown type: nothing enters the pool, so the status reports 0. */
  lemma ScenarioB()
    ensures var d := Assemble(KubernetesTable, "k8s-architecture", "Cluster",
                              [Component("bogus", "x")], [], []);
              && d.pool == map[] && d.nodes == [] && d.edges == []
              && NatToString(|d.pool|) == "0"
  {
    KubernetesExamples();
  }

  /** A component listed by two namespaces is drawn in both, and the pool
      keeps the node drawn in the later one. */
  lemma ScenarioC()
    ensures var d := Assemble(KubernetesTable, "k8s-architecture", "Cluster",
                              [Component("deployment", "a")],
                              [Grouping(Some("ns1"), Some(["a"])), Grouping(Some("ns2"), Some(["a"]))], []);
              && d.containers == ["ns1", "ns2"]
              && d.nodes == [Node("a", Deployment, Group(0)), Node("a", Deployment, Group(1))]
              && d.pool == map["a" := 1]
  {
    KubernetesExamples();
  }

  /** Two listed descriptors of one name and kind draw two equal nodes in the
      same container; the pool keeps the later one, and the edge attaches to it. */
  lemma ScenarioF()
    ensures var d := Assemble(KubernetesTable, "k8s-architecture", "Cluster",
                              [Component("deployment", "a"), Component("Deployment", "a"), Component("service", "s")],
                              [Grouping(Some("ns"), Some(["a"]))], [Connection("s", "a", None)]);
              && d.nodes == [Node("a", Deployment, Group(0)), Node("a", Deployment, Group(0)), Node("s", Service, Top)]
              && d.pool == map["a" := 1, "s" := 2]
              && d.edges == [Edge(2, 1, None)]
  {
    KubernetesExamples();
  }

  /** A connection naming an absent component adds no edge. */
  lemma ScenarioD()
    ensures var d := Assemble(KubernetesTable, "k8s-architecture", "Cluster",
                              [Component("deployment", "api")], [], [Connection("api", "ghost", Some("calls"))]);
              d.edges == []
  {
    KubernetesExamples();
  }

  /** Two ungrouped descriptors named alike: the first resolvable one wins. */
  lemma ScenarioE()
    ensures var d := Assemble(KubernetesTable, "k8s-architecture", "Cluster",
                              [Component("deployment", "dup"), Component("service", "dup")], [], []);
              && d.pool == map["dup" := 0]
              && d.nodes == [Node("dup", Deployment, Top)]
  {
    KubernetesExamples();
  }

  /** A grouping without a name or member list opens an empty "Cluster". */
  lemma EmptyGrouping()
    ensures var d := Assemble(KubernetesTable, "k8s-architecture", "Cluster",
                              [Component("deployment", "api")], [Grouping(None, None)], []);
              && d.containers == ["Cluster"]
              && d.nodes == [Node("api", Deployment, Top)]
  {
    KubernetesExamples();
  }
}
