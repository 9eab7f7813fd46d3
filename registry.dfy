/** The three type registries: static tables from a lower-case type keyword to
    the kind of node drawn for it, looked up after lower-casing the keyword. */
module Registry {
  import opened Wrappers
  import opened Text

  /** The drawable node kinds, named after the node classes the registries use.
      They are opaque labels here; what each looks like is the renderer's concern. */
  datatype Kind =
    // Kubernetes
    | Deployment | StatefulSet | DaemonSet | Job | Pod | Service | Ingress
    | PVC | PV | StorageClass | ConfigMap | Secret | HPA | ReplicaSet
    // AWS
    | EC2 | ECS | EKS | Lambda | RDS | Dynamodb | Elasticache | Redshift
    | S3 | EBS | EFS | ELB | ALB | NLB | CloudFront | Route53 | AwsVPC
    | SQS | SNS | Eventbridge
    // GCP
    | GCE | GKE | ComputeEngine | Functions | SQL | Firestore | BigTable | Spanner
    | LoadBalancing | DNS | GcpVPC | GCS | PersistentDisk | BigQuery | Dataflow | Pubsub

  type Table = map<string, Kind>

  /** The table of `get_k8s_component`. */
  const KubernetesTable: Table := map[
    "deployment" := Deployment, "statefulset" := StatefulSet, "daemonset" := DaemonSet,
    "job" := Job, "pod" := Pod, "service" := Service, "ingress" := Ingress,
    "pvc" := PVC, "pv" := PV, "storageclass" := StorageClass, "configmap" := ConfigMap,
    "secret" := Secret, "hpa" := HPA, "replicaset" := ReplicaSet]

  /** The table of `get_aws_component`. */
  const AwsTable: Table := map[
    "ec2" := EC2, "ecs" := ECS, "eks" := EKS, "lambda" := Lambda, "rds" := RDS,
    "dynamodb" := Dynamodb, "elasticache" := Elasticache, "redshift" := Redshift,
    "s3" := S3, "ebs" := EBS, "efs" := EFS, "elb" := ELB, "alb" := ALB, "nlb" := NLB,
    "cloudfront" := CloudFront, "route53" := Route53, "vpc" := AwsVPC,
    "sqs" := SQS, "sns" := SNS, "eventbridge" := Eventbridge]

  /** The table of `get_gcp_component`. */
  const GcpTable: Table := map[
    "gce" := GCE, "gke" := GKE, "computeengine" := ComputeEngine, "functions" := Functions,
    "sql" := SQL, "firestore" := Firestore, "bigtable" := BigTable, "spanner" := Spanner,
    "loadbalancing" := LoadBalancing, "dns" := DNS, "vpc" := GcpVPC, "gcs" := GCS,
    "persistentdisk" := PersistentDisk, "bigquery" := BigQuery, "dataflow" := Dataflow,
    "pubsub" := Pubsub]

  /** Every keyword of the table is written in lower case. */
  predicate KeysLower(table: Table) {
    forall k :: k in table ==> IsLower(k)
  }

  /** The registry lookup: lower-case the requested type, then look it up;
      a keyword the table lacks gives None. */
  function Lookup(table: Table, typeName: string): (r: Option<Kind>)
    ensures r.Some? ==> r.value in table.Values
  {
    var key := Lower(typeName);
    if key in table then Some(table[key]) else None
  }

  // The keyword literals of each table are lower case, a few at a time. These
  // lemmas only keep each proof small for the solver; the table lemmas below
  // hold without them, at a much higher cost.

  lemma KubernetesKeywordsLower1()
    ensures IsLower("deployment")
         && IsLower("statefulset")
         && IsLower("daemonset")
         && IsLower("job")
         && IsLower("pod")
  {
  }

  lemma KubernetesKeywordsLower2()
    ensures IsLower("service")
         && IsLower("ingress")
         && IsLower("pvc")
         && IsLower("pv")
         && IsLower("storageclass")
  {
  }

  lemma KubernetesKeywordsLower3()
    ensures IsLower("configmap")
         && IsLower("secret")
         && IsLower("hpa")
         && IsLower("replicaset")
  {
  }

  /** The registries' keywords are all lower case, so every one of them is
      reachable through Lookup. */
  lemma KubernetesKeysLower()
    ensures KeysLower(KubernetesTable)
  {
    KubernetesKeywordsLower1();
    KubernetesKeywordsLower2();
    KubernetesKeywordsLower3();
  }

  lemma AwsKeywordsLower1()
    ensures IsLower("ec2")
         && IsLower("ecs")
         && IsLower("eks")
         && IsLower("lambda")
         && IsLower("rds")
  {
  }

  lemma AwsKeywordsLower2()
    ensures IsLower("dynamodb")
         && IsLower("elasticache")
         && IsLower("redshift")
         && IsLower("s3")
         && IsLower("ebs")
  {
  }

  lemma AwsKeywordsLower3()
    ensures IsLower("efs")
         && IsLower("elb")
         && IsLower("alb")
         && IsLower("nlb")
         && IsLower("cloudfront")
  {
  }

  lemma AwsKeywordsLower4()
    ensures IsLower("route53")
         && IsLower("vpc")
         && IsLower("sqs")
         && IsLower("sns")
         && IsLower("eventbridge")
  {
  }

  lemma AwsKeysLower()
    ensures KeysLower(AwsTable)
  {
    AwsKeywordsLower1();
    AwsKeywordsLower2();
    AwsKeywordsLower3();
    AwsKeywordsLower4();
  }

  lemma GcpKeywordsLower1()
    ensures IsLower("gce")
         && IsLower("gke")
         && IsLower("computeengine")
         && IsLower("functions")
         && IsLower("sql")
         && IsLower("firestore")
  {
  }

  lemma GcpKeywordsLower2()
    ensures IsLower("bigtable")
         && IsLower("spanner")
         && IsLower("loadbalancing")
         && IsLower("dns")
         && IsLower("vpc")
         && IsLower("gcs")
  {
  }

  lemma GcpKeywordsLower3()
    ensures IsLower("persistentdisk")
         && IsLower("bigquery")
         && IsLower("dataflow")
         && IsLower("pubsub")
  {
  }

  lemma GcpKeysLower()
    ensures KeysLower(GcpTable)
  {
    GcpKeywordsLower1();
    GcpKeywordsLower2();
    GcpKeywordsLower3();
  }

  /** Two spellings that lower-case alike resolve alike. */
  lemma LookupIgnoresCase(table: Table, a: string, b: string)
    requires Lower(a) == Lower(b)
    ensures Lookup(table, a) == Lookup(table, b)
  {
  }

  /** For a table with lower-case keywords, a type resolves exactly when some
      keyword equals it up to case, and then to that keyword's kind. */
  lemma LookupFindsKeyword(table: Table, typeName: string)
    requires KeysLower(table)
    ensures Lookup(table, typeName).Some? <==> exists k :: k in table && Lower(typeName) == Lower(k)
    ensures forall k :: k in table && Lower(typeName) == Lower(k) ==> Lookup(table, typeName) == Some(table[k])
  {
    forall k | k in table
      ensures Lower(k) == k
    {
      LowerFixesLower(k);
    }
  }

  /** Looking up an already lower-cased type is the same as looking up the type. */
  lemma LookupOfLower(table: Table, typeName: string)
    ensures Lookup(table, Lower(typeName)) == Lookup(table, typeName)
  {
    LowerIdempotent(typeName);
  }

  /** "Deployment", "DEPLOYMENT" and "deployment" all resolve to a Deployment,
      "service" to a Service; an unknown keyword resolves to nothing. */
  lemma KubernetesExamples()
    ensures Lookup(KubernetesTable, "Deployment") == Some(Deployment)
    ensures Lookup(KubernetesTable, "DEPLOYMENT") == Some(Deployment)
    ensures Lookup(KubernetesTable, "deployment") == Some(Deployment)
    ensures Lookup(KubernetesTable, "service") == Some(Service)
    ensures Lookup(KubernetesTable, "bogus") == None
  {
    assert Lower("Deployment") == "deployment";
    assert Lower("DEPLOYMENT") == "deployment";
    assert Lower("deployment") == "deployment";
    assert Lower("service") == "service";
    assert Lower("bogus") == "bogus";
  }
}
