/** The four labels that both label patches write (internal/capi/caaph/caaph.go and
    internal/capi/pivot/manifest.go). */
module HelmLabels {
  import opened Labels

  const HOST := ".cilium.k8s-service-host"
  const PORT := ".cilium.k8s-service-port"
  const ID := ".cilium.cluster-id"

  /** The host and the identifier may be empty; the port has a default. */
  function ClusterLabels(id: string, host: string, port: string): (lbls: seq<Label>) {
    [Label(CAAPH, ENABLED), Label(CAAPH + ID, id), Label(CAAPH + HOST, host),
     Label(CAAPH + PORT, if port == "" then "6443" else port)]
  }

  lemma GoodSuffix(s: string)
    requires ':' !in s
    ensures GoodKey(CAAPH + s)
  {}

  lemma OtherKey(a: string, b: string)
    requires a != b
    ensures CAAPH + a != CAAPH + b
  {
    assert (CAAPH + a)[|CAAPH|..] == a && (CAAPH + b)[|CAAPH|..] == b;
  }

  /** They are label names without repetitions, so the theorems about label patches hold for them,
      whatever the configuration says. */
  lemma ClusterLabelsAreKeys(id: string, host: string, port: string)
    ensures Keys(ClusterLabels(id, host, port))
  {
    hide GoodKey;
    assert CAAPH + "" == CAAPH;
    GoodSuffix("");
    GoodSuffix(ID);
    GoodSuffix(HOST);
    GoodSuffix(PORT);
    assert HOST[|HOST| - 4] != PORT[|PORT| - 4] && |ID| != |HOST| && |ID| != |PORT|;
    OtherKey("", ID);
    OtherKey("", HOST);
    OtherKey("", PORT);
    OtherKey(ID, HOST);
    OtherKey(ID, PORT);
    OtherKey(HOST, PORT);
  }
}
