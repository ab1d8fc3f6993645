/** The parity check of the pivot (internal/capi/pivot/pivot.go): one polling round, with the
    early exits and the error variable of the source, against what a round is meant to establish. */
module Parity {

  datatype Lookup = Found | NotFound | Failed

  datatype Claim = Bound | Unbound | NoClaim | ClaimFailed

  datatype VerifySecret = VerifySecret(ns: string, name: string)

  /** What the management cluster answers during one polling round. */
  datatype View = View(
    listOk: bool,
    clusters: set<string>,
    namespaces: map<string, Lookup>,
    secrets: map<VerifySecret, Lookup>,
    deployment: Lookup,
    available: seq<bool>,
    yageSystem: Lookup,
    labeledListOk: bool,
    reposClaim: Claim)

  function Namespace(v: View, ns: string): Lookup {
    if ns in v.namespaces then v.namespaces[ns] else NotFound
  }

  function Secret(v: View, s: VerifySecret): Lookup {
    if s in v.secrets then v.secrets[s] else NotFound
  }

  /** The workload cluster has arrived; an empty name asks for nothing but a readable list. */
  ghost predicate ClusterMoved(workload: string, v: View) {
    v.listOk && (workload != [] ==> workload in v.clusters)
  }

  ghost predicate SecretPresent(v: View, s: VerifySecret) {
    s.ns != [] ==> Namespace(v, s.ns) == Found && (s.name != [] ==> Secret(v, s) == Found)
  }

  ghost predicate SecretsPresent(secrets: seq<VerifySecret>, v: View) {
    forall i :: 0 <= i < |secrets| ==> SecretPresent(v, secrets[i])
  }

  ghost predicate ControllerAvailable(v: View) {
    v.deployment == Found && exists i :: 0 <= i < |v.available| && v.available[i]
  }

  /** All six checks, on the answers of one round. */
  ghost predicate Holds(workload: string, secrets: seq<VerifySecret>, v: View) {
    && ClusterMoved(workload, v)
    && SecretsPresent(secrets, v)
    && ControllerAvailable(v)
    && v.yageSystem == Found
    && v.labeledListOk
    && v.reposClaim == Bound
  }

  // The sub-checks set `failed` where the source sets lastErr.

  method CheckNamespaces(secrets: seq<VerifySecret>, v: View) returns (failed: bool)
    ensures failed <==> exists i :: 0 <= i < |secrets| && secrets[i].ns != [] && Namespace(v, secrets[i].ns) != Found
  {
    failed := false;
    var nsSeen: set<string> := {};
    for i := 0 to |secrets|
      invariant !failed
      invariant forall j :: 0 <= j < i && secrets[j].ns != [] ==> secrets[j].ns in nsSeen
      invariant forall ns :: ns in nsSeen ==> Namespace(v, ns) == Found
    {
      var vs := secrets[i];
      if vs.ns != [] && vs.ns !in nsSeen {
        nsSeen := nsSeen + {vs.ns};
        if Namespace(v, vs.ns) != Found {
          failed := true;
          return;
        }
      }
    }
  }

  method CheckSecrets(secrets: seq<VerifySecret>, v: View) returns (failed: bool)
    ensures failed <==>
      exists i :: 0 <= i < |secrets| && secrets[i].ns != [] && secrets[i].name != [] && Secret(v, secrets[i]) != Found
  {
    failed := false;
    var missing: seq<VerifySecret> := [];
    for i := 0 to |secrets|
      invariant !failed
      invariant missing != [] <==>
        exists j :: 0 <= j < i && secrets[j].ns != [] && secrets[j].name != [] && Secret(v, secrets[j]) != Found
    {
      var vs := secrets[i];
      if vs.ns == [] || vs.name == [] {
        continue;
      }
      match Secret(v, vs) {
        case Found =>
        case NotFound => missing := missing + [vs];
        case Failed =>
          failed := true;
          return;
      }
    }
    failed := missing != [];
  }

  method CheckController(v: View) returns (failed: bool)
    ensures failed <==> !ControllerAvailable(v)
  {
    if v.deployment != Found {
      return true;
    }
    var ok := false;
    for i := 0 to |v.available|
      invariant !ok && forall j :: 0 <= j < i ==> !v.available[j]
    {
      if v.available[i] {
        ok := true;
        break;
      }
    }
    failed := !ok;
  }

  /** One round of the polling loop: each check runs only while no earlier one has failed, and the
      round succeeds exactly when all six hold of the same answers. */
  method CheckRound(workload: string, secrets: seq<VerifySecret>, v: View) returns (ok: bool)
    ensures ok <==> Holds(workload, secrets, v)
    ensures ok <==>
      && v.listOk && (workload == "" || workload in v.clusters)
      && (forall s :: s in secrets && s.ns != "" ==>
            && s.ns in v.namespaces && v.namespaces[s.ns] == Found
            && (s.name == "" || (s in v.secrets && v.secrets[s] == Found)))
      && v.deployment == Found && true in v.available
      && v.yageSystem == Found && v.labeledListOk && v.reposClaim == Bound
  {
    var failed := !v.listOk || (workload != [] && workload !in v.clusters);
    if !failed && |secrets| > 0 {
      failed := CheckNamespaces(secrets, v);
      if !failed {
        failed := CheckSecrets(secrets, v);
      }
      assert failed <==> !SecretsPresent(secrets, v) by {
        assert failed ==> exists i :: 0 <= i < |secrets| && !SecretPresent(v, secrets[i]);
      }
    }
    if !failed {
      failed := CheckController(v);
    }
    if !failed {
      failed := v.yageSystem != Found;
    }
    if !failed {
      failed := !v.labeledListOk;
    }
    if !failed {
      failed := v.reposClaim != Bound;
    }
    ok := !failed;
  }

  /** VerifyParity: the rounds that fit before the deadline, in order. Success is a success of one
      whole round; failures of earlier rounds leave no trace, and no two rounds are combined. */
  method VerifyParity(workload: string, secrets: seq<VerifySecret>, rounds: seq<View>) returns (ok: bool, used: nat)
    ensures used <= |rounds|
    ensures ok <==> exists i :: 0 <= i < |rounds| && Holds(workload, secrets, rounds[i])
    ensures ok ==> used > 0 && Holds(workload, secrets, rounds[used - 1])
    ensures forall i :: 0 <= i < (if ok then used - 1 else used) ==> !Holds(workload, secrets, rounds[i])
    ensures !ok ==> used == |rounds|
  {
    ok, used := false, 0;
    while used < |rounds|
      invariant used <= |rounds| && !ok
      invariant forall i :: 0 <= i < used ==> !Holds(workload, secrets, rounds[i])
    {
      ok := CheckRound(workload, secrets, rounds[used]);
      used := used + 1;
      if ok {
        return;
      }
    }
  }
}
