/** EnsureManagementCluster (internal/capi/pivot/pivot.go): while the manifest of the management
    cluster is applied, the configuration points at it, and afterwards, however the calls go, at
    what it pointed at before. */
module ManagementCluster {
  import opened Wrappers

  /** How the external calls answer; `apply` by the number of the attempt. */
  datatype World = World(
    context: bool, render: Option<string>, labels: bool, apply: nat -> bool,
    client: bool, helm: bool, available: bool, kubeconfig: Option<string>)

  datatype Result = Disabled | Failed | Ready(kubeconfig: string)

  /** One attempt to apply, with the manifest the configuration pointed at. */
  datatype Attempt = Attempt(manifest: string, ok: bool)

  /** The attempts: up to three, the last one at the first success. */
  function Attempts(w: World, manifest: string, from: nat): (a: seq<Attempt>)
    requires 1 <= from <= 4
    decreases 4 - from
  {
    if from == 4 then []
    else if w.apply(from) then [Attempt(manifest, true)]
    else [Attempt(manifest, false)] + Attempts(w, manifest, from + 1)
  }

  /** Up to which step the calls get. */
  predicate Prepared(w: World) { w.context && w.render.Some? && w.labels }

  predicate Applied(w: World) { Prepared(w) && exists k: nat :: 1 <= k <= 3 && w.apply(k) }

  predicate Reached(w: World) { Applied(w) && w.client && w.helm && w.available && w.kubeconfig.Some? }

  class Installer {
    const enabled: bool
    var capiManifest: string
    ghost var attempts: seq<Attempt>

    method EnsureManagementCluster(w: World) returns (r: Result)
      modifies `capiManifest, `attempts
      ensures capiManifest == old(capiManifest)
      ensures r == if !enabled then Disabled else if Reached(w) then Ready(w.kubeconfig.value) else Failed
      ensures attempts == old(attempts) + if enabled && Prepared(w) then Attempts(w, w.render.value, 1) else []
    {
      if !enabled {
        return Disabled;
      }
      if !w.context || w.render.None? || !w.labels {
        return Failed;
      }
      var applied := ApplyManifest(w, w.render.value);
      if !applied {
        return Failed;
      }
      if !w.client || !w.helm {
        return Failed;
      }
      // Patching the labels of the live object may fail; that is only logged.
      if !w.available || w.kubeconfig.None? {
        return Failed;
      }
      return Ready(w.kubeconfig.value);
    }

    method ApplyManifest(w: World, manifest: string) returns (ok: bool)
      modifies `capiManifest, `attempts
      ensures capiManifest == old(capiManifest)
      ensures ok <==> exists k: nat :: 1 <= k <= 3 && w.apply(k)
      ensures attempts == old(attempts) + Attempts(w, manifest, 1)
    {
      var saved := capiManifest;
      capiManifest := manifest;
      var attempt := 1;
      while attempt <= 3
        invariant 1 <= attempt <= 3 && capiManifest == manifest
        invariant forall k: nat :: 1 <= k < attempt ==> !w.apply(k)
        invariant attempts + Attempts(w, manifest, attempt) == old(attempts) + Attempts(w, manifest, 1)
      {
        var done := w.apply(attempt);
        attempts := attempts + [Attempt(capiManifest, done)];
        if done {
          break;
        }
        if attempt == 3 {
          capiManifest := saved;
          return false;
        }
        attempt := attempt + 1;
      }
      capiManifest := saved;
      return true;
    }
  }

  /** At least one and at most three attempts, every one with the management manifest in place, and
      only the last one can have succeeded. */
  lemma {:induction false} AttemptsAre(w: World, manifest: string, from: nat)
    requires 1 <= from <= 3
    ensures var a := Attempts(w, manifest, from);
      && 1 <= |a| <= 4 - from
      && (forall i :: 0 <= i < |a| ==> a[i].manifest == manifest)
      && (forall i :: 0 <= i < |a| - 1 ==> !a[i].ok)
      && (a[|a| - 1].ok <==> exists k: nat :: from <= k <= 3 && w.apply(k))
      && (!a[|a| - 1].ok ==> |a| == 4 - from)
    decreases 4 - from
  {
    if from < 3 && !w.apply(from) {
      AttemptsAre(w, manifest, from + 1);
    }
  }
}
