/**
 * The cluster client's two helpers: `apply`, which configures kubectl's
 * apply command for a manifest stream, and `wait`, which polls readiness
 * checks over a set of resources until every one of them reports ready.
 */
module Kube {
  import opened Base

  datatype KubeError =
    | ErrNilOpts                      // the options pointer was nil
    | ErrNoManifests                  // "no manifests"
    | ErrWaitTimeout                  // the poll loop ran out of rounds
    | ClientSetFailed(reason: string) // obtaining the Kubernetes clientset failed

  // ---------------------------------------------------------------------
  // apply
  // ---------------------------------------------------------------------

  /** Dry-run levels of kubectl: none, client-side, server-side. */
  datatype DryRunStrategy = DryRunNone | DryRunClient | DryRunServer

  /** The caller's ApplyOptions; a nil Manifests slice is `None`. */
  datatype ApplyOptions = ApplyOptions(manifests: Option<Bytes>, dryRunStrategy: DryRunStrategy)

  /**
   * The settings `apply` assigns on kubectl's apply options before it calls
   * kubectl's Complete, which may still reassign some of them.
   */
  datatype ApplyConfig = ApplyConfig(
    filenames: seq<string>,
    overwrite: bool,
    prune: bool,
    pruneWhitelist: seq<string>,
    dryRunStrategy: DryRunStrategy,
    enforceNamespace: bool)

  /** A group/version/kind triple as kubectl's prune whitelist spells it. */
  datatype Gvk = Gvk(group: string, version: string, kind: string)

  function GvkString(g: Gvk): string {
    g.group + "/" + g.version + "/" + g.kind
  }

  /** The fixed prune whitelist; the Ingress entry is commented out in the source. */
  const PruneWhitelist: seq<string> := [
    "/v1/ConfigMap",
    "/v1/PersistentVolumeClaim",
    "/v1/Secret",
    "/v1/Service",
    "/v1/ServiceAccount",
    "apps/v1/DaemonSet",
    "apps/v1/Deployment",
    "batch/v1beta1/CronJob"
  ]

  /** No Ingress, of any API group or version, is ever on the prune whitelist. */
  lemma IngressNeverWhitelisted(group: string, version: string)
    ensures GvkString(Gvk(group, version, "Ingress")) !in PruneWhitelist
  {
    var s := GvkString(Gvk(group, version, "Ingress"));
    var tail := "/Ingress";
    assert s[|s| - 8..] == tail;
  }

  /**
   * kubectl's apply options object: the fields `apply` assigns by hand. The
   * namespace is the one the object holds when `apply` reads it, before
   * kubectl completes the options.
   */
  class KubectlApplyOptions {
    var filenames: seq<string>
    var overwrite: bool
    var prune: bool
    var pruneWhitelist: seq<string>
    var dryRunStrategy: DryRunStrategy
    var enforceNamespace: bool
    const namespace: string

    /** Stands for kubectl's NewApplyOptions; its defaults are not part of this model. */
    constructor (namespace: string)
      ensures this.namespace == namespace
      ensures filenames == [] && !overwrite && !prune && pruneWhitelist == []
      ensures dryRunStrategy == DryRunNone && !enforceNamespace
    {
      this.namespace := namespace;
      filenames, overwrite, prune, pruneWhitelist := [], false, false, [];
      dryRunStrategy, enforceNamespace := DryRunNone, false;
    }

    function Config(): ApplyConfig
      reads this
    {
      ApplyConfig(filenames, overwrite, prune, pruneWhitelist, dryRunStrategy, enforceNamespace)
    }

    /** The assignments the apply command makes before completing the options. */
    method Configure(pruneFlag: bool, dryRun: DryRunStrategy)
      modifies this
      ensures filenames == ["-"] && overwrite && prune == pruneFlag
      ensures pruneWhitelist == PruneWhitelist && dryRunStrategy == dryRun
      ensures enforceNamespace == (old(enforceNamespace) || namespace != "")
    {
      filenames := ["-"];
      overwrite := true;
      prune := pruneFlag;
      pruneWhitelist := PruneWhitelist;
      dryRunStrategy := dryRun;
      if namespace != "" {
        enforceNamespace := true;
      }
    }
  }

  /**
   * The fields `apply` assigns on kubectl's apply options for options
   * `opts`, the value of the local prune flag and the namespace read before
   * completion; the nil guards come first.
   */
  function BuildApplyConfig(opts: Option<ApplyOptions>, pruneFlag: bool, namespace: string): (r: Result<ApplyConfig, KubeError>)
    ensures opts.None? ==> r == Failure(ErrNilOpts)
    ensures opts.Some? && opts.value.manifests.None? ==> r == Failure(ErrNoManifests)
    ensures r.Success? <==> opts.Some? && opts.value.manifests.Some?
    ensures r.Success? ==> r.value.filenames == ["-"] && r.value.overwrite
    ensures r.Success? ==> r.value.prune == pruneFlag && r.value.pruneWhitelist == PruneWhitelist
    ensures r.Success? ==> r.value.dryRunStrategy == opts.value.dryRunStrategy
    ensures r.Success? ==> (r.value.enforceNamespace <==> namespace != "")
  {
    if opts.None? then Failure(ErrNilOpts)
    else if opts.value.manifests.None? then Failure(ErrNoManifests)
    else Success(ApplyConfig(["-"], true, pruneFlag, PruneWhitelist, opts.value.dryRunStrategy, namespace != ""))
  }

  /** A live object of kind `g` may be deleted by pruning under `cfg`. */
  predicate PruneCandidate(cfg: ApplyConfig, g: Gvk) {
    cfg.prune && GvkString(g) in cfg.pruneWhitelist
  }

  /**
   * Under any configuration `apply` builds, a kind is a prune candidate
   * exactly when pruning is on and the kind is on the fixed whitelist; an
   * Ingress never is.
   */
  lemma PruneOnlyWhitelistedKinds(opts: Option<ApplyOptions>, pruneFlag: bool, namespace: string, g: Gvk)
    requires BuildApplyConfig(opts, pruneFlag, namespace).Success?
    ensures PruneCandidate(BuildApplyConfig(opts, pruneFlag, namespace).value, g) <==>
      pruneFlag && GvkString(g) in PruneWhitelist
    ensures g.kind == "Ingress" ==> !PruneCandidate(BuildApplyConfig(opts, pruneFlag, namespace).value, g)
  {
    if g.kind == "Ingress" {
      IngressNeverWhitelisted(g.group, g.version);
    }
  }

  /**
   * `apply`: the nil guards, then the apply options configured with the
   * local prune flag (false: no flag is ever parsed) and the caller's
   * dry-run strategy. Completing and running kubectl are not part of this
   * model; the result is the fields `apply` assigns before kubectl's
   * Complete, which may reassign some of them.
   */
  method Apply(opts: Option<ApplyOptions>, namespace: string) returns (r: Result<ApplyConfig, KubeError>)
    ensures r == BuildApplyConfig(opts, false, namespace)
    ensures r.Success? ==> !r.value.prune
  {
    if opts.None? {
      return Failure(ErrNilOpts);
    }
    if opts.value.manifests.None? {
      return Failure(ErrNoManifests);
    }
    var prune := false;
    var o := new KubectlApplyOptions(namespace);
    o.Configure(prune, opts.value.dryRunStrategy);
    r := Success(o.Config());
  }

  /** Since `apply` never turns pruning on, nothing is ever a prune candidate. */
  lemma ApplyNeverPrunes(opts: Option<ApplyOptions>, namespace: string, g: Gvk)
    requires BuildApplyConfig(opts, false, namespace).Success?
    ensures !PruneCandidate(BuildApplyConfig(opts, false, namespace).value, g)
  {
  }

  // ---------------------------------------------------------------------
  // wait
  // ---------------------------------------------------------------------

  /** A watched object. The set of pending resources is keyed by the reference, not by name. */
  class ResourceInfo {
    const name: string
    const namespace: string

    constructor (name: string, namespace: string)
      ensures this.name == name && this.namespace == namespace
    {
      this.name := name;
      this.namespace := namespace;
    }
  }

  /** What a readiness check returned: (true, nil), (false, nil), or an error. */
  datatype CheckOutcome = Ready | NotReady | CheckError(reason: string)

  /** The caller's readiness checks, as an oracle indexed by poll round and resource. */
  type ReadinessCheck = (nat, ResourceInfo) -> CheckOutcome

  /**
   * The pending set filled from the caller's list: one entry per distinct
   * object, so a resource listed twice is waited for once.
   */
  function ResourceSet(resources: seq<ResourceInfo>): (s: set<ResourceInfo>)
    ensures forall r :: r in s ==> r in resources
    ensures forall i :: 0 <= i < |resources| ==> resources[i] in s
    ensures |s| <= |resources|
  {
    if resources == [] then {}
    else
      var init, last := resources[..|resources| - 1], resources[|resources| - 1];
      assert resources == init + [last];
      ResourceSet(init) + {last}
  }

  /** The pending resources whose check in round `round` reports ready. */
  function ReadyIn(p: set<ResourceInfo>, round: nat, check: ReadinessCheck): set<ResourceInfo> {
    set r | r in p && check(round, r) == Ready
  }

  /** The pending set after round `round`: exactly the ready resources leave it. */
  function Step(p: set<ResourceInfo>, round: nat, check: ReadinessCheck): (q: set<ResourceInfo>)
    ensures q <= p
    ensures forall r :: r in p ==> (r in q <==> check(round, r) != Ready)
  {
    p - ReadyIn(p, round, check)
  }

  /**
   * What a round over `p` reports: done unless some check returned
   * (false, nil). An erroring check does not clear it.
   */
  predicate RoundDone(p: set<ResourceInfo>, round: nat, check: ReadinessCheck): (done: bool)
    ensures done <==> forall r :: r in Step(p, round, check) ==> check(round, r).CheckError?
    ensures p == {} ==> done
  {
    forall r :: r in p ==> check(round, r) != NotReady
  }

  /** An erroring check neither removes its resource nor changes what the round reports. */
  lemma ErroredCheckIsNeutral(p: set<ResourceInfo>, round: nat, check: ReadinessCheck, r: ResourceInfo)
    requires r in p && check(round, r).CheckError?
    ensures r in Step(p, round, check)
    ensures RoundDone(p, round, check) == RoundDone(p - {r}, round, check)
  {
  }

  /** The poll loop's state: the pending set and the round counter. */
  class Waiter {
    var pending: set<ResourceInfo>
    var itr: nat

    /** The map of pending resources, filled from the caller's list. */
    constructor (resources: seq<ResourceInfo>)
      ensures pending == ResourceSet(resources) && itr == 0
    {
      var s: set<ResourceInfo> := {};
      for i := 0 to |resources|
        invariant s == ResourceSet(resources[..i])
      {
        assert resources[..i + 1][..i] == resources[..i];
        s := s + {resources[i]};
      }
      assert resources[..|resources|] == resources;
      pending := s;
      itr := 0;
    }

    /**
     * One poll round: bump the counter, run every pending resource's check
     * once, in no particular order, and drop the ready ones.
     */
    method PollRound(check: ReadinessCheck) returns (done: bool)
      modifies this
      ensures itr == old(itr) + 1
      ensures pending == Step(old(pending), itr, check)
      ensures done == RoundDone(old(pending), itr, check)
    {
      itr := itr + 1;
      var allReady := true;
      var unvisited := pending;
      while unvisited != {}
        invariant unvisited <= old(pending)
        invariant itr == old(itr) + 1
        invariant pending == old(pending) - ReadyIn(old(pending) - unvisited, itr, check)
        invariant allReady == RoundDone(old(pending) - unvisited, itr, check)
        decreases unvisited
      {
        var r :| r in unvisited;
        unvisited := unvisited - {r};
        var outcome := check(itr, r);
        if outcome.CheckError? {
          continue;
        }
        if outcome == NotReady {
          allReady := false;
          continue;
        }
        pending := pending - {r};
      }
      done := allReady;
    }
  }

  /** How a poll loop ended, and the number of the last round it ran. */
  datatype PollResult = PollResult(outcome: Outcome<KubeError>, lastRound: nat)

  /**
   * The poll loop from pending set `p` after `itr` rounds: a round runs at
   * once; the loop stops when a round reports done, and after `fuel` further
   * rounds without one it times out.
   */
  function Poll(p: set<ResourceInfo>, itr: nat, fuel: nat, check: ReadinessCheck): (r: PollResult)
    ensures r.outcome == Pass || r.outcome == Fail(ErrWaitTimeout)
    ensures itr < r.lastRound <= itr + fuel + 1
    ensures r.outcome.Fail? ==> r.lastRound == itr + fuel + 1
    decreases fuel
  {
    var round := itr + 1;
    if RoundDone(p, round, check) then PollResult(Pass, round)
    else if fuel == 0 then PollResult(Fail(ErrWaitTimeout), round)
    else Poll(Step(p, round, check), round, fuel - 1, check)
  }

  /** The pending set after `k` rounds that follow round `start`. */
  function PendingAfter(p: set<ResourceInfo>, start: nat, k: nat, check: ReadinessCheck): (q: set<ResourceInfo>)
    ensures q <= p
    decreases k
  {
    if k == 0 then p else Step(PendingAfter(p, start, k - 1, check), start + k, check)
  }

  lemma {:induction false} PendingAfterShift(p: set<ResourceInfo>, start: nat, k: nat, check: ReadinessCheck)
    ensures PendingAfter(p, start, k + 1, check) == PendingAfter(Step(p, start + 1, check), start + 1, k, check)
    decreases k
  {
    if k > 0 {
      PendingAfterShift(p, start, k - 1, check);
    }
  }

  /** The pending set never grows: later rounds leave a subset of earlier ones. */
  lemma {:induction false} PendingAfterMonotone(p: set<ResourceInfo>, start: nat, k: nat, k': nat, check: ReadinessCheck)
    requires k <= k'
    ensures PendingAfter(p, start, k', check) <= PendingAfter(p, start, k, check)
    ensures |PendingAfter(p, start, k', check)| <= |PendingAfter(p, start, k, check)|
    decreases k' - k
  {
    if k < k' {
      PendingAfterMonotone(p, start, k, k' - 1, check);
      assert PendingAfter(p, start, k', check) <= PendingAfter(p, start, k' - 1, check);
    }
    SubsetCardinality(PendingAfter(p, start, k', check), PendingAfter(p, start, k, check));
  }

  lemma SubsetCardinality<T>(a: set<T>, b: set<T>)
    requires a <= b
    ensures |a| <= |b|
  {
    assert b == a + (b - a);
  }

  /** Round `itr + k + 1`, run on what `k` earlier rounds after round `itr` left pending, reports done. */
  predicate DoneAt(p: set<ResourceInfo>, itr: nat, k: nat, check: ReadinessCheck) {
    RoundDone(PendingAfter(p, itr, k, check), itr + k + 1, check)
  }

  /**
   * The poll loop succeeds exactly when one of the rounds it may run, the
   * first or any of the `fuel` further ones, reports done.
   */
  lemma {:induction false} PollSucceedsIff(p: set<ResourceInfo>, itr: nat, fuel: nat, check: ReadinessCheck)
    ensures Poll(p, itr, fuel, check).outcome == Pass <==> exists k :: 0 <= k <= fuel && DoneAt(p, itr, k, check)
    decreases fuel
  {
    var round := itr + 1;
    assert PendingAfter(p, itr, 0, check) == p;
    if RoundDone(p, round, check) {
      assert DoneAt(p, itr, 0, check);
    } else if fuel == 0 {
      assert !DoneAt(p, itr, 0, check);
    } else {
      var q := Step(p, round, check);
      PollSucceedsIff(q, round, fuel - 1, check);
      forall k | 0 <= k < fuel
        ensures DoneAt(p, itr, k + 1, check) == DoneAt(q, round, k, check)
      {
        PendingAfterShift(p, itr, k, check);
      }
      if Poll(p, itr, fuel, check).outcome == Pass {
        var k :| 0 <= k <= fuel - 1 && DoneAt(q, round, k, check);
        assert DoneAt(p, itr, k + 1, check);
      }
      if exists k :: 0 <= k <= fuel && DoneAt(p, itr, k, check) {
        var k :| 0 <= k <= fuel && DoneAt(p, itr, k, check);
        assert k != 0;
        assert DoneAt(q, round, k - 1, check);
      }
    }
  }

  /**
   * A successful poll loop stops at the first round that reports done: its
   * last round reports done and no earlier one did.
   */
  lemma {:induction false} PollStopsAtFirstDone(p: set<ResourceInfo>, itr: nat, fuel: nat, check: ReadinessCheck)
    ensures var r := Poll(p, itr, fuel, check);
      r.outcome == Pass ==>
        DoneAt(p, itr, r.lastRound - itr - 1, check) &&
        forall k :: 0 <= k < r.lastRound - itr - 1 ==> !DoneAt(p, itr, k, check)
    decreases fuel
  {
    var round := itr + 1;
    assert PendingAfter(p, itr, 0, check) == p;
    if !RoundDone(p, round, check) && fuel > 0 {
      var q := Step(p, round, check);
      PollStopsAtFirstDone(q, round, fuel - 1, check);
      var r := Poll(q, round, fuel - 1, check);
      if r.outcome == Pass {
        var m := r.lastRound - round - 1;
        PendingAfterShift(p, itr, m, check);
        forall k | 0 <= k < m + 1
          ensures !DoneAt(p, itr, k, check)
        {
          if k > 0 {
            PendingAfterShift(p, itr, k - 1, check);
            assert !DoneAt(q, round, k - 1, check);
          } else {
            assert !RoundDone(p, round, check);
          }
        }
      }
    }
  }

  /** Once the pending set is empty, the next round reports done, so the loop succeeds. */
  lemma EmptiedPendingSucceeds(p: set<ResourceInfo>, itr: nat, k: nat, fuel: nat, check: ReadinessCheck)
    requires k <= fuel && PendingAfter(p, itr, k, check) == {}
    ensures Poll(p, itr, fuel, check).outcome == Pass
  {
    assert DoneAt(p, itr, k, check);
    PollSucceedsIff(p, itr, fuel, check);
  }

  /**
   * `wait`: if obtaining the clientset fails its error is returned and no
   * round runs; otherwise the poll loop over the caller's resources.
   * `rounds` is the number of the last round run: on success the first
   * round that reported done (PollStopsAtFirstDone).
   */
  method Wait(clientSet: Outcome<KubeError>, resources: seq<ResourceInfo>, fuel: nat, check: ReadinessCheck)
    returns (r: Outcome<KubeError>, rounds: nat)
    ensures clientSet.Fail? ==> r == clientSet && rounds == 0
    ensures clientSet.Pass? ==> PollResult(r, rounds) == Poll(ResourceSet(resources), 0, fuel, check)
  {
    if clientSet.Fail? {
      return clientSet, 0;
    }
    ghost var p0 := ResourceSet(resources);
    var w := new Waiter(resources);
    var left := fuel;
    var done := w.PollRound(check);
    while !done && left > 0
      invariant Poll(p0, 0, fuel, check) ==
        if done then PollResult(Pass, w.itr)
        else if left == 0 then PollResult(Fail(ErrWaitTimeout), w.itr)
        else Poll(w.pending, w.itr, left - 1, check)
      decreases left
    {
      done := w.PollRound(check);
      left := left - 1;
    }
    r := if done then Pass else Fail(ErrWaitTimeout);
    rounds := w.itr;
  }

  // ---------------------------------------------------------------------
  // The erroring-check case, as written and as intended
  // ---------------------------------------------------------------------

  /**
   * As written, a single resource whose first check errors ends the wait at
   * once with success although it is still pending.
   */
  lemma ErroredCheckEndsWait(r: ResourceInfo, fuel: nat, check: ReadinessCheck)
    requires check(1, r).CheckError?
    ensures Poll({r}, 0, fuel, check) == PollResult(Pass, 1)
    ensures PendingAfter({r}, 0, 1, check) == {r}
  {
  }

  /**
   * The evidently intended round verdict: an erroring check counts as not
   * ready, so a round reports done exactly when it leaves nothing pending.
   */
  predicate IntendedRoundDone(p: set<ResourceInfo>, round: nat, check: ReadinessCheck) {
    forall r :: r in p ==> check(round, r) == Ready
  }

  lemma IntendedRoundDoneIffEmptied(p: set<ResourceInfo>, round: nat, check: ReadinessCheck)
    ensures IntendedRoundDone(p, round, check) <==> Step(p, round, check) == {}
    ensures IntendedRoundDone(p, round, check) ==> RoundDone(p, round, check)
  {
  }

  /**
   * The poll loop with the intended round verdict: it succeeds only once
   * every resource has been reported ready, so nothing is left pending after
   * its last round.
   */
  function CorrectedPoll(p: set<ResourceInfo>, itr: nat, fuel: nat, check: ReadinessCheck): (r: PollResult)
    ensures r.outcome == Pass || r.outcome == Fail(ErrWaitTimeout)
    ensures itr < r.lastRound <= itr + fuel + 1
    ensures r.outcome == Pass ==> PendingAfter(p, itr, r.lastRound - itr, check) == {}
    decreases fuel
  {
    var round := itr + 1;
    if IntendedRoundDone(p, round, check) then
      assert PendingAfter(p, itr, 1, check) == Step(p, round, check);
      PollResult(Pass, round)
    else if fuel == 0 then PollResult(Fail(ErrWaitTimeout), round)
    else
      var r := CorrectedPoll(Step(p, round, check), round, fuel - 1, check);
      PendingAfterShift(p, itr, r.lastRound - round, check);
      r
  }
}
