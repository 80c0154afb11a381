# Apply, readiness wait and repository filesystem helpers, in Dafny

This project models two parts of a GitOps bootstrapping tool.

- **Kube** (`kube.dfy`, from `pkg/kube/helpers.go`) covers the client's `apply` and `wait` helpers.
  - `apply` rejects nil options and nil manifests. It then configures kubectl's apply options: a single stdin file `-`, overwrite on, the local prune flag, a fixed eight-entry prune whitelist, the caller's dry-run strategy, and namespace enforcement when a namespace is set.
  - `wait` keeps a set of pending resources, keyed by object identity. Each poll round runs every pending resource's readiness check once and removes the ones that report ready. The round reports done unless some check returned "not ready". The poll loop runs its first round at once, stops at the first done round, and times out otherwise.
- **Fs** (`fs.dfy`, from `pkg/fs/fs.go`) covers the filesystem helpers used for the repository.
  - `Exists` reads a stat result three ways.
  - `CheckExistsOrWrite` writes a file only if it is absent.
  - `ReadFile` reads a whole file or passes on the error.
  - `ReadYamls` checks the document count, decodes documents into targets, skips nil targets and stops at the first decoding error.
  - `WriteYamls` encodes every object, aborts before writing if any encoding fails, and otherwise makes one write of the joined documents.
- **Base** (`base.dfy`) holds `Option`, `Result`, `Outcome` and bytes.

How the main pieces are represented:

- The filesystem is a class whose `files` field is a table from path to bytes. Two fixed fault maps say where it fails: stat and open fail with an error other than not-exist on `faults.access` paths, and writes fail on `faults.write` paths. A ghost log `writes` records every WriteFile call. Each state-changing method is stated against a function of the old state, such as `CheckExistsOrWriteOf` or `WriteFileOf`. The lemmas are proved about those functions.
- Each readiness check is an oracle from (round number, resource) to `Ready`, `NotReady` or `CheckError`.
- The poll loop's wall-clock timeout is a round budget: `fuel` rounds may follow the first one, and running out of them is `ErrWaitTimeout`.
- A round visits the pending resources in an arbitrary order (`:|`). Its result depends only on the set, so the order makes no difference.
- A YAML decoder is a function from (document, target value) to the target's new value and an optional error. A failing decode may have partly filled its target, so that target keeps whatever the decoder left in it.

Behaviour of the code worth knowing:

- **An erroring check does not make the round "not done".** A round where every remaining check is either ready or erroring reports done, so the wait returns success while resources are still pending. See Findings.
- **The timeout error does not name the pending resources.** It is the poll library's plain timeout error.
- **The context is not checked between rounds.** The code never checks it, so cancellation is not modelled.
- **An empty resource list is not rejected.** Its first round reports done.
- **The namespace check reads the namespace before kubectl completes the options.** The model takes that namespace value as an input and keeps the condition as written. kubectl's option defaults are not part of this model.

## Model

| member | source | states |
|---|---|---|
| `Kube.BuildApplyConfig` | pkg/kube/helpers.go:19-61 | nil options give ErrNilOpts and nil manifests give "no manifests", and both come first; success exactly when both are present, and then filenames are ["-"], overwrite is on, prune equals the flag, the whitelist is the fixed one, the dry-run strategy is the caller's unchanged, and namespace enforcement is on iff the namespace read is non-empty |
| `Kube.KubectlApplyOptions.constructor` | pkg/kube/helpers.go:37 | the options object holds the given namespace; every field apply assigns starts unset |
| `Kube.KubectlApplyOptions.Configure` | pkg/kube/helpers.go:43-61 | after the assignments, filenames are ["-"], overwrite is on, prune is the flag, the whitelist is the fixed eight entries, the dry-run strategy is the argument, and enforcement is turned on when the namespace is non-empty and otherwise left as it was |
| `Kube.Apply` | pkg/kube/helpers.go:19-87 | apply's result is the configuration BuildApplyConfig gives with the local prune flag false, which no parsed flag ever changes; so pruning is never on |
| `Kube.IngressNeverWhitelisted` | pkg/kube/helpers.go:46-56 | no Ingress of any API group or version is on the prune whitelist |
| `Kube.PruneOnlyWhitelistedKinds` | pkg/kube/helpers.go:45-56 | a kind may be pruned under a built configuration iff pruning is on and its group/version/kind string is on the whitelist; an Ingress never may |
| `Kube.ApplyNeverPrunes` | pkg/kube/helpers.go:84-87 | with the prune flag at its default, no kind is ever a prune candidate |
| `Kube.ResourceSet` | pkg/kube/helpers.go:100-103 | every listed resource is pending and nothing else is; entries are distinct objects, so there are never more of them than the list is long |
| `Kube.Waiter.constructor` | pkg/kube/helpers.go:98-103 | the pending set is exactly the set of resource objects given, by identity, and the round counter starts at 0 |
| `Kube.Step` | pkg/kube/helpers.go:109-129 | a round's new pending set is a subset of the old one and keeps exactly the resources whose check did not report ready |
| `Kube.RoundDone` | pkg/kube/helpers.go:107-131 | a round reports done iff every resource it leaves pending errored in that round, and a round over an empty set reports done |
| `Kube.ErroredCheckIsNeutral` | pkg/kube/helpers.go:116-120 | a resource whose check errors stays pending and does not change whether the round reports done |
| `Kube.Waiter.PollRound` | pkg/kube/helpers.go:105-131 | one round increments the counter, leaves pending equal to the old pending minus exactly the resources that reported ready, and reports done iff no check returned (false, nil), whatever order the resources are visited in |
| `Kube.Poll` | pkg/kube/helpers.go:105-132 | the poll loop ends in success or ErrWaitTimeout only, never any other error; it runs at least one round and at most fuel + 1; a timeout happens only after all of them |
| `Kube.PollStopsAtFirstDone` | pkg/kube/helpers.go:105-132 | a successful poll loop stops at the first round that reports done: its last round reports done and no earlier round did |
| `Kube.PendingAfter` | pkg/kube/helpers.go:109-129 | the pending set after any number of rounds is a subset of the initial set |
| `Kube.PendingAfterMonotone` | pkg/kube/helpers.go:109-129 | the pending set never grows from round to round, in members or in size |
| `Kube.PollSucceedsIff` | pkg/kube/helpers.go:105-132 | the poll loop succeeds iff one of the rounds it may run (the first or one of the fuel further ones) reports done on what was still pending |
| `Kube.EmptiedPendingSucceeds` | pkg/kube/helpers.go:107-131 | once the pending set is empty within the budget, the next round reports done vacuously and the wait succeeds |
| `Kube.Wait` | pkg/kube/helpers.go:92-133 | a clientset error is returned unchanged and no round runs; otherwise the outcome and the number of rounds are those of the poll loop over the caller's resources, so on success the rounds run end at the first round that reported done |
| `Kube.ErroredCheckEndsWait` | pkg/kube/helpers.go:116-122 | as written, one resource whose first check errors makes the wait succeed in round 1 while it is still pending |
| `Kube.IntendedRoundDoneIffEmptied` | pkg/kube/helpers.go:116-124 | with errors counting as not ready, a round reports done iff it leaves nothing pending, and it never reports done when the code as written would not |
| `Kube.CorrectedPoll` | pkg/kube/helpers.go:105-132 | with errors counting as not ready, the poll loop still ends only in success or ErrWaitTimeout within fuel + 1 rounds, and it succeeds only when nothing is left pending after its last round |
| `Fs.FileSystem.constructor` | pkg/fs/fs.go:46-48 | the filesystem holds the given table and fault maps, and no write has been made |
| `Fs.Stat` | pkg/fs/fs.go:68 | stat succeeds iff the file is present and reachable; it fails with not-exist iff the file is absent and reachable |
| `Fs.ClassifyStat` | pkg/fs/fs.go:67-77 | a successful stat gives (true, nil), a not-exist error gives (false, nil), and any other error gives (false, err) with that same error |
| `Fs.FileSystem.Exists` | pkg/fs/fs.go:67-77 | over the file table: true for a reachable present file, false for a reachable absent one, and the access error otherwise |
| `Fs.WriteFileOf` | pkg/fs/fs.go:60 | a write either stores data at the path and changes nothing else, or fails and leaves the table as it was |
| `Fs.FileSystem.WriteFile` | pkg/fs/fs.go:60 | a write call is logged once and updates the table as WriteFileOf says |
| `Fs.FileSystem.CheckExistsOrWrite` | pkg/fs/fs.go:50-65 | the result flag, the error, the new table and the write log are those CheckExistsOrWriteOf gives for the old table; the log grows by one write only when the file was absent |
| `Fs.CheckExistsOrWriteOf` | pkg/fs/fs.go:50-65 | a file that existed gives (true, nil) with no write; a write is made iff the file was absent and reachable; without a write the table is unchanged; on success the file is present, holding data if it was written; no other path changes |
| `Fs.CheckExistsOrWriteExisting` | pkg/fs/fs.go:56-58 | on an existing file the result is (true, nil), the table is unchanged, and no write is made |
| `Fs.CheckExistsOrWriteAbsent` | pkg/fs/fs.go:60-64 | on an absent file, data is written at filename and the result is (false, nil), or a failing write gives a wrapped error and leaves the table unchanged; no other path changes |
| `Fs.CheckExistsOrWriteStatFails` | pkg/fs/fs.go:51-54 | a failing existence check gives (false, wrapped error) and nothing is written |
| `Fs.CheckExistsOrWriteIdempotent` | pkg/fs/fs.go:50-65 | after an error-free call, a second call with the same filename and any data returns (true, nil) and changes nothing |
| `Fs.FileSystem.ReadFile` | pkg/fs/fs.go:85-93 | the whole content of a reachable present file; otherwise the open error, unchanged |
| `Fs.FirstDecodeFailure` | pkg/fs/fs.go:106-115 | the index at which decoding stops: every earlier non-nil target decodes, and the target at that index (if any) fails |
| `Fs.DecodedUpTo` | pkg/fs/fs.go:106-115 | after n documents, each non-nil target before n holds what decoding document i into it left, whether or not that decode failed; nil targets and targets from n on are untouched |
| `Fs.FileSystem.ReadYamls` | pkg/fs/fs.go:95-118 | a read error propagates unchanged and fewer documents than targets is an error, neither touching any target; otherwise targets are decoded up to and including the first decoding error, which is returned; the failing target holds what the decoder left in it and later targets are untouched |
| `Fs.MarshalAll` | pkg/fs/fs.go:122-128 | on success, one encoding per object, in argument order; on failure, the error of an object that failed after all before it encoded |
| `Fs.MarshalAllSucceeds` | pkg/fs/fs.go:122-128 | when every object encodes, the result is exactly their encodings in order |
| `Fs.MarshalAllFails` | pkg/fs/fs.go:123-127 | when object i is the first to fail, the result is its error |
| `Fs.FileSystem.WriteYamls` | pkg/fs/fs.go:120-132 | if any encoding fails, its error is returned with no write and an unchanged table; otherwise exactly one write, of the joined encodings in argument order, whose outcome is returned |

## Left out

- The kubectl run: `NewApplyOptions` defaults, `Complete`, `Run` and the cobra command and flag wiring are foreign library calls.
- Kube.Apply: returns the fields `apply` assigns before `o.Complete` (pkg/kube/helpers.go:63), not the run's error. Complete may reassign `DryRunStrategy`, `Namespace` and `EnforceNamespace` before `Run`, and that is not modelled.
- Kube.Wait: takes a sequence of non-null resource references. So two panics are not modelled: a nil options pointer (pkg/kube/helpers.go:101) and a nil entry in the resource list, which the first round reaches at line 112. Unlike `apply`, `wait` guards neither.
- The stdin redirection that feeds the manifests to kubectl and the goroutine that writes them. This is process-wide I/O and concurrency.
- The poll interval and timeout as wall-clock durations. They become the round budget `fuel`.
- The bodies of readiness checks, which the caller supplies and which get the clientset and context. They are an oracle over (round, resource).
- Debug logging, and the clientset beyond its error result.
- The context passed to `wait`. The code only logs with it and passes it to the checks.
- YAML marshalling and unmarshalling, and manifest splitting and joining. They are caller-supplied functions.
- Permissions, file handles, `Close`, and a read that fails after the open succeeded. A failing write is modelled as leaving the table unchanged, not as leaving a truncated file.
- Aliasing between ReadYamls targets. Go's targets are pointers that may coincide; the model's targets are array slots.
- `ExistsOrDie`, which panics on error.

## Findings

| source | as written | input that shows it | evidently intended | confidence | as-written member | corrected member |
|---|---|---|---|---|---|---|
| pkg/kube/helpers.go:116-122 | a check that returns an error skips the resource with `continue` before `allReady` is cleared, so it does not stop the round from reporting done | one resource whose readiness check errors in the first round: the wait returns success after one round although the resource was never ready | an erroring check counts as not ready (it is logged as "resource not ready"), so the wait succeeds only once nothing is pending | medium; not executed | `Kube.ErroredCheckEndsWait` | `Kube.CorrectedPoll` |

The corrected round verdict is `Kube.IntendedRoundDone`. `Kube.IntendedRoundDoneIffEmptied` proves that it reports done exactly when the round leaves nothing pending, and never where the written verdict would not. `Kube.CorrectedPoll` is the poll loop built on it. `Kube.Wait` and `Kube.Waiter.PollRound` keep the code as written, because the model is of what the repository does.
