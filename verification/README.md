# KubeOne, modelled and proved in Dafny

KubeOne installs and upgrades Kubernetes clusters over SSH and keeps their addons applied. This
project models the parts of it whose correctness is hard to see from the code, and proves what they
promise. `dafny verify dfyconfig.toml` checks everything.

| part | files | main theorems |
|---|---|---|
| Addon apply with pruning and an inventory | `strings`, `inventory`, `manifest`, `api_server`, `apply_spec`, `applier`, `apply_history`, `apply_plain`, `apply_witness` | `InventoryAlwaysCovers`, `SuccessLeavesTheManifest`, `ReapplyPrunesNothing`, `DeletesOnlyStale`, `DryRunPredicts`, and the exact conditions `InventoryRoundTrip`, `PrunesItsOwnObject`, `CoverAfterSuccessExactly`, `DeleteKeepsCoverExactly` |
| YAML document editor | `yaml_values`, `yaml_document`, `yaml_fill` | `Document.Set` refines a structural put with the lens laws; `Fill` is a left-biased deep merge |
| Node runner | `task_runner` | every interleaving ends, without deadlock, with exactly the right errors and mutations |
| SSH connection cache | `ssh_connector` | the cache invariant in every state of every run; no deadlock; a closed connection never comes back |
| Rolling upgrade | `upgrade` | the version skew policy in every state an upgrade can stop in, and exactly when |
| Etcd advice | `etcd_quorum` | following any part of the advice keeps quorum |
| Round trips | `template_escape`, `kubelet_flags` | escape/unescape on every string and value tree; the flags file, with its exact condition |
| Arithmetic and indexes | `machine_ints`, `versions`, `sequences`, `service_ip`, `semver_ranges`, `ordered_map` | byte-wise carry addition, range enumeration, an insertion-ordered map |

How the model is built:

- Code that changes state is imperative Dafny: `Applier` and `ApiServer`, `Document`, `Upgrader` and
  `OrderEntryMap` are classes, loops are loops with invariants. Each method is proved against a
  relation or function on values, and the theorems are about those.
- A request to the API server may fail, and a failed request may or may not have taken effect. Such
  choices, map iteration order and goroutine scheduling are nondeterministic in the methods, so a
  contract holds of every run. `ApplySpec.ApplyRun` collects what one Apply may have done; histories
  are sequences of such runs, and of Deletes, with steps of other clients between them and between the
  stages of an Apply.
- The two lock-based programs are step machines: one step per operation on a mutex, any number of
  goroutines, any schedule.
- Machine arithmetic that matters is explicit: the 64-bit conversions of the version check and of the
  address addition, the status bits of hosts.
- Whether requests may fail at all, CRDs becoming established, host health at each election and the success of a node's work are
  parameters.
- A path of a document is unshadowed when no key on it is mistaken for another one. Where the parent of a path
  is unshadowed, Set is the structural put. The source writes into the maps and slices that it finds; there it
  puts each back in the place where it was found, so values describe it.

What the proofs found in the code, each stated as a theorem with the condition under which it happens:

- An object of a cluster-scoped kind that carries a namespace is applied and then pruned by the same
  Apply (`PrunesItsOwnObject`, `SelfPruningRunExists`).
- A failed lookup of a recorded kind, or a requested prune type in a version that is not served, is
  skipped silently and the kind is then dropped from the inventory although objects remain
  (`CoverAfterSuccessExactly`, `SkippingRunExists`).
- Delete drops the inventory even if objects of kinds no longer in the manifest remain
  (`DeleteKeepsCoverExactly`, `ForgettingDeleteExists`).
- The comment on `sortForDelete` says that Namespaces are removed last; the code removes the CRDs last
  (`DeleteOrder`). The model follows the code.
- The followers of an upgrade are fixed when it is planned, the leader is elected again when it runs.
  If the leader changes, the old leader's apiserver is not upgraded but its kubelet is
  (`SkewSafeExactly`, `CoversExactly`, `ReelectionBreaksSkew`).
- The version check accepts a lower minor whose difference wraps around (`SkewExactly`) and never looks
  at majors (`MajorsExactly`). A forced upgrade may leave the skew policy (`ForcedSkewExactly`).
- The flags file written for no flags cannot be read again (`NoFlagsUnreadable`).
- Get takes a key that is not a string for "". When the last key of a path is mistaken so, Set has no effect
  that Get would see (`SetReadsBackExactly`); when an earlier one is, a Set that fails may have changed the
  document (`FailingSetChanges`).
- Adding `n` to the last byte of an IPv6 subnet address may overflow; IPv4 results are right even then
  (`Ipv6Exactly`, `Ipv4Always`).

## Model

| member | source | states |
|---|---|---|
| `Inventory.ReadInventory` | pkg/nativeclient/inventory.go:86-92 | the loop returns exactly the kinds the text stands for (`Recorded`), blank lines skipped |
| `Inventory.WriteInventory` | pkg/nativeclient/inventory.go:95-103 | for any map iteration order, the text is the sorted, newline-separated list of the kinds' names, each once |
| `Inventory.InventoryRoundTrip` | pkg/nativeclient/inventory.go:78-108 | a written set of kinds is read back unchanged if and only if every kind is clean: no dot in its kind, a name that is not empty, has no newline and no white space at its ends |
| `Inventory.CleanKindsReadBack` | pkg/nativeclient/inventory.go:78-108 | one half: clean kinds, the empty set and core kinds included, survive the text |
| `Inventory.UncleanKindLost` | pkg/nativeclient/inventory.go:78-108 | the other half: any text written for a set with an unclean kind reads as a different set |
| `Inventory.EmptyKindIsLost` | pkg/nativeclient/inventory.go:86-90 | a concrete failing set: the kind with an empty name is written as no line and lost |
| `Manifests.SplitPhases` | pkg/nativeclient/manifest.go:130-144 | the one-pass split yields the CRDs, the Namespaces and the objects that are neither, each in manifest order |
| `Manifests.SortIsPhases` | pkg/nativeclient/manifest.go:118-155 | a stable sort by priority equals CRDs, then Namespaces, then the rest, as the split gives them, for every list |
| `Manifests.ApplyOrderByKind` | pkg/nativeclient/manifest.go:118-155 | by kinds: nothing but CRDs is applied before a CRD, and nothing but CRDs and Namespaces before a Namespace |
| `Manifests.PhasesPermute` | pkg/nativeclient/manifest.go:130-155 | the apply order is a permutation of the manifest |
| `Manifests.DeleteOrder` | pkg/nativeclient/manifest.go:157-164 | the delete order is a permutation: the other objects reversed, then the Namespaces, the CRDs last |
| `Manifests.DeleteOrderByKind` | pkg/nativeclient/manifest.go:157-164 | by kinds: nothing but CRDs is deleted after a CRD, and nothing but CRDs and Namespaces after a Namespace |
| `Appliers.Applier.DefaultNamespace` | pkg/nativeclient/applier.go:287-323 | a namespaced object without a namespace gets "default", any other is unchanged; NoMatch only for a type that is not served |
| `Appliers.Applier.Request` | pkg/nativeclient/applier.go:246-285 | one request of applyOne: what it may change on the server, that a dry run changes nothing, that after a first successful apply the object is on the server with its labels and data, that a hand-over is followed by a second apply, and that it fails only when a request does or the type is not served |
| `Appliers.Applier.ApplyPhase` | pkg/nativeclient/applier.go:202-244 | for every interleaving of the goroutines and any failures: only manifest objects are created or changed, the references are reported in manifest order, and success means all are served and written |
| `Appliers.Applier.PersistKinds` | pkg/nativeclient/inventory.go:95-108 | the inventory ConfigMap is unchanged or holds the text of exactly these kinds; the latter on success |
| `Appliers.Applier.PrepareInventory` | pkg/nativeclient/inventory.go:49-67 | before anything is applied the inventory records the old kinds together with the new ones, unless the run is dry or fails here |
| `Appliers.Applier.PruneGvks` | pkg/nativeclient/applier.go:338-380 | each kind is looked through once, under its prune type: the requested one, else a default or manifest type, else the mapped type of a recorded kind; CRDs only on request; the known types come first in the order given, then the looked-up ones sorted by name |
| `Appliers.Applier.AddAll` | pkg/nativeclient/applier.go:346-364 | appends exactly the fresh types: for each kind not seen before, the first type given |
| `Appliers.Applier.FreshExactly` | pkg/nativeclient/applier.go:346-364 | a type is fresh if and only if its kind was not seen and it is the first one given for its kind |
| `Appliers.Applier.LookUp` | pkg/nativeclient/applier.go:366-377 | the served type of every kind whose lookup worked, each once, sorted by the name of the kind |
| `Appliers.Applier.PruneItems` | pkg/nativeclient/applier.go:394-414 | of the listed items only the ones not spared, terminating or protected go, and all of them do when nothing fails |
| `Appliers.Applier.Prune` | pkg/nativeclient/applier.go:382-418 | only stale objects of listed kinds disappear or become terminating; without a failure the reported ones are exactly the stale ones |
| `Appliers.Applier.WaitForCrds` | pkg/nativeclient/applier.go:325-336 | success after CRDs were applied means the given kinds are served from then on; nothing else changes, and nothing at all in a dry run or without CRDs |
| `Appliers.Applier.ApplyObjects` | pkg/nativeclient/applier.go:164-185 | the three phases in order; success reports every object in apply order and leaves every object written; it succeeds when no request fails and every type is served in its turn, those of custom resources once the CRDs are established |
| `Appliers.Applier.Apply` | pkg/nativeclient/applier.go:151-200 | every run, failing at any request or not, is an `ApplyRun`: kinds are recorded before applying, nothing is pruned before everything is applied, kinds are dropped only after everything stale is gone, and a dry run changes nothing; when no request fails, every type is served in its turn and the inventory can be written, it succeeds |
| `Appliers.Applier.Delete` | pkg/nativeclient/applier.go:428-470 | only existing, served, matching objects of the manifest are deleted; they are reported in the delete order, all of them unless a request failed; the inventory goes only after all targets are gone; it fails only when a request does |
| `Appliers.Applier.DeleteOne` | pkg/nativeclient/applier.go:433-462 | one object is deleted and reported exactly when it is a target; types that are not served and missing objects are skipped |
| `ApplyHistory.DefaultPolicyIsSound` | pkg/nativeclient/applier.go:54-80 | the default prune types include the kinds of the inventory and of protected namespaces, which the invariant rests on |
| `ApplyHistory.ApplyKeepsInvariant` | pkg/nativeclient/inventory.go:49-76 | one Apply, stopped at any request, keeps the inventory covering every live object of the addon |
| `ApplyHistory.ApplyAmidKeepsInvariant` | pkg/nativeclient/applier.go:156-200 | the same with other clients acting between preparing, applying, pruning and the final write |
| `ApplyHistory.UndisturbedIsAmid` | pkg/nativeclient/applier.go:156-200 | a run of Apply is one of these, with nobody acting in between |
| `ApplyHistory.DeleteKeepsInvariant` | pkg/nativeclient/applier.go:428-470 | a Delete, stopped anywhere, keeps the addon covered if its manifest names every object outside the always-known kinds |
| `ApplyHistory.InventoryAlwaysCovers` | pkg/nativeclient/inventory.go:49-76 | crash safety over every history of Apply and Delete calls, each failing anywhere, with other clients active between calls and between the stages of an Apply: the kind of every live labelled object is recorded, pruned by default, or CRD |
| `ApplyHistory.SuccessLeavesTheManifest` | pkg/nativeclient/applier.go:187-200 | after a successful pruning Apply the addon's live objects are applied ones, the inventory, protected namespaces or unlisted CRDs, and every applied object is live unless it was already terminating |
| `ApplyHistory.ReapplyPrunesNothing` | pkg/nativeclient/applier.go:187-200 | applying the same manifest again prunes nothing, whether the second run fails or not |
| `ApplyHistory.DeletesOnlyStale` | pkg/nativeclient/applier.go:340-418 | in every run, failing or not: what was alive when pruning began, created by the run or not, and is gone at its end, matched the selector, was not declared by the manifest, is no protected namespace, inventory or unlisted CRD; a manifest object among them is self-pruned; and the run had applied everything |
| `ApplyHistory.NothingGoneBeforePruning` | pkg/nativeclient/applier.go:156-200 | in every run, what was alive before it and what it created is alive when pruning begins |
| `ApplyHistory.ReportedPrunedIsSelfPruned` | pkg/nativeclient/applier.go:204-285 | whatever manifest object a run, failing or not, reports as pruned is cluster-scoped but written with a namespace, and spared by no other rule |
| `ApplyHistory.PrunesItsOwnObject` | pkg/nativeclient/applier.go:204-285 | a successful Apply deletes an object it applied if and only if that object is cluster-scoped but written with a namespace (and no other entry, CRD or protection rule spares it) |
| `ApplyHistory.CoverAfterSuccessExactly` | pkg/nativeclient/applier.go:357-392 | without trusting discovery: after success the inventory covers the addon if and only if no object the addon had before has a kind that drops out and was skipped, its first requested version not being served or its lookup having failed |
| `ApplyHistory.SkippedKindIsLost` | pkg/nativeclient/applier.go:357-392 | an object of a skipped kind that drops out stays, and is no longer covered |
| `ApplyHistory.DryRunPredicts` | pkg/nativeclient/applier.go:382-418 | a successful dry run changes nothing and reports exactly the set of objects a successful run then prunes |
| `ApplyHistory.DeleteKeepsCoverExactly` | pkg/nativeclient/applier.go:428-470 | after a successful Delete the addon is covered if and only if the manifest named every object outside the always-known kinds |
| `ApplyPlain.ListedTypes` | pkg/nativeclient/applier.go:338-380 | which types are looked through, by position in the lists: of a requested kind the first one requested; of another kind, CRDs excepted, the first default or manifest type; else the preferred version of a recorded kind |
| `ApplyPlain.PrunedExactly` | pkg/nativeclient/applier.go:382-418 | which objects a successful Apply prunes, by kind, name, namespace and labels: those of the listed types that carry the selected labels and are not terminating, except the ones the manifest names, the inventory and the four protected namespaces |
| `ApplyPlain.DeletedExactly` | pkg/nativeclient/applier.go:428-470 | which objects a successful Delete removes: those stored for a manifest object of a served type that, with a selector, carry its labels |
| `ApplyPlain.NamesInPlain` | pkg/nativeclient/applier.go:287-323 | how a manifest object is named and stored: a missing namespace is "default" for namespaced kinds, and cluster-scoped objects are stored without one |
| `ApplyWitness.PruningRunExists` | pkg/nativeclient/applier.go:151-200 | for every ordinary kind there is a run that meets all the assumptions of the theorems about Apply at once, applies an object of it and prunes a leftover |
| `ApplyWitness.SelfPruningRunExists` | pkg/nativeclient/applier.go:204-285 | for every ordinary kind, when it is cluster-scoped: a successful run that meets those assumptions applies a labelled object with a namespace and prunes it |
| `ApplyWitness.ClusterRoleIsPlain` | pkg/nativeclient/applier.go:287-323 | ClusterRoles are such a kind |
| `ApplyWitness.SkippingRunExists` | pkg/nativeclient/applier.go:366-377 | for every ordinary kind: a successful run in which its lookup fails leaves an object of it that the inventory no longer covers |
| `ApplyWitness.ForgettingDeleteExists` | pkg/nativeclient/applier.go:428-470 | for every ordinary kind: a successful Delete leaves an object of it that nothing covers any more |
| `YamlValues.PutGet` | pkg/yamled/document.go:155-227 | reading a path just set gives the value set |
| `YamlValues.GetPut` | pkg/yamled/document.go:155-227 | setting a path to what it holds changes nothing |
| `YamlValues.PutPut` | pkg/yamled/document.go:155-227 | a later set overwrites an earlier one, and whether a path can be set does not depend on the value |
| `YamlValues.PutElsewhere` | pkg/yamled/document.go:155-227 | a set leaves every value on a diverging path as it was |
| `YamlValues.PutExactly` | pkg/yamled/document.go:164-227 | a path can be set if and only if every step fits the value there (a name a map, an index from zero on an array, of any length), and every step below what is there is a name or such an index |
| `YamlValues.MadeOnTheWay` | pkg/yamled/document.go:178-197 | where nothing was on the way, a Go map with the one key, or an array of nulls up to the index, is made |
| `YamlValues.PutSnoc` | pkg/yamled/document.go:164-227 | changing the parent and setting the parent, which is how the code works, is setting the path |
| `YamlDocument.Document.Get` | pkg/yamled/document.go:61-109 | the cursor loop is the step-by-step lookup, in which a key that is not a string reads as "" |
| `YamlDocument.UnshadowedIsExact` | pkg/yamled/document.go:61-109 | Get reads a path as written whenever no key that is not a string stands before a key "" on the way |
| `YamlDocument.OrdinaryIsUnshadowed` | pkg/yamled/document.go:80-86 | that is so for every path without a "" step and for every document with string keys |
| `YamlDocument.Document.SetValueInMapSlice` | pkg/yamled/util.go:51-64 | the first item with the key is overwritten in its place, or one is appended |
| `YamlDocument.Document.SetRoot` | pkg/yamled/document.go:229-243 | a map becomes the new root, with exactly its entries; anything else is refused |
| `YamlDocument.Document.EnsureParent` | pkg/yamled/document.go:171-197 | if no key is mistaken on the way to it, the parent is found, or created in the shape the leaf needs and read again, as `Ready` says |
| `YamlDocument.Document.ChangeChild` | pkg/yamled/document.go:201-223 | a child is replaced or added, arrays padded with nulls up to the index; nothing when the step does not fit |
| `YamlDocument.Document.SetInternal` | pkg/yamled/document.go:164-227 | the double recursion ends on path length; if no key is mistaken on the way to the parent it computes the structural put, or leaves the document unchanged |
| `YamlDocument.SetIsPut` | pkg/yamled/document.go:164-227 | the recursion `SetSpec`, with its repeated lookups and its rebuilding of parents, is the structural put whenever no key is mistaken on the way to the parent |
| `YamlDocument.ShadowedSet` | pkg/yamled/document.go:164-227 | when only the last key is mistaken for one that is not a string, a Set succeeds and changes nothing that Get reads at the path |
| `YamlDocument.SetReadsBackExactly` | pkg/yamled/document.go:155-227 | if no key is mistaken on the way to the parent: after a successful Set, Get returns the value set if and only if the last key is not mistaken either, or the path read as that value before |
| `YamlDocument.FailingSetChanges` | pkg/yamled/document.go:172-197 | a concrete document, with an empty map under a key that is not a string, on which the recursion fails and has changed the document |
| `YamlDocument.Document.Set` | pkg/yamled/document.go:155-162 | if no key is mistaken on the way to the parent: succeeds exactly when the structural put does, with its result, and a failing Set changes nothing |
| `YamlDocument.Document.Append` | pkg/yamled/document.go:245-262 | under the same condition: the array that Get finds gains the element at its end, a missing one is created; refused, without change, for anything else |
| `YamlDocument.Document.DropChild` | pkg/yamled/util.go:66-82 | the first item with the key, the map entry, or the array element goes |
| `YamlDocument.Document.Remove` | pkg/yamled/document.go:264-295 | under the same condition: exactly the named child of the parent goes; a missing parent is success, a step that does not fit a failure, both without change |
| `YamlDocument.RemoveChildLaws` | pkg/yamled/util.go:66-82 | the removed name is gone, every other child is as before, later array elements move down by one |
| `YamlDocument.RemoveSeen` | pkg/yamled/document.go:264-295 | after removing a name the path reads as missing and every diverging path reads as before |
| `YamlDocument.RemoveIndexSeen` | pkg/yamled/document.go:264-295 | after removing an array element the later elements read one place lower, the earlier ones and every path diverging from the array read as before |
| `YamlDocument.MakeMapSlice` | pkg/yamled/util.go:38-49 | exactly the entries of the Go map, each once, in any order |
| `YamlFill.UnifyMapType` | pkg/yamled/util.go:23-36 | either kind of map becomes a slice with the same meaning; nothing else does |
| `YamlFill.MapSliceGet` | pkg/yamled/util.go:84-92 | the value of the first item with the key |
| `YamlFill.FillMap` | pkg/yamled/document.go:316-334 | the in-place loop computes the left-biased deep merge into any map, keys of any type; the existing keys keep their places |
| `YamlFill.Fill` | pkg/yamled/document.go:297-314 | on an unshadowed path: a missing path is set; at an existing path maps are merged, everything else in the document stays, and maps without repeated keys stay so |
| `YamlFill.MergeIdempotent` | pkg/yamled/document.go:316-334 | merging the same value again changes nothing |
| `YamlFill.FillTwice` | pkg/yamled/document.go:297-334 | two calls of Fill, on a missing path too: the second succeeds exactly when the first did and then changes at most the order of keys below the path |
| `YamlFill.FilledTwice` | pkg/yamled/document.go:297-334 | the same of the two documents: equal meanings at the path, the rest untouched |
| `YamlFill.MergeSeen` | pkg/yamled/document.go:316-334 | what each name path of the merge holds, in terms of the two sides |
| `YamlFill.FillSeen` | pkg/yamled/document.go:297-334 | for readers: existing values that are not maps stay, missing ones come from the new value unless such a value is in the way |
| `YamlFill.AtIsLookup` | pkg/yamled/document.go:61-109 | the order-free meaning of a document agrees with lookup on every name path |
| `TaskRunner.StepKeepsInv` | pkg/state/task.go:60-110 | each step of any goroutine keeps: every lock has the holder its place says, the lists hold exactly the nodes past that point |
| `TaskRunner.MutatorsExclude` | pkg/state/task.go:87-91 | two mutators never overlap |
| `TaskRunner.SomeoneCanMove` | pkg/state/task.go:75-95 | no deadlock, though the errors lock is held until its goroutine returns |
| `TaskRunner.RunParallel` | pkg/state/task.go:60-110 | for every interleaving it ends; the errors are those of the failing nodes, each once; the mutator ran once per node, failing or not |
| `TaskRunner.RunSequentially` | pkg/state/task.go:95-107 | runs the nodes up to and including the first failure, mutates exactly for those before it, reports that failure only |
| `SshConnector.NextKeepsInv` | pkg/ssh/connector.go:68-99 | each step of any goroutine keeps the lock, mutex and cache invariant, which says that every connection is cached under the host it was dialled for |
| `SshConnector.InvAt` | pkg/ssh/connector.go:68-99 | the invariant holds in every state of every run of any number of goroutines |
| `SshConnector.CacheAlwaysLive` | pkg/ssh/connector.go:68-99 | in every reachable state each cached connection has a client, was dialled for the host it is cached under and for no other, and is not one whose Close has returned |
| `SshConnector.OpenReturnsItsHost` | pkg/ssh/connector.go:68-88 | in every reachable state, the connection an Open is about to return was dialled for the host asked for, and is live |
| `SshConnector.OperationKeepsItsTarget` | pkg/ssh/connector.go:68-88 | an operation works for the host, or on the connection, it was started with until it returns |
| `SshConnector.CachedHostIsNotDialled` | pkg/ssh/connector.go:75-87 | an Open of a cached host returns the cached connection and dials nothing |
| `SshConnector.DialsOnlyUncached` | pkg/ssh/connector.go:75-87 | a connection comes about only by dialling a host that has none cached, and is then cached for it and returned |
| `SshConnector.GoodSessionIsLive` | pkg/ssh/connection.go:428-442 | a session is good only on a live connection that no finished Close has closed |
| `SshConnector.ClosingCloses` | pkg/ssh/connection.go:364-385 | once a Close, or a command whose session failed, has returned, the connection is closed, whatever others did meanwhile |
| `SshConnector.SomeoneCanStep` | pkg/ssh/connection.go:364-377 | no deadlock: while any operation is under way some goroutine can move |
| `SshConnector.OperationsEnd` | pkg/ssh/connection.go:379-442 | every step of an operation brings its end nearer |
| `SshConnector.EvictsOnlyItself` | pkg/ssh/connector.go:90-99 | a cache entry is never replaced, and only a Close of that very connection removes it |
| `SshConnector.OpenNeverReturnsClosed` | pkg/ssh/connector.go:68-99 | an Open that returns after a finished Close never returns the closed connection |
| `Upgrade.SkewExactly` | pkg/tasks/preflight_checks.go:200-222 | with the 64-bit conversions: accepted exactly when the minors and patches are within the skew, or when a lower minor wraps around to at most the allowed difference |
| `Upgrade.MajorsExactly` | pkg/tasks/preflight_checks.go:200-222 | majors are never compared: checkVersionSkew means "a later version of the same major, at most so many minors up" exactly where the majors agree, or differ with minors out of range, and nothing wraps |
| `Upgrade.MajorJumpAccepted` | pkg/tasks/preflight_checks.go:200-222 | a concrete jump to another major that is accepted |
| `Upgrade.RunPreflight` | pkg/tasks/preflight_checks.go:60-72 | without force, passes if and only if the first kubelet is older than the target, the apiservers agree and are within one minor, and each kubelet is within two and not newer than the apiserver; with force, if and only if the target is not lower than the first kubelet; a refusal can be forced exactly then |
| `Upgrade.VerdictInNumbers` | pkg/tasks/preflight_checks.go:60-222 | the verdict in numbers, for plausible versions of one major: without force, all apiservers run one earlier version at most one minor behind, and every kubelet is earlier, at most two minors behind and of no later minor than the apiservers; with force, the target is not earlier than the first kubelet |
| `Upgrade.VerifyVersion` | pkg/tasks/preflight_checks.go:86-118 | accepts a newer version, and the same one only with force |
| `Upgrade.VerifyVersionSkew` | pkg/tasks/preflight_checks.go:120-189 | accepts if and only if all skew conditions hold of the apiservers and kubelets |
| `Upgrade.UpgradeIsWellOrdered` | pkg/tasks/tasks.go:376-435 | preflight precedes every apiserver upgrade, the apiservers go leader first and then the followers in order, the kubelets come after all of them |
| `Upgrade.Upgrader.TryApiserver` | pkg/tasks/task.go:44-81 | one attempt at the next host: changed or not, failed or not, after an earlier attempt or not, the state is one of the stops |
| `Upgrade.Upgrader.TryKubelets` | pkg/tasks/tasks.go:638-653 | one attempt at the kubelets, host by host up to the first failure; success means all were updated |
| `Upgrade.Upgrader.RunTask` | pkg/tasks/task.go:44-81 | a step moves at most to its own stop, and on success exactly there; it fails only after ten attempts, preflight after one; preflight changes nothing |
| `Upgrade.Upgrader.Run` | pkg/tasks/tasks.go:44-58 | steps run in order up to the first that fails for good: nothing changes before preflight passed, every state is a stop (the first so many apiservers of the order, then the first so many kubelets), and success reaches the last stop |
| `Upgrade.Elect` | pkg/tasks/probes.go:492-507 | the leader is the first host with a healthy apiserver, if there is one |
| `Upgrade.Followers` | pkg/apis/kubeone/helpers.go:65-76 | every host but the leader, each once, in order |
| `Upgrade.StopKeepsSkew` | pkg/tasks/tasks.go:376-435 | the version skew policy holds at every stop of an upgrade that covers all hosts |
| `Upgrade.SkewSafeExactly` | pkg/tasks/tasks.go:376-435 | after preflight it holds at every stop if and only if every control plane host is covered or the minor does not change |
| `Upgrade.ForcedSkewExactly` | pkg/tasks/preflight_checks.go:60-72 | with no preflight condition at all, as under force: the policy holds at every stop if and only if it held before, every apiserver but the leader's is within one minor of the target, and the target is at least every kubelet's minor and at most two above |
| `Upgrade.ForceBreaksSkew` | pkg/tasks/preflight_checks.go:60-72 | a concrete forced upgrade, over three minors, that breaks the policy |
| `Upgrade.ForceCanBeSafe` | pkg/tasks/preflight_checks.go:60-72 | a concrete forced upgrade that preflight would refuse and that keeps the policy because the leader goes first |
| `Upgrade.CoversExactly` | pkg/tasks/tasks.go:376-393 | leader and planned followers cover the control plane if and only if the same host is elected when planning and when running |
| `Upgrade.RunUpgrade` | pkg/tasks/tasks.go:376-435 | a whole upgrade, forced or not, stopped anywhere: with agreeing elections, and preflight passing or the forced condition met, every state it went through keeps the skew policy; without a leader or an admitted target nothing changes; success leaves every component at the target |
| `Upgrade.ReelectionBreaksSkew` | pkg/tasks/probes.go:492-507 | with another leader at run time than at planning time, a minor upgrade reaches a stop outside the policy |
| `EtcdQuorum.EtcdToleranceRemain` | pkg/state/cluster.go:242-255 | the most healthy members that can go with more than half of them left |
| `EtcdQuorum.SafeToDeleteHosts` | pkg/state/cluster.go:208-240 | dead members, then candidates up to the allowance, then broken workers, each in order |
| `EtcdQuorum.AdvisedIsBroken` | pkg/state/cluster.go:208-240 | by the status bits: every advised host is in the cluster and broken, a control plane host in its etcd or apiserver, a worker in its container runtime or kubelet |
| `EtcdQuorum.BrokenIsAdvised` | pkg/state/cluster.go:213-237 | by the status bits: every in-cluster host with dead etcd and every broken in-cluster worker is advised |
| `EtcdQuorum.LeftOutOnlyForQuorum` | pkg/state/cluster.go:222-229 | a host with healthy etcd and a broken apiserver is left out only when one more would leave no more than half of the healthy members, and no more are advised than leave more than half |
| `EtcdQuorum.HealthyLost` | pkg/state/cluster.go:208-240 | following any part of the advice costs no healthy member but candidates within the allowance |
| `EtcdQuorum.RemovalKeepsQuorum` | pkg/state/cluster.go:208-255 | if a majority was healthy, removing any subset of the advised hosts leaves a healthy majority of whichever members stay registered, for any cluster size |
| `TemplateEscape.TwoPassesAreOne` | pkg/addons/manifest.go:184-189 | the two replacements, one after the other, equal a single pass |
| `TemplateEscape.EscapeRoundTrip` | pkg/addons/manifest.go:184-189 | unescaping undoes escaping on every string |
| `TemplateEscape.EscapeInjective` | pkg/addons/manifest.go:184-189 | different texts stay different when escaped |
| `TemplateEscape.PlainTextStays` | pkg/addons/manifest.go:184-189 | a text without template delimiters is not changed |
| `TemplateEscape.EveryOpeningMarked` | pkg/addons/manifest.go:184-189 | no opening delimiter is left without its caret |
| `TemplateEscape.UnescapeTemplateDelimiters` | pkg/addons/manifest.go:381-401 | the recursive walk unescapes every string and key and leaves other scalars, for any map iteration order |
| `TemplateEscape.UnescapeRestores` | pkg/addons/manifest.go:377-401 | on a value with every string escaped the walk restores the original: no key is merged or lost |
| `KubeletFlags.MapStringStringToString` | pkg/apis/kubeone/helpers.go:430-438 | the sorted pairs joined by commas, independent of map iteration order |
| `KubeletFlags.MapTextReadsBack` | pkg/apis/kubeone/helpers.go:430-438 | cut at its commas, the text gives exactly the pairs of the map, each once and sorted |
| `KubeletFlags.MarshalKubeletFlags` | pkg/tasks/common.go:108-117 | the sorted flags between quotes, independent of map iteration order |
| `KubeletFlags.FileReadsBack` | pkg/tasks/common.go:108-117 | the file is the variable and, between quotes, exactly the flags, sorted and a space apart |
| `KubeletFlags.UnmarshalKubeletFlags` | pkg/tasks/common.go:79-106 | the parsed flags, the last value of a repeated flag winning, or an error for text or a flag without "=" |
| `KubeletFlags.FlagsAsRead` | pkg/tasks/common.go:79-106 | flags are read exactly when every part is an assignment, and a flag has the value of the last part that names it |
| `KubeletFlags.NewlinesIgnored` | pkg/tasks/common.go:88-92 | newlines at the end of the file do not matter |
| `KubeletFlags.FlagsRoundTrip` | pkg/tasks/common.go:79-117 | reading back what was written gives the same flags if and only if there is a flag, no key holds "=" or a space, no value a space, the first flag in order does not begin with a quote and the last does not end with one |
| `KubeletFlags.BareExactly` | pkg/tasks/common.go:88-92 | the written text has a quote of its own at an end if and only if its least flag begins or its greatest flag ends with one |
| `KubeletFlags.QuoteFreeIsBare` | pkg/tasks/common.go:79-117 | flags of which no key begins and no value ends with a quote are read back |
| `KubeletFlags.UpdateKubeadmFlagsEnv` | pkg/tasks/kubeadm_env.go:37-83 | fails exactly on unreadable content; otherwise, flag by flag: each setting the host has is under its own flag with its own text, --network-plugin and --container-runtime are gone, every other flag is as read |
| `KubeletFlags.ModifyTwice` | pkg/tasks/kubeadm_env.go:37-66 | the modifiers are idempotent together |
| `KubeletFlags.UpdateTwice` | pkg/tasks/kubeadm_env.go:37-83 | the whole read-modify-write is idempotent when what it wrote can be read back |
| `KubeletFlags.NoFlagsUnreadable` | pkg/tasks/common.go:79-117 | a file left without any flag cannot be read again |
| `ServiceIp.NthServiceSubnetIP` | pkg/apis/kubeone/helpers.go:463-494 | the carry loop over the byte array computes the address plus the integer really added, modulo 256 to the address length |
| `ServiceIp.AddedExactly` | pkg/apis/kubeone/helpers.go:476-490 | the integer really added is n, or n minus 2^64 when the first sum overflows |
| `ServiceIp.Ipv4Always` | pkg/apis/kubeone/helpers.go:463-494 | four bytes: the n-th address for every machine integer |
| `ServiceIp.Ipv6Exactly` | pkg/apis/kubeone/helpers.go:463-494 | sixteen bytes: the n-th address if and only if n plus the last byte does not overflow |
| `SemverRanges.GetMinorRange` | pkg/semverutil/helper.go:34-67 | every minor from the lower to the upper version once, consecutive and increasing; nothing when the range is empty |
| `SemverRanges.GetPatchRange` | pkg/semverutil/helper.go:93-122 | every patch release of the range once, consecutive and increasing; nothing when the range is empty |
| `SemverRanges.MinorsEndExactly` | pkg/semverutil/helper.go:50-64 | the loop passes the upper end if and only if the lower major is not below the upper one |
| `SemverRanges.PatchesEndExactly` | pkg/semverutil/helper.go:108-119 | the loop passes the upper end if and only if the lower major and minor are not below the upper ones |
| `OrderedMap.OrderEntryMap.Set` | pkg/maputils/ordered_entry_map.go:70-80 | a plain map update; a new key goes last, a known key keeps its place; index and entries agree |
| `OrderedMap.OrderEntryMap.Get` | pkg/maputils/ordered_entry_map.go:82-90 | a plain map lookup |
| `OrderedMap.OrderEntryMap.Iter` | pkg/maputils/ordered_entry_map.go:46-55 | the keys in order with their values, as far as the consumer goes |
| `OrderedMap.OrderEntryMap.OrderIsUnique` | pkg/maputils/ordered_entry_map.go:70-80 | no key is yielded twice |
| `OrderedMap.Build` | pkg/maputils/ordered_entry_map.go:57-68 | after any sequence of Set calls: each key once, in the order it was first set, with its latest value |

## Left out

- Appliers.Applier.Apply: other clients do not act between its requests (ApplyAmidKeepsInvariant lets them act between its stages); the label selector is the equality selector the addons use, not a general one; the managed-fields patch is a step that keeps the object's identity; retries, back-off times and the concurrency limit are not modelled (the interleavings are a superset of the limited ones).
- Appliers.Applier.WaitForCrds: which kinds the CRDs define is a parameter, not read from them.
- Appliers.Applier.Request: an object is its identity, labels and flat string data; other fields, and group or version aliases of one object, are not modelled.
- Appliers.Applier.Delete: the cascade of deletions that the cluster performs by itself is a step of other clients.
- ApplyHistory.InventoryAlwaysCovers: requires the manifests to leave the inventory ConfigMap alone and to name kinds cleanly, other clients not to label objects of unrecorded kinds, Deletes to name what is left, and discovery to answer truthfully; DeleteKeepsCoverExactly and CoverAfterSuccessExactly say what happens without the last two.
- ApplyHistory.SuccessLeavesTheManifest: that every applied object is live is claimed for manifests whose objects carry the selected label and whose cluster-scoped objects carry no namespace; PrunesItsOwnObject has the other case.
- YamlDocument.Document.Set: nothing is claimed when a key is mistaken before the last one, because the code then writes into a map or slice it found in another place; negative indices, on which the code panics, are excluded; values are copied, so two places that share one Go map or slice are not captured.
- YamlDocument.Document.SetInternal: as Set.
- YamlDocument.Document.EnsureParent: as Set.
- YamlDocument.Document.Append: as Set.
- YamlDocument.Document.Remove: as Set.
- YamlDocument.Document.SetRoot: the case of a reference to a map slice is not modelled.
- YamlFill.Fill: as Set, and nothing is claimed when the last key is mistaken either; requires the new value to have no key twice in one map, while the document may.
- YamlFill.FillMap: requires the same of the new map.
- YamlFill.UnifyMapType: the case of a reference to a map slice is not modelled.
- YamlDocument.RemoveSeen: for removing a name; RemoveIndexSeen is for an array element.
- TaskRunner.RunParallel: what a node's work does to its own copy of the state is abstracted to whether it fails.
- SshConnector.OpenNeverReturnsClosed: TunnelTo reads the client without the mutex and is not modelled; a failed session closes its connection as in POpen.
- Upgrade.RunUpgrade: control plane hosts only; static workers, addon resources and the other steps that change no control plane version are neutral; prerelease and unparsable versions are not modelled.
- Upgrade.Upgrader.TryKubelets: the kubelets of static workers, which the same step upgrades after those of the control plane, are not modelled.
- Upgrade.SkewSafeExactly: the policy is about minors, as the preflight check is; MajorsExactly has the majors.
- EtcdQuorum.RemovalKeepsQuorum: hostnames are distinct; the probing that fills the status bits is not modelled.
- TemplateEscape.UnescapeRestores: starts from a value whose strings are escaped; the YAML parser between escaping and unescaping is not modelled.
- KubeletFlags.UpdateKubeadmFlagsEnv: the remote file is its content, and maxPods is given in decimal.
- ServiceIp.NthServiceSubnetIP: parsing the subnet, choosing between IPv4 and IPv6 and printing the address are not modelled.
- SemverRanges.GetMinorRange: parsing and printing versions, and the overflow of a version component, are not modelled; ranges on which the loop never ends are excluded, and MinorsEndExactly says which those are.
- OrderedMap.Build: covers NewOrderEntryMap and FromMap as sequences of Set calls, the latter in whatever order Go iterates its map.
- Manifest parsing, addon templates, Helm, encryption, certificates, cloud providers, the command line and the dashboard are not part of this model: they are input and output, or tables of cases.
