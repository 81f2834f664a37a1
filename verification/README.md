# grid3-go, verified model

The program is a client for a deployment grid: it turns a declared state into one deployment per node and
drives a chain of contracts and remote nodes towards it. This project models its five components that carry
real properties, in the form the source gives them (objects whose fields are updated become classes, loops
become loops with invariants), and proves what they promise over every input, run and order of map iteration.

1. **Network compiler** (`Network.dfy`, `NetworkDeployer.dfy`, `Routing.dfy`, `SubnetBytes.dfy`,
   `SubnetReadBack.dfy`, `NodesConfig.dfy`, `NetworkRun.dfy`). Nodes are classified, a relay is chosen, one /24
   per node is allocated in a /16, the WireGuard peers are emitted, deployed and read back. An address is four
   octets and a range octets plus prefix length (section 3.1 of RFC 4632); the next hop is the peer whose
   AllowedIPs contain the destination, and a packet is dropped unless its sender's entry contains the source
   (WireGuard whitepaper, section 2). Proved: the allocation is sound, complete and stable, and which octets it
   hands out; between any two participants a packet arrives in at most two hops, over tables that are unambiguous
   and list every other participant exactly once, and the tables the nodes then hold are these; peering is mutual,
   and exactly when peers can dial each other; exactly when subnets stay distinct from one run to the next.
2. **Deploy and revert** (`GridWorld.dfy`, `Deployer.dfy`, `VersionHistory.dfy`, `Waiting.dfy`,
   `Admission.dfy`, `DeploymentUtils.dfy`). Chain and nodes are a world in which every remote call may fail, by
   an arbitrary schedule; a failed node call may have been applied. Proved: the ledger of created contracts on
   every exit, separation of the phases, skipping, compensation, the meaning of workload versions over any
   timeline of runs and answers, order-independent admission, and when the wait succeeds, gives up and ends.
3. **Declare, flatten, read back** (`Units.dfy`, `Workloads.dfy`, `Collecting.dfy`, `ReadBack.dfy`,
   `Reading.dfy`, `RoundTrip.dfy`, `Matching.dfy`, `Restoring.dfy`, `Lifecycle.dfy`). Proved: each codec's exact
   round-trip condition, that a declaration printed, answered in any order and read back is the declaration
   again, and so is one that is deployed, provisioned by its node and synchronised.
4. **Addresses and local state** (`NetworkState.dfy`, `DeploymentDeployer.dfy`, `LocalState.dfy`). Proved: the
   host ids handed to machines are fresh, distinct and avoid those of every synchronised deployment; the
   client's records of contracts agree over every run of deploying and cancelling.
5. **Cluster rebuild** (`Cluster.dfy`, `ClusterRebuild.dfy`, `K8sDeployer.dfy`). Proved: master and workers are
   exactly the machines the remaining contracts' nodes hold, each once, each with its own disk.

Where code and intent differ the model follows the code:

- The deletions of `deployer/deployer.go:109-117` are commented out: nodes of the old map that are not in the
  new one stay.
- Reading a network back covers every tracked node, but an allocation only avoids the octets of listed ones
  (`workloads/network.go:117-126`, `deployer/network_deployer.go:363-411`): `UnlistedOctetIsReused` is a run of
  three deployments after which two nodes share a subnet, and `DistinctAfterReadBack` says exactly when that
  happens. A failed allocation may leave such an external subnet too (`FailureLeavesClash`,
  `DistinctAfterFailure`). Access reads back as on whenever some peer has no endpoint, so also for a hidden node
  (`AccessIsRelaying`).
- The third octet of a kept subnet is read at an index taken from the length of the range's address
  (`workloads/network.go:119-132`). The model's addresses are four octets, so range and subnets are taken to be kept
  in one form; `MisreadIsSoundExactly` is the exact condition for a four-byte range over sixteen-byte subnets, and
  `SecondRunReusesOctet` an input.
- A relay from outside the list keeps its IPv6 text without brackets (`deployer/network_deployer.go:113`, against
  line 77): `PeersCanDialExactly` says exactly when peers can still dial.
- Host ids are recorded by synchronising, not by deploying: `SuccessiveAssignmentsClash` and `DeployBoth` say exactly
  when two deployments in a row share one.
- A node's fourth octet is the network's third one (`workloads/network.go:148`), unlike the external subnet's.
- `deployer/deployment_deployer.go:222` reads byte 3 of the 16-byte form of a preset address, which is 0 for every
  IPv4 address. `ClashExactlyWhenNext` says exactly when an assigned address then doubles a preset one,
  `PresetAddressIsHandedOut` gives an instance, and `IntendedReadingNeverClashes` is the reading by last octet.
- A QSFS's metadata is encrypted with the main key and algorithm (`workloads/qsfs.go:242,268`);
  `QsfsRoundTrip` states the consequence.
- The public node is dereferenced even when its client could not be had (`deployer/network_deployer.go:346-351`),
  which is a panic.
- Workload versions are 32-bit and wrap. `UpdateKeepsOrder` and `WorkloadsNeverAhead` say exactly which wraps leave a
  workload ahead of its deployment, and `WrapBreaksTheOrder` gives one.
- A wait counts change-list entries, not names: a full count means that all are OK exactly when no OK entry
  occurs twice (`FullCountIsReliable`); `RepeatedEntryCountsTwice` is a list where it does not.

Assumptions a result needs are its preconditions. The main ones: secrets are pairwise distinct (`DistinctKeys`),
a node's endpoint is stable during one compilation, the network is not 100.64.0.0/16, no node is numbered 0,
equal digests over equal names mean equal requests, results and versions left aside (`Faithful`), workload names
are distinct, and printed addresses parse back (`Lawful`).

## Model

| member | source | states |
|---|---|---|
| `NetworkWorkload.ZNet.Validate` | workloads/network.go:70-77 | a network is accepted exactly when its mask is 16 bits |
| `NetworkWorkload.ZNet.NextFreeIP` | workloads/network.go:236-244 | the cursor moves to the least octet not in use, and the step fails exactly when that is 255 |
| `NetworkWorkload.ZNet.AssignNodesIPs` | workloads/network.go:117-153 | with range and subnets kept in one byte form: whatever order the kept entries are walked in, the network ends up with the specified allocation; a failure leaves the node ranges alone (but may leave a new external subnet) |
| `SubnetBytes.ReadsThirdOctet` | workloads/network.go:119-132 | the byte read from a kept subnet is its third octet exactly when its form is the range's, or the octet is 0 under a four-byte range; otherwise it is 0, or out of range |
| `SubnetBytes.MisreadIsSoundExactly` | workloads/network.go:117-153 | with a four-byte range and sixteen-byte subnets, an allocation leaves distinct subnets exactly when no octet in use is among the lowest ones counted as if none were, as many as it needs |
| `SubnetBytes.SecondRunReusesOctet` | workloads/network.go:117-153 | in that form the second node of a network, added in a second run, gets the first one's subnet |
| `NetworkWorkload.ZNet.AssignNodesWGKey` | workloads/network.go:180-198 | every listed node ends up with a key, present keys are kept, and it fails exactly when a missing key cannot be generated |
| `NetworkWorkload.ZNet.AssignNodesWGPort` | workloads/network.go:156-177 | the same for WireGuard ports |
| `NetworkWorkload.AllocationIsSound` | workloads/network.go:117-153 | after an allocation all node subnets and the external one are /24s of the network with pairwise distinct third octets, given that the kept ones were |
| `NetworkWorkload.AllocationIsComplete` | workloads/network.go:117-153 | an allocation fails exactly when the nodes without a subnet, plus one for a missing external subnet, outnumber the free octets in 2..254 |
| `NetworkWorkload.AllocationIsStable` | workloads/network.go:117-153 | kept nodes keep their subnets and a second call changes nothing |
| `NetworkWorkload.AllocatedOctets` | workloads/network.go:117-153 | after a successful allocation the octets in use are those taken before and the lowest free ones in 2..254, exactly as many as were needed |
| `NetworkWorkload.AllocationCovers` | workloads/network.go:117-153 | a successful allocation gives every listed node a subnet, and an external one whenever access is requested |
| `NetworkWorkload.SoundSubnetsDisjoint` | workloads/network.go:209-218 | different nodes' subnets and WireGuard addresses share no address |
| `NetworkDeployer.Classify` | deployer/network_deployer.go:60-84 | the classification into hidden and accessible nodes, the IPv4 candidate and the endpoints; fails exactly when an endpoint lookup fails |
| `NetworkDeployer.ChooseRelayNode` | deployer/network_deployer.go:86-115 | the relay choice: the recorded public node, else the last IPv4 node, else one from the proxy; the relay is recorded even when its endpoint is then missing |
| `NetworkDeployer.ChoiceIsWellFormed` | deployer/network_deployer.go:86-115 | a chosen relay is accessible and has an endpoint; no relay is chosen only if nobody needs one |
| `NetworkDeployer.AssignNodes` | deployer/network_deployer.go:117-126 | all nodes get subnet, key and port, or the call fails, and exactly when one of them cannot be had |
| `NetworkDeployer.BuildBehind` | deployer/network_deployer.go:128-138 | the ranges only reachable through the relay: hidden nodes and the external user |
| `NetworkDeployer.BuildAccessiblePeers` | deployer/network_deployer.go:156-203 | an accessible node's peers: the mesh, and on the relay the external user and the hidden nodes |
| `Routing.BehindForwards` | deployer/network_deployer.go:219-231 | a hidden node, like the external user, hands every packet for another participant to the relay and to nobody else |
| `NetworkDeployer.Emit` | deployer/network_deployer.go:155-243 | one deployment per node, hidden ones last |
| `NetworkDeployer.LayoutIsWellFormed` | deployer/network_deployer.go:86-126 | plan and sound allocation together give a well-formed layout, the premise of the routing results |
| `NetworkDeployer.GenerateVersionlessDeployments` | deployer/network_deployer.go:54-245 | compilation succeeds exactly when a plan exists and can be assigned, and then emits the tables of the layout the network records |
| `NetworkDeployer.DropLostContracts` | deployer/network_deployer.go:325-335 | entries of nodes whose contract is gone disappear from all four maps, and nothing else does |
| `NetworkDeployer.DropForeignSubnets` | deployer/network_deployer.go:339-343 | exactly the subnets outside the network range are dropped |
| `NetworkDeployer.InvalidateBrokenAttributes` | deployer/network_deployer.go:324-360 | the whole new state, and the panic on a public node without a client |
| `NetworkDeployer.InvalidationIsSound` | deployer/network_deployer.go:336-358 | distinct /24s cut down to a /16 are sound for it |
| `NetworkRun.Prepare` | deployer/network_deployer.go:248-256 | validate, invalidate, generate: a success records a well-formed layout, allocated from what invalidation left; distinct subnets stay distinct on every exit, except that running out of subnets keeps them distinct exactly when the least free octet is no unlisted node's; fresh secrets stay distinct |
| `SubnetReadBack.DistinctAfterReadBack` | deployer/network_deployer.go:363-411 | the subnets known after a run and its read-back are distinct exactly when, before the run, those of tracked nodes it does not list were distinct, not among the octets taken and not among the lowest free ones it needs |
| `SubnetReadBack.DistinctNextTime` | deployer/network_deployer.go:363-411 | from a network that knows what its nodes hold, distinct subnets stay distinct exactly when no unlisted node's octet is among the lowest free ones the run needs |
| `SubnetReadBack.UnlistedOctetIsReused` | workloads/network.go:117-153 | three runs on 10.1.0.0/16, over nodes 1 and 2, 1 and 3, and all three: nodes 2 and 3 end with one subnet, and keep it |
| `SubnetReadBack.DistinctAfterFailure` | workloads/network.go:127-139 | an allocation that fails after choosing an external subnet leaves distinct subnets exactly when the least octet listed nodes leave free is no unlisted node's |
| `SubnetReadBack.FailureLeavesClash` | workloads/network.go:127-139 | 253 new nodes and an external user: the failed allocation leaves the external subnet equal to a tracked node's |
| `NodesConfig.ReadAll` | deployer/network_deployer.go:376-401 | reading the tracked nodes in any order collects key, port and subnet of each one's last network workload, and whether any peer lacks an endpoint; it fails exactly when a network workload does not parse |
| `NodesConfig.ReadNodesConfig` | deployer/network_deployer.go:363-411 | keys, ports, subnets and the access flag become what the tracked nodes hold, listed or not; a failure changes nothing |
| `NetworkRun.AccessIsRelaying` | deployer/network_deployer.go:393-398 | only the relay has peers without endpoint, and it has some exactly when a relay is needed, for an external user or for a hidden node |
| `NetworkRun.RunIsReadBack` | deployer/network_deployer.go:263-288 | after a successful run the read-back finds the layout's own subnets, keys and tables on its nodes and on every other tracked node what that held before; access reads as on exactly when a relay is needed or another node's copy opens it |
| `NetworkRun.DeployedConnects` | deployer/network_deployer.go:128-243 | by the tables the nodes hold and the user's configuration, every packet between two participants arrives in at most two hops, and no hop drops it for its source |
| `NetworkRun.Deploy` | deployer/network_deployer.go:248-293 | a whole network deployment on every exit: when subnets stay distinct, what the network then records, and that the deployed tables route |
| `Routing.OwnerIsUnique` | workloads/network.go:209-218 | an address belongs to the subnet or WireGuard address of at most one participant |
| `Routing.Reachability` | deployer/network_deployer.go:128-243 | from any participant a packet to any address of another reaches it in at most two hops over unambiguous tables, and through the relay when either end is hidden or external |
| `Routing.SourceIsAdmitted` | deployer/network_deployer.go:128-243 | on the way of a packet the entry that admits its source is, at each hop, the sender's |
| `Routing.PeersAreDisjoint` | deployer/network_deployer.go:156-203 | on an accessible node, entries of different peers never admit the same address |
| `Routing.TableListsOrder` | deployer/network_deployer.go:156-203 | the AllowedIPs of an accessible node are exactly the ranges of its list of participants |
| `Routing.TableCoversEachOnce` | deployer/network_deployer.go:156-203 | that list holds every other participant exactly once, and nobody else |
| `Routing.PeeringIsMutual` | deployer/network_deployer.go:156-231 | A lists B exactly when B lists A, and one side of each pair has a recorded contact for the other |
| `Routing.PeersCanDialExactly` | deployer/network_deployer.go:60-115 | one side of each pair of peers has a contact that can be dialled, exactly when a relay taken from outside the list has an IPv4 endpoint |
| `DeploymentUtils.CountDeploymentPublicIPs` | deployer/deployment_utils.go:29-43 | the number of IPv4 requests, or an error on unreadable data |
| `DeploymentUtils.Capacity` | deployer/deployment_utils.go:114-124 | the capacity totals in 64-bit arithmetic, or an error |
| `DeploymentUtils.GetWorkloadHashes` | deployer/deployment_utils.go:56-70 | the digests by name, later workloads overwriting, or an error |
| `DeploymentUtils.ConstructWorkloadVersions` | deployer/deployment_utils.go:92-101 | the versions by name |
| `DeploymentUtils.ByNameIsOwn` | deployer/deployment_utils.go:56-101 | under unique names a workload finds its own digest and version |
| `DeploymentUtils.SameWorkloadsNames` | deployer/deployment_utils.go:73-89 | the one-sided comparison the loop makes |
| `DeploymentUtils.SameNamesIsEquality` | deployer/deployment_utils.go:73-89 | when the second list has unique names, that comparison means equal name sets (pigeonhole) |
| `GridWorld.World.EnsureContractCanceled` | subi/substrate_manager.go:156-168 | a cancellation removes the contract or has no effect |
| `GridWorld.World.Wait` | deployer/deployer.go:327-388 | a wait is recorded with its deployment and versions, and succeeds exactly when the poll that ends it is full: as many OK entries as workloads expected and none bad, which are all of them unless one is listed twice |
| `Deployer.Deployer.CreateOne` | deployer/deployer.go:120-180 | one creation on every exit: what it leaves on the chain, on the node, in the returned map and in the error |
| `Deployer.Deployer.CreateMissing` | deployer/deployer.go:104-180 | the creation phase in any node order, up to its first failure; on success the key set is old union new |
| `Deployer.Deployer.RenumberAll` | deployer/deployer.go:218-231 | every workload gets the next version if it is new or its digest differs, else its old one |
| `Deployer.Deployer.Renumber` | deployer/deployer.go:208-231 | what the update sends, written in place into the request |
| `Deployer.SuccessorContents` | deployer/deployer.go:218-231 | an update changes nothing beyond version numbers |
| `Deployer.Deployer.SendSuccessor` | deployer/deployer.go:232-268 | the chain call comes first, the node call only if it succeeded, and what the node stores changes only then; a success means that a wait for this deployment at its new versions ended on a full poll |
| `Deployer.Deployer.UpdateOne` | deployer/deployer.go:183-268 | one visit of the update phase: it writes only to its node, only if the copy there differs |
| `Deployer.Deployer.UpdateExisting` | deployer/deployer.go:183-269 | the update phase in any node order, up to its first failure |
| `Deployer.Deployer.DeployOnce` | deployer/deployer.go:97-272 | one run, as a relation between the grids before, between and after the phases |
| `Deployer.LedgerIsExact` | deployer/deployer.go:120-180 | on every exit the contracts created are exactly the new map entries plus at most one orphan, whose id is in the error; nothing older is cancelled |
| `Deployer.PhasesAreSeparate` | deployer/deployer.go:119-269 | no update call precedes a creation call, and after a failed creation there is none at all |
| `Deployer.UnchangedIsSkipped` | deployer/deployer.go:204-206 | when every request equals its node's copy the run writes nothing |
| `Deployer.SuccessDeploysAll` | deployer/deployer.go:97-272 | after a successful run new nodes hold their request and old ones the settled form of theirs |
| `Deployer.SuccessHolds` | deployer/deployer.go:97-272 | after a successful run every node of the request holds what was requested, whatever versions and results it carries |
| `Deployer.RevertRestores` | deployer/deployer.go:82-92 | after a run that failed anywhere, a successful compensating run creates nothing and every old node again holds what it was requested before |
| `Deployer.Deployer.Compensate` | deployer/deployer.go:82-92 | the compensating run tracks the same contracts and ends in the first failure, restored, or in both failures |
| `Deployer.RunLeavesOldOrNew` | deployer/deployer.go:97-272 | a run, wherever it stops, leaves on every old node what it was asked for before or what the request asks for |
| `Deployer.RevertLeavesOldOrNew` | deployer/deployer.go:82-92 | so does the compensating run, wherever either of them stopped |
| `Deployer.Deployer.Deploy` | deployer/deployer.go:64-95 | admission, run and compensation together: with readable old copies a request is rejected exactly when it is not admissible, and a rejection changes nothing; a success means that on every node that was written to, a wait of this run for what it was sent ended on a full poll; a failure still reports the first error; on every exit each old node holds what it was asked for before or what the request asks for, and old entries stay |
| `Deployer.Deployer.GetDeployments` | deployer/deployer.go:288-308 | the copies of all tracked contracts, or none when one is not there or a call failed |
| `Deployer.Deployer.Cancel` | deployer/deployer.go:275-285 | cancelling takes exactly that contract off the chain; id 0 does nothing |
| `VersionHistory.VersionCountsUpdates` | deployer/deployer.go:220-231 | each update raises the deployment version by one, modulo the 32-bit wrap |
| `VersionHistory.VersionOfLastChange` | deployer/deployer.go:208-231 | every workload carries the version of the last update in which it was new or its digest differed |
| `VersionHistory.UpdateKeepsOrder` | deployer/deployer.go:208-231 | from an ordered copy, an update leaves no workload ahead of its deployment exactly when the counter did not wrap or every workload changed or had version 0 |
| `VersionHistory.WorkloadsNeverAhead` | deployer/deployer.go:208-231 | over a whole history no workload is ever ahead of its deployment exactly when every wrap in it was harmless |
| `VersionHistory.WrapBreaksTheOrder` | deployer/deployer.go:204-231 | two workloads at the largest version, one of them changed, so that the update is sent: the other one is then ahead |
| `VersionHistory.RunExtendsHistory` | deployer/deployer.go:97-272 | whatever the nodes answered before it, a run extends the history of each tracked deployment it changes by exactly one update, and leaves the others alone |
| `VersionHistory.TimelineHasHistory` | deployer/deployer.go:97-272 | over any sequence of runs and nodes' answers, with failures anywhere, a stored deployment follows a history of updates, at most one for each run |
| `VersionHistory.NeverAheadOverTimeline` | deployer/deployer.go:208-231 | over such a timeline, with fewer events than the 32-bit counter holds, no workload of a stored deployment is ahead of it |
| `Waiting.InspectChanges` | deployer/deployer.go:346-367 | the first matching entry in a bad state, or the number of OK ones |
| `Waiting.ProgressStep` | deployer/deployer.go:367-381 | an inconclusive poll ends the wait exactly when it closes a window in which no poll counted more than all before it |
| `Waiting.Wait` | deployer/deployer.go:327-388 | the wait returns successfully only on a poll whose count is full and times out exactly on the first poll that closes a window without progress; every earlier poll was inconclusive; it terminates under an advancing clock, and within one window per workload when polls are paced |
| `Waiting.CountIsExact` | deployer/deployer.go:346-367 | with unique entries the count is the number of expected workloads OK at their version |
| `Waiting.FullCountMeansAllOk` | deployer/deployer.go:369-371 | with unique entries a full count means every expected workload is OK at its version and none is bad, and conversely |
| `Waiting.FullCountIsReliable` | deployer/deployer.go:346-369 | when the count is full, all expected workloads are OK at their versions exactly if no matching OK entry occurs twice |
| `Waiting.RepeatedEntryCountsTwice` | deployer/deployer.go:346-369 | a change list whose count is full although a workload is missing |
| `Admission.LookupNodes` | deployer/deployer.go:397-419 | node data and a zero counter for every farm hosting a node, or an error |
| `Admission.CountFarms` | deployer/deployer.go:421-440 | each farm's free public IPs, or an error |
| `Admission.AddHeld` | deployer/deployer.go:442-454 | the old deployments' public IPs are added to their own farms, in any order |
| `Admission.FarmTotalSplit` | deployer/deployer.go:442-454 | a farm's total does not depend on the order of its summands |
| `Admission.CheckNode` | deployer/deployer.go:457-516 | the checks concerning one node alone, capacity in wrapping 64-bit arithmetic |
| `Admission.CheckOne` | deployer/deployer.go:456-517 | one deployment is checked and its public IPs are taken off its farm's counter; a negative counter means the farm cannot hold all of them |
| `Admission.CheckNew` | deployer/deployer.go:456-517 | running counters accept exactly when all nodes fit and every farm's whole demand is covered |
| `Admission.Validate` | deployer/deployer.go:396-519 | a request is accepted exactly when it is admissible, a condition without any iteration order |
| `Units.UnitsRoundTrip` | workloads/disk.go:40-66 | a size survives the scaling exactly when it is not negative and fits 64 bits in bytes |
| `Units.CacheRoundTrip` | workloads/qsfs.go:215-252 | a cache size, divided as a signed number, survives exactly when it fits the signed range |
| `Units.HexRoundTrip` | workloads/qsfs.go:222-242 | a key that decodes is printed back exactly when it has no upper-case digit |
| `Units.HexEncodeDecode` | workloads/qsfs.go:222-242 | encoded bytes always decode to themselves |
| `Workloads.DiskRoundTrip` | workloads/disk.go:29-68 | a disk is read back as declared exactly when its size fits |
| `Workloads.ZdbRoundTrip` | workloads/zdb.go:48-112 | a zdb is read back as declared, with the node's computed fields, exactly when its size fits |
| `Workloads.QsfsRoundTrip` | workloads/qsfs.go:192-283 | a QSFS is read back exactly when metadata key and algorithm equal the main ones, the key is lower-case and the cache fits |
| `Workloads.PrintVM` | workloads/vm.go:179-227 | public address, then logs, then the machine |
| `Workloads.FindZlogs` | workloads/zlog.go:34-61 | the OK logs of one machine, in the order of the list |
| `Workloads.VMRoundTrip` | workloads/vm.go:99-227 | a machine is read back up to its checksum and the order of its logs exactly when CPU and sizes fit and its address is canonical |
| `Matching.RanksArePositions` | workloads/deployment.go:107-123 | recorded names have their position minus the total, other names what they had |
| `Matching.SortedMeansDeclaredOrder` | workloads/deployment.go:124-135 | in a sorted list known names come first, in declared order, and unknown ones after |
| `Matching.PermutationSortsToDeclared` | workloads/deployment.go:124-135 | any permutation of the declared list sorts to exactly that list, however ties are broken |
| `Matching.LoadFromVM` | workloads/vm.go:299-315 | logs and mounts become sorted permutations, and the checksum is taken over |
| `Matching.LoadingRestores` | workloads/vm.go:299-315 | from any order, loading restores the declared logs, mounts and checksum |
| `Matching.LoadMachines` | workloads/deployment.go:136-141 | each known machine is loaded from its declaration, in place |
| `Matching.Match` | workloads/deployment.go:106-142 | the four slices become sorted permutations of themselves, in place, and the machines are loaded |
| `Matching.UserDeployment.Nullify` | workloads/deployment.go:97-103 | clears the four lists and the contract id |
| `Slices.Contains` | workloads/slice_operations.go:5-12 | membership |
| `Slices.Delete` | workloads/slice_operations.go:15-23 | the first occurrence is deleted by shifting the backing array, and only inside the slice |
| `Slices.RemoveFirstCounts` | workloads/slice_operations.go:15-23 | deleting takes away one occurrence and nothing else |
| `Slices.SortedPermutationIsUnique` | workloads/deployment.go:124-135 | a sorted permutation of a strictly ranked list is that list |
| `ReadBack.Print` | deployer/deployment_deployer.go:37-53 | disks, zdbs, machines, file systems in one list; an error when a key is not hex |
| `ReadBack.GetFindsAnswer` | workloads/vm.go:161-176 | looking up a requested name in what came back finds the node's answer |
| `Collecting.CollectPermutes` | deployer/deployment_deployer.go:134-178 | reading a permutation yields a permutation of what is read |
| `RoundTrip.MachinesReadBack` | workloads/vm.go:99-227 | the machines' part of a flat list reads back to the declared machines |
| `RoundTrip.LogsOfMachines` | workloads/zlog.go:34-61 | the log reader of a name takes exactly the logs of the machine of that name |
| `Restoring.LogsReturn` | workloads/zlog.go:34-61 | from any order a machine gets all its logs back, and nobody else's |
| `Restoring.DeclarationIsRestored` | deployer/deployment_deployer.go:111-193 | print, answer, permute, read, match: the declaration comes back in declared order with all its fields and the node's computed ones |
| `Reading.ReadWorkload` | deployer/deployment_deployer.go:135-178 | one workload goes to the list of its type; failed and unparsable ones are left out |
| `Reading.ReadWorkloads` | deployer/deployment_deployer.go:133-179 | all lists and the host ids; None where the source panics on a machine without IPv4 address |
| `NetworkState.Network.GetUsedNetworkHostIDs` | deployer/network_state.go:68-74 | the host ids of all deployments on the node, in any map order |
| `NetworkState.Network.SetDeploymentHostIDs` | deployer/network_state.go:85-90 | one entry of the nested index is set |
| `NetworkState.Network.DeleteDeploymentHostIDs` | deployer/network_state.go:93-95 | one entry is removed, and a missing node stays missing |
| `NetworkState.Networks.GetNetwork` | deployer/network_state.go:30-36 | the shared network of that name, created empty if missing |
| `NetworkState.LatestSyncIsRecorded` | deployer/deployment_deployer.go:130-181 | after any run of synchronisations the index holds what the latest one of each contract recorded, and nothing if that one was stopped by a machine without IPv4 address |
| `DeploymentDeployer.SyncContinues` | deployer/deployment_deployer.go:130-181 | what a synchronisation makes of the index, stopped or not, is one more step of such a run |
| `NetworkState.AssignmentPlacesHanded` | deployer/deployment_deployer.go:228-245 | the assignment succeeds exactly when the ids suffice, and places the handed-out ids on the machines that need one, in order |
| `NetworkState.HandedAreLowest` | deployer/deployment_deployer.go:228-245 | the ids handed out are the lowest free ones in 2..254, as many as machines need one |
| `NetworkState.AssignedHostsAreFresh` | deployer/deployment_deployer.go:206-247 | over a /24, machines without address get pairwise distinct ids in 2..254, none in use; it fails exactly when they outnumber the free ids |
| `NetworkState.AssignedAvoidSynced` | deployer/deployment_deployer.go:206-247 | no assigned id is one a synchronised machine was last seen to use on the node |
| `NetworkState.AssignmentIsStable` | deployer/deployment_deployer.go:206-247 | a second assignment changes nothing |
| `NetworkState.ClashExactlyWhenNext` | deployer/deployment_deployer.go:219-245 | assigned addresses clash with preset ones exactly when some preset id is not in use and fewer lower ids are free than machines need one |
| `NetworkState.PresetAddressIsHandedOut` | deployer/deployment_deployer.go:219-227 | a concrete clash: a machine preset to host 2 gets a double |
| `NetworkState.IntendedReadingNeverClashes` | deployer/deployment_deployer.go:219-227 | the intended reading, by the last octet, never clashes |
| `NetworkState.SuccessiveAssignmentsClash` | deployer/deployment_deployer.go:206-247 | two assignments over the same ids in use share a host id exactly when both have a machine without address |
| `Lifecycle.DeployBoth` | deployer/deployment_deployer.go:64-89 | so do two deployments on one node and network with no synchronisation in between |
| `DeploymentDeployer.ValidateVMs` | workloads/deployment.go:63-74 | accepted exactly when the network name is not blank and every machine has 1 to 32 CPUs and its published checksum |
| `DeploymentDeployer.DeploymentDeployer.UsedHosts` | deployer/deployment_deployer.go:219-227 | the scan over preset addresses adds the byte 0 at most |
| `DeploymentDeployer.DeploymentDeployer.AssignHostIDs` | deployer/deployment_deployer.go:228-245 | the in-place loop is the specified assignment |
| `DeploymentDeployer.DeploymentDeployer.AssignNodesIPs` | deployer/deployment_deployer.go:206-247 | the addresses follow from the node's subnet and the recorded host ids; no other network changes |
| `DeploymentDeployer.DeploymentDeployer.GenerateVersionlessDeployments` | deployer/deployment_deployer.go:31-61 | addresses are assigned, then the declaration is printed; None exactly when either fails |
| `DeploymentDeployer.DeploymentDeployer.Record` | deployer/deployment_deployer.go:80-87 | a tracked contract is recorded on the object and once in its node's list |
| `DeploymentDeployer.DeploymentDeployer.Deploy` | deployer/deployment_deployer.go:64-89 | one step of the local state; no recorded host id changes; after a successful deployment the node holds what the flattened declaration requests and, if it was written to, a wait for it ended on a full poll |
| `DeploymentDeployer.DeploymentDeployer.Cancel` | deployer/deployment_deployer.go:92-108 | one step of the local state; a success removes the contract from the chain and from all three local places, a failure changes nothing |
| `DeploymentDeployer.DeploymentDeployer.SyncContract` | deployer/deployment_deployer.go:249-266 | the contract id is dropped only if the contract is not live |
| `DeploymentDeployer.DeploymentDeployer.Sync` | deployer/deployment_deployer.go:111-194 | every exit of a synchronisation, its effect on the host index, and the round trip: after any answer in any order the declaration is restored |
| `Lifecycle.StoredIsReturned` | deployer/deployment_deployer.go:111-193 | a node's full answer to what it stores, in any order, is one to the flattened declaration it was sent |
| `Lifecycle.EveryOrderIsPossible` | deployer/deployment_deployer.go:111-193 | for any stored deployment with distinct names and any order there is a node that deploys all of it and returns it so: the premise of the round trip can be met |
| `Lifecycle.DeployThenSync` | deployer/deployment_deployer.go:64-194 | deploy, let the node provision and answer in any order, synchronise: when both succeed the object holds its declaration again, with its assigned addresses and the node's computed fields |
| `LocalState.DeployKeeps` | deployer/deployment_deployer.go:78-87 | deploying preserves the agreement of local state |
| `LocalState.CancelKeeps` | deployer/deployment_deployer.go:97-105 | cancelling preserves it and leaves no trace of the contract |
| `LocalState.AgreesOverRuns` | deployer/deployment_deployer.go:64-108 | over every run a non-zero contract id is the one tracked on its node and is listed exactly once there, and objects track distinct contracts |
| `Cluster.ValidateNames` | workloads/k8s.go:204-215 | accepted exactly when master and workers have pairwise distinct names |
| `Cluster.Record` | deployer/k8s_deployer.go:236-253 | one workload fills its table columns |
| `Cluster.RecordAll` | deployer/k8s_deployer.go:231-255 | all nodes in any order; None exactly when something does not parse |
| `Cluster.FollowAll` | deployer/k8s_deployer.go:191-217 | key, token and network follow the first machine that differs; the source panics on a machine that does not parse |
| `Cluster.AgreedSettings` | deployer/k8s_deployer.go:191-217 | if the machines agree on their settings the cluster takes them over, whatever the order |
| `Cluster.IndexFindsEach` | deployer/k8s_deployer.go:231-255 | under unique names every entry is found, whatever order the nodes were visited in |
| `Cluster.KeepWorkers` | deployer/k8s_deployer.go:283-302 | declared workers still there are kept in declared order, each once |
| `Cluster.AddMissing` | deployer/k8s_deployer.go:303-317 | the machines left over follow in any order, without the master; without a master the first one panics |
| `Cluster.K8sCluster.UpdateContracts` | deployer/k8s_deployer.go:219-223 | the tracked contracts become those the nodes report |
| `Cluster.K8sCluster.Assemble` | deployer/k8s_deployer.go:267-318 | master and workers, and exactly when the assembly succeeds |
| `Cluster.K8sCluster.Rebuild` | deployer/k8s_deployer.go:191-318 | settings, contracts, master and workers from the fetched deployments, and exactly when that succeeds |
| `K8sDeployer.RemoveDeletedContracts` | deployer/k8s_deployer.go:330-344 | exactly the contracts not deleted stay tracked; if one cannot be looked up nothing changes |
| `K8sDeployer.UpdateFromRemote` | deployer/k8s_deployer.go:177-328 | the whole update on every exit: the tracked contracts are those not deleted; a success is characterised exactly, and under unique names leaves exactly the machines the nodes hold |
| `ClusterRebuild.BuiltIsMachine` | deployer/k8s_deployer.go:256-317 | a machine is built with its own node, disk size and public addresses |
| `ClusterRebuild.ClusterIsRebuilt` | deployer/k8s_deployer.go:219-318 | with the master there and unique names the cluster's machines are exactly the remote ones, survivors first in declared order; none occurs twice exactly when the master is not declared as a worker |
| `ClusterRebuild.PrintedNodeIsRebuilt` | workloads/k8s.go:272-330 | a node that was printed and answered, among any others with unique names, is rebuilt as declared exactly when CPU and sizes fit and its address is canonical |
| `ClusterRebuild.NodeRoundTrip` | workloads/k8s.go:73-330 | a printed and answered machine carries the cluster's settings, and is read back exactly when CPU and sizes fit and its address is canonical |

## Left out

- RMB, chain, grid proxy and HTTP transport, signing and md5: calls are steps that may fail, or functions; digests are uninterpreted.
- JSON: typed data stands for its text, and data that does not parse as its type is a value of its own; metadata strings are absent.
- Deployer.Deployer.CreateOne: a failed contract creation is taken to have no effect on the chain, because the client learns no id from it.
- GridWorld.World.UpdateNodeContract: the updated contract keeps its id, where the source takes over whatever id the chain returns.
- Provisioning during a call: a node answers what it stores between two operations of the client, not in the middle of one, and a wait reads an arbitrary sequence of change lists that is not tied to the store.
- Agreement of the on-chain hash with the node after a failed update: the chain is written first, and a compensation that finds the node unchanged skips it.
- Deployer.Deployer.Renumber: versions are written into the request's map; sharing of one workload slice between two deployments is not captured.
- Retry intervals and jitter: polls are an arbitrary sequence with an advancing clock and the 50 minute bound.
- IPv6 ranges and addresses: a range is IPv4, and an IPv6 address is only its fourth byte and its text.
- Account balance, node liveness before deployment, key generation, free WireGuard ports, image checksums: parameters or functions.
- NetworkRun.Deploy: the balance and node liveness checks at its start, printing, and the bookkeeping in CurrentNodeNetworks and UpdateNetwork are absent.
- NodesConfig.ReadNodesConfig: a WireGuard key that does not decode is not modelled, because secrets are numbers; the read-back at the end of cancelling a network is absent with that cancellation.
- NetworkWorkload.ZNet.AssignNodesIPs: addresses are four octets; `SubnetBytes` states what the other byte form changes, for subnets that are all kept in one form.
- State.IsOkay: the library's test of a workload's state, taken to be the OK state alone, is not part of this model.
- Matching.Match: `sort.Slice` is a selection sort behind a contract that promises nothing about ties; only that contract is used.
- DeploymentDeployer.DeploymentDeployer.Cancel: a node's list is copied into an array for the deletion, so sharing of its backing array with other slices is not captured.
- DeploymentDeployer.DeploymentDeployer.Deploy: several objects tracking one contract from the start are outside the invariant.
- K8sDeployer.UpdateFromRemote: the copies of the disk and address columns under machine names are read through; the text of a missing public range is the library's, so whether it reads as an address is left to `showRange`.
- ZosDeployment, NewDeploymentFromZosDeployment, GetUsedIPs: repetitions of the printing and reading that is modelled.
- The Kubernetes address allocator: it reads the same wrong byte, and used ids are skipped for workers without address, so distinctness does not follow from the code.
- Gateway deployers, graphql, state loading, client construction, mocks, integration tests and the map conversions.
