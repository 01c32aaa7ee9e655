# A verified model of the Harvester load balancer

The Harvester load balancer hands out IPv4 addresses from IPPools to LoadBalancer objects, keeps an
EndpointSlice per LoadBalancer routable, and probes the backends. This project models the parts of it
where correctness depends on several steps, several objects or several goroutines, and proves what
those parts keep.

| modules | what they model |
|---|---|
| `Common`, `Bits`, `Text` | shared values; n-bit words, masks and powers of two; the text codecs |
| `Ipv4`, `Ranges`, `KubeVip` | byte-wise address arithmetic, range construction, counting, range checks, kube-vip conversion |
| `PoolStore`, `Allocation` | the booking store over version-guarded writes, and `Allocator.Get` with its history affinity |
| `Booking`, `Recovery`, `BookingLimits`, `LbController` | the two-object booking protocol, recovery of a lost write, runs that break uniqueness outside the assumptions, the handlers as refinements |
| `PoolController` | pool status refresh and manual release |
| `Selection`, `PoolAdmission`, `CrossPool` | pool selection, the webhooks that make it unambiguous, and what they add to the booking protocol |
| `ProbeWorker`, `ProbeManager`, `ProbeConcurrency` | the threshold counters, the worker table and its diff, the goroutines as a step system |
| `LbSpecs`, `EndpointSlices`, `ServiceLb`, `Listeners` | slice construction and reconciliation, the service manager that ties slices and probers together, admission of listeners and health checks |

`dafny verify dfyconfig.toml` checks everything.

## How the system is modelled

- **API server.** A pool is the log of every version ever stored. A read may return any version, a
  write takes effect only if it was computed from the newest one, and each write may be dropped or
  have its answer lost (`Common.Fault`). `Store.Lock` and `Store.Unlock` do nothing in the program
  (pkg/ipam/store/store.go:30-36), so there is no other mutual exclusion in the model.
- **The booking protocol** is a state machine over 15 actions. A run is any sequence of them: object
  edits, reconcile steps with stale pool reads and faulty writes, crashes between any two steps, pool
  edits, status refreshes and manual releases. `LbController` is the imperative code of the handlers;
  each handler call is proved to be a run of that machine.
- **Goroutines** are a step system: one holder of the write lock, readers, workers that select, probe
  or block on a send, and one consumer.
- **Classes** are used where the program updates fields in place (stores, handlers, workers, the
  worker table, the service manager); each of their methods is proved equal to a function of the old
  state, and the properties are proved about those functions.
- **Map iteration** order is arbitrary: loops over maps pick any remaining key.

Assumptions on runs: one allocator call reads one version of the pool; a reconcile sees at least its
own last status write; reconciles of one key do not overlap; an allocator's ranges are the pool's;
pools are created with nothing booked; admission sees the current pools; a manual release that finds
no LoadBalancer is right about that; addresses are IPv4. The host-local allocator of the CNI plugins
is used through its contract: a requested address must be in range and not the gateway, otherwise an
id that already holds an address in range is a duplicate, otherwise candidates are tried once each.
The checksum of ranges is equality of ranges. A nil map is an empty map.

## What the proofs turned up

Each point names the lemma that shows the behaviour and the one that says exactly when it occurs.

- The status refresh of the pool controller gets one chance per process: the allocator with the new
  ranges is registered before the write, so until the process restarts or the ranges change again every
  later `OnChange` takes the early exit. `Total` and `Available` become right exactly if they already
  were or the handler read the newest version and its write was not dropped, whatever bookings and
  releases happen later (`PoolController.FailedRefreshIsNeverRetried`, `RefreshLandsIff`,
  `AvailableIsRightIff`; over restarts `TotalIsRightIff`).
- `Allocator.Get` never falls back to a search. An applicant whose remembered address has become a
  gateway is refused for good while other addresses are free (`Allocation.StuckForever`,
  `StuckApplicant`); `Allocation.AvailableMeansGranted` says who is granted an address.
- `checkAllocated` lets a gateway move onto a booked address. Then `Available` counts too little: a
  newcomer is served at 0 and leaves it at -1 (`Allocation.ServedBelowZero`, `FreeCountIsSize`).
- A crash between booking and record, followed by a deletion, leaks the booking
  (`BookingLimits.CrashThenDeleteLeaks`); `Booking.RemoveLeavesBookedIff` says what a removal leaves.
- Three assumptions are needed for unique addresses, each shown by a run from an empty cluster: a
  reconcile that does not see its own status write, a pool change that is taken back before the status
  is cleared, and an allocator call that reads two versions of a pool let two LoadBalancers record one
  address (`BookingLimits.StaleStatusReadCollides`, `ChangingThePoolBackCollides`,
  `TwoSnapshotsInOneCallCollide`). The steps at fault: `BookingLimits.ReleaseKeepsOwnIff` says which
  releases leave a recorded address alone, `SplitOwnsIff` when a grant is the applicant's own.
- A kube-vip range with one address, or with exactly the two addresses of a /31, is converted into a
  range that `MakeRange` always refuses (`KubeVip.TinyRangesRefused`, `ConvertedAccepted`).
- The comment in `MakeRange` says a range starts at `.1`; a default /31 also offers the network
  address, because its bounds are swapped (`Ranges.PointToPointRanges`, `DefaultOffersNetworkIff`).
- An admitted health check can have a period that wraps below zero, which `time.NewTicker` does not
  accept (`Listeners.AdmittedPeriodCanBeNegative`, `PositivePeriodIff`).
- With health checks on and no server ready, every reconcile first removes the dummy endpoint and then
  adds it again, so between its two writes the slice has no ready endpoint
  (`EndpointSlices.DummyFlickers`, `FirstWriteReadyIff`). With health checks off, the first run on new
  endpoints returns a conflict error, and the next one succeeds without writing
  (`EndpointSlices.ConflictHealsOnRetry`, `FaultFreeFailsIff`).
- Strict selection among admitted pools can depend on the listing order for a requirement with a `*`
  field (`PoolAdmission.StarTieIsAdmitted`, `Selection.OrderFreeIffUntied`).
- Stopping a worker under `workerLock` is free of deadlock only because the condition handler does not
  take that lock (`ProbeConcurrency.LockingHandlerDeadlocks`, `LockingHandlerCanGetStuck`, `StopCanReturn`).

## Model

| member | source | states |
|---|---|---|
| Ipv4.BytesRoundTrip | pkg/ipam/allocator.go:178-183 | an address written as four bytes is read back as the same number |
| Ipv4.MaskBytesIsNetwork | pkg/ipam/allocator.go:166-168 | masking the bytes of any address clears exactly the host bits |
| Ipv4.OrNotBytes | pkg/ipam/allocator.go:170-176 | the byte-wise `ip or not mask` is that operation on the whole word, for any length |
| Ipv4.HostBits | pkg/ipam/allocator.go:143-176 | the bytes both loops fill spell network + size - 1 |
| Ipv4.NetworkIp | pkg/ipam/allocator.go:166-168 | networkIP is the first address of the block |
| Ipv4.BroadcastIp | pkg/ipam/allocator.go:170-176 | the byte loop yields the last address of the block |
| Ipv4.LastByteOdd | pkg/ipam/allocator.go:149-151 | with host bits the last byte is not zero, so its decrement never borrows |
| Ipv4.LastIp | pkg/ipam/allocator.go:143-154 | the loop and the decrement yield network + 2^(32-p) - 2 for every prefix up to /31 |
| Ranges.ParseIp | pkg/ipam/allocator.go:121-141 | accepts exactly an empty field or an address strictly between network and broadcast, and then yields the default or that address |
| Ranges.Defaults | pkg/ipam/allocator.go:70-91 | default start, end and gateway, with the /32 case apart |
| Ranges.MakeRange | pkg/ipam/allocator.go:63-119 | the range of the specification function, or the first field that is wrong |
| Ranges.RangeInsideSubnet | pkg/ipam/allocator.go:63-141 | up to /30, success exactly when the explicit fields are strictly inside, and then start <= end and all three fields strictly inside |
| Ranges.FieldsDecideRange | pkg/ipam/allocator.go:93-118 | an accepted explicit gateway is the range's gateway and is never handed out, explicit bounds are the bounds up to order, missing fields are network + 1, broadcast - 1 and network + 1 |
| Ranges.FirstBadFieldDecides | pkg/ipam/allocator.go:63-104 | which error an entry gets, and that it gets none exactly when no field is rejected |
| Ranges.PointToPointRanges | pkg/ipam/allocator.go:70-91 | what a default /31 and /32 offer, and that no explicit address is accepted there |
| Ranges.DefaultOffersNetworkIff | pkg/ipam/allocator.go:70-111 | without explicit fields, network and broadcast address are offered exactly from /31 on |
| Ranges.RangeSetOf | pkg/ipam/rangeset.go:9-20 | all ranges in order, or the first error |
| Ranges.CountIsSize | pkg/ipam/allocator.go:156-164 | countIP is the number of addresses in the range other than its gateway |
| Ranges.TotalIsSize | pkg/ipam/allocator.go:41-51 | on disjoint ranges the accumulated total is the size of the union of the ranges, each without its gateway |
| Ranges.NewAllocator | pkg/ipam/allocator.go:36-61 | refuses no ranges or a bad range, else yields all ranges and, on disjoint ones, the number of addresses on offer |
| Ranges.CheckRange | pkg/webhook/ippool/validator.go:144-162 | accepts exactly when no two ranges of the pool overlap and none overlaps another pool |
| Ranges.DisjointIff | pkg/webhook/ippool/validator.go:145-152 | the check within a pool accepts exactly when no address lies in two of its ranges |
| Ranges.ClashIsShared | pkg/webhook/ippool/validator.go:154-159 | two range sets clash exactly when some address lies in both |
| Ranges.CheckAllocated | pkg/webhook/ippool/validator.go:164-177 | accepts exactly when every booked address is in the ranges |
| KubeVip.GetIpNet | pkg/controller/ippool/kubevip/kubevip.go:193-225 | the descending search finds the longest prefix of at most 31 bits that both endpoints share |
| KubeVip.ParsePool | pkg/controller/ippool/kubevip/kubevip.go:159-191 | every piece becomes one range in order with the tightest subnet, or the whole pool is refused |
| KubeVip.WholeSubnetOffers | pkg/controller/ippool/kubevip/kubevip.go:166-171 | a subnet of the cidr format offers, up to /30, exactly the addresses strictly inside it |
| KubeVip.ConvertedAccepted | pkg/controller/ippool/kubevip/kubevip.go:172-183 | MakeRange accepts the converted range exactly when neither endpoint is the first or last address of that subnet, and then offers exactly the interval between them with the default gateway |
| KubeVip.TinyRangesRefused | pkg/controller/ippool/kubevip/kubevip.go:208-216 | a one-address range gets a /31, and a /31 is never accepted |
| PoolStore.ApiServer.Update | pkg/ipam/store/store.go:73-75 | a write takes effect only from the newest version; a dropped or stale one changes nothing |
| PoolStore.Store.Reserve | pkg/ipam/store/store.go:42-78 | refused for another owner, granted without a write for the same owner, else one guarded write of the booking |
| PoolStore.Store.Release | pkg/ipam/store/store.go:89-120 | one guarded write that moves the booking to the history, or nothing if it is not booked |
| PoolStore.Store.ReleaseById | pkg/ipam/store/store.go:122-158 | frees exactly one address of the id, or nothing if it holds none |
| PoolStore.Store.GetById | pkg/ipam/store/store.go:160-176 | exactly the addresses booked for the id |
| PoolStore.Store.LastReservedIp | pkg/ipam/store/store.go:80-87 | the last booked address the version shows |
| PoolStore.EditsAreLocal | pkg/ipam/store/store.go:62-71 | field by field what a booking and a release change, and that every other address keeps its place |
| PoolStore.BookedOnce | pkg/ipam/store/store.go:62-71 | a booking keeps ids unique if the id occurred nowhere or only at that address |
| PoolStore.FreedOnce | pkg/ipam/store/store.go:137-148 | a release keeps ids unique and changes no occurrence |
| PoolStore.RunsStayAccounted | pkg/ipam/store/store.go:42-158 | in every run of all five writers with any stale reads and faults, every stored version has Available + booked = Total and disjoint booked and history keys |
| Allocation.Allocator.Get | pkg/ipam/allocator.go:193-209 | the remembered address is asked for if there is one, else a search; result and pool write for each outcome |
| Allocation.Allocator.GetRequested | pkg/ipam/allocator.go:202-204 | the requested address is granted, written or refused as the range, gateway and booking say |
| Allocation.Allocator.GetAny | pkg/ipam/allocator.go:208-208 | the duplicate error if the id holds an address in range, else the first free candidate |
| Allocation.ScanIsDeterministic | pkg/ipam/allocator.go:199-206 | with unique ids the history scan finds the same address in every map order |
| Allocation.GrantsAreWrites | pkg/ipam/allocator.go:193-209 | on one snapshot every grant goes through a write of that very call |
| Allocation.TryKeepsGood | pkg/ipam/allocator.go:193-209 | a granted write books a free, in-range address and keeps all pool invariants |
| Allocation.RunsKeepIdsUnique | pkg/ipam/store/store.go:42-176 | after any run of gets, releases and refreshes by any ids each id occurs at most once in bookings and history together |
| Allocation.AvailableMeansGranted | pkg/ipam/allocator.go:193-209 | on every good pool and for every applicant: a holder is not granted, a remembered applicant exactly when its old address may still be requested, any other exactly when an address is free; how the number of free addresses relates to Available |
| Allocation.FreeCountIsSize | pkg/ipam/allocator.go:156-164 | the free addresses number Available, corrected by what Total is off and by the bookings on which a gateway now lies |
| Allocation.StuckForever | pkg/ipam/allocator.go:199-206 | no run of gets, releases and refreshes with any stale reads and faults ever grants an address to an applicant whose remembered address is a gateway |
| Allocation.StuckApplicant | pkg/ipam/allocator.go:199-206 | a pool with such an applicant, two free addresses and a newcomer that is served |
| Allocation.OutOfRangeIsNoDuplicate | pkg/ipam/allocator.go:208-208 | holding only addresses outside the ranges is no duplicate |
| Allocation.ServedBelowZero | pkg/webhook/ippool/validator.go:164-177 | a good pool with the gateway on a booked address, where a newcomer is served at Available 0 and leaves it at -1 |
| Booking.ReleaseOldKeeps | pkg/controller/loadbalancer/controller.go:268-279 | releasing for a changed pool keeps the protocol invariant |
| Booking.AllocateKeeps | pkg/controller/loadbalancer/controller.go:282-300 | an allocation from any stale version, with any fault, keeps it |
| Booking.ReleaseDuplicateKeeps | pkg/controller/loadbalancer/controller.go:320-337 | the duplicate release keeps it |
| Booking.RecordKeeps | pkg/controller/loadbalancer/controller.go:216-235 | the status write, successful or not, keeps it |
| Booking.RemoveKeeps | pkg/controller/loadbalancer/controller.go:119-142 | removal keeps it, whether or not a later step of the removal fails |
| Booking.NextKeeps | pkg/controller/loadbalancer/controller.go:94-337 | every action of the protocol keeps it |
| Booking.RunsStaySafe | pkg/controller/loadbalancer/controller.go:268-304 | over whole runs, a settled LoadBalancer whose stored status names an address owns that address in that pool |
| Booking.AddressesStayUnique | pkg/controller/loadbalancer/controller.go:268-304 | from an empty cluster no two settled LoadBalancers ever record the same address of a pool |
| Booking.RemoveLeavesBookedIff | pkg/controller/loadbalancer/controller.go:119-142 | when a removal takes the object away, an address stays booked for it exactly if it was and is not the one released for pool IPAM in the recorded pool |
| Recovery.FirstReconcileReleases | pkg/controller/loadbalancer/controller.go:282-296 | with a booking but no record, one reconcile meets the duplicate error and frees that address, whatever others do between its steps |
| Recovery.SecondReconcileRecords | pkg/ipam/allocator.go:199-206 | the next one gets the same address from the history and records it, whatever others do between its steps |
| Recovery.BookingCommutes | pkg/ipam/store/store.go:62-71 | booking one address commutes with any edits of the others |
| Recovery.RunIsEdits | pkg/ipam/store/store.go:42-158 | over any run of the others the ledger changes by exactly the edits of their actions, and the kept address stays |
| Recovery.LostWriteIsRecovered | pkg/controller/loadbalancer/controller.go:281-337 | after both reconciles, with any run of the others in each gap between the six steps, the LoadBalancer records the very address that was booked, and bookings and Available are what the edits read off the others' actions make of those at the start |
| Recovery.RecoveryAloneChangesNothing | pkg/controller/loadbalancer/controller.go:281-337 | with nobody else writing, bookings and Available end as they began |
| BookingLimits.StaleStatusReadCollides | pkg/controller/loadbalancer/controller.go:282-294 | a run in which a reconcile misses its own status write and two settled LoadBalancers record one address |
| BookingLimits.ChangingThePoolBackCollides | pkg/controller/loadbalancer/controller.go:270-278 | the same for a pool change that is undone before the status is cleared |
| BookingLimits.TwoSnapshotsInOneCallCollide | pkg/ipam/store/store.go:50-60 | a run that reads its own writes, with one allocator call that scans one version and reserves against a later one, after which two settled LoadBalancers record one address |
| BookingLimits.ReleaseKeepsOwnIff | pkg/ipam/store/store.go:122-158 | a release leaves a recorded address booked exactly if it is in another pool, computed from an older version, or dropped |
| BookingLimits.SplitOwnsIff | pkg/ipam/store/store.go:50-60 | a grant by such a call is the applicant's own exactly if the version it reserved against does not book the address or the newest one still books it for the applicant |
| BookingLimits.SplitOfOneIsAllocate | pkg/ipam/allocator.go:193-209 | such a call on one snapshot is the protocol's own allocation |
| BookingLimits.CrashThenDeleteLeaks | pkg/controller/loadbalancer/controller.go:125-131 | a run in which a crash before the record and a deletion leave a booking without an owner |
| LbController.Handler.EnsureAllocatedAddressPool | pkg/controller/loadbalancer/controller.go:268-304 | the handler's effect on pools and status copy is a safe run of this id's actions: for a changed pool one release exactly when the pool can be called, without a recorded address the allocation and, after a duplicate, the release, each exactly when it can be called; it ends ready to record the copy's address, or reports an error and leaves the copy alone |
| LbController.Handler.BookOrFree | pkg/controller/loadbalancer/controller.go:281-301 | the branch without a recorded address: a grant is put into the copy, a duplicate is released and reported |
| LbController.GrantIsBooked | pkg/controller/loadbalancer/controller.go:339-357 | on the newest version without a fault, the granted address is booked for the id |
| LbController.DuplicateIsFreed | pkg/controller/loadbalancer/controller.go:320-337 | on the newest version without a fault, after the duplicate release the id holds nothing in the pool |
| LbController.DuplicateRunIsRecovery | pkg/controller/loadbalancer/controller.go:282-287 | while the booking is there, the allocation the handler makes is the first recovery step |
| LbController.ReleaseRunIsRecovery | pkg/controller/loadbalancer/controller.go:287-294 | and the release it makes is the second |
| LbController.GrantRunIsRecovery | pkg/controller/loadbalancer/controller.go:282-300 | while the address is remembered, the allocation the handler makes is the booking step of the recovery |
| LbController.Handler.SelectIpPool | pkg/controller/loadbalancer/controller.go:359-390 | the strict answer, else for guest clusters the loose one on a second listing, else none |
| LbController.SelectedPoolMeans | pkg/controller/loadbalancer/controller.go:359-390 | a selected pool is a strict match, else the global pool, and only for a guest cluster with neither a loose match; the namespace asked for falls back to the object's own |
| LbController.SelectedPoolIsStable | pkg/controller/loadbalancer/controller.go:359-390 | on any admitted pool set a requirement without `*` selects the same pool for every listing, unless it falls through to the loose retry |
| LbController.Handler.ReleaseOldPool | pkg/controller/loadbalancer/controller.go:270-279 | the branch of a changed pool is one release action for the old pool exactly when that pool has an allocator and is shown, else an error |
| LbController.Handler.BookAddress | pkg/controller/loadbalancer/controller.go:282-300 | the allocator call is exactly one allocation on the chosen pool when it can be called, with its result, else an error and nothing |
| LbController.Handler.AllocateIpFromPool | pkg/controller/loadbalancer/controller.go:306-357 | the allocator is called exactly when a pool is chosen, has an allocator and is shown; each error exactly when it applies |
| LbController.Handler.TryReleaseDuplicated | pkg/controller/loadbalancer/controller.go:320-337 | exactly one duplicate release on the chosen pool when it can be called, else nothing; never an address recorded |
| LbController.Handler.Release | pkg/controller/loadbalancer/controller.go:392-399 | the allocator is called exactly when there is one and the pool is shown, and then frees what the pool records for the id |
| LbController.Handler.OnRemove | pkg/controller/loadbalancer/controller.go:119-142 | removal releases exactly for pool IPAM with a recorded pool, as at most one removal action that keeps the protocol safe; the object goes exactly when neither the release nor the deletion of the service failed |
| PoolController.Handler.CorrectAllocatedHistory | pkg/controller/ippool/controller.go:140-159 | the history restricted to addresses still in range, or the error of a bad range |
| PoolController.Handler.UpdateStatus | pkg/controller/ippool/controller.go:112-138 | one guarded write of the recomputed counters, skipped when nothing changes; an error and no write for bad ranges |
| PoolController.Handler.OnChange | pkg/controller/ippool/controller.go:59-81 | allocator map and pools after the handler, and when it fails, bad and empty ranges included |
| PoolController.OnChangeSetsTotal | pkg/controller/ippool/controller.go:66-78 | a refresh from the newest version that is not dropped sets Total, balances Available, keeps the bookings and trims the history |
| PoolController.FailedRefreshIsNeverRetried | pkg/controller/ippool/controller.go:66-78 | after a stale or dropped status write, whatever later handler runs and other writers do in this life of the process, only the other writers' effects remain |
| PoolController.RefreshHasOneChance | pkg/controller/ippool/controller.go:66-78 | for every version and fault, the pool after any later events of this life is what the other writers make of that one attempt |
| PoolController.RefreshLandsIff | pkg/controller/ippool/controller.go:66-78 | Total, and without other writers the whole status, ends right exactly if it was right or the handler read the newest version and the write was not dropped |
| PoolController.AvailableIsRightIff | pkg/controller/ippool/controller.go:112-138 | the same condition for Available, over any later bookings and releases |
| PoolController.TotalIsRightIff | pkg/controller/ippool/controller.go:59-81 | over any number of restarts, Total ends right exactly if it was right or in some life the first handler run on the ranges read the newest version and was not dropped |
| PoolController.EditIsFollowed | pkg/controller/ippool/controller.go:66-78 | after an edit of the ranges the next handler run replaces the allocator, and Total, Available and history follow the new ranges when its write lands |
| PoolController.EditedRunIff | pkg/controller/ippool/controller.go:59-81 | the same as an iff over whole runs in which the ranges change |
| PoolController.Handler.OnChangeToReleaseAnIp | pkg/controller/ippool/controller.go:163-213 | every branch of a manual release: what is released, cleared or left for a retry |
| PoolController.Handler.ReleaseThenClear | pkg/controller/ippool/controller.go:200-213 | the release, then the annotation write from the older version |
| PoolController.Handler.RemoveAnnotation | pkg/controller/ippool/controller.go:215-219 | one guarded write that drops only the annotation |
| PoolController.LookupText | pkg/controller/ippool/controller.go:182-182 | the map lookup by text finds the booking of that address, or the empty string |
| PoolController.ReleasesTheNamed | pkg/controller/ippool/controller.go:163-213 | a run that releases frees exactly the address the request names, recorded for the named id, with the LoadBalancer absent |
| PoolController.ManualReleaseIsExact | pkg/controller/ippool/controller.go:163-219 | any run either leaves the status alone or frees exactly that, and the stale annotation write cannot undo it |
| PoolController.FreedRequestIsCleared | pkg/controller/ippool/controller.go:181-186 | once the address is free the request is only cleared |
| PoolController.ManualReleaseCompletes | pkg/controller/ippool/controller.go:163-219 | two conflict-free runs release the address and clear the request, and change nothing else |
| PoolController.LookupDecides | pkg/controller/ippool/controller.go:188-198 | a lookup error keeps booking and request, a found LoadBalancer keeps its booking, a missing one loses it |
| PoolController.UnreadableIsCleared | pkg/controller/ippool/controller.go:168-179 | nothing happens exactly without a request, and an unreadable one is cleared |
| Text.UidRoundTrip | pkg/lb/servicelb/manager.go:466-479 | a uid is read back exactly when neither part contains a slash |
| Text.ProberAddressRoundTrip | pkg/lb/servicelb/manager.go:481-495 | a prober address is read back exactly when the address has no colon |
| Text.RequestSpells | pkg/utils/vid.go:54-72 | whatever is accepted spells the three parts it yields |
| Text.RequestRoundTrip | pkg/utils/vid.go:53-72 | a request in the documented form yields its three parts |
| Text.TrimIsExact | pkg/utils/vid.go:55-61 | trimming takes away all blanks at both ends and nothing else |
| Text.DigitsSpell | pkg/lb/servicelb/manager.go:481-484 | a port is written in decimal, and reading it gives the number back |
| Text.PortKeyInjective | pkg/webhook/loadbalancer/validator.go:119-127 | two keys are equal only for the same protocol and port |
| Text.AddrTextInjective | pkg/ipam/store/store.go:48-51 | distinct addresses have distinct texts, so the map keyed by text is a map keyed by address |
| Text.AddrTextSpells | pkg/ipam/store/store.go:48-48 | the text of an address is its four bytes in decimal, highest first |
| Selection.ScopeMatchIsOverlap | pkg/ipam/selector.go:99-110 | strict scope against scope holds exactly when some requirement without `*` is, field by field, admitted by both |
| Selection.ScopeMatchIsSymmetric | pkg/ipam/selector.go:99-122 | it is symmetric, and every strict match is a loose match |
| Selection.StrictMatchIff | pkg/ipam/selector.go:99-110 | for a requirement without `*` a strict match is, field by field, `*` or equality |
| Selection.LooseMatchIff | pkg/ipam/selector.go:112-121 | loose mode also reads an empty project or cluster of the scope as `*`, and no other field |
| Selection.StarFreesOneField | pkg/ipam/selector.go:99-122 | a `*` frees the match from its own field and from no other |
| Selection.Matches | pkg/ipam/selector.go:52-64 | same network and some matching scope |
| Selection.Select | pkg/ipam/selector.go:70-97 | the last of the highest-priority matching non-global pools, else the last global one |
| Selection.OrderFreeIffUntied | pkg/ipam/selector.go:79-96 | in either mode the answer is the same for all orders exactly when the highest priority is not shared |
| Selection.CheckSelectorItself | pkg/webhook/ippool/validator.go:212-234 | accepts exactly when the pool's scopes are pairwise disjoint |
| Selection.ScopesClash | pkg/webhook/ippool/validator.go:251-262 | the shared requirement, overwritten per scope, finds exactly the overlaps with another pool |
| Selection.CheckSelectorWithOthers | pkg/webhook/ippool/validator.go:236-267 | accepts exactly when every other non-global pool is compatible |
| Selection.CompatibleIff | pkg/webhook/ippool/validator.go:247-263 | compatible means other priorities, or both 0 and no plain requirement served by both |
| Selection.PlainStrictIsUntied | pkg/webhook/ippool/validator.go:236-267 | among compatible pools a requirement without `*` never meets a tie |
| Selection.StarRequirementCanTie | pkg/ipam/selector.go:102-107 | a requirement with `*` whose answer depends on the order of two compatible pools |
| PoolAdmission.Labelled | pkg/webhook/ippool/mutator.go:73-106 | the stored global label is what the spec says, whatever the request carried; spec and bookings are kept |
| Selection.GlobalIffAdmitsAll | pkg/webhook/ippool/mutator.go:103-106 | the global pool is the one with a single scope that admits every requirement |
| PoolAdmission.OtherRanges | pkg/webhook/ippool/validator.go:120-142 | the range sets of exactly the other pools, or an error if one is bad |
| PoolAdmission.CheckRanges | pkg/webhook/ippool/validator.go:66-82 | accepts exactly when the ranges are valid, disjoint, and disjoint from all other pools |
| PoolAdmission.CheckSelector | pkg/webhook/ippool/validator.go:182-210 | one global pool at most, else self-disjoint and compatible |
| PoolAdmission.Admit | pkg/webhook/ippool/validator.go:32-93 | the whole decision, for any listing order |
| PoolAdmission.SelectorAdmittedIff | pkg/webhook/ippool/validator.go:179-267 | what an admitted selector means for the requirements it and the other pools serve |
| PoolAdmission.RangesAdmittedIff | pkg/webhook/ippool/validator.go:66-82 | what admitted ranges mean for the addresses of this and the other pools |
| PoolAdmission.HandleKeeps | pkg/webhook/ippool/validator.go:32-103 | every create, update, delete and booking keeps the admission invariant |
| PoolAdmission.RunsKeep | pkg/webhook/ippool/validator.go:32-103 | so does every sequence of them |
| PoolAdmission.NoAddressInTwoPools | pkg/webhook/ippool/validator.go:59-93 | after any sequence all ranges are disjoint, bookings are in their own ranges, and no address is booked in two pools |
| PoolAdmission.StrictSelectionIsUnambiguous | pkg/ipam/selector.go:70-97 | on any reached pool set strict selection without `*` gives for every listing order the one highest-priority match, else the one global pool, else none |
| PoolAdmission.StarTieIsAdmitted | pkg/webhook/ippool/validator.go:236-267 | two admitted creates and a requirement with `*` whose answer depends on the listing order |
| CrossPool.AdmittedFits | pkg/webhook/ippool/validator.go:144-162 | ranges that the validator admits overlap no other stored pool |
| CrossPool.OthersKeepRanges | pkg/ipam/store/store.go:42-158 | no booking, release, refresh or status write changes the ranges of a pool |
| CrossPool.RunsKeepApart | pkg/webhook/ippool/validator.go:59-93 | over every booking run whose ranges are set as admitted, the ranges of any two pools stay apart |
| CrossPool.NoAddressRecordedTwice | pkg/controller/loadbalancer/controller.go:268-304 | from an empty cluster, in such runs no two settled LoadBalancers record the same address, whichever pools they got it from |
| ProbeWorker.Worker.constructor | pkg/prober/worker.go:22-35 | a new worker starts from its initial condition with zero counters |
| ProbeWorker.Worker.DoProbe | pkg/prober/worker.go:60-102 | the new counters, condition and log flags, and the notice sent |
| ProbeWorker.CountersStayExclusive | pkg/prober/worker.go:60-102 | for every history at most one counter is non-zero, both are below their thresholds, and the condition is the last notice or the initial one |
| ProbeWorker.TallyIsDivMod | pkg/prober/worker.go:60-102 | counting up and resetting at the threshold is division with remainder |
| ProbeWorker.StreakNotices | pkg/prober/worker.go:60-102 | a maximal streak of n equal outcomes sends n div threshold notices and leaves the counter at n mod threshold |
| ProbeWorker.StreakLogsOnce | pkg/prober/worker.go:65-92 | each streak logs its outcome once, with its first notice |
| ProbeManager.Manager.GetWorkerHealthOptionMap | pkg/prober/manager.go:40-52 | every worker's address is a key, every value is the option of a worker that probes it, and for workers filed under their address it is exactly their options |
| ProbeManager.Manager.AddWorker | pkg/prober/manager.go:54-76 | a new worker is filed, and a worker already there is stopped |
| ProbeManager.Manager.RemoveWorker | pkg/prober/manager.go:78-96 | that worker is stopped and removed, nothing else |
| ProbeManager.Manager.RemoveWorkersByUid | pkg/prober/manager.go:98-117 | all workers of the uid are stopped and removed, and counted |
| ProbeManager.Manager.UpdateAllProbers | pkg/lb/servicelb/manager.go:346-385 | afterwards the workers have exactly the target addresses with the target thresholds, timeout and period, workers whose five settings agreed are kept, exactly the others are stopped, and other uids are left alone |
| ProbeManager.KeptIff | pkg/prober/health.go:20-23 | a worker is the one from before exactly when its five settings already agreed |
| ProbeManager.ReachedIsStable | pkg/lb/servicelb/manager.go:341-385 | running the diff on its own result stops nobody and changes nothing |
| ProbeConcurrency.RunKeeps | pkg/prober/manager.go:29-117 | every interleaving keeps the invariant of workers, table and lock |
| ProbeConcurrency.LiveWorkersAreFiled | pkg/prober/manager.go:54-117 | the live workers are those in the table, except for the one the lock holder is stopping or starting |
| ProbeConcurrency.JobsAreDone | pkg/prober/manager.go:54-117 | when the lock is released, AddWorker has its worker running with the given option, RemoveWorker has emptied its slot, RemoveWorkersByUid has left no worker of the uid |
| ProbeConcurrency.WorkersSendTheirNotices | pkg/prober/worker.go:37-102 | in every interleaving the conditions received from a worker, with the one it is blocked on, are exactly the notices of the counter machine on its own probes |
| ProbeConcurrency.StoppedIsSilent | pkg/prober/worker.go:37-53 | after its stop has returned a worker never sends again, in any run |
| ProbeConcurrency.StopCanReturn | pkg/prober/manager.go:54-117 | from every state with a pending stop, at most four steps, each of that worker, the consumer or the stopper, let it return |
| ProbeConcurrency.LockingHandlerDeadlocks | pkg/lb/servicelb/manager.go:66-112 | with a handler that takes the lock a stuck state would last forever |
| ProbeConcurrency.LockingHandlerCanGetStuck | pkg/prober/manager.go:29-35 | and such a state would be reachable |
| EndpointSlices.Construct | pkg/lb/servicelb/manager.go:597-678 | the constructed slice, or an error for a malformed old endpoint met on the way |
| EndpointSlices.BuiltStands | pkg/lb/servicelb/manager.go:629-668 | one endpoint per addressed server in order, with its address and uid; the old one is kept exactly when one has that uid and address, else a new one that is not ready and refers to the server |
| EndpointSlices.FreshSliceIsNotReady | pkg/lb/servicelb/manager.go:653-672 | a slice built from nothing has no ready endpoint but a dummy |
| EndpointSlices.PortsFollowListeners | pkg/lb/servicelb/manager.go:618-627 | the ports are the listeners' names, protocols and backend ports, in order |
| EndpointSlices.AddressedFilters | pkg/lb/servicelb/manager.go:633-639 | exactly the servers with an address count, in order |
| EndpointSlices.ScanFailsIff | pkg/lb/servicelb/manager.go:640-651 | the scan for a server fails exactly when a malformed endpoint comes before its match |
| EndpointSlices.BuiltFailsIff | pkg/lb/servicelb/manager.go:633-668 | construction fails exactly when the scan for some addressed server does |
| EndpointSlices.ConstructShape | pkg/lb/servicelb/manager.go:597-678 | only real endpoints or exactly one dummy, every endpoint with a target and one address |
| EndpointSlices.ConstructIsIdempotent | pkg/lb/servicelb/manager.go:597-678 | constructing again from the result changes nothing |
| EndpointSlices.DeletingKeepsReal | pkg/lb/servicelb/manager.go:411-416 | deleting dummies leaves exactly the real endpoints |
| EndpointSlices.DummyEnsuredIsRoutable | pkg/lb/servicelb/manager.go:387-424 | on the stored slice, success of ensureDummyEndpoint alone makes it routable |
| EndpointSlices.EnsuredIsRoutable | pkg/lb/servicelb/manager.go:233-288 | success leaves a ready endpoint stored, exactly one dummy if no real endpoint is ready and none otherwise, whatever was stored and whichever writes failed |
| EndpointSlices.ConflictHealsOnRetry | pkg/lb/servicelb/manager.go:311-323 | the conflict of the two writes with health checks off, and the clean next run |
| EndpointSlices.FaultFreeFailsIff | pkg/lb/servicelb/manager.go:233-288 | a run without faults returns an error exactly for a malformed old endpoint, or with health checks off while the addressed servers have no ready endpoint |
| EndpointSlices.DummyFlickers | pkg/lb/servicelb/manager.go:260-285 | between the two writes of such a run no endpoint is ready |
| EndpointSlices.FirstWriteReadyIff | pkg/lb/servicelb/manager.go:260-275 | for every stored slice, the first write stores a ready endpoint exactly if no server has an address or a kept endpoint is ready |
| EndpointSlices.HealthDecidedAt | pkg/lb/servicelb/manager.go:85-109 | the scan is decided at the first malformed or matching endpoint |
| EndpointSlices.HealthTouchesOne | pkg/lb/servicelb/manager.go:85-109 | a notice changes the condition of the first endpoint with that address and nothing else |
| EndpointSlices.NoticeReachesItsEndpoint | pkg/lb/servicelb/manager.go:85-109 | with distinct addresses a notice reaches its own endpoint |
| ServiceLb.TargetWatchesReal | pkg/lb/servicelb/manager.go:325-333 | the target watches exactly the addresses of the real endpoints, each filed under its own |
| ServiceLb.ProberAddressNames | pkg/lb/servicelb/manager.go:481-484 | a prober connects to the endpoint's address on the health check's port |
| ServiceLb.ProberSettings | pkg/lb/servicelb/manager.go:430-462 | the settings of a prober, with each default, and the condition it starts from |
| ServiceLb.TargetHasItsProber | pkg/lb/servicelb/manager.go:328-333 | each real endpoint is watched with its own settings unless a later one has its address |
| ServiceLb.Manager.BackendServers | pkg/lb/servicelb/manager.go:197-231 | the live machines with an address in listing order, and the number of live ones; no selector means none |
| ServiceLb.LiveFilters | pkg/lb/servicelb/manager.go:213-227 | exactly the machines that are not being deleted count, in order |
| ServiceLb.Manager.EnsureProbers | pkg/lb/servicelb/manager.go:311-339 | the uid's workers reach the target, or are gone when probing is off; other uids are untouched |
| ServiceLb.Manager.UpdateAllConditions | pkg/lb/servicelb/manager.go:131-148 | all real endpoints get the condition in one guarded write, none if nothing changes |
| ServiceLb.Manager.EnsureDummyEndpoint | pkg/lb/servicelb/manager.go:387-424 | the dummy is added, removed or left as the counts say, from the version the caller holds |
| ServiceLb.Manager.EnsureBackendServers | pkg/lb/servicelb/manager.go:233-288 | a failed lookup changes nothing; else the stored slice and error for all faults, and on success the slice is routable and the workers match its endpoints |
| ServiceLb.Manager.EnsureServers | pkg/lb/servicelb/manager.go:255-287 | the part after the lookups, for the servers found |
| ServiceLb.Manager.UpdateHealthCondition | pkg/lb/servicelb/manager.go:66-112 | one notice against a maybe stale cache: which errors, and which guarded write |
| ServiceLb.NoticeWithoutWrite | pkg/lb/servicelb/manager.go:66-99 | which notices change nothing, and which of them are errors |
| ServiceLb.WorkerNoticeLands | pkg/lb/servicelb/manager.go:66-112 | a notice sent under the address a worker was given lands on the endpoint it was made for |
| Listeners.CheckListeners | pkg/webhook/loadbalancer/validator.go:100-150 | accepts exactly Cluster type, or a non-empty list with pairwise distinct names, (protocol, port) and (protocol, backend port) and all ports in 1..65535; every error is justified |
| Listeners.ListenersRule | pkg/webhook/loadbalancer/validator.go:98-150 | the accepted lists, spelled out |
| Listeners.CheckKeys | pkg/webhook/loadbalancer/validator.go:111-133 | three map lookups per listener decide pairwise distinctness |
| Listeners.CheckHealthyCheck | pkg/webhook/loadbalancer/validator.go:152-190 | the verdict depends only on whether some TCP listener, or only another one, has the port, and on the four fields |
| Listeners.HealthErrorMeans | pkg/webhook/loadbalancer/validator.go:158-187 | what each refusal says about listeners and fields |
| Listeners.NegativeNeverAnswers | pkg/webhook/loadbalancer/validator.go:163-163 | the uint conversion keeps a port, and a negative one answers none that a listener may have |
| Listeners.HealthyCheckPatch | pkg/webhook/loadbalancer/mutator.go:81-120 | a replacement exactly when an enabled check has a zero field |
| Listeners.PatchKeepsUserFields | pkg/webhook/loadbalancer/mutator.go:86-107 | the patch fills in 2, 2, 1 and 1 where the user set 0 and touches nothing else |
| Listeners.PatchedCheckAccepted | pkg/webhook/loadbalancer/validator.go:152-190 | after the patch an enabled check on an accepted list passes exactly when some TCP listener has that backend port |
| Listeners.CheckedListenerIsUnique | pkg/webhook/loadbalancer/validator.go:126-132 | that listener is the only one |
| Listeners.OwnDefaultsUnused | pkg/lb/servicelb/manager.go:430-462 | for an admitted check generateOneProber never uses its own defaults, and thresholds are at least 1 |
| Listeners.PositivePeriodIff | pkg/lb/servicelb/manager.go:452-457 | an admitted check has a positive ticker period exactly when the low word of its nanoseconds is positive, in particular up to 9223372036 seconds |
| Listeners.AdmittedPeriodCanBeNegative | pkg/prober/worker.go:37-39 | an admitted check whose period is negative |
| LbSpecs.SecondsExactIff | pkg/lb/servicelb/manager.go:445-457 | the conversion to a duration is exact exactly up to 9223372036 seconds |

## Left out

- Generated clients, CRDs, `main.go`, `cmd/webhook`, `pkg/config`: wiring.
- `pkg/prober/prober.go`: a TCP probe is an arbitrary success or failure.
- The inside of the CNI host-local allocator, its ranges and range sets: used through their contract.
- IPv6: `countIP`, `getIPNet` and the /32 special case treat it differently; only IPv4 is modelled.
- Parsing of address and CIDR text: fields are taken as scanned (empty, unreadable or an address).
- Status conditions and messages, and the difference of nil and empty maps in `reflect.DeepEqual`: a status refresh or a status write that changes only those is not modelled.
- `pkg/webhook/loadbalancer/converter.go`: renames fields between two API versions in untyped JSON; its result depends on the encoding, and nothing modelled here reads it.
- `pkg/controller/vm`, `pkg/controller/vmi`: they enqueue LoadBalancers when a machine changes; in the model a reconcile may start at any time, so no theorem depends on who triggers it.
- `findNetwork`, `findProject`, `GetVid`: lookups that fill annotations and the VLAN label; the annotations enter the model as parameters and the VLAN label is read by nothing modelled.
- DHCP addresses, services and `ensureService`: they touch no pool and no slice.
- `checkIPAM`, `checkWorkloadType`, `checkGuestClusterIsOnRemove`: one comparison each.
- `assignAllAllocatedIPs` of the kube-vip converter and its config map bookkeeping: a one-time migration.
- Liveness across health notices and readiness: the notice is sent before the slice write, so it depends on scheduling outside the program.
- Uniqueness of selection in loose mode: admission does not check it, so only `Selection.OrderFreeIffUntied` speaks about it.
- Deletion of pools during a booking run: `Booking` has no such action, because admission refuses it while anything is booked.
- PoolController.Handler.CorrectAllocatedHistory: history keys are addresses, so the error for an unreadable key is not modelled; the store only writes keys it formatted itself.
- LbController.Handler.OnRemove: whether the deletion of the service fails is a parameter; its effect on workers is `ProbeManager.Manager.RemoveWorkersByUid`.
- ProbeManager.Manager.UpdateAllProbers: runs without interference from other goroutines; interleavings are in `ProbeConcurrency`.
