# Quagga: verified models of Babel and BGP

This project models the parts of Quagga where the protocols are hard and proves
what they are for.

* **Babel** (`babeld/`): route selection under the feasibility condition, a
  network of routers running it over channels that lose, reorder and duplicate,
  the table of routes behind it, and the packet codec that compresses each update
  against the ones before it.
* **BGP** (`bgpd/`): AS paths (normal form, wire and text forms, 2-octet and
  4-octet AS numbers), path attributes, multipath selection, pending
  advertisements and the session state machine.

`dafny verify dfyconfig.toml` checks everything. Nothing was executed.

## Modules

| files | model |
|---|---|
| `BabelSeqno`, `BabelRoute`, `BabelSelect` | sequence numbers; route selection for one prefix at one router; what it chooses |
| `BabelNetwork`, `BabelHazard`, `BabelLoopExample`, `BabelRefusalExample` | runs of a network of routers; loop freedom, the steps that break it, and two runs that loop |
| `BabelRefcount`, `BabelTable`, `BabelRouteList`, `BabelRetract` | reference counts; the sorted slot array as an object; the linked list of one slot; retracting a neighbour's routes |
| `Bytes`, `BabelPrefix`, `TlvLoop`, `BabelCodec`, `BabelSender`, `BabelLayout`, `BabelFlush` | octets and prefixes; the parser; the sending interface as an object; the octets by RFC 6126; flushing buffered updates |
| `BgpAspath`, `BgpAspathWire`, `BgpAspathPut`, `BgpAspathSplit`, `BgpAspathPack`, `BgpAspathText`, `BgpReconcile` | AS paths |
| `BgpAttr`, `BgpAttrSend`, `BgpAttrReceive`, `BgpLayout` | path attributes; what is accepted and read of any octets; the octets by RFC 4271 and RFC 6793 |
| `BgpMpath`, `BgpMpathList`, `BgpMpathSelect` | multipath selection on linked path records; the sorted list of candidates; what is selected, by next hop |
| `BgpAdvertise`, `BgpAdvertiseRuns`, `BgpAdjOut` | pending advertisements, as values, over whole runs, and as an object |
| `BgpFsm`, `BgpFsmLive`, `BgpFsmLoss`, `BgpPeer` | the session state machine, as values, what it keeps going, and as an object whose timers and events are threads shared with other peers |

Where the source changes an object in place, the model is a class whose methods
are proved equal to functions on its abstract state; what the source promises is
proved about those functions and over every run of them.

## What turned out not to hold

* **Babel is not loop-free as coded**, for two reasons.
  - `consider_route` installs a route even when it is retracted, if nothing is
    installed (`babeld/route.c:820-860`). A retracted route that is installed is
    then overwritten by the next update from the same source, feasible or not: the
    comment at `babeld/route.c:720-723` says such an update is ignored, but lines
    737-743 write its fields. `LoopReachable` is a run of thirteen steps from empty
    tables that ends in two routers forwarding to each other.
  - When the kernel refuses a change of metric, `change_route_metric` returns before
    writing the metric (`babeld/route.c:478-490`), but `update_route` has written the
    source and the seqno and `update_route_metric` the seqno. The route then has a
    distance nobody announced. `RefusalLoopReachable` is a run of eleven steps, no
    retracted route revived in it, that ends in a loop.

  `AnchoredExactly` and `AnchoredThroughoutExactly` give the exact condition: every
  forwarding route rests on a feasible update, and every finite distance is one that
  was heard, if and only if no step is of these two kinds; `LoopFreedom` follows.
  The exact condition reads two history bits of a route (has it had a feasible
  distance since it was installed; was its distance heard).
  `LoopFreeWithoutHazards` gives loop freedom under a condition on what the daemon
  has at hand, with 16-bit seqnos: no finite unfeasible update reaches an installed
  retracted route of its source, and no refusal meets an installed finite route that
  changes source or seqno.
* **A destination can be left without a route although a feasible one is there.**
  `find_best_route` takes the first route as its candidate whatever it is
  (`babeld/route.c:594-605`, where the comment at line 584 promises the feasible route
  with the smallest metric), and `route_lost` then considers an unfeasible one.
  `LostExactly` says when: a route is installed if and only if the first is feasible or
  an eligible one is strictly shorter than it. `Stranded` is such a slot, and
  `UpdateDisowned` the same for an installed route that an unfeasible update of another
  source makes give up.
* **A neighbour's wildcard retraction does not retract all its routes.** The loop of
  `retract_neighbour_routes` advances its index twice (`babeld/route.c:867-879`), so
  that every other slot is skipped; and within a slot selection may move another
  route through the neighbour to the front, where the walk has already been
  (`SecondRouteEvades`). `RetractNeighbourRoutes`: no finite route through the
  neighbour is left if and only if the skipped slots had none and in the others the
  installed route's retraction is not refused and does not bring up another.
* **A session can be lost from the count.** Clearing_Completed handled in
  Established goes to Idle without counting a drop (`bgpd/bgp_fsm.c:1040`).
  `SessionsBalance` counts these exactly, `LossReachable` shows one, and
  `DisciplineSuffices` shows there are none when the event is queued only while
  clearing.
* **A peer can go to Idle with its descriptor open.** Some events take it there by
  bgp_ignore alone (`bgpd/bgp_fsm.c:958-1041`). `ClosedExactly` and `RunClosed` name
  them: a peer that is not connected has no descriptor open exactly until one of them
  is handled.
* **`aspath_put` mangles long segments.** The split loop writes the first 255 AS
  numbers again and counts them cumulatively (`bgpd/bgp_aspath.c:894-900`). The
  size it returns is right if and only if no segment exceeds 510 AS numbers
  (`SizeIsExact`); `RestoredExactly` says exactly which paths come back, and
  `LongSequenceMangled` shows one that does not.
* **`aspath_put` mangles runs of short AS_SEQUENCEs.** Each segment packed overwrites
  the length octet with its own length added alone (`bgpd/bgp_aspath.c:923-926`).
  `PackedExactly`: a path that need not be normal comes back if and only if no
  segment takes in more than one of those behind it; `ThreeMangled` shows one that
  does not.
* **Text loses empty and adjacent AS_SEQUENCEs.** A path is read back as itself if
  and only if it has neither (`TextRoundTrip`); its meaning always survives.
* **Normalising keeps an empty AS_SEQUENCE**, which says nothing
  (`EmptySequenceStays`). Of two paths that mean the same, one of them without an
  empty run of AS_SEQUENCEs, the normal forms are equal if and only if the other has
  no empty run either (`CanonicalExactly`).
* **MULTIPATH_CHG may be raised for nothing.** It is raised exactly when the selection
  changed or the candidates are not in step, that is, some candidate passed over sorts
  after the one selected next (`BgpMpath.Update`). `bgp_info_nexthop_cmp` ignores
  next hops of different lengths, so that the comparison is not transitive (`Circle`)
  and the list built by `listnode_add_sort` need not be sorted; `SpuriousChange` is
  such a list. Candidates whose next hops are all of one kind are always in step
  (`AlikeInStep`).
* **The best path's next hop may be selected again.** Each candidate is compared with
  the one taken before it only (`bgpd/bgp_mpath.c:524-525`). Among the paths selected no
  two have the same next hop (`OnePathPerNextHop`); that of the best path comes again if
  and only if another candidate has it and some candidate taken sorts before it, with
  room left (`RepeatedExactly`); `SecondOfBest` is such a list.

## Model

| member | source | states |
|---|---|---|
| `BabelSeqno.CompareIsExact` | babeld/util.h:69-75 | comparing 16-bit seqnos gives the order of the unbounded numbers behind them exactly for the distances listed, and in particular in every window below 2^15 |
| `BabelSeqno.CloseCompare` | babeld/util.h:69-75 | numbers less than 2^15 apart compare as themselves and are equal exactly when their 16-bit images are |
| `BabelSeqno.MinusUndoesPlus` | babeld/util.h:77-88 | the signed difference undoes addition exactly for amounts of 16 signed bits |
| `BabelRoute.FindRoute` | babeld/route.c:118-137 | the first route of a slot with that neighbour and next hop, and none before it |
| `BabelRoute.FindBestRoute` | babeld/route.c:585-607 | the choice is the head, or a feasible unexpired route strictly better than the head; no feasible unexpired route is better than the choice |
| `BabelRoute.ConsiderKeeps` | babeld/route.c:820-860 | whatever is considered: at most one installed route and that at the head; what becomes installed is feasible at that moment (a retraction always is); no route is lost and nothing else of any route changes |
| `BabelRoute.RouteChangedKeeps` | babeld/route.c:943-965 | the same after a change of metric |
| `BabelRoute.RouteLostKeeps` | babeld/route.c:967-983 | the same after the loss of the installed route |
| `BabelRoute.InstallOk` | babeld/route.c:377-411 | installing keeps unique keys and at most one installed route, that at the head; something is installed after unless nothing was and the kernel refuses, and where nothing was it is that route |
| `BabelRoute.SwitchOk` | babeld/route.c:435-466 | so does switching, which never leaves a destination without its installed route and, unless the kernel refuses, makes it that one |
| `BabelSelect.ConsiderExactly` | babeld/route.c:820-860 | a feasible route that no exported route outranks takes over where nothing is installed, or where it is finite and the installed one infinite or at least 64 longer, if the kernel agrees; otherwise nothing changes |
| `BabelSelect.InstalledChanged` | babeld/route.c:943-965 | the installed route gives way exactly when it has become longer and an eligible one is at least 96 shorter, with no exported route and a kernel that agrees; one of the shortest eligible takes over; otherwise nothing changes |
| `BabelSelect.LostExactly` | babeld/route.c:967-983 | after a loss a route is installed exactly when the first is feasible or an eligible one is strictly shorter than it (and no exported route, and the kernel agrees); it is feasible and no eligible one is shorter |
| `BabelSelect.Stranded` | babeld/route.c:584-607 | a slot with a feasible route in which none is installed after a loss |
| `BabelSelect.UpdateSteady` | babeld/route.c:669-793 | over any update the installed route stays or gives way to one worth it, unless the update makes it give up |
| `BabelSelect.UpdateInstalled` | babeld/route.c:712-755 | an update of the installed route is stored field by field, the metric unless the kernel refuses, and the route gives way exactly as stated |
| `BabelSelect.UpdateDisowned` | babeld/route.c:725-750 | an unfeasible update of another source makes the installed route give up; another takes over exactly when it is eligible and strictly shorter than the unfeasible one |
| `BabelSelect.UpdateOther` | babeld/route.c:735-755 | an update of a route not installed is stored, and it takes over exactly when it is feasible and worth it |
| `BabelSelect.UpdateNew` | babeld/route.c:756-791 | a route not yet there is added unless the update is a retraction, or unfeasible and not to be kept, and takes over on the same terms |
| `BabelSelect.RefreshExactly` | babeld/route.c:609-633 | a new cost is stored unless the kernel refuses, and the route settles on the same terms if its metric is another |
| `BabelSelect.ExpiryExactly` | babeld/route.c:614-620 | an expired route is retracted under the seqno after its source's, unless the kernel refuses the metric |
| `BabelSelect.RetractExactly` | babeld/route.c:862-881 | a retracted route settles on the same terms |
| `BabelSelect.FlushExactly` | babeld/route.c:211-260 | flushing keeps the other routes, and after the installed one another takes over as after any loss |
| `BabelSelect.FeasibleExactly` | babeld/route.c:565-582 | with staleness: a source not heard of for over 200 seconds admits anything, a fresh one retractions and what is strictly better |
| `BabelSelect.SourceExactly` | babeld/source.c:128-146 | with staleness: what is announced replaces a stale distance, and a fresh one by a better; a finite one keeps it fresh |
| `BabelSelect.MetricRefusedExactly` | babeld/route.c:475-490 | the kernel is asked, and can refuse, exactly when an installed route becomes finite or infinite |
| `BabelSelect.MetricsExactly` | babeld/route.h:73-90 | the metric saturates; without interference the cost counts by the diversity factor in 256ths, rounded to the nearest, and at least 1 |
| `BabelSelect.HeardNotExpired` | babeld/route.c:682 | a route lives through six update intervals less two seconds, and at least fifteen seconds |
| `BabelSelect.SilentExpires` | babeld/route.c:514-518 | and no longer |
| `BabelRoute.UpdateInstallsFeasible` | babeld/route.c:669-793 | whatever an update leaves installed was installed before or is feasible at that moment |
| `BabelRoute.DistanceIsMinimum` | babeld/source.c:128-146 | without staleness the feasibility distance is the minimum of everything announced since creation, and was itself announced |
| `BabelNetwork.FeasibleIsBetter` | babeld/route.c:565-582 | a fresh source admits a finite update exactly when it is strictly better, in unbounded seqnos, than the feasibility distance |
| `BabelNetwork.UpdateSourceIsMin` | babeld/source.c:128-146 | one announcement lowers the distance to the better of the two |
| `BabelNetwork.StepKeepsInv` | babeld/route.c:669-793 | every step of every router, refused kernel changes included, keeps the invariant: no message ever sent is better than its sender's distance, no stored distance that was heard better than its neighbour's |
| `BabelNetwork.RunKeepsInv` | babeld/route.c:669-860 | so does every run, whatever is lost, reordered or duplicated |
| `BabelNetwork.HopDescends` | babeld/route.c:565-582 | along every forwarding hop towards a source the distance strictly decreases |
| `BabelNetwork.NoLoop` | babeld/route.c:565-582 | hence no cycle of forwarding hops, of any length |
| `BabelNetwork.AnchoredExactly` | babeld/route.c:468-490 | a step keeps every forwarding route anchored in a feasible update and every finite distance one that was heard if and only if it neither stores an unfeasible finite update in a route installed as retracted nor has a metric change refused for a finite route given a newer seqno or another source |
| `BabelNetwork.AnchoredThroughoutExactly` | babeld/route.c:712-743 | the same over whole runs |
| `BabelNetwork.LoopFreedom` | babeld/message.c:1019-1052 | from empty tables, no run without such a step reaches a forwarding loop, whatever else the kernel refuses |
| `BabelHazard.BreaksIsHazard` | babeld/route.c:712-743 | every such step shows in the fields of the route, the update and the source and in 16-bit seqnos |
| `BabelHazard.LoopFreeWithoutHazards` | babeld/route.c:712-743 | from empty tables, no run in which no router meets what those fields show reaches a forwarding loop |
| `BabelLoopExample.LoopReachable` | babeld/route.c:820-860 | a run from empty tables that reaches a forwarding loop of two routers |
| `BabelLoopExample.LastStepRevives` | babeld/route.c:737-743 | its last step stores an unfeasible update in an installed retracted route |
| `BabelRefusalExample.RefusalLoopReachable` | babeld/route.c:478-490 | a run from empty tables in which no retracted route is revived and which reaches a forwarding loop of two routers |
| `BabelRefusalExample.NinthStepMislabels` | babeld/kernel.c:131-148 | its ninth step is a refused change of metric |
| `BabelRefcount.UpdateKeepsCounts` | babeld/route.c:712-793 | an update keeps every source's route count equal to the routes pointing at it, and the slot well formed |
| `BabelRefcount.FlushKeepsCounts` | babeld/route.c:211-260 | so does flushing a route, which removes exactly one |
| `BabelRefcount.RefreshKeepsCounts` | babeld/route.c:609-633 | so does a change of the neighbour's cost or the expiry of the route |
| `BabelRefcount.RetractKeepsCounts` | babeld/route.c:862-881 | so does retracting a route |
| `BabelRefcount.FreedWhenUnused` | babeld/source.c:108-126 | flush_source frees a source if and only if no route points at it |
| `BabelRefcount.ExpireKeepsCounts` | babeld/source.c:148-166 | expire_sources keeps the counts and frees exactly the stale sources no route points at |
| `BabelTable.RouteTable.FindRouteSlot` | babeld/route.c:87-115 | binary search finds the slot of a destination if there is one, else the gap where it belongs: the array refines a map |
| `BabelTable.RouteTable.FindRouteIn` | babeld/route.c:118-137 | the scan of a slot is FindRoute |
| `BabelTable.RouteTable.FindInstalledRoute` | babeld/route.c:139-149 | the head if installed; none only if no route of the destination is installed |
| `BabelTable.RouteTable.FindBestIn` | babeld/route.c:585-607 | the loop computes FindBestRoute |
| `BabelTable.RouteTable.Install` | babeld/route.c:377-411 | the whole table stays valid (sorted, non-empty slots, unique keys, installed route at the head, counts right); the slot follows InstallRoute and other slots are untouched |
| `BabelTable.RouteTable.Switch` | babeld/route.c:435-466 | the whole table stays valid (sorted, non-empty slots, unique keys, installed route at the head, counts right); the slot follows SwitchRoutes and other slots are untouched |
| `BabelTable.RouteTable.Consider` | babeld/route.c:820-860 | the whole table stays valid (sorted, non-empty slots, unique keys, installed route at the head, counts right); the slot follows ConsiderRoute, which ConsiderExactly describes, and other slots are untouched |
| `BabelTable.RouteTable.Changed` | babeld/route.c:943-965 | the whole table stays valid (sorted, non-empty slots, unique keys, installed route at the head, counts right); the slot follows RouteChanged and other slots are untouched |
| `BabelTable.RouteTable.Lost` | babeld/route.c:967-983 | the whole table stays valid (sorted, non-empty slots, unique keys, installed route at the head, counts right); the slot follows RouteLost and other slots are untouched |
| `BabelTable.RouteTable.Uninstall` | babeld/route.c:414-430 | the table stays valid, nothing of the destination is installed, other destinations unchanged |
| `BabelTable.RouteTable.Refresh` | babeld/route.c:609-633 | update_route_metric on the table: valid, the destination follows UpdateRouteMetric, other destinations unchanged |
| `BabelTable.RouteTable.Retract` | babeld/route.c:862-881 | one retraction on the table: valid, the destination follows RetractRoute, other destinations unchanged |
| `BabelTable.RouteTable.FreeSource` | babeld/source.c:108-126 | frees the source if and only if no route of the table points at it, and keeps the table valid |
| `BabelTable.RouteTable.ExpireAll` | babeld/source.c:148-166 | the stale unused sources of every destination go and the table stays valid |
| `BabelTable.RouteTable.Update` | babeld/route.c:669-793 | update_route on the whole table: sorted, non-empty slots, unique keys, installed route at the head and counts are kept; the destination follows UpdateRoute and no other destination changes |
| `BabelTable.RouteTable.Flush` | babeld/route.c:211-260 | one route fewer, the invariant kept, other destinations unchanged |
| `BabelTable.RouteTable.FlushMatching` | babeld/route.c:282-325 | terminates although each flush may reorder or delete a slot; no matching route is left and every other route still is, whatever the kernel answers |
| `BabelRetract.RetractSlot` | babeld/route.c:867-880 | the walk along one slot terminates although routes move under it, spares routes through other neighbours, and leaves a finite route through the neighbour if and only if the installed one evades |
| `BabelRetract.RetractNeighbourRoutes` | babeld/route.c:862-881 | for every table and whatever the kernel answers: the table stays valid, odd slots are untouched, and no finite route through the neighbour is left if and only if odd slots had none and none evades in even ones |
| `BabelRetract.SecondRouteEvades` | babeld/route.c:872-878 | two routes through one neighbour of which the second evades though the kernel refuses nothing |
| `BabelRouteList.MoveInstalled` | babeld/route.c:359-375 | rewriting two links of the list moves the route to the front and keeps the others in order, a well-formed list |
| `BabelRouteList.Append` | babeld/route.c:199-206 | linking in behind the last route appends it |
| `BabelRouteList.Unlink` | babeld/route.c:231-255 | unlinking takes out that route and no other |
| `BabelPrefix.InPrefixIsEqualMask` | babeld/util.c:203-239 | membership in a prefix is equality of masks |
| `BabelPrefix.CompressedV6` | babeld/message.c:73-131 | an omitted-octet IPv6 prefix is restored from the default prefix |
| `BabelPrefix.CompressedV4` | babeld/message.c:73-131 | likewise for IPv4 prefixes |
| `TlvLoop.Loop` | babeld/message.c:236-258 | the index loop over a packet handles exactly the TLVs of the recursive reading, and stops at a truncated one |
| `BabelCodec.ParsePacket` | babeld/message.c:195-445 | the reports of a packet are those of its body under the parse functions; a sender that is not link-local or a bad header yields none, a packet shorter than it says is cut |
| `BabelCodec.EncodeFits` | babeld/message.c:836-843 | one update with everything it implies takes at most 58 octets, so that ensure_space(60) suffices |
| `BabelCodec.EncodedIsHeard` | babeld/message.c:812-908 | when receiver defaults agree with sender caches, one encoded update is reported with its exact router-id, prefix, length, seqno, metric and next hop, or, being IPv4 at a receiver without an IPv4 address, not at all; and they agree afterwards |
| `BabelCodec.WildcardIsHeard` | babeld/message.c:1178-1206 | likewise for a wildcard retraction |
| `BabelCodec.PacketRoundTrip` | babeld/message.c:344-445 | a packet of any sequence of updates is reported as exactly that sequence, less the IPv4 ones where the receiver has no IPv4 address |
| `BabelLayout.RouterIdOctets` | babeld/message.c:871-880 | a Router-Id TLV octet by octet (RFC 6126, 4.4.7) |
| `BabelLayout.NextHopOctets` | babeld/message.c:846-853 | a Next Hop TLV octet by octet (4.4.8) |
| `BabelLayout.UpdateOctets` | babeld/message.c:885-903 | an Update TLV octet by octet (4.4.9), with the channels sub-TLV |
| `BabelLayout.UpdateFlags` | babeld/message.c:864-875 | the flags: 128 when the prefix becomes the default, 64 when it gives the router-id |
| `BabelLayout.WildcardOctets` | babeld/message.c:1178-1206 | a wildcard retraction octet by octet |
| `BabelLayout.PacketOctets` | babeld/message.c:564-571 | a packet: 42, version 2, the length of the body, the body (4.2) |
| `BabelLayout.PaddingSkipped` | babeld/message.c:244-262 | padding of either kind and TLVs of types without a handler change nothing |
| `BabelLayout.HandledExactly` | babeld/message.c:250-258 | a TLV is handled exactly when its length octet is at most the number of octets left, so that it may claim two more than there are; a longer one ends the packet |
| `BabelLayout.MalformedUpdate` | babeld/message.c:350-370 | a malformed update is not reported, and leaves no default prefix if it was to set one |
| `BabelLayout.DefaultsAfter` | babeld/message.c:375-391 | what a well-formed update leaves for those after it |
| `BabelLayout.ReportedExactly` | babeld/message.c:392-444 | an update is reported, with these fields, exactly when a router-id is known and, for IPv4, a next hop and an address |
| `BabelLayout.WildcardRead` | babeld/message.c:403-410 | a wildcard update retracts all the sender's routes exactly when its metric is infinite |
| `BabelLayout.NextHopRead` | babeld/message.c:319-343 | next hops of the three encodings, and none after a malformed one |
| `BabelSender.Interface.FlushBuf` | babeld/message.c:532-572 | what is pending goes out as one packet exactly if a token is left or the clock has moved past the last refill, and is dropped otherwise; caches and buffer are empty after |
| `BabelSender.Interface.WireBounded` | babeld/message.c:510-572 | with a monotone clock an interface has put at most 200 packets and 40 per second elapsed on the wire |
| `BabelSender.Interface.EnsureSpace` | babeld/message.c:610-616 | space is made without losing what was accepted |
| `BabelSender.Interface.StartMessage` | babeld/message.c:618-627 | the TLV header is appended in place; where there is no room what was pending is flushed first, none of it lost from the log, and the header starts an empty buffer |
| `BabelSender.Interface.CountOmitted` | babeld/message.c:858-868 | the loop counts the octets shared with the cached prefix |
| `BabelSender.Interface.ReallySendUpdate` | babeld/message.c:812-908 | exactly the accepted updates are added to what was sent, the buffer staying the encoding of what is pending |
| `BabelSender.Interface.SendWildcardRetraction` | babeld/message.c:1178-1206 | a wildcard retraction is added likewise |
| `BabelSender.WireIsHeard` | babeld/message.c:564-571 | over any number of flushes a neighbour hears what was not dropped, in order and unchanged, less the IPv4 updates where it has no IPv4 address |
| `BabelSender.AdmittedByTime` | babeld/message.c:510-530 | with a monotone clock at most 200 + 40 per second elapsed are admitted |
| `BabelSender.AdmittedInWindow` | babeld/message.c:510-530 | at most 400 + 40 T in any window of T seconds |
| `BabelSender.RefusedExactly` | babeld/message.c:510-530 | a call is refused exactly when no token is left and the clock has not moved past the last refill |
| `BabelSender.SpacedAdmitted` | babeld/message.c:510-530 | calls a second apart are all admitted, however many |
| `BabelSender.BurstExactly` | babeld/message.c:510-530 | of calls made together once the bucket is empty, 40 for each second since the last refill are admitted, 200 at most, no more and no fewer |
| `BabelFlush.CompareTies` | babeld/message.c:910-942 | the comparison is antisymmetric and its ties are equal entries |
| `BabelFlush.CompareTransitive` | babeld/message.c:910-942 | and transitive |
| `BabelFlush.Contiguous` | babeld/message.c:977-995 | entries for one destination end up side by side |
| `BabelFlush.Grouped` | babeld/message.c:910-942 | updates with one router-id go out together, IPv6 before IPv4, first the one that implies the router-id, then longer prefixes before shorter |
| `BabelFlush.PrecedenceExactly` | babeld/message.c:1008-1058 | the router's own id and seqno go out for an exported route exactly when nothing is installed or its metric is at most kernel_metric; else the installed route's, unless split horizon withholds it; a retraction where there is neither |
| `BabelFlush.FlushOne` | babeld/message.c:992-1060 | one entry yields the call due to its destination unless just made or withheld by split horizon |
| `BabelFlush.FlushUpdates` | babeld/message.c:977-1061 | each distinct destination with an exported or announceable route is announced exactly once, one withheld never, one without route once per entry |
| `BgpAspath.WeedDuplicates` | bgpd/bgp_aspath.c:271-284 | in place, the sorted array becomes the set in order, once each |
| `BgpAspath.NormaliseSet` | bgpd/bgp_aspath.c:264-285 | sorting and weeding give the canonical form of the set |
| `BgpAspath.NormaliseInPlace` | bgpd/bgp_aspath.c:247-310 | the pin-and-append loops compute the normal form |
| `BgpAspath.NormaliseIdempotent` | bgpd/bgp_aspath.c:247-310 | normalising twice is normalising once |
| `BgpAspath.NormaliseMeaning` | bgpd/bgp_aspath.c:247-310 | normalising keeps the meaning: hops in order, sets as sets |
| `BgpAspath.NormaliseCanonical` | bgpd/bgp_aspath.c:247-310 | two paths without an empty run of AS_SEQUENCEs normalise equal if and only if they mean the same |
| `BgpAspath.EmptyRunsExactly` | bgpd/bgp_aspath.c:287-308 | the normal form has no empty AS_SEQUENCE if and only if the path has no empty run |
| `BgpAspath.CanonicalExactly` | bgpd/bgp_aspath.c:247-310 | a path that means the same as one without an empty run normalises like it if and only if it has no empty run |
| `BgpAspath.EmptySequenceStays` | bgpd/bgp_aspath.c:287-308 | a path for which that fails: an empty AS_SEQUENCE |
| `BgpAspath.NormaliseCounts` | bgpd/bgp_aspath.c:403-437 | normalising keeps the hop and confederation counts |
| `BgpAspath.CountHops` | bgpd/bgp_aspath.c:421-437 | the loop computes the hop count |
| `BgpAspath.Compare` | bgpd/bgp_aspath.c:1848-1870 | equal exactly when the segment lists are |
| `BgpAspathWire.ParseExact` | bgpd/bgp_aspath.c:696-791 | the parser accepts exactly the encodings of lists of well-formed segments and returns the list encoded |
| `BgpAspathWire.RawEven` | bgpd/bgp_aspath.c:799-812 | the odd-length check refuses nothing the loop would accept |
| `BgpAspathWire.ParseLoop` | bgpd/bgp_aspath.c:696-791 | the loop with its checks computes the parser, then the normal form |
| `BgpAspathWire.SegmentLoop` | bgpd/bgp_aspath.c:717-787 | the loop over segments |
| `BgpAspathPut.PutData` | bgpd/bgp_aspath.c:837-853 | the AS numbers in 4 octets, or in 2 with AS_TRANS |
| `BgpAspathPut.PutSplits` | bgpd/bgp_aspath.c:893-900 | an overlength segment in chunks of 255, and the size counted for them |
| `BgpAspathPut.PutPacked` | bgpd/bgp_aspath.c:911-932 | packable segments appended and the length octet overwritten |
| `BgpAspathPut.Put` | bgpd/bgp_aspath.c:866-938 | with room, the stream gets the wire form and the size counted is returned, for every path |
| `BgpAspathPut.SizeIsExact` | bgpd/bgp_aspath.c:893-936 | the size returned is never too small, and is the octets written if and only if no segment exceeds 510 |
| `BgpAspathPut.WrittenIsParsed` | bgpd/bgp_aspath.c:866-938 | a normal path of any length is parsed back as its chunks |
| `BgpAspathPut.WireRoundTrip` | bgpd/bgp_aspath.c:866-938 | normal paths within the stated lengths come back as themselves in 4 octets, as the normal form of their AS_TRANS image in 2 |
| `BgpAspathSplit.RestoredExactly` | bgpd/bgp_aspath.c:893-908 | a normal path of any lengths comes back as itself if and only if its other segments have at most 255 AS numbers and its AS_SEQUENCEs repeat their first 255 up to the last chunk |
| `BgpAspathSplit.ShortRepeats` | bgpd/bgp_aspath.c:893-908 | every AS_SEQUENCE of up to 510 meets that condition |
| `BgpAspathSplit.LongSequenceMangled` | bgpd/bgp_aspath.c:893-908 | 511 different AS numbers do not survive |
| `BgpAspathPack.PackedExactly` | bgpd/bgp_aspath.c:911-932 | a path, normal or not, within the stated lengths and without repeats in its sets comes back as the normal form of its image, in either width, if and only if no AS_SEQUENCE takes in more than one of those behind it |
| `BgpAspathPack.PairedSurvives` | bgpd/bgp_aspath.c:911-932 | the if half, repeats in sets or not |
| `BgpAspathPack.ThreeMangled` | bgpd/bgp_aspath.c:923-926 | three AS_SEQUENCEs of one AS number do not survive |
| `BgpReconcile.CopySegment` | bgpd/bgp_aspath.c:1498-1531 | how much of a segment is copied and how many hops are left |
| `BgpReconcile.ReconcileAs4` | bgpd/bgp_aspath.c:1464-1558 | the loop, the merge and the normalisation compute Reconcile |
| `BgpReconcile.PrependedIsRestored` | bgpd/bgp_aspath.c:1464-1558 | whatever 2-octet speakers prepended to the AS_TRANS image of a confed-free path, the result is that in front of the path itself |
| `BgpReconcile.CountIsKept` | bgpd/bgp_aspath.c:1476-1527 | with hops enough, the hop count is kept if and only if the cut is not inside a confederation sequence, and grows otherwise |
| `BgpReconcile.ReconcileMeaning` | bgpd/bgp_aspath.c:1199-1217 | for all inputs the result means a leading part of AS_PATH followed by all of AS4_PATH |
| `BgpReconcile.LongerAs4Appended` | bgpd/bgp_aspath.c:1480-1489 | an AS4_PATH with more hops than AS_PATH is not ignored: all of AS_PATH stands before all of it |
| `BgpAspathText.AsnLength` | bgpd/bgp_aspath.c:538-541 | a 32-bit AS number takes at most ten characters |
| `BgpAspathText.MakeSegment` | bgpd/bgp_aspath.c:583-602 | one segment fits what SEGMENT_STR_LEN sets aside: nothing is cut off |
| `BgpAspathText.MakeStr` | bgpd/bgp_aspath.c:510-614 | the string is the text of the path and the final assertion holds, for every path |
| `BgpAspathText.GetToken` | bgpd/bgp_aspath.c:1701-1763 | skipping separators and reading digits give the next token |
| `BgpAspathText.StrToPath` | bgpd/bgp_aspath.c:1765-1830 | the token loop computes FromText and never adds an AS number without a segment |
| `BgpAspathText.TextRoundTrip` | bgpd/bgp_aspath.c:1765-1830 | every path is read back with the same meaning, and as itself if and only if no AS_SEQUENCE is empty or follows another |
| `BgpLayout.DecimalExactly` | bgpd/bgp_aspath.c:583-602 | AS numbers are written in decimal without leading zeros |
| `BgpLayout.NumberRead` | bgpd/bgp_aspath.c:1742-1759 | and read in decimal modulo 2^32 |
| `BgpLayout.SegmentTextExactly` | bgpd/bgp_aspath.c:354-382 | the brackets and separators of each type |
| `BgpLayout.OtherCharacterRefused` | bgpd/bgp_aspath.c:1761-1763 | any other character makes the text no path |
| `BgpAttr.UniqSort` | bgpd/bgp_community.c:162-185 | the communities sorted, once each |
| `BgpAttr.AttrParse` | bgpd/bgp_attr.c:1793-2110 | the loop, the check for missing attributes and the 4-octet attributes compute Receive |
| `BgpAttrReceive.AcceptedExactly` | bgpd/bgp_attr.c:1793-2040 | of all octets those are accepted that split into attributes with the flags and values their types may have, none of a type that occurs twice, that have all a route must have or are a withdrawal |
| `BgpAttrReceive.FieldsExactly` | bgpd/bgp_attr.c:927-1260 | what an accepted route has of origin, next hop, MED, local preference, atomic aggregate and communities, by type number and octets |
| `BgpAttrReceive.WideExactly` | bgpd/bgp_attr.c:1296-1315 | from a peer with 4-octet AS numbers AS_PATH and AGGREGATOR are taken as they are |
| `BgpAttrReceive.NarrowExactly` | bgpd/bgp_attr.c:1317-1380 | from one with 2-octet AS numbers: an AGGREGATOR other than AS_TRANS beside AS4_AGGREGATOR has both AS4 attributes ignored; AS_TRANS has AS4_AGGREGATOR taken, and so has its absence; otherwise AS_PATH is reconciled with AS4_PATH |
| `BgpAttrReceive.FlagsExactly` | bgpd/bgp_attr.c:862-925 | the flags each type may have |
| `BgpAttrSend.PathRestored` | bgpd/bgp_attr.c:1276-1380 | the path parsed, reconciled when AS4_PATH was sent, is the path sent |
| `BgpAttrSend.PacketAttribute` | bgpd/bgp_attr.c:2208-2562 | with room, the stream gets the attributes in order |
| `BgpAttrSend.AttrRoundTrip` | bgpd/bgp_attr.c:2208-2562 | between internal peers of either width the receiver has exactly the attributes sent, and refuses the route exactly when the origin is undefined or the next hop missing or martian |
| `BgpAttrSend.DeliveredUnchanged` | bgpd/bgp_attr.c:2333-2390 | with canonical communities and a local preference what is delivered is what was sent |
| `BgpLayout.SegmentOctets` | bgpd/bgp_aspath.c:837-862 | a segment: its type number, its count, its AS numbers |
| `BgpLayout.WideOctets` | bgpd/bgp_aspath.c:837-853 | AS numbers in four octets each |
| `BgpLayout.NarrowOctets` | bgpd/bgp_aspath.c:837-853 | or in two, 23456 for those that do not fit |
| `BgpLayout.TlvOctets` | bgpd/bgp_attr.c:1836-1856 | an attribute: flags, type, length in one octet or two, value |
| `BgpLayout.FirstOctets` | bgpd/bgp_attr.c:1820-1890 | what is read at the front of any octets, by the same layout |
| `BgpLayout.FixedOctets` | bgpd/bgp_attr.c:2234-2344 | flags, type number and value of ORIGIN, NEXT_HOP, MED, LOCAL_PREF and ATOMIC_AGGREGATE |
| `BgpLayout.AggregatorOctets` | bgpd/bgp_attr.c:2346-2376 | AGGREGATOR, and AS4_AGGREGATOR exactly when the AS number does not fit |
| `BgpLayout.VariableOctets` | bgpd/bgp_attr.c:2290-2537 | AS_PATH, COMMUNITIES, and AS4_PATH exactly when an AS number does not fit |
| `BgpLayout.WithoutConfedsExactly` | bgpd/bgp_aspath.c:1584-1613 | leading confederation segments are left out of AS4_PATH if the first is an AS_CONFED_SEQUENCE |
| `BgpMpath.Dequeue` | bgpd/bgp_mpath.c:290-302 | unlinking keeps the rest a well-formed list |
| `BgpMpath.Enqueue` | bgpd/bgp_mpath.c:266-281 | linking in after a member keeps the list well formed |
| `BgpMpath.Walk` | bgpd/bgp_mpath.c:435-540 | the parallel walk turns whatever list there was into the greedy selection, terminates, counts it, and reports a change exactly when there was one or the candidates are not in step |
| `BgpMpath.Update` | bgpd/bgp_mpath.c:395-552 | whatever the old list: the new one is the greedy selection, MULTIPATH holds exactly on its members, the count is its length, and MULTIPATH_CHG is raised if and only if it was, the selection differs, or the candidates are not in step |
| `BgpMpath.ChangeDetected` | bgpd/bgp_mpath.c:418-433 | the walk and the comparison of counts together detect exactly that, even when the new best was itself a multipath and was dequeued first |
| `BgpMpath.DmedDeselect` | bgpd/bgp_mpath.c:560-579 | the list is emptied, flags and count cleared |
| `BgpMpathList.ListnodeAddSort` | lib/linklist.c:84-123 | the loop puts the value before the first it sorts before |
| `BgpMpathList.AlikeBuiltSorted` | bgpd/bgp_mpath.c:103-169 | candidates whose next hops are of one kind end up sorted, in whatever order they were added |
| `BgpMpathList.AlikeInStep` | bgpd/bgp_mpath.c:202-207 | and are in step for every best path and limit, so that MULTIPATH_CHG is exact for them |
| `BgpMpathList.Circle` | bgpd/bgp_mpath.c:103-169 | three candidates that each sort before the next, in a circle |
| `BgpMpathList.SpuriousChange` | bgpd/bgp_mpath.c:435-540 | a list built of these and a best path that is not in step |
| `BgpMpathSelect.AlikeOrder` | bgpd/bgp_mpath.c:103-139 | next hops of one kind are ordered by all the addresses they carry and tie only when all are the same |
| `BgpMpathSelect.UnlikeOrder` | bgpd/bgp_mpath.c:114-116 | next hops of different kinds by their IPv4 part alone |
| `BgpMpathSelect.TakenExactly` | bgpd/bgp_mpath.c:521-527 | each candidate in turn is taken exactly when it is not the best path, the limit leaves room, and some address of its next hop differs from that of the path taken last |
| `BgpMpathSelect.OnePathPerNextHop` | bgpd/bgp_mpath.c:395-540 | among candidates of one kind no two paths selected have the same next hop, and while the limit leaves room every candidate's next hop is in use |
| `BgpMpathSelect.RepeatedExactly` | bgpd/bgp_mpath.c:524-525 | the best path's own next hop is selected again if and only if another candidate has it and the selection before it is not empty and leaves room |
| `BgpMpathSelect.SecondOfBest` | bgpd/bgp_mpath.c:524-525 | such candidates |
| `BgpAdvertise.SetChanges` | bgpd/bgp_advertise.c:215-266 | after a set the announcement is pending for that prefix and nothing else changed |
| `BgpAdvertise.UnsetChanges` | bgpd/bgp_advertise.c:269-314 | after an unset what was not sent is forgotten, what was sent is to be withdrawn |
| `BgpAdvertise.RemoveChanges` | bgpd/bgp_advertise.c:317-328 | nothing is left of the prefix |
| `BgpAdvertise.SendChanges` | bgpd/bgp_packet.c:237-245 | what was pending becomes what was sent |
| `BgpAdvertiseRuns.LookupIsLastSet` | bgpd/bgp_advertise.c:163-179 | over every run of set, unset, remove and sending, the lookup is true of exactly the prefixes last set, and withdrawals are pending only for what was sent |
| `BgpAdvertiseRuns.IndexAgrees` | bgpd/bgp_advertise.c:101-153 | over every run the update FIFO and the per-attribute lists hold the same announcements, each once; entries are one per attribute and count their lists; attribute references balance |
| `BgpAdvertiseRuns.SetGoesLast` | bgpd/bgp_advertise.c:215-266 | an announcement is queued behind all others, which keep their order |
| `BgpAdvertiseRuns.UnsetGoesLast` | bgpd/bgp_advertise.c:269-314 | so is a withdrawal |
| `BgpAdjOut.NextCandidate` | bgpd/bgp_advertise.c:181-212 | the next announcement offered has the same attribute, and none is offered only when none is left |
| `BgpAdjOut.AttrStaysLive` | bgpd/bgp_packet.c:237-243 | giving up the attribute last sent never frees the one being sent |
| `BgpAdjOut.Peer.Unlink` | bgpd/bgp_advertise.c:111-153 | the announcement leaves its list; the entry goes, from the hash too, with the last |
| `BgpAdjOut.Peer.Clean` | bgpd/bgp_advertise.c:181-212 | refines Cleaned and keeps the invariant |
| `BgpAdjOut.Peer.Set` | bgpd/bgp_advertise.c:215-266 | refines SetOut and keeps the invariant |
| `BgpAdjOut.Peer.Unset` | bgpd/bgp_advertise.c:269-314 | refines UnsetOut and keeps the invariant |
| `BgpAdjOut.Peer.RemoveAdj` | bgpd/bgp_advertise.c:317-328 | refines RemoveOut and keeps the invariant |
| `BgpAdjOut.Peer.UpdatePacket` | bgpd/bgp_packet.c:161-246 | one packet carries announcements of the queue head's attribute only, all of them while there is room; they become what was sent and nothing else changes |
| `BgpAdjOut.Peer.WithdrawPacket` | bgpd/bgp_packet.c:344-398 | one packet carries pending withdrawals only, all while there is room; nothing is left of them and nothing else changes |
| `BgpFsm.RunTimersOk` | bgpd/bgp_fsm.c:79-214 | in every state of every run each timer is on only in its own states, and hold and keepalive never once a hold time of zero is in force (the other half is RunRuns and RunArms) |
| `BgpFsmLive.RunRuns` | bgpd/bgp_fsm.c:79-214 | in every state of every run the connect timer is on in Connect, the hold timer in a session with a hold time in force, the keepalive timer once the OPEN is accepted, and the route advertisement timer exactly while Established |
| `BgpFsmLive.RunArms` | bgpd/bgp_fsm.c:1098-1134 | after every event that goes through, every expiry unless the peer cannot start, every UPDATE read and every bgp_timer_set of every run, exactly the timers are on that the state and the configuration call for |
| `BgpFsmLive.ProceedsExactly` | bgpd/bgp_fsm.c:596-733 | which events their handler stops |
| `BgpFsmLive.EnteredExactly` | bgpd/bgp_fsm.c:933-1087 | how each state but Idle is entered, for every state, event and answer of the world |
| `BgpFsmLive.StaysExactly` | bgpd/bgp_fsm.c:933-1087 | which events leave a peer in its state |
| `BgpFsmLive.StartIgnored` | bgpd/bgp_fsm.c:933-1087 | a start changes nothing but in Idle |
| `BgpFsmLive.StartTimeExactly` | bgpd/bgp_fsm.c:580-618 | a NOTIFICATION doubles the time before the next start up to 120; coming up and the fatal errors put it back to 5 |
| `BgpFsmLive.ClosedExactly` | bgpd/bgp_fsm.c:522-527 | a peer that gives up its session closes its descriptor exactly unless the event is one of those named |
| `BgpFsmLive.RunClosed` | bgpd/bgp_fsm.c:933-1087 | over every run without such an event a peer that is not connected has no descriptor open, and the first such event leaves one |
| `BgpFsmLive.HandleQueues` | bgpd/bgp_fsm.c:430-733 | what each handler flushes from the event queue and what it queues |
| `BgpFsmLive.ClearingQueues` | bgpd/bgp_fsm.c:400-419 | going into Clearing or Deleted queues Clearing_Completed exactly when there is nothing to clear |
| `BgpFsmLive.HandleTimes` | bgpd/bgp_fsm.c:551-562 | stopping puts the configured times back in force |
| `BgpFsmLive.HoldTimeAgreed` | bgpd/bgp_packet.c:1548-1553 | an OPEN puts the smaller hold time in force, and a third of it between keepalives |
| `BgpFsm.SessionsBalance` | bgpd/bgp_fsm.c:434-497 | over every run the sessions established are those dropped, the one up and those lost; so the two counts agree if and only if none is lost |
| `BgpFsm.OnlyWays` | bgpd/bgp_fsm.c:933-1134 | Established is entered only by a KEEPALIVE in OpenConfirm and left only into Clearing, but for deletion and the lost case |
| `BgpFsm.DisciplineSuffices` | bgpd/bgp_fsm.c:400-430 | if Clearing_Completed is queued only while clearing, none is lost |
| `BgpFsm.TableEstablished` | bgpd/bgp_fsm.c:1008-1041 | what the table says of entering, keeping and leaving Established |
| `BgpFsm.HandleOk` | bgpd/bgp_fsm.c:430-902 | whatever the handler, the start time stays within 120, no route advertisement timer runs outside Established, and a handler that stops the event leaves the timers right by itself |
| `BgpFsm.HandleCounts` | bgpd/bgp_fsm.c:580-902 | which handlers count a session up or down, which change the status, and which stop the event |
| `BgpPeer.Peer.TimerSet` | bgpd/bgp_fsm.c:79-214 | the calls for each status leave scheduled for the peer exactly the threads the status, the configuration and the hold time call for, those that ran before still running; threads and events of other peers untouched |
| `BgpPeer.Peer.TimerOn` | bgpd/bgp_fsm.h:50-54 | a thread is scheduled unless the pointer holds one, and pointers and threads still correspond |
| `BgpPeer.Peer.TimerOff` | bgpd/bgp_fsm.h:56-60 | the thread is cancelled and the pointer cleared: none is left behind |
| `BgpPeer.Peer.FlushEvents` | lib/thread.c:908-949 | the walk takes out of the shared queue every event of the peer and no other, the rest in order |
| `BgpPeer.Peer.Stop` | bgpd/bgp_fsm.c:430-573 | every thread of the peer is cancelled and its events are flushed unless it is clearing; pointers and threads correspond and other peers are untouched; the drop is counted as Stopped says |
| `BgpPeer.Peer.HandleEvent` | bgpd/bgp_fsm.c:1098-1134 | every event in every state leaves scheduled the threads the peer's pointers hold, each timer in its own states, and after one that goes through exactly those the new state calls for; an accepted OPEN, KEEPALIVE or UPDATE puts a new hold timer in place of the old; counts move together; nothing of another peer is touched |
| `BgpPeer.Peer.Expire` | bgpd/bgp_fsm.c:218-313 | so does a timer that runs out, whose pointer is cleared first |
| `BgpPeer.OtherPeerKept` | bgpd/bgp_fsm.h:62-72 | what one peer leaves untouched is all there is of another: its events in their order, and its pointers holding exactly its threads |
| `BgpFsmLoss.LossReachable` | bgpd/bgp_fsm.c:1040 | a run in which a session is lost from the count |

## Left out

Babel:

- BabelNetwork.StepKeepsInv: seqnos are compared within windows of 2^15, no source in use has passed SOURCE_GC_TIME, and link costs are at least 1.
- BabelRoute.UpdateInstallsFeasible: a route may stay installed although it has become unfeasible, as the code intends.
- BabelCodec.ParsePacket: reports updates and wildcard retractions; the handlers of the other TLVs, and diversity channels beyond the length of the sub-TLV, are not modelled. Octets past the end of a packet read as zero, and defaults never set as absent.
- BabelSender.Interface.StartMessage: after a flush inside a message, which ensure_space rules out, the header stands in a buffer that is not the encoding of anything pending.
- BabelFlush.FlushUpdates: starts from the entries as qsort has sorted them; that really_send_update may flush the buffer in between is part of BabelSender.
- flush_all_routes, update_neighbour_metric and expire_routes as loops over the whole table: their single steps are in the model.
- Requests, triggered updates, hellos and link quality: they decide when updates are sent, and every such schedule is a run.
- Unicast buffers, exported routes as a list, memory allocation and its failures, 16-bit limits of counters and table sizes.
- The list of sources is a map for each destination, and a slot carries its prefix once.

BGP:

- BgpAspathPut.Put: on a stream without room for the whole path only part of it is written; what is then on the stream is not described.
- BgpAttrSend.AttrRoundTrip: IPv4 unicast between internal peers, without route reflection, local-as or unknown attributes; confederation segments are excluded where AS4_PATH must be sent. Multiprotocol, extended-community, originator, cluster and unknown attributes are accepted or refused by an arbitrary function.
- BgpAttr.AttrParse: error subcodes and NOTIFICATION data are not modelled, nor the flag table's missing entry for type 19, which is taken as having no required flags.
- BgpAttrSend.PacketAttribute: what is on a stream without room, and the attribute length written for a segment over 510 AS numbers, are not described; external and confederation peers (prepending, AS_PATH check, LOCAL_PREF ignored) are not modelled.
- BgpAspathText.MakeStr: unknown segment types, for which the source returns no string, cannot be written in the model.
- BgpReconcile.ReconcileAs4: a missing AS_PATH is the caller's case.
- BgpAspathPack.PackedExactly: for sets whose image repeats an AS number only the half PairedSurvives is stated; assegment_normalise leaves no repeats, but several AS_TRANS in one set are repeats.
- BgpMpath.Update: bgp_info_mpath is part of the path record, lazily made in the source; the aggregate attribute built by bgp_info_mpath_aggregate_update and the debug output are not modelled.
- BgpAdjOut.Peer.Set: the attribute given is never null, as at every call in the source; the doubly linked lists and FIFOs are sequences of advertisement numbers, and locks on nodes and peers are left out.
- BgpAdjOut.Peer.UpdatePacket: the octets of the packet are not built; room is a number of prefixes. The count of prefixes sent is left out.
- BgpFsm.OnlyWays: bgp_open_receive moving an accepted connection to the configured peer writes the status outside the machine and is not a step of the runs.
- BgpPeer.Peer.Stop: read and write threads, buffers and negotiated capabilities are left out.
- BgpFsm.RunTimersOk: the graceful restart timers are left out but for the end of waiting; an OPEN whose hold time is refused is not a step.
- aspath_aggregate, prepending and filtering of paths, communities as text, extended communities, route flap damping, regular expressions, the nexthop cache and route maps.
- Sockets, zebra, configuration, logging and dumps.
