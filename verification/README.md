# Verified model of the pathvector routing core

This project models, in Dafny, how the pathvector BGP daemon chooses routes and passes them
on, and proves what the choice and the propagation guarantee. It also models the replay tool
that turns an MRT dump into UPDATE messages.

`dafny verify dfyconfig.toml` checks the whole project.

| file | what it holds |
|---|---|
| `Types.dfy`, `AsPaths.dfy` | routes, peers and AS paths |
| `BestPath.dfy` | the comparator and group-then-compare selection, for any hash-map order |
| `SelectionOrder.dfy` | exactly when the order does not matter |
| `Elimination.dfy` | selection measured against the elimination rules of section 9.1.2.2 of RFC 4271 |
| `SelectionStability.dfy` | routes that cannot win their group do not matter; the cycles that show why the order can |
| `LocRib.dfy`, `LocRibRuns.dfy` | the local routing table, its change notices, and whole histories of both |
| `Fib.dfy` | the forwarding-table writer that consumes the notices |
| `Policies.dfy`, `PolicyRewrite.dfy` | the policy engine, and a rewriting of policies that keeps their meaning |
| `RouteLeak.dfy` | ONLY_TO_CUSTOMER along chains of ASes (RFC 9234) |
| `Outbound.dfy`, `AdjRibOut.dfy` | what a peer is sent, and the table kept of it |
| `Propagation.dfy` | from the routing table to our table for a peer, with the reflector's guard |
| `Flush.dfy` | sorting, grouping and packing a buffer of decisions, and what the far end makes of it |
| `Sessions.dfy`, `SessionCases.dfy` | routing events, the advertisement interval, the buffer and the flushes of one session run together; histories that end wrong |
| `AdjRibIn.dfy`, `Inbound.dfy` | the inbound table and its stale marks (RFC 4724); import policy between it and the local table |
| `Bytes.dfy`, `Mrt.dfy`, `Batching.dfy`, `Wire.dfy`, `Speaker.dfy`, `Delivery.dfy` | dump reader, packing, framing, and the way from dump to peer |

## How the source is represented

- Objects that the source updates in place are classes; loops are loops. Each is proved against
  a function or relation on values, and the lemmas are about those.
- A hash map is a `map`. Walking one picks the next key arbitrarily, so every result holds for
  every iteration order.
- The next-hop oracle, the BGP peer's table and the order of a walk are parameters. Arrival times
  are numbers carried by the route.
- A route that the source rewrites through `&mut` is passed in and handed back.
- Integers are compared and copied but not computed with, so they are natural numbers. The two
  places where width matters, the sixteen-bit casts in `send_update` and the byte fields of a
  dump, are written out.
- IPv4 and IPv6 share one model; an IPv6 speaker may lack a local address, as in
  `prepare_outbound_v6`.

## Where the code differs from what is said about it

- `LocRib::insert` reports `Unchanged` when an insert leaves a prefix without any reachable
  route, although its best route just disappeared. A consumer that acts on the notices keeps the
  dead route. `LocRib.LocRib.Insert` and `LocRibRuns.ReplayHoldsBestRoutes` state the exact
  condition, and `LocRibRuns.LostWithdrawalExists` the case.
- The forwarding-table writer is said always to converge to the correct final state and to drop
  no update. Coalescing is indeed harmless (`Fib.RecordIsWrite`), but an announcement without an
  IPv4 next hop is skipped and the old gateway stays: `Fib.RunWritesGateways` gives the exact
  condition, `Fib.StrandedGatewayExists` the case.
- A route reflector skips a prefix whose best route came from a non-client when the peer is a
  non-client too. Skipping withdraws nothing, so a route the peer was sent earlier stays with it,
  even after its source has withdrawn it: `Propagation.GuardStrandsRoute`. When a session ends,
  the propagation does not check the rule at all, and sends the route:
  `Propagation.UncheckedSendsGuardedRoute`. `Propagation.TableHoldsLastOffered` says what our
  table for the peer holds in every case, and `Propagation.RunStaysInSync` exactly when that is
  right.
- When a session ends, the prefixes to propagate are listed before its routes are withdrawn. A
  prefix that gains its first best route by that withdrawal is missed:
  `Propagation.SessionEndMissesGain`, and `Propagation.SessionEndMisses` for exactly which lists
  miss something.
- Decisions are collected in a buffer, and a flush sends all withdrawals first and then the
  announcements, grouped by attributes. An announcement and its later withdrawal in one buffer
  leave the peer with the withdrawn route: `SessionCases.BurstStrandsRoute`. A newer announcement
  loses against an older one if another prefix opened its group earlier: `Flush.OlderGroupWins`.
  The flush at the end of a session does not go through the buffer, so what is still in it is
  sent afterwards: `SessionCases.DirectFlushIsOvertaken`. `Flush.OrderSurvivesIff` is the exact
  condition for one buffer, and `Sessions.OnTrackIffClean` for a whole history.
- Announcements held back by the minimum advertisement interval are said to reach the peer once
  the interval is over. Our table was written when they were held back, so the flush finds
  nothing to send: `Sessions.IntervalSendsNothing`, `SessionCases.HeldBackIsNeverSent`, and again
  the exact condition in `Sessions.OnTrackIffClean`.
- The import policy is not applied to the stale copies of a restarting peer, so a route it
  rejected becomes a candidate: `Inbound.RestartAdmitsLeak`. A rejected announcement leaves the
  route it replaces in place: `Inbound.RejectedReplacementStays`. A restart that does not cover
  the family empties the inbound table only: `Inbound.UncoveredRestartStrands`. Applying a policy
  again lets in blackhole routes: `Inbound.ReapplyAdmitsBlackhole`. `Inbound.OnlyAcceptedIff` says
  exactly after which histories a peer's candidates are its accepted routes.
- The comment on selection says grouping guarantees a total order. It does not when only some
  routes have a BGP Identifier or an IGP metric: `SelectionStability.MissingIdentifierCycle`,
  `SelectionStability.MissingMetricCycle`. `SelectionOrder.OrderIndependence` gives the exact
  condition.
- `neighboring_as` is documented to give nothing for a path that begins with a Set or a
  confederation segment. The code skips such segments: `AsPaths.SetIsSkipped`, and
  `AsPaths.NeighborAsDocumentedIff` for exactly which paths are as documented.
- `parse_rib_ipv4` panics on a prefix length above 32 whose octets are present. The model has a
  `Crash` outcome; `Mrt.ParsedBodyIsCanonical` says exactly when it occurs, and
  `Mrt.PrefixLengthPanics` gives a dump.
- The dump reader is documented to give one entry per unique prefix. It gives one per record:
  `Mrt.RepeatedPrefixKept`, and `Mrt.UniquePrefixesIff` for exactly which dumps are as documented.
- `send_update` says its total length is at most 4096. That holds exactly when each entry's
  attributes leave room for its own prefix: `Delivery.MessagesFitIffEntriesFit`, and
  `Delivery.OversizedUpdate` for an entry sent in 4097 bytes.
- `announce` is documented to send a KEEPALIVE every fifty UPDATEs. The last UPDATE of an
  attribute set never checks the count: `Delivery.KeepalivesExactly`, and `Delivery.CadenceIff`
  for exactly which replays are as documented. `Delivery.CadenceMissed` is a replay of fifty UPDATEs
  without any.

## Model

| member | source | states |
|---|---|---|
| `AsPaths.PrependEffect` | pathvector-types/src/aspath.rs:236-245 | a prepend lengthens the path by one, makes the AS the neighbour, keeps segments within 255 and adds no confederation segment |
| `AsPaths.PrependConfedEffect` | pathvector-types/src/aspath.rs:270-280 | a confederation prepend changes neither path length, nor neighbour, nor what stripping leaves |
| `AsPaths.StripEffect` | pathvector-types/src/aspath.rs:532-545 | stripping removes every confederation segment, keeps length and neighbour, and does nothing exactly when there was none |
| `AsPaths.StripPrependCommute` | pathvector-rib/src/outbound.rs:68-70 | strip-then-prepend and prepend-then-strip agree if and only if no leading confederation segment hides a sequence the prepend would extend |
| `AsPaths.PrependContains` | pathvector-types/src/aspath.rs:297-299 | after a prepend the path holds the new AS and otherwise exactly what it held |
| `AsPaths.NeighborNoneIff` | pathvector-types/src/aspath.rs:379-384 | there is no neighbour if and only if no segment is a non-empty Sequence |
| `AsPaths.NeighborAsDocumentedIff` | pathvector-types/src/aspath.rs:358-384 | the code gives the documented neighbour if and only if the path begins with a non-empty Sequence or has none anywhere |
| `AsPaths.SetIsSkipped` | pathvector-types/src/aspath.rs:366-384 | a path that begins with a Set has a neighbour, against the documentation |
| `BestPath.PreferAntisymmetric` | pathvector-rib/src/best_path.rs:167-267 | the comparator never contradicts itself and ties only a peer with itself |
| `BestPath.FindMax` | pathvector-rib/src/best_path.rs:136-144 | the iterator maximum with its rule that a later element replaces an earlier one that is not greater |
| `BestPath.FilterReachable` | pathvector-rib/src/best_path.rs:99-112 | exactly the candidates with a reachable or absent next hop, each once |
| `BestPath.GroupByNeighbor` | pathvector-rib/src/best_path.rs:124-130 | each candidate filed once under its neighbouring AS, and nothing else filed |
| `BestPath.SelectFromGroups` | pathvector-rib/src/best_path.rs:132-144 | the result is that of some walk over the groups and their members |
| `BestPath.SelectBestWithOracle` | pathvector-rib/src/best_path.rs:95-145 | none exactly when nothing is reachable, otherwise the outcome of some walk over the reachable candidates |
| `SelectionOrder.FoldStaysDominant` | pathvector-rib/src/best_path.rs:132-144 | a walk that meets a set beating everything outside it ends inside that set |
| `SelectionOrder.WinnerIsContender` | pathvector-rib/src/best_path.rs:132-140 | whatever the order, a group's winner lies in every dominating subset of the group |
| `SelectionOrder.AttainContender` | pathvector-rib/src/best_path.rs:132-140 | conversely, every such contender wins its group under some order |
| `SelectionOrder.SettledIsSelected` | pathvector-rib/src/best_path.rs:114-144 | a route that beats its group and all contenders elsewhere is selected under every order |
| `SelectionOrder.OrderIndependence` | pathvector-rib/src/best_path.rs:114-145 | a route is selected under every order of candidates and groups if and only if it is settled; no hypothesis on metrics or identifiers |
| `Elimination.PreferTransitive` | pathvector-rib/src/best_path.rs:167-267 | with metrics and identifiers all known or all unknown, the comparator is transitive within one neighbour and between different ones |
| `Elimination.SurvivorBeats` | pathvector-rib/src/best_path.rs:167-267 | the route left by the rules beats every route of its own neighbour and every one elsewhere that MED did not eliminate |
| `Elimination.SurvivorExists` | pathvector-rib/src/best_path.rs:99-112 | the rules always leave a route when there is a candidate |
| `Elimination.SelectionSurvivesMed` | pathvector-rib/src/best_path.rs:174-217 | with no hypothesis and under every order, the selected route is best on freshness, LOCAL_PREF, length and ORIGIN, and no tied route of its neighbour has a lower MED |
| `Elimination.StaleOnlyAsLastResort` | pathvector-rib/src/best_path.rs:174-181 | a stale route is selected only if every candidate is stale (section 4.2 of RFC 4724) |
| `Elimination.SurvivorIsSelected` | pathvector-rib/src/best_path.rs:95-145 | under every order the route left by the rules is the one selected |
| `Elimination.SelectionIsElimination` | pathvector-rib/src/best_path.rs:95-145 | group-then-compare computes the elimination procedure: the selected route is its one and only survivor |
| `Elimination.SelectedIsSurvivor` | pathvector-rib/src/best_path.rs:95-145 | the same of any result of the selection method: none if and only if nothing is reachable, and otherwise the survivor |
| `SelectionStability.RemovingLoserChangesNothing` | pathvector-rib/src/best_path.rs:124-145 | withdrawing a route that is not its group's winner leaves the selection unchanged, for all orders before and after |
| `SelectionStability.StaleLoserChangesNothing` | pathvector-rib/src/best_path.rs:174-181 | nor does marking such a route stale |
| `SelectionStability.ContendersKept` | pathvector-rib/src/best_path.rs:132-140 | without a route that can win its group under no order, exactly the same other routes can win theirs; no hypothesis on metrics or identifiers |
| `SelectionStability.AllWin` | pathvector-rib/src/best_path.rs:132-140 | contenders, one per group, all win their groups under one common order |
| `SelectionStability.RemovingNonContenderChangesNothing` | pathvector-rib/src/best_path.rs:95-145 | withdrawing such a route leaves the set of possible selections exactly as it was |
| `SelectionStability.StaleNonContenderChangesNothing` | pathvector-rib/src/best_path.rs:174-181 | so does marking it stale |
| `SelectionStability.MissingIdentifierCycle` | pathvector-rib/src/best_path.rs:252-263 | with one identifier missing, three routes beat each other in a circle and two orders select different routes |
| `SelectionStability.MissingMetricCycle` | pathvector-rib/src/best_path.rs:231-241 | the same with one IGP metric unknown |
| `SelectionStability.MedCycleWithoutGrouping` | pathvector-rib/src/best_path.rs:114-123 | across neighbours the comparator is circular even with complete data, so a plain maximum depends on the order; grouping picks one |
| `SelectionStability.CycleHasNoMaximum` | pathvector-rib/src/best_path.rs:114-123 | in any circle of three the maximum is whatever was walked last |
| `LocRib.LocRib.constructor` | pathvector-rib/src/loc_rib.rs:144-150 | an empty, valid table |
| `LocRib.LocRib.RecomputeBest` | pathvector-rib/src/loc_rib.rs:373-389 | the prefix's winner becomes an outcome of selection over all its candidates; other prefixes keep theirs |
| `LocRib.LocRib.AddCandidate` | pathvector-rib/src/loc_rib.rs:172-176 | the candidate is stored and the peer index still lists exactly the peers with a candidate |
| `LocRib.LocRib.Insert` | pathvector-rib/src/loc_rib.rs:161-200 | only the route's prefix changes, its winner is re-selected, and the notice brings a consumer in line if and only if the insert does not take away the last reachable route |
| `LocRib.InsertIsLocal` | pathvector-rib/src/loc_rib.rs:161-200 | an insert changes its own prefix only, and its notice is right about it exactly outside that case |
| `LocRib.InsertReplays` | pathvector-rib/src/loc_rib.rs:179-199 | so the notice brings a consumer in line if and only if no withdrawal is lost |
| `LocRib.OnlyWinnerLosesWithdrawal` | pathvector-rib/src/loc_rib.rs:179-180 | in an up-to-date table only the winning peer's own replacement can cause it |
| `LocRib.LocRib.RemoveCandidate` | pathvector-rib/src/loc_rib.rs:218-229 | the candidate is gone, the index is exact, and the result says whether the prefix has others |
| `LocRib.LocRib.ForgetPrefix` | pathvector-rib/src/loc_rib.rs:230-238 | a prefix without candidates has no winner, and a withdrawal is reported exactly if it had one |
| `LocRib.LocRib.ReselectAfterWithdraw` | pathvector-rib/src/loc_rib.rs:240-251 | the remaining candidates are re-selected and the notice is right |
| `LocRib.LocRib.Withdraw` | pathvector-rib/src/loc_rib.rs:210-252 | only the named candidate goes, only its prefix changes, nothing happens if it was absent, and the notice always brings a consumer in line |
| `LocRib.WithdrawIsLocal` | pathvector-rib/src/loc_rib.rs:210-252 | a withdrawal changes its own prefix only, and its notice is right in every branch |
| `LocRib.LocRib.WithdrawPeer` | pathvector-rib/src/loc_rib.rs:262-278 | a chain of withdrawals of exactly the prefixes the peer offered, in some order, with the notice of each; exactly its candidates go, and the notices together bring a consumer in line |
| `LocRib.WithdrawPeerAt` | pathvector-rib/src/loc_rib.rs:262-278 | what that does at one prefix: re-selected without the peer and rightly reported if it offered it, untouched and unnamed otherwise |
| `LocRib.WithdrawPeerReplays` | pathvector-rib/src/loc_rib.rs:255-278 | one notice per prefix the peer offered, and a consumer that applies them is in line |
| `LocRib.LocRib.RecomputeAll` | pathvector-rib/src/loc_rib.rs:351-371 | a chain of re-selections of every prefix in some order; afterwards every prefix is up to date, and the notices name exactly the prefixes whose winner changed and bring a consumer in line |
| `LocRib.RecomputeAt` | pathvector-rib/src/loc_rib.rs:351-371 | what that does at one prefix, which is named exactly when its winner changed |
| `LocRib.RecomputeReplays` | pathvector-rib/src/loc_rib.rs:345-371 | the notices of a full re-selection bring a consumer in line |
| `LocRib.ReselectIsLocal` | pathvector-rib/src/loc_rib.rs:356-368 | a re-selection changes its own prefix only, and its notice is right, with one exactly when the winner changed |
| `LocRib.LocRib.Reselect` | pathvector-rib/src/loc_rib.rs:356-368 | one prefix re-selected from all its candidates, with its notice; other prefixes keep their winner |
| `LocRib.ApplyAllAt` | pathvector-rib/src/loc_rib.rs:10-42 | what a consumer holds for a prefix depends on the notices naming it alone |
| `LocRib.RightNoticesReplay` | pathvector-rib/src/loc_rib.rs:10-42 | notices right about every prefix bring the whole of a consumer's table in line |
| `LocRib.ChainAt` | pathvector-rib/src/loc_rib.rs:274-277 | in a chain over distinct prefixes each prefix is affected and named by its own step alone |
| `LocRibRuns.StepNoticeRight` | pathvector-rib/src/loc_rib.rs:161-371 | the notices any operation sends about a prefix are right if and only if no withdrawal of it was lost |
| `LocRibRuns.StepReplay` | pathvector-rib/src/loc_rib.rs:10-42 | derived from that: one operation's notices bring a consumer in line if and only if it loses no withdrawal |
| `LocRibRuns.ReplayHoldsBestRoutes` | pathvector-rib/src/loc_rib.rs:10-42 | a consumer that sees only notices holds exactly the best routes at every point of a history, under changing oracles, if and only if no insert of it loses a withdrawal |
| `LocRibRuns.LostWithdrawalExists` | pathvector-rib/src/loc_rib.rs:179-180 | from an empty table, a lone best route replaced by its own peer with an unreachable one: the history exists, no best route is left, and the consumer still holds the first |
| `LocRibRuns.StepSelects` | pathvector-rib/src/loc_rib.rs:373-389 | after any operation a prefix is either untouched or freshly selected |
| `LocRibRuns.StepStaysUpToDate` | pathvector-rib/src/loc_rib.rs:155-157 | each operation keeps every prefix's winner an outcome of selection |
| `LocRibRuns.RunStaysUpToDate` | pathvector-rib/src/loc_rib.rs:155-157 | so does every history under one oracle, at every point |
| `LocRibRuns.HistoryDoesNotMatter` | pathvector-rib/src/loc_rib.rs:373-389 | two up-to-date tables with equal candidates have equal winners, however the candidates arrived |
| `Fib.RecordIsWrite` | pathvectord/src/fib.rs:138-140 | recording a change in the one pending slot and draining later is the same as writing it at once |
| `Fib.FibManager.ApplyV4` | pathvectord/src/fib.rs:187-200 | the table the kernel will have changes as if the change were written at once; other prefixes keep theirs |
| `Fib.FibManager.ProcessBatch` | pathvectord/src/fib.rs:260-329 | whatever the order, draining leaves the kernel with exactly what was pending and everything else unchanged |
| `Fib.WrittenAt` | pathvectord/src/fib.rs:187-200 | what the kernel holds for a prefix after any operation: the new gateway, or the old one exactly when it is stranded |
| `Fib.StepWritesGateways` | pathvectord/src/fib.rs:187-200 | one operation's notices leave the kernel with the best routes' gateways if and only if it strands none |
| `Fib.RunWritesGateways` | pathvectord/src/fib.rs:138-140 | the kernel is right at every point of a history if and only if no best route with an IPv4 next hop is replaced by one without or lost without notice |
| `Fib.StrandedGatewayExists` | pathvectord/src/fib.rs:189-193 | such a replacement: announced, and the old gateway stays |
| `Policies.RunPrepend` | pathvector-policy/src/action.rs:214-223 | the loop prepends the AS that many times |
| `Policies.ApplyAction` | pathvector-policy/src/action.rs:388-398 | an action, however deeply nested, has the effect of its steps in order up to the first verdict |
| `Policies.PrependTimesEffect` | pathvector-policy/src/action.rs:214-223 | the path grows by exactly the count, within 255 per segment and without new confederation segments |
| `Policies.AddCommunityEffect` | pathvector-policy/src/action.rs:242-249 | one more occurrence at the end, and nothing else on the route changes |
| `Policies.RemoveCommunityEffect` | pathvector-policy/src/action.rs:262-274 | every occurrence goes, the others keep their number, and nothing else changes |
| `Policies.RemoveUndoesAdd` | pathvector-policy/src/action.rs:242-274 | removing after adding leaves what removing alone leaves |
| `Policies.Policy.constructor` | pathvector-policy/src/term.rs:114-119 | a policy starts without terms and with its default |
| `Policies.Policy.AddTerm` | pathvector-policy/src/term.rs:124-130 | the term comes last |
| `Policies.Policy.SetDefault` | pathvector-policy/src/term.rs:160-162 | the default changes and the terms stay |
| `Policies.Policy.Evaluate` | pathvector-policy/src/term.rs:141-151 | verdict and rewriting of the terms in order with fall-through, never `Next` |
| `Policies.TermsKeepOtc` | pathvector-policy/src/otc.rs:98-105 | terms without a SetOtc action leave ONLY_TO_CUSTOMER as it was |
| `Policies.EvalFrame` | pathvector-policy/src/term.rs:141-151 | no policy changes a route's prefix, source or staleness, breaks the segment limit or brings in a confederation segment |
| `PolicyRewrite.FlattenSound` | pathvector-policy/src/action.rs:388-398 | flattening nested sequences keeps verdict and route |
| `PolicyRewrite.CutSound` | pathvector-policy/src/action.rs:388-398 | nothing after the first verdict matters, and whether there is a verdict does not depend on the route |
| `PolicyRewrite.OptimizePreservesMeaning` | pathvector-policy/src/term.rs:65-71 | merging always-matching terms, flattening and dropping unreachable terms keeps verdict and route for every input |
| `PolicyRewrite.OptimizeIsNormal` | pathvector-policy/src/term.rs:141-151 | the result is flat, has no two always-matching terms in a row and nothing after one that decides, and is no longer than the original |
| `PolicyRewrite.EvaluateDecides` | pathvector-policy/src/term.rs:141-151 | evaluation always ends in Accept or Reject |
| `RouteLeak.CompatibleIsComplement` | pathvector-types/src/role.rs:63-72 | two roles are compatible exactly when each is the other's complement |
| `RouteLeak.InstallOtcImportTerm` | pathvectord/src/daemon/mod.rs:765-773 | the ingress terms for a role are appended, in order |
| `RouteLeak.InstallOtcExportTerm` | pathvectord/src/daemon/mod.rs:782-796 | the egress terms for a role are appended, in order |
| `RouteLeak.ExportEffect` | pathvectord/src/daemon/mod.rs:782-796 | a marked route goes only down, an unmarked one is marked when sent down or sideways, before any further policy |
| `RouteLeak.ImportEffect` | pathvector-policy/src/otc.rs:46-54 | a leaked route is rejected and an unmarked one from above or the side is marked, before any further policy |
| `RouteLeak.PlainHopEffect` | pathvectord/src/outbound.rs:186-231 | exactly when one session passes a route on, given its marker, its well-known communities and its path, and that nothing changes but the marker and what preparing it for an external peer changes |
| `RouteLeak.HopIsSafe` | pathvector-policy/src/otc.rs:46-105 | with any further policies that leave the marker alone, a session never passes a route it must block |
| `RouteLeak.HopKeepsPath` | pathvectord/src/daemon/route.rs:1234-1251 | whatever the policies, a session that passes a route on does not return it to an AS on its path, and no AS leaves the path |
| `RouteLeak.ChainAcceptsExactly` | pathvector-policy/src/otc.rs:18-54 | under partial deployment, exactly which chains an unmarked route crosses; its marker is the sender on the first marking hop; chains without a leak, a loop or a forbidding community are crossed, and a crossed chain leaks if and only if a receiver met the sender's own number |
| `RouteLeak.CheckedLoopsDistinct` | pathvectord/src/daemon/route.rs:1234-1251 | the loop check makes the senders that receivers identify by value distinct from all earlier ones |
| `RouteLeak.AcceptedLeaksIffExcused` | pathvector-policy/src/otc.rs:56-105 | the same safety with arbitrary further policies; on linked sessions whose judged ASes check for loops, no crossed chain leaks |
| `RouteLeak.NoLeakIsValleyFree` | pathvector-policy/src/otc.rs:56-86 | when every session is guarded, free of leaks means up, at most one lateral, then down |
| `RouteLeak.AcceptedIffValleyFree` | pathvector-policy/src/otc.rs:46-105 | under full deployment an unmarked route that its communities let out crosses a chain of any length if and only if the chain is valley-free and returns to no AS that checks for loops |
| `RouteLeak.RepeatedSenderLeaks` | pathvector-policy/src/otc.rs:46-54 | the exception occurs on a chain of four distinct ASes: a marked route returns to the AS that marked it, which does not check for loops there, and then crosses sideways |
| `Outbound.PrepareOutbound` | pathvector-rib/src/outbound.rs:59-87 | the step-by-step rewriting gives the attributes a peer of that type must see |
| `Outbound.SuppressedIffDisallowed` | pathvector-rib/src/outbound.rs:25-32 | a route is held back exactly when one of the three well-known communities forbids that kind of peer |
| `Outbound.StoredIsPrepared` | pathvector-rib/src/adj_rib_out.rs:149-152 | after preparation and any export policy the strip in the outbound table does nothing |
| `Outbound.SendEffect` | pathvector-rib/src/outbound.rs:59-87 | when one session sends a route, and its effect on path, communities and prefix |
| `Outbound.RelayedIffPermitted` | pathvector-rib/src/outbound.rs:25-87 | over any mix of sessions a route arrives if and only if communities and split horizon permit every hop; its path then grew by the external hops and the policy prepends, within 255 per segment |
| `Outbound.InsideHidesNothingPublic` | pathvector-rib/src/outbound.rs:74-84 | relaying inside a confederation leaves the public part of the path alone |
| `Outbound.ConfederationIsInvisible` | pathvector-rib/src/outbound.rs:67-87 | an external peer sees the path it would have seen from the first member, with one public AS and no confederation segment (section 4.1 of RFC 5065) |
| `AdjRibOut.AdjRibOut.constructor` | pathvector-rib/src/adj_rib_out.rs:86-93 | an empty table that applies split horizon |
| `AdjRibOut.AdjRibOut.Reflecting` | pathvector-rib/src/adj_rib_out.rs:102-109 | an empty table that reflects |
| `AdjRibOut.AdjRibOut.Insert` | pathvector-rib/src/adj_rib_out.rs:141-155 | one prefix changes to what this peer may hold, and the outcome names what was displaced |
| `AdjRibOut.AdjRibOut.Withdraw` | pathvector-rib/src/adj_rib_out.rs:161-163 | one prefix goes and what it held is returned |
| `AdjRibOut.AdjRibOut.WithdrawDecision` | pathvectord/src/outbound.rs:196-202 | a withdrawal is sent exactly when the peer held something |
| `AdjRibOut.AdjRibOut.Offer` | pathvectord/src/outbound.rs:220-231 | our table holds what the peer may see; the decision for a route that needs no stripping makes a far end that acts on it at once equal, and there is none exactly when nothing changed |
| `AdjRibOut.AdjRibOut.PropagatePrefix` | pathvectord/src/outbound.rs:168-249 | the prefix ends up holding just what the peer should see, the one decision makes a far end that acts on it at once equal when session and table agree on the type, and a deferred call changes nothing |
| `AdjRibOut.InsertMessageIsRight` | pathvector-rib/src/adj_rib_out.rs:10-28 | the message an insert's outcome calls for is right and never superfluous |
| `AdjRibOut.RemoteMirrorsTable` | pathvector-rib/src/adj_rib_out.rs:141-163 | after every sequence of operations a far end that saw only the messages holds exactly our table |
| `AdjRibOut.LastOperationWins` | pathvector-rib/src/adj_rib_out.rs:141-163 | from empty, each prefix holds what its last operation left |
| `AdjRibOut.ReachableTablesValid` | pathvector-rib/src/adj_rib_out.rs:141-163 | every reachable table files by prefix, holds no internal route for a plain internal peer and no confederation segment for an external one |
| `Propagation.DecideOne` | pathvectord/src/daemon/route.rs:456-487 | the guard is looked at first; our table then changes as stated, and the decision is the difference |
| `Propagation.PropagateToPeer` | pathvectord/src/daemon/route.rs:416-488 | our table for the peer is brought in line on the listed prefixes except guarded ones, and the decisions, taken in order, are the differences |
| `Propagation.BestPrefixesCover` | pathvectord/src/daemon/peer.rs:686-692 | when a session ends, the prefixes with a best route are all that need propagating, if the table was up to date |
| `Propagation.UncoveredKeepsView` | pathvectord/src/daemon/fib.rs:89-131 | a prefix outside an operation's list looks the same to every peer before and after it |
| `Propagation.RoundStaysInSync` | pathvectord/src/daemon/route.rs:456-487 | whatever list is propagated after whatever change, our table stays the exported view if and only if no listed prefix is wrongly skipped or wrongly offered and no other one is missed |
| `Propagation.SessionEndMisses` | pathvectord/src/daemon/peer.rs:686-692 | the list taken when a session ends misses something if and only if the withdrawal gives a best route, which the peer should see, to a prefix that had none |
| `Propagation.SessionEndMissesGain` | pathvectord/src/daemon/peer.rs:686-692 | such a withdrawal, after a next hop became reachable and before the table was re-selected |
| `Propagation.StepStaysInSync` | pathvectord/src/daemon/route.rs:456-487 | propagating all affected prefixes keeps our table right if and only if none of them is guarded and still held, or guarded and offered without the check |
| `Propagation.TableHoldsLastOffered` | pathvectord/src/daemon/route.rs:392-394 | at every point of every history our table for the peer holds for every prefix exactly what was last offered |
| `Propagation.InSyncIff` | pathvectord/src/daemon/route.rs:456-487 | our table is right at a point if and only if nothing guarded there was offered last |
| `Propagation.RunStaysInSync` | pathvectord/src/daemon/route.rs:416-488 | our table for the peer is the exported view of the best routes at every point of a history if and only if no round goes wrong on a guarded prefix |
| `Propagation.UnguardedRunInSync` | pathvectord/src/daemon/route.rs:463-473 | on every session but a reflector's with a non-client our table is always right |
| `Propagation.DumpSynchronizes` | pathvectord/src/daemon/deferral.rs:319-371 | the initial dump of all best routes, with its guard, makes a new session's table right |
| `Propagation.GuardStrandsRoute` | pathvectord/src/daemon/route.rs:463-473 | a history from empty after which our table for a non-client holds a route no candidate has |
| `Propagation.UncheckedSendsGuardedRoute` | pathvectord/src/daemon/peer.rs:765-792 | when a session ends, a non-client is offered another non-client's route |
| `Flush.Pack` | pathvectord/src/outbound.rs:294-322 | the messages hold every prefix in order, none is empty, and only a lone prefix exceeds the negotiated length |
| `Flush.Sort` | pathvectord/src/outbound.rs:268-289 | the withdrawn prefixes in order, and one group per attribute set in order of first announcement, with all its prefixes |
| `Flush.FlushUpdates` | pathvectord/src/outbound.rs:260-357 | however the messages are cut, a far end that applies them holds what withdrawing everything first and then setting group after group gives |
| `Flush.DeliverIsPointwise` | pathvectord/src/outbound.rs:291-357 | what arrives for a prefix depends on the decisions naming it and the order of the groups alone |
| `Flush.KeysOrdered` | pathvectord/src/outbound.rs:274-286 | there is a group exactly for each announced attribute set, in order of first announcement by any prefix |
| `Flush.LatestGroupArrives` | pathvectord/src/outbound.rs:324-357 | of a prefix's announcements the one whose group was opened last arrives, whenever it was decided, and whatever was withdrawn |
| `Flush.OrderSurvivesIff` | pathvectord/src/outbound.rs:260-357 | a flush leaves a prefix as the decisions in order would if and only if the last decision about it is an announcement in its latest group, or nothing about it is an announcement |
| `Flush.OnceIsHarmless` | pathvectord/src/outbound.rs:260-357 | so a prefix decided on at most once in a buffer is safe |
| `Flush.BurstKeepsWithdrawnRoute` | pathvectord/src/outbound.rs:291-324 | an announcement and its withdrawal in one buffer leave the far end with the route |
| `Flush.OlderGroupWins` | pathvectord/src/outbound.rs:274-286 | three announcements after which the far end holds the older of two for a prefix |
| `Sessions.Outbox.Enqueue` | pathvectord/src/daemon/route.rs:491-530 | a round's decisions are paced and appended, which is the buffering step of the histories below |
| `Sessions.Outbox.FlushPending` | pathvectord/src/daemon/route.rs:705-777 | the buffer is emptied, and the far end that applies the messages is that of the flushing step below |
| `Sessions.PaceAt` | pathvectord/src/daemon/route.rs:491-525 | of a round's decisions exactly an announcement inside the interval is dropped |
| `Sessions.DecisionsAt` | pathvectord/src/daemon/route.rs:456-488 | a round decides on each prefix at most once, also when it is listed twice, and exactly when our table must change there |
| `Sessions.DirectRoundAt` | pathvectord/src/daemon/peer.rs:765-800 | a round flushed past the buffer keeps the peer on track about a prefix if and only if it changes nothing there or nothing is buffered about it |
| `Sessions.BufferedRoundAt` | pathvectord/src/daemon/route.rs:491-530 | a buffered round does so if and only if no announcement that changes the prefix is held back |
| `Sessions.DrainAt` | pathvectord/src/daemon/route.rs:705-777 | a flush does so if and only if the order of the buffered decisions survives it |
| `Sessions.OnTrackIffClean` | pathvectord/src/daemon/mod.rs:1387-1400 | over every history of routing events, rounds, interval timers and flushes, what the peer holds with the buffer applied is our table at every point if and only if every event is clean in that sense |
| `Sessions.IntervalSendsNothing` | pathvectord/src/daemon/route.rs:543-585 | when the interval is over the pending prefixes are propagated again and nothing is sent for any of them |
| `Sessions.TableInSync` | pathvectord/src/daemon/route.rs:416-530 | except between a reflector and a non-client, our table is the exported view of the best routes at every point of such a history, which is what the previous row needs |
| `Sessions.PeerHoldsExports` | pathvectord/src/daemon/route.rs:416-777 | end to end: after a clean history, with nothing buffered, the peer holds exactly the exported attributes of the best routes |
| `Sessions.OffTrackPersists` | pathvectord/src/daemon/route.rs:543-585 | a peer that is wrong about a prefix stays wrong through any number of events until our table changes there or something buffered about it is flushed |
| `SessionCases.BurstStrandsRoute` | pathvectord/src/daemon/mod.rs:1387-1400 | a history from empty: a route comes and goes between two flushes, and the peer holds it although no table does |
| `SessionCases.DirectFlushIsOvertaken` | pathvectord/src/daemon/peer.rs:765-800 | a history from empty: the session that brought a route ends, its withdrawal overtakes the buffered announcement, and the peer holds the route |
| `SessionCases.HeldBackIsNeverSent` | pathvectord/src/daemon/route.rs:497-585 | a route announced and replaced a second later: after the interval and every flush the peer still has the first |
| `AdjRibIn.AdjRibIn.constructor` | pathvector-rib/src/adj_rib_in.rs:48-53 | an empty table for the peer |
| `AdjRibIn.AdjRibIn.Insert` | pathvector-rib/src/adj_rib_in.rs:80-82 | the route replaces its prefix's old one, which is returned |
| `AdjRibIn.AdjRibIn.Withdraw` | pathvector-rib/src/adj_rib_in.rs:87-89 | the prefix goes and its route is returned |
| `AdjRibIn.AdjRibIn.MarkAllStale` | pathvector-rib/src/adj_rib_in.rs:121-129 | every route is marked and otherwise unchanged, and the copies list the marked table, each route once |
| `AdjRibIn.AdjRibIn.Routes` | pathvector-rib/src/adj_rib_in.rs:98-100 | every route of the table once, in some order |
| `AdjRibIn.AdjRibIn.Clear` | pathvector-rib/src/adj_rib_in.rs:136-138 | nothing is left |
| `AdjRibIn.StaleUntilTouched` | pathvector-rib/src/adj_rib_in.rs:80-89 | after any later operations a prefix is stale exactly if it was and has not been touched |
| `AdjRibIn.StaleIsUntouchedSnapshot` | pathvector-rib/src/adj_rib_in.rs:114-138 | what a restart leaves stale is the snapshot less what was touched since (section 4.2 of RFC 4724) |
| `Inbound.HandleAnnouncement` | pathvectord/src/daemon/route.rs:1460-1494 | the announcing step of the histories below, on both tables; no other peer's candidate changes |
| `Inbound.HandleWithdrawals` | pathvectord/src/daemon/route.rs:932-945 | the withdrawing step, likewise |
| `Inbound.LoseSession` | pathvectord/src/daemon/gr.rs:78-107 | the restart step: every inbound route is marked and becomes a candidate, or the inbound table alone is emptied |
| `Inbound.EndSession` | pathvectord/src/daemon/peer.rs:672-691 | both tables lose everything of the peer, and nothing else |
| `Inbound.ReapplyImportPolicy` | pathvectord/src/daemon/route.rs:782-817 | in whatever order the inbound routes are evaluated, exactly the accepted ones are candidates; prefixes without one keep their candidate |
| `Inbound.StepRightIff` | pathvectord/src/daemon/route.rs:1479-1494 | from any state, exactly when an event leaves a prefix's candidate equal to its inbound route as the policy lets it in |
| `Inbound.CandidateRightIff` | pathvectord/src/daemon/route.rs:1479-1494 | after every history from a session's start that holds for a prefix if and only if each event that breaks it is followed by one that mends it |
| `Inbound.OnlyAcceptedIff` | pathvectord/src/daemon/gr.rs:78-107 | so exactly then the peer's candidates are its accepted routes, all of them and nothing else |
| `Inbound.RestartAdmitsLeak` | pathvectord/src/daemon/gr.rs:92-96 | a leak the role's terms rejected becomes a candidate at the restart, and the best route if it is the only one |
| `Inbound.RejectedReplacementStays` | pathvectord/src/daemon/route.rs:1489-1492 | after a rejected announcement the local table still has the route it replaced |
| `Inbound.UncoveredRestartStrands` | pathvectord/src/daemon/peer.rs:634-662 | a restart that does not cover the family leaves the candidate without an inbound route, and the pruning after the restart does not remove it |
| `Inbound.ReapplyAdmitsBlackhole` | pathvectord/src/daemon/route.rs:793-805 | a blackhole route kept out on arrival is let in when the same policy is applied again |
| `Mrt.ParseRibIpv4` | pathvector-mrt/src/mrt.rs:77-128 | the cursor parser reads the fields at their offsets, with every early exit |
| `Mrt.Parse` | pathvector-mrt/src/mrt.rs:41-73 | the record loop, which ends quietly on a short header and fails on a short body |
| `Mrt.ReadHeader` | pathvector-mrt/src/mrt.rs:53-56 | the three header fields, big-endian at their offsets |
| `Mrt.ParsedBodyIsCanonical` | pathvector-mrt/src/mrt.rs:87-95 | an entry has length at most 32 and zero octets beyond the significant ones; the parser panics exactly on a longer prefix whose octets are present |
| `Mrt.ParsedIsCanonical` | pathvector-mrt/src/mrt.rs:41-73 | so every entry of every dump can be sent as it is |
| `Mrt.StreamIsItsRecords` | pathvector-mrt/src/mrt.rs:41-73 | well-framed records followed by any bytes give the records' entries in order, then what the bytes give |
| `Mrt.BodyRoundTrip` | pathvector-mrt/src/mrt.rs:77-128 | parsing undoes serialising: the first entry comes back, or nothing when the count is zero |
| `Mrt.DumpRoundTrip` | pathvector-mrt/src/mrt.rs:41-128 | serialising any list of records, given by their fields, and parsing it gives the first entries of the RIB_IPV4_UNICAST ones with a non-zero count, in order |
| `Mrt.FramedPrefix` | pathvector-mrt/src/mrt.rs:47-62 | every byte string is a list of framed records followed by an unfinished one |
| `Mrt.UniquePrefixesIff` | pathvector-mrt/src/mrt.rs:6-8 | any such string panics if and only if some record overruns, else fails if and only if its last body is cut short, else gives one entry per prefix if and only if no prefix has two records that hold an entry; malformed bodies hold none |
| `Mrt.PrefixLengthPanics` | pathvector-mrt/src/mrt.rs:87-95 | a record with prefix length 33 and five octets stops the program, whatever follows it |
| `Mrt.RepeatedPrefixKept` | pathvector-mrt/src/mrt.rs:64-69 | two records for one prefix give two entries |
| `Batching.GreedyPacks` | pathvector-mrt/src/speaker.rs:100-124 | the batches hold every prefix in order, and exceed the budget only by a lone prefix |
| `Batching.GreedyIsFewest` | pathvector-mrt/src/speaker.rs:90-125 | whenever some in-order cut stays within the budget, the greedy one does too, and none has fewer batches |
| `Wire.WriteNlris` | pathvector-mrt/src/speaker.rs:243-251 | length octet and significant octets of each prefix, in order |
| `Wire.NlriRoundTrip` | pathvector-mrt/src/speaker.rs:243-251 | decoding gives back the prefixes |
| `Wire.WriteUpdate` | pathvector-mrt/src/speaker.rs:188-212 | the message layout, with both lengths cut to sixteen bits |
| `Wire.LengthField` | pathvector-mrt/src/speaker.rs:196-203 | the length field equals the true size if and only if the size fits sixteen bits |
| `Wire.UpdateRoundTrip` | pathvector-mrt/src/speaker.rs:188-212 | such a message decodes to the attributes and prefixes put in (sections 4.1 and 4.3 of RFC 4271) |
| `Wire.StreamSplits` | pathvector-mrt/src/speaker.rs:220-237 | a receiver that goes by the length fields recovers exactly the messages |
| `Wire.SplitOnlyIfFramed` | pathvector-mrt/src/speaker.rs:220-237 | and recovers them only if every length field is exact |
| `Speaker.Collect` | pathvector-mrt/src/speaker.rs:77-84 | prefixes filed under their attributes in order of arrival |
| `Speaker.BgpSpeaker.SendUpdate` | pathvector-mrt/src/speaker.rs:188-212 | one more UPDATE on the wire |
| `Speaker.BgpSpeaker.SendKeepalive` | pathvector-mrt/src/speaker.rs:180-182 | one more KEEPALIVE on the wire |
| `Speaker.BgpSpeaker.Flush` | pathvector-mrt/src/speaker.rs:104-110 | a full batch, and a KEEPALIVE when the count is a multiple of fifty |
| `Speaker.BgpSpeaker.SendGroup` | pathvector-mrt/src/speaker.rs:90-124 | the loop writes the greedy batches of one attribute set and counts them right |
| `Speaker.BgpSpeaker.Announce` | pathvector-mrt/src/speaker.rs:73-132 | every attribute set once, and the three counters: all entries, all UPDATEs, all attribute sets |
| `Speaker.GroupingKeepsEntries` | pathvector-mrt/src/speaker.rs:77-84 | grouping loses and duplicates nothing |
| `Delivery.MessagesFitIffEntriesFit` | pathvector-mrt/src/speaker.rs:94-103 | every UPDATE is within 4096 bytes if and only if each entry's attributes leave room for its own prefix |
| `Delivery.ReplayDeliversDump` | pathvector-mrt/src/speaker.rs:73-132 | the stream splits into the messages and decodes to the dump's entries, each as often as it occurred, if and only if each entry's own UPDATE fits its length field |
| `Delivery.AnnounceAll` | pathvector-mrt/src/main.rs:129-130 | announcing on a fresh session writes the replay of the entries |
| `Delivery.ReplayDump` | pathvector-mrt/src/main.rs:99-130 | from dump to bytes, with delivery guaranteed when every entry fits |
| `Delivery.KeepalivesExactly` | pathvector-mrt/src/speaker.rs:86-124 | over a whole replay a KEEPALIVE follows exactly those UPDATEs whose number is a multiple of fifty and that are not the last of their attribute set, and there are no others |
| `Delivery.CadenceIff` | pathvector-mrt/src/speaker.rs:70-72 | every fiftieth UPDATE is followed by a KEEPALIVE if and only if no attribute set's last UPDATE has such a number |
| `Delivery.NoKeepaliveForSingles` | pathvector-mrt/src/speaker.rs:120-124 | with one UPDATE per attribute set no KEEPALIVE is ever sent |
| `Delivery.DistinctAttrsNeverPause` | pathvector-mrt/src/speaker.rs:86-124 | entries that all differ in their attributes take as many UPDATEs and no KEEPALIVE |
| `Delivery.CadenceMissed` | pathvector-mrt/src/speaker.rs:70-72 | fifty such entries: fifty UPDATEs, and no KEEPALIVE |
| `Delivery.OversizedUpdate` | pathvector-mrt/src/speaker.rs:94-103 | one entry with 4073 bytes of attributes: its UPDATE has 4097 bytes |

## Left out

- Elimination.SelectionIsElimination: requires metrics and identifiers to be all known or all unknown among the routes still standing when those rules are reached, because otherwise the rules say nothing about a missing value; SelectionSurvivesMed and OrderIndependence need no such hypothesis.
- SelectionStability.RemovingLoserChangesNothing: requires all or none known in the whole candidate set, because a circle inside a group leaves it without a winner, and then removing one of its routes can change which one is selected; RemovingNonContenderChangesNothing needs no such hypothesis.
- SelectionStability.StaleLoserChangesNothing: the same hypothesis for the same reason; StaleNonContenderChangesNothing needs none.
- Speaker.BgpSpeaker.Announce: requires prefix lengths of at most 32, because the source panics on a longer one; ParsedIsCanonical shows the reader never yields one.
- AdjRibOut.AdjRibOut.PropagatePrefix: states the equality with the far end only when the session's type is the table's, as it is for every session the daemon sets up.
- Propagation.RunStaysInSync: the reflector's clients, the established peers and the export policy stay the same along a history, and every round lists all prefixes its event affects; RoundStaysInSync says exactly what happens when it does not.
- Sessions.OnTrackIffClean: the channel to the session takes every message; a full channel, after which the session is torn down, is not modelled.
- Sessions.PeerHoldsExports: speaks of the attributes as encoded for the peer; equal encodings are taken to mean equal attributes, and peers with two-byte AS numbers are not modelled.
- Sessions.Outbox.FlushPending: states the effect at the far end, not how many messages are sent.
- Inbound.HandleAnnouncement: announcements dropped before they are stored, for a loop, AS 0 or an invalid next hop, change neither table and are not events; the kernel's blackhole routes are not modelled.
- Inbound.HandleWithdrawals: takes the prefixes out of one table and then out of the other, as the pruning after a restart does; an UPDATE alternates between the two, with the same result.
- Policies.ApplyAction: does not model the panic of a prepend constructed with a count of zero; such an action does nothing here.
- The best-route trie and longest-prefix match: winners are a map from prefix to peer.
- Conditions other than always, ONLY_TO_CUSTOMER leak and propagation: each is one comparison, and stands in as an arbitrary predicate on the route.
- Actions on extended communities and other rare attributes nothing here reads: they are one value that is carried along.
- The selection entry point without an oracle: it is selection with an oracle that finds everything reachable.
- Origin AS, two-byte AS numbers and AS4_PATH: not needed by selection or propagation.
- The IPv6 twin of `flush_updates`, whose groups carry their next hop in MP_REACH_NLRI.
- Session state machine, message codec, handshake, TCP, gzip and file access.
- Graceful-restart timers and selection deferral beyond the flag that defers a propagation.
- Fib.FibManager.ProcessBatch: the kernel accepts every write; blackhole routes and the IPv6 twin, which differs in the next hops it accepts, are not modelled.
- Origin validation and RTR, the gRPC service and its client, configuration, metrics and logging, end-to-end tests and benchmarks.
