# WalkieTalkie: long-run properties of its stateful components

A Dafny model of the components of WalkieTalkie that keep state over long runs, with proofs of what every
run keeps. Each class below mirrors a class of the repository and updates its fields in place; its methods
are proved against functions on values, and the properties are lemmas about those functions and about runs
of any length.

| file | component |
|---|---|
| `Membership.dfy`, `Silence.dfy`, `Transport.dfy`, `Cluster.dfy`, `Partition.dfy` | SWIM gossip membership: one node; how long a silent peer is held ALIVE and SUSPECT; the switchboard's mailboxes; a cluster with loss, duplication, reordering and crash-stop; when its sides part for good |
| `Quotas.dfy`, `Budgets.dfy`, `Ledger.dfy`, `InFlight.dfy` | the capacity controller; what is in flight as a ledger of its answers; what all its pools hold together |
| `Allocation.dfy`, `Rebalancer.dfy`, `Rebalancing.dfy`, `Caps.dfy` | the share-out of a transfer, the rebalancer over the controller, long runs of both, and where every cap stands afterwards |
| `Routing.dfy`, `Relaying.dfy` | multi-hop forwarding in a network of routers, and where each message in it comes from |
| `Eclipse.dfy`, `Neighbors.dfy` | diversity-aware neighbour selection, and what it comes to on the candidates' fields |
| `Isolation.dfy` | fenced prompt rendering |
| `Depth.dfy`, `Replay.dfy`, `Verdicts.dfy` | the JSON depth check; the envelope time window and replay cache, shared by threads; exactly what is accepted |
| `Slo.dfy` | revocation convergence |
| `Windows.dfy`, `RateLimiter.dfy`, `Discovery.dfy` | sliding windows, the identity limiter, discovery admission |
| `Audit.dfy` | the hash-chained log and its backward tail scan |
| `SafeMode.dfy`, `Transitions.dfy` | the safe-mode engine against its history, and what it reports |
| `Common.dfy`, `Runs.dfy` | result types and shared facts; runs of a transition system |

Conventions. A dict whose order matters is a map with the sequence of its keys, or a sequence of pairs.
Clocks, random nonces, admission callbacks, hash and encodings are parameters. Raised exceptions are `Err`
results or named outcomes. Times are whole microseconds and integers are unbounded, as in Python. Fractions,
thresholds and coverage are exact (`real`).

`dafny verify dfyconfig.toml` checks the whole project.

## Where the code and its own words differ

The code is modelled as it stands. Each of these is stated as a lemma.

- The audit module says re-deriving the chain detects any insertion, deletion or in-place mutation. It does
  not detect a log cut anywhere, even at its first event, and carried on with events hashed afresh
  (`Audit.CutAndCarriedOnIsAccepted`); truncating, appending, and rewriting everything from some event on are
  cases of it. It detects every other alteration (`Audit.AlterationAcceptedIff`). The last hash, kept
  elsewhere, detects these too (`Audit.RememberedTailDetects`).
- Membership says refutation keeps a transient hiccup from evicting a healthy node for good. It does not once
  two sides hold each other DEAD and nothing is in flight across: nobody pings a DEAD peer, so neither side
  hears the other again (`Partition.SplitIsForever`), and a long enough silence leads there
  (`Partition.HiccupSplits`). While one side still holds the other as not DEAD it does, within six steps
  (`Partition.OneSideReconciles`; `Partition.ReconcilesIff` is the exact condition for two nodes).
- `suspect_after` counts the tick of the hearing too, so a peer heard once in every `suspect_after` ticks can
  still be suspected between two hearings; heard once in every `suspect_after - 1` it never is
  (`Silence.HeardOftenEnoughIff`).
- The budgets hold each pool's floor aside, but not the units in flight over all pools within the total
  (`InFlight.TotalKeptIff` says exactly when that holds too; `InFlight.ReservedIsAlwaysGranted` is what the
  floors do guarantee).
- Replay protection ends at an envelope's `expires_at`, put off by the time between the verifier's and the
  cache's readings of the clock, while the time window goes on for the clock skew
  (`Replay.ReplayRefusedUntilExpiry` and, among threads, `Replay.RacerAcceptedIff` say exactly when;
  `Replay.AcceptedTwiceWithinSkew` gives an instance).
- `retry_after_seconds` does not promise that the next check is allowed: denied checks count too
  (`RateLimiter.RetryPromiseIff` says when it is kept, `RateLimiter.RetryAfterCanFail` gives an instance).
- Assembly says a supplied nonce must not appear in any segment's text; the code does not look. Reading the
  rendering back needs no such condition (`Isolation.RenderingIsInvertible`).
- A manual downgrade never lowers the state of a reachable engine (`SafeMode.DowngradeNeverLowers`).
- The constructor does not bound a ceiling by the total less the other pools' floors, so a rebalance can
  raise on a controller that it accepted (`Rebalancing.RebalanceCanRaise`; `Rebalancing.RebalanceRaisesIff`
  says exactly on which).
- Admitted discovery records of a key get fresher only until an eviction passes its pin
  (`Discovery.AdmittedIff` says exactly what is admitted after any run, `Discovery.EvictionAllowsRewind`).
- On any reachable controller the excess a proportional share-out would go by is 0, so recipients always
  share evenly (`Rebalancer.SharedEvenly`).
- The order of gossip never matters to incarnations and states, but it can to the silence counter
  (`Membership.MergeTicksDependOnOrder` says exactly when).

## Model

| member | source | states |
|---|---|---|
| `Membership.Supersedes` | security-foundations/mesh/membership.py:89-106 | one report overrides another exactly when it is strictly greater in the lexicographic order on (incarnation, ALIVE < SUSPECT < DEAD) |
| `Membership.SwimMembership.constructor` | security-foundations/mesh/membership.py:124-160 | a node starts with its usable seeds, itself left out, ALIVE at incarnation 0 |
| `Membership.InitialMembers` | security-foundations/mesh/membership.py:147-160 | the initial peers are exactly the non-empty seeds other than the node itself |
| `Membership.SwimMembership.Merge` | security-foundations/mesh/membership.py:231-261 | the loop that updates members and incarnation in place computes the merge that the join lemmas are about |
| `Membership.SwimMembership.Heard` | security-foundations/mesh/membership.py:263-273 | hearing from a sender, in place: what Silence.HearingResets and Silence.HeldExactly are about |
| `Membership.SwimMembership.Receive` | security-foundations/mesh/membership.py:275-303 | the drain loop merges, then marks heard, then acks each ping, frame by frame in arrival order |
| `Membership.SwimMembership.CurrentDigest` | security-foundations/mesh/membership.py:217-223 | own ALIVE entry first, then one entry for each known peer in insertion order |
| `Membership.Digest` | security-foundations/mesh/membership.py:217-223 | exactly one entry per known peer, with its held incarnation and state, behind the own entry at the own incarnation |
| `Membership.SwimMembership.NextMessage` | security-foundations/mesh/membership.py:213-229 | each encoded frame takes the next sequence number and carries the current digest; nothing else changes |
| `Membership.SwimMembership.AgePeers` | security-foundations/mesh/membership.py:305-316 | one ageing pass over all peers, in place |
| `Membership.SwimMembership.ProbePeers` | security-foundations/mesh/membership.py:318-324 | one ping to every peer not held DEAD, in order |
| `Membership.SwimMembership.Join` | security-foundations/mesh/membership.py:174-178 | joining probes the seeds |
| `Membership.SwimMembership.RunTick` | security-foundations/mesh/membership.py:180-183 | a tick receives, ages, then probes |
| `Membership.MergeKeeps` | security-foundations/mesh/membership.py:231-261 | merging keeps a node out of its own peers, each peer listed once, and every ALIVE peer silent for fewer than suspect_after ticks |
| `Membership.MarkHeardKeeps` | security-foundations/mesh/membership.py:263-273 | hearing from a peer keeps the same invariant |
| `Membership.AgeKeeps` | security-foundations/mesh/membership.py:305-316 | ageing keeps the same invariant: no peer stays ALIVE once its silence reaches suspect_after |
| `Membership.MergeIsJoin` | security-foundations/mesh/membership.py:231-261 | merging any updates leaves every peer at the lexicographic maximum of what was known and received, learns exactly the admitted peers, and leaves the own incarnation at the least value refuting every self entry |
| `Membership.JoinIsUnique` | security-foundations/mesh/membership.py:231-261 | that description determines every incarnation and state, whatever the order or multiplicity of the updates |
| `Membership.MergeOrderIrrelevant` | security-foundations/mesh/membership.py:231-261 | updates with the same content, in any order and repetition, merge to the same incarnations and states |
| `Membership.MergeBatches` | security-foundations/mesh/membership.py:231-261 | merging in batches is merging at once |
| `Membership.MergeTicks` | security-foundations/mesh/membership.py:257-261 | for a held peer any merge leaves the silence counter at 0 when some ALIVE report of it is above the held incarnation and above every earlier report, and otherwise as it was |
| `Membership.MergeTicksDependOnOrder` | security-foundations/mesh/membership.py:231-261 | two orders of the same updates can leave that counter different exactly when the peer has been silent, some ALIVE report of it is above the held incarnation, and the greatest incarnation reported for it has a report that is not ALIVE |
| `Membership.HandleNoResurrection` | security-foundations/mesh/membership.py:275-303 | handling a frame forgets no peer and never lowers (incarnation, is-DEAD) |
| `Membership.TicksNoResurrection` | security-foundations/mesh/membership.py:180-183 | nor do any number of ticks with any inboxes |
| `Membership.DeadIsSticky` | security-foundations/mesh/membership.py:231-316 | a peer held DEAD stays DEAD or comes back only at a strictly higher incarnation, over any number of ticks |
| `Silence.HearingResets` | security-foundations/mesh/membership.py:263-303 | a frame that leaves its sender known and not DEAD leaves it ALIVE with no silent ticks |
| `Silence.OnlyPingsAnswered` | security-foundations/mesh/membership.py:298-303 | a frame is answered exactly when it is a ping from a usable sender: by one ack, to that sender, under the next sequence number |
| `Silence.SentInSequence` | security-foundations/mesh/membership.py:180-183 | whatever a tick receives, all it sends bears the node's name and consecutive sequence numbers |
| `Silence.ProbesTheLiving` | security-foundations/mesh/membership.py:318-324 | a probe round sends each peer not held DEAD exactly one ping and nobody else anything |
| `Silence.StrangerLearnedIff` | security-foundations/mesh/membership.py:231-303 | a stranger is learned from a frame exactly when the frame is from it or reports on it and it may be learned; it then counts no silent ticks, and one that is only the sender is ALIVE at incarnation 0 |
| `Silence.KnownExactly` | security-foundations/mesh/membership.py:231-303 | over any run of ticks the peers known are those known at its start and those the gate admits that some frame named |
| `Silence.Timeline` | security-foundations/mesh/membership.py:305-316 | from any peer held ALIVE, after k silent ticks more: ALIVE exactly while its silence is below suspect_after, SUSPECT exactly from then until dead_after more, DEAD from then on |
| `Silence.SuspectTimeline` | security-foundations/mesh/membership.py:305-316 | a peer held SUSPECT, however it came to be, is DEAD exactly once its silence reaches both spans together |
| `Silence.HeldExactly` | security-foundations/mesh/membership.py:180-316 | what is held of a peer after any run of ticks with any inboxes, while no gossip brings news of it: DEAD exactly once it has been silent for suspect_after + dead_after ticks, before that ALIVE exactly while it has been silent for fewer than suspect_after since it was last heard, and its counter is that silence |
| `Silence.AliveThroughoutIff` | security-foundations/mesh/membership.py:180-316 | so a peer stays ALIVE throughout such a run exactly if at every moment it has been silent for fewer than suspect_after ticks |
| `Silence.HeardOftenEnoughIff` | security-foundations/mesh/membership.py:180-316 | being heard in every w ticks on end keeps a peer ALIVE in every such run exactly for w below suspect_after |
| `Transport.Switchboard.Register` | security-foundations/mesh/transport.py:83-88 | registering fails exactly for an empty or taken address, and otherwise opens an empty mailbox |
| `Transport.Switchboard.Deliver` | security-foundations/mesh/transport.py:90-94 | delivery fails exactly for an unknown destination and otherwise appends to that mailbox only |
| `Transport.Switchboard.DrainOne` | security-foundations/mesh/transport.py:96-102 | draining yields the frames of an address in the order sent, none lost and none twice; None means all have been drained |
| `Cluster.TickIsRun` | security-foundations/mesh/membership.py:180-183 | draining any frames addressed to a live node and ticking it, step by step over the network, has exactly the effect of one tick |
| `Cluster.HandleOwn` | security-foundations/mesh/membership.py:246-250 | a frame that claims no more than the own incarnation raises it by one exactly when it reports the node as not ALIVE at it |
| `Cluster.NextInv` | security-foundations/mesh/membership.py:217-324 | every delivery, ageing, probe, crash, loss and duplication keeps every view and every digest in flight at or below the subject's own incarnation |
| `Cluster.IncarnationCeiling` | security-foundations/mesh/membership.py:217-273 | so in every run from a fresh cluster |
| `Cluster.OnlyOwnerRaises` | security-foundations/mesh/membership.py:246-250 | a step changes a node's own incarnation exactly when it delivers an accusation at it, and then by exactly one |
| `Cluster.RefutationSupersedesEverywhere` | security-foundations/mesh/membership.py:246-250 | when a node refutes, its new ALIVE entry overrides every view held and every digest in flight |
| `Cluster.HearingRevives` | security-foundations/mesh/membership.py:263-303 | a frame from a peer leaves it ALIVE exactly when it was not held DEAD at the frame's incarnation or above (an unknown sender: when it may be learnt) |
| `Cluster.MergePotential` | security-foundations/mesh/membership.py:231-261 | no gossip, however old, raises the time a view may go on seeing a stopped peer as not DEAD |
| `Cluster.AgePotential` | security-foundations/mesh/membership.py:305-316 | each tick that sees the peer as not DEAD uses up one unit of that time |
| `Cluster.HandlePotential` | security-foundations/mesh/membership.py:275-303 | a frame not from the peer itself does not raise it either |
| `Cluster.DetectionStep` | security-foundations/mesh/membership.py:231-324 | every step of the cluster keeps the peer silent and pays for the ticks it lets pass |
| `Cluster.BoundedDetection` | security-foundations/mesh/membership.py:231-316 | once a node has stopped at incarnation c and none of its own frames is in flight, any node whose view starts at incarnation i (0 if unknown) ticks at most (c-i+1)*(suspect_after+dead_after) times seeing it as not DEAD, whatever gossip arrives |
| `Partition.NextSplit` | security-foundations/mesh/membership.py:217-324 | a cluster in which nobody holds a node across but as DEAD, and no packet crosses or says otherwise, is left so by every step |
| `Partition.SplitIsForever` | security-foundations/mesh/membership.py:231-324 | so in every run, with all nodes up and no packet ever lost again, neither side ever holds a node of the other as not DEAD |
| `Partition.HiccupSplits` | security-foundations/mesh/membership.py:305-324 | from two nodes that seed each other, suspect_after + dead_after ticks at each in which nothing arrives lead there, both up |
| `Partition.PingAndAck` | security-foundations/mesh/membership.py:275-324 | a ping and its ack leave the pinging node holding the other ALIVE, and the other it too, or holding it DEAD at an incarnation that it has just refuted |
| `Partition.OneSideReconciles` | security-foundations/mesh/membership.py:231-324 | while one of two live nodes holds the other as not DEAD, and the other knows or may learn it, six steps bring both to hold each other ALIVE |
| `Partition.ReconcilesIff` | security-foundations/mesh/membership.py:231-324 | between two live nodes that know each other, with nothing in flight, some run brings both back to ALIVE exactly when one of them still holds the other as not DEAD |
| `Budgets.BudgetController.Build` | security-foundations/envelope/capacity_budgets.py:110-153 | building succeeds exactly for a configuration that passes every constructor check, and starts with nothing in flight; an error names what is wrong |
| `Budgets.BudgetController.AcquireCost` | security-foundations/envelope/capacity_budgets.py:170-249 | acquire, in place: its answer and the new state are those the run lemmas are about, errors and denials included |
| `Budgets.BudgetController.ReleaseCost` | security-foundations/envelope/capacity_budgets.py:251-283 | release, in place; a tenant shortfall raises after the pool was credited: what the ledger lemmas are about |
| `Budgets.BudgetController.SetCeiling` | security-foundations/envelope/capacity_budgets.py:304-356 | adjusting a ceiling, in place, with every refusal |
| `Budgets.BudgetController.SetBurst` | security-foundations/envelope/capacity_budgets.py:358-402 | adjusting a tenant burst, in place, with every refusal |
| `Budgets.BudgetController.OthersReserved` | security-foundations/envelope/capacity_budgets.py:206-208 | the loop sums the other pools' reserved floors |
| `Budgets.AcquireGood` | security-foundations/envelope/capacity_budgets.py:170-249 | an acquire keeps every pool within its ceiling and within the total less the other pools' floors, and every tenant within its burst |
| `Budgets.ReleaseGood` | security-foundations/envelope/capacity_budgets.py:251-283 | so does a release, even one that raises half way |
| `Budgets.AdjustCeilingGood` | security-foundations/envelope/capacity_budgets.py:304-356 | so does a ceiling adjustment |
| `Budgets.AdjustBurstGood` | security-foundations/envelope/capacity_budgets.py:358-402 | so does a burst adjustment |
| `Budgets.RunGood` | security-foundations/envelope/capacity_budgets.py:170-402 | so does every run of operations, whatever their arguments |
| `Budgets.PoolNonInterference` | security-foundations/envelope/capacity_budgets.py:170-402 | every answer a pool gets in a run, and all that the run leaves recorded about it, are those of the run with every other pool's operations removed |
| `InFlight.TotalKeptIff` | security-foundations/envelope/capacity_budgets.py:170-283 | from empty, every run of acquires and releases keeps the units in flight over all pools within the total exactly when the sum of min(ceiling, total less the other floors) does |
| `InFlight.ReservedIsAlwaysGranted` | security-foundations/envelope/capacity_budgets.py:170-249 | after any run of operations on any pools, an acquire within its pool's own reserved floor is granted exactly when the tenant it names, if it has a budget, has room in its burst |
| `Ledger.PoolLedger` | security-foundations/envelope/capacity_budgets.py:170-283 | conservation: after any run of operations whatever, what a pool holds is what it held, plus the costs of its allowed acquires, less the costs of the releases that credited it, those that raised on the tenant included |
| `Ledger.TenantLedger` | security-foundations/envelope/capacity_budgets.py:170-283 | the same for each tenant that has a budget, by its allowed acquires and releases; of a tenant that has none nothing is recorded |
| `Ledger.ReleaseUndoesAcquire` | security-foundations/envelope/capacity_budgets.py:170-283 | an allowed acquire can be given back: the release of the same cost is allowed and leaves everything in flight as before the two |
| `Ledger.RefusalsLeaveNoTrace` | security-foundations/envelope/capacity_budgets.py:170-402 | whatever is refused changes nothing, but for a release that raises on its tenant, which has credited the pool alone |
| `Ledger.AcquireAllowedIff` | security-foundations/envelope/capacity_budgets.py:170-249 | an acquire is allowed exactly when it asks for at least one unit of a known pool, fits under the ceiling, fits in the floor or in what the other floors leave of the total, and leaves the tenant within its burst |
| `Ledger.ReleaseAllowedIff` | security-foundations/envelope/capacity_budgets.py:251-283 | a release succeeds exactly when it gives back at least one unit and no more than pool and tenant hold |
| `Ledger.CeilingMovesIff` | security-foundations/envelope/capacity_budgets.py:304-356 | a ceiling moves exactly to where it covers the floor and what is in flight and leaves the other floors room in the total, and no other quota changes |
| `Ledger.BurstMovesIff` | security-foundations/envelope/capacity_budgets.py:358-402 | a burst moves exactly to where it covers the reserve and what is in flight, and no other changes |
| `Ledger.DenialsAreJustified` | security-foundations/envelope/capacity_budgets.py:170-249 | a denial gives the reason that holds, the first of those checked, with the numbers it holds by |
| `Ledger.ErrorsAreExplained` | security-foundations/envelope/capacity_budgets.py:170-402 | and an error raised gives the failing that is there |
| `Allocation.CollectDonations` | security-foundations/envelope/capacity_rebalancer.py:212-218 | the donor loop records whole-unit shares of headroom and their total |
| `Allocation.Donation` | security-foundations/envelope/capacity_rebalancer.py:215 | a donation is the fraction of the headroom rounded down, never more than the headroom |
| `Allocation.CollectSum` | security-foundations/envelope/capacity_rebalancer.py:212-229 | recording amounts in a dict loses units exactly when two positive amounts share a key |
| `Allocation.ShareByExcess` | security-foundations/envelope/capacity_rebalancer.py:222-234 | the proportional loop, with the remainder to the first most stressed item |
| `Allocation.MostStressed` | security-foundations/envelope/capacity_rebalancer.py:233 | the first item of largest excess |
| `Allocation.ShareEvenly` | security-foundations/envelope/capacity_rebalancer.py:235-241 | the even loop, the first items one unit more |
| `Allocation.AllocateTransfer` | security-foundations/envelope/capacity_rebalancer.py:199-242 | the whole share-out, for all inputs, the division by zero included |
| `Allocation.ShareConserves` | security-foundations/envelope/capacity_rebalancer.py:199-242 | donors sum to the total given, and so do recipients, exactly when no two positive amounts on that side share a key |
| `Allocation.ShareBalances` | security-foundations/envelope/capacity_rebalancer.py:199-242 | with distinct keys both sides always sum to the same total |
| `Allocation.ProportionalRoundsDown` | security-foundations/envelope/capacity_rebalancer.py:226-229 | each proportional share is the exact one rounded down |
| `Allocation.ProportionalRemainder` | security-foundations/envelope/capacity_rebalancer.py:231-234 | fewer units than there are stressed items are left for the most stressed one |
| `Allocation.SharesExactly` | security-foundations/envelope/capacity_rebalancer.py:220-241 | with distinct keys, what each stressed item receives: its share in proportion to its excess rounded down, all that is left over going to the first of largest excess; without any excess an even share, the first items one unit more |
| `Allocation.LastIsRecorded` | security-foundations/envelope/capacity_rebalancer.py:212-229 | of several positive amounts under one key the last is the one recorded |
| `Rebalancer.ReadSignals` | security-foundations/envelope/capacity_rebalancer.py:281-330 | the signals read off a controller |
| `Rebalancer.ByPool` | security-foundations/envelope/capacity_rebalancer.py:303-312 | grouping tenants by pool keeps every pool's tenants, in order |
| `Rebalancer.AnyPoolCascades` | security-foundations/envelope/capacity_rebalancer.py:319-322 | the tenant cascade holds exactly when some one pool's own tenants cascade |
| `Rebalancer.EvaluatePoolHalf` | security-foundations/envelope/capacity_rebalancer.py:391-458 | the ceiling changes the loops draft: what Caps.CeilingsExactly is about |
| `Rebalancer.EvaluateTenantHalf` | security-foundations/envelope/capacity_rebalancer.py:460-551 | the burst changes the loops draft, pool by pool |
| `Rebalancer.ApplyDecision` | security-foundations/envelope/capacity_rebalancer.py:554-581 | applying a decision shrinks before it grows, ceilings before bursts; the first refusal is raised and what landed before stays |
| `Rebalancer.EvaluateAndApply` | security-foundations/envelope/capacity_rebalancer.py:583-589 | evaluating and applying in one go; on a controller whose ceilings fit it never raises and they still fit |
| `Rebalancer.StressedApartFromSlack` | security-foundations/envelope/capacity_rebalancer.py:292-295 | nothing is both stressed and slack |
| `Rebalancer.SharedEvenly` | security-foundations/envelope/capacity_rebalancer.py:224-241 | on a controller within its caps every excess is 0, so recipients share evenly and the shares sum to the total |
| `Rebalancer.DraftIsSound` | security-foundations/envelope/capacity_rebalancer.py:391-458 | a draft changes distinct quotas, from their present caps, never below floor or in-flight use, never adding capacity in sum, and moving it exactly where nothing limits it |
| `Rebalancer.PoolDraftIsSound` | security-foundations/envelope/capacity_rebalancer.py:391-458 | so for pools, and no ceiling grows past the total less the other floors |
| `Rebalancer.TenantDraftInIsSound` | security-foundations/envelope/capacity_rebalancer.py:460-551 | so for the tenants of one pool, moving burst within it without loss |
| `Rebalancer.TenantDraftIsSound` | security-foundations/envelope/capacity_rebalancer.py:460-551 | so for all pools together: no two pools' drafts touch one tenant, and each pool's bursts keep their sum |
| `Rebalancer.CeilingsLand` | security-foundations/envelope/capacity_budgets.py:304-356 | a list of sound ceiling changes raises exactly when one of them would oversubscribe the total; otherwise each lands and nothing else moves |
| `Rebalancer.BurstsLand` | security-foundations/envelope/capacity_budgets.py:358-402 | a list of sound burst changes never raises and moves the bursts by their changes |
| `Rebalancer.PlanLands` | security-foundations/envelope/capacity_rebalancer.py:554-589 | what a rebalance leaves: same keys and floors, nothing in flight moved, the ceilings' sum not grown, each pool's burst sum unchanged |
| `Rebalancer.RebalanceIsSafe` | security-foundations/envelope/capacity_rebalancer.py:391-589 | on a controller whose ceilings fit beside the other floors, evaluate-and-apply never raises, keeps every floor, cap and in-flight bound, never grows the ceilings' sum, and leaves each pool's burst sum exactly unchanged |
| `Rebalancing.RebalanceRaisesIff` | security-foundations/envelope/capacity_rebalancer.py:391-589 | on any reachable controller a rebalance raises exactly when the pools cascade and some slack pool gives whole units away and its ceiling, less those, plus the other pools' floors still exceeds the total |
| `Rebalancing.RebalanceCanRaise` | security-foundations/envelope/capacity_rebalancer.py:554-589 | a controller that the constructor accepts and one acquire reaches, on which a rebalance raises |
| `Rebalancing.PlanInOrder` | security-foundations/envelope/capacity_rebalancer.py:554-581 | no ceiling is moved after a burst, and among either no cap is lowered after one is raised |
| `Rebalancing.FitsKept` | security-foundations/envelope/capacity_budgets.py:170-402 | ceilings that fit go on fitting through any run of operations, refused ones included |
| `Rebalancing.LongRunIsSafe` | security-foundations/envelope/capacity_rebalancer.py:391-589 | from a controller whose ceilings fit, every interleaving of acquires, releases, adjustments (refused ones included) and rebalances under any policies keeps every capacity bound and the fit, and no rebalance in it raises |
| `Caps.StressMeans` | security-foundations/envelope/capacity_rebalancer.py:104-144 | a quota is stressed exactly at the stress share of its cap or more, and slack exactly at the slack share or less; one without a cap is slack |
| `Caps.RoomMeans` | security-foundations/envelope/capacity_rebalancer.py:110-122 | excess is what is in flight beyond the cap, headroom what the cap has beyond both floor and in-flight use, and each is 0 otherwise |
| `Caps.SignalsMean` | security-foundations/envelope/capacity_rebalancer.py:281-330 | each pool and tenant is signalled stressed or slack exactly by its own load, and the cascades hold exactly by the counts, for tenants within some one pool |
| `Caps.DraftMoves` | security-foundations/envelope/capacity_rebalancer.py:199-242 | a draft moves each quota's cap to its new place and by nothing else, for pools and tenants alike |
| `Caps.CeilingsExactly` | security-foundations/envelope/capacity_rebalancer.py:391-458 | each pool's ceiling after a rebalance that does not raise, read off the controller before it: unless the pools cascade, as it was; of a slack pool, less the whole units it gives; of a stressed one, the smaller of its ceiling plus its even share and the total less the other floors; of any other, as it was |
| `Caps.CeilingsKeepTheirSumIff` | security-foundations/envelope/capacity_rebalancer.py:391-458 | a rebalance that does not raise keeps the sum of the ceilings exactly unless the pools cascade and some stressed pool has no room for its whole share |
| `Caps.BurstsExactly` | security-foundations/envelope/capacity_rebalancer.py:460-551 | each tenant's burst after one: moved by the same rule without a limit, by the tenants of its own pool alone |
| `Routing.Router.Originate` | security-foundations/mesh/routing.py:178-184 | a message is made exactly for a destination and an id of 1 to 256 characters, with the default TTL |
| `Routing.Router.Handle` | security-foundations/mesh/routing.py:186-209 | handling decides as Relaying.DecidedExactly says and remembers the id, whatever it decides |
| `Relaying.DecidedExactly` | security-foundations/mesh/routing.py:186-209 | each of the four drop reasons, delivery and forwarding is given exactly under its condition on seen-set, destination, TTL, table and gate; a forward goes to the peer the table names, admitted, with one TTL less and nothing else changed |
| `Routing.AtMostOncePerNode` | security-foundations/mesh/routing.py:186-209 | over any network run, with any changing tables, repetition and reordering, a node delivers or forwards an id at most once, and never one it had seen |
| `Routing.ForwardsBounded` | security-foundations/mesh/routing.py:186-209 | an id is forwarded in all at most as often as there are nodes |
| `Routing.ChainsBounded` | security-foundations/mesh/routing.py:196-209 | every forwarding chain is shorter than the TTL its message set out with |
| `Routing.ComesToRest` | security-foundations/mesh/routing.py:186-209 | without repetition every run handles at most the sum of the TTLs in flight |
| `Routing.ExactReach` | security-foundations/mesh/routing.py:178-209 | where each next hop leads one step closer and is admitted, an unseen message at distance d with TTL t arrives with its payload unchanged exactly when d = 0 or d < t, and is otherwise dropped as out of TTL |
| `Routing.JourneyIsRun` | security-foundations/mesh/routing.py:186-209 | following one message from router to router is a run of the network: its arrivals end with that decision and leave every other message in flight where it was |
| `Routing.ReachInNetwork` | security-foundations/mesh/routing.py:178-209 | in every run, whatever else is sent, lost, repeated, reordered or routed by whatever tables, a message that is itself neither lost nor repeated and meets tables leading closer is still in flight or has settled: delivered with its payload exactly when at first d = 0 or d < t, and else dropped as out of TTL |
| `Routing.ReachAlone` | security-foundations/mesh/routing.py:178-209 | and with nothing else moving it does settle so |
| `Relaying.OnlyAdmittedRelays` | security-foundations/mesh/routing.py:186-209 | in every run, whatever the tables, losses and repeats, a message that has been forwarded was sent to where it is by a node that had it for the first time, to the very peer its table named and its gate admitted at that moment |
| `Relaying.NothingMadeUp` | security-foundations/mesh/routing.py:186-209 | in every run each message in flight is one that was injected, destination, id and payload as they were |
| `Relaying.OnlyInjectedIsDelivered` | security-foundations/mesh/routing.py:186-209 | so what a node delivers is the payload of a message injected for that node |
| `Relaying.SeenExactly` | security-foundations/mesh/routing.py:186-190 | a node has seen exactly the ids it had seen and those of the messages it has handled since, the dropped ones among them |
| `Eclipse.Ordered` | security-foundations/envelope/eclipse_resistance.py:224-227 | the freshness order is a permutation of the candidates |
| `Eclipse.OrderedInOrder` | security-foundations/envelope/eclipse_resistance.py:224-227 | the order of the sort key, pairwise; Neighbors.FreshestFirst says it on the fields |
| `Eclipse.OrderedIsStable` | security-foundations/envelope/eclipse_resistance.py:224-227 | candidates that tie keep the order they were given in |
| `Eclipse.SelectNeighbors` | security-foundations/envelope/eclipse_resistance.py:229-263 | the loop with its per-domain counter computes the greedy walk over that order, and flags exactly the two shortfalls |
| `Eclipse.GreedySize` | security-foundations/envelope/eclipse_resistance.py:233-254 | in every prefix of the order the walk picks exactly min(target, sum over domains of min(cap, domain count)) |
| `Eclipse.GreedyPrefix` | security-foundations/envelope/eclipse_resistance.py:233-254 | what it picks from a prefix is where its whole selection starts |
| `Eclipse.GreedyPartitions` | security-foundations/envelope/eclipse_resistance.py:233-254 | every candidate lands exactly once, selected or rejected |
| `Eclipse.RejectionsJustified` | security-foundations/envelope/eclipse_resistance.py:234-251 | a rejection for the target means it was met, one for the domain that it had its full share |
| `Eclipse.NoneLarger` | security-foundations/envelope/eclipse_resistance.py:178-263 | no choice from the candidates that obeys the target and the cap is larger |
| `Eclipse.NoneFresher` | security-foundations/envelope/eclipse_resistance.py:178-263 | nor does any member of such a choice precede the one selected at its rank in the sort order; Neighbors.NoneSeenLater says it of last_seen |
| `Neighbors.FreshestFirst` | security-foundations/envelope/eclipse_resistance.py:224-227 | candidates come by last_seen descending, and those seen at the same time by issuer ascending |
| `Neighbors.StringLessMeans` | security-foundations/envelope/eclipse_resistance.py:224-227 | an issuer is smaller exactly when at the first position where the two differ it has the smaller code point or ends |
| `Neighbors.NoneSeenLater` | security-foundations/envelope/eclipse_resistance.py:178-263 | rank by rank, no choice that obeys the target and the cap was seen later than what is selected |
| `Neighbors.FateExactly` | security-foundations/envelope/eclipse_resistance.py:233-254 | each candidate is taken exactly when fewer than the target could be taken of those before it and fewer than the cap of those are of its domain; where not, the reason is the first of these that fails |
| `Neighbors.SelectedExactly` | security-foundations/envelope/eclipse_resistance.py:233-254 | the selection is the sub-list of those, in order |
| `Neighbors.NamedDomainsMean` | security-foundations/envelope/eclipse_resistance.py:256 | the domains counted for diversity are those of the selected issuers that have one |
| `Neighbors.DomainIsHost` | security-foundations/envelope/audit_query.py:36-45 | an issuer is in a domain exactly when it is a SPIFFE id with that host, whatever its path |
| `Isolation.Escape` | security-foundations/envelope/instruction_isolation.py:93-96 | the loop of three replacements is the character-by-character escape |
| `Isolation.AdmittedTrust` | security-foundations/envelope/instruction_isolation.py:126-152 | a segment is admitted exactly with a label and the trust its channel may have, TOOL trusted only with a signature; each refusal names what is wrong |
| `Isolation.ReplacementsEscape` | security-foundations/envelope/instruction_isolation.py:87-96 | replacing & first, then <, then > escapes every character once and no replacement twice |
| `Isolation.EscapedIsInert` | security-foundations/envelope/instruction_isolation.py:93-96 | escaped text holds no angle bracket |
| `Isolation.UnescapeInverts` | security-foundations/envelope/instruction_isolation.py:93-96 | the escape can be undone, so it is injective |
| `Isolation.AssembleIsolatedPrompt` | security-foundations/envelope/instruction_isolation.py:183-246 | the assembly loop renders the segments in order, logs each one once, and fails exactly for an empty supplied nonce |
| `Isolation.ReadBlockInverts` | security-foundations/envelope/instruction_isolation.py:232-240 | one fenced segment reads back as itself, whatever follows it |
| `Isolation.RenderingIsInvertible` | security-foundations/envelope/instruction_isolation.py:216-246 | from the rendering of any non-SYSTEM segments and its nonce a parser recovers every channel, label, trust and text |
| `Isolation.TrustedBlocksAreSigned` | security-foundations/envelope/instruction_isolation.py:126-152 | a block of an assembled prompt that reads back as trusted stands for a TOOL segment whose non-empty signature the audit log holds at the same place |
| `Isolation.RenderingIsInjective` | security-foundations/envelope/instruction_isolation.py:216-246 | so two different prompts never render alike under one nonce |
| `Isolation.SystemTextIsNotFenced` | security-foundations/envelope/instruction_isolation.py:228-230 | SYSTEM text is not escaped or fenced: one spelling out a fence renders as that fence does |
| `Isolation.RenderedAlone` | security-foundations/envelope/instruction_isolation.py:228-240 | a SYSTEM segment renders as its text, any other as the literal fence around its escaped label and text |
| `Isolation.RenderedInOrder` | security-foundations/envelope/instruction_isolation.py:216-246 | a list renders segment after segment, in order, a line break between |
| `Isolation.FencesAreRecovered` | security-foundations/envelope/instruction_isolation.py:216-246 | where no SYSTEM text holds an opening bracket, reading fence after fence recovers every non-SYSTEM segment of a prompt, in order |
| `Isolation.TrustedFencesAreSigned` | security-foundations/envelope/instruction_isolation.py:126-152 | and each block that then reads back as trusted stands for a TOOL segment whose signature and label the audit log holds |
| `Isolation.FencesAreTheAssemblers` | security-foundations/envelope/instruction_isolation.py:232-240 | under a nonce free of brackets the rendering holds exactly the opening brackets of the assembler's own fences |
| `Depth.CheckDepth` | security-foundations/envelope/verify_envelope.py:273-303 | the explicit-stack walk terminates and rejects exactly the containers nested more than the bound deep |
| `Depth.NestingBoundsPaths` | security-foundations/envelope/verify_envelope.py:273-303 | no container of the value lies deeper than its recursively defined nesting |
| `Depth.NestingIsReached` | security-foundations/envelope/verify_envelope.py:273-303 | and some container lies exactly that deep |
| `Depth.TooDeepBelow` | security-foundations/envelope/verify_envelope.py:286-303 | a container within the bound is too deep exactly when one of its children is, one level down |
| `Replay.InMemoryReplayCache.Purge` | security-foundations/envelope/verify_envelope.py:140-143 | purging drops exactly the entries whose time has come |
| `Replay.InMemoryReplayCache.Seen` | security-foundations/envelope/verify_envelope.py:145-149 | an entry is seen exactly while its time has not come |
| `Replay.InMemoryReplayCache.MarkIfNew` | security-foundations/envelope/verify_envelope.py:156-164 | purge, then reserve unless present, in one step |
| `Replay.VerifyEnvelope` | security-foundations/envelope/verify_envelope.py:552-620 | the window checks in order on one reading of the clock, then the other checks, then the reservation on the cache's own later reading |
| `Replay.OthersKeep` | security-foundations/envelope/verify_envelope.py:140-164 | verifications under other keys leave an entry alone until its time comes |
| `Replay.ReplayRefusedUntilExpiry` | security-foundations/envelope/verify_envelope.py:556-620 | an accepted envelope shown again is accepted again exactly when the verifier's reading is in its life widened by the skew and the cache's has reached its expiry, put off by what lay between the two readings at the first acceptance |
| `Replay.AcceptedTwiceWithinSkew` | security-foundations/envelope/verify_envelope.py:556-620 | within the skew after its expiry one can be accepted twice |
| `Replay.NextKeepsInv` | security-foundations/envelope/verify_envelope.py:135-164 | every step of every thread keeps each accepted key reserved until its envelope expires |
| `Replay.NoReplayBeforeExpiry` | security-foundations/envelope/verify_envelope.py:135-164 | in every interleaving of threads sharing one cache, a (sender, nonce) is accepted again only once the clock has reached the first acceptance's expiry |
| `Replay.EntryStands` | security-foundations/envelope/verify_envelope.py:135-164 | in any interleaving that does not accept it again, a key stays reserved exactly until some step holds the lock with a reading at or after the time it was reserved until |
| `Replay.RacerAcceptedIff` | security-foundations/envelope/verify_envelope.py:135-164 | after a thread's acceptance, the next thread to reserve the key is accepted exactly when its own reading, or that of a step which held the lock in between, has reached that time |
| `Verdicts.AnsweredExactly` | security-foundations/envelope/verify_envelope.py:556-620 | each denial and acceptance is given exactly under its condition on the clock, the envelope's life, its being genuine and what is reserved |
| `Verdicts.ReservedExactly` | security-foundations/envelope/verify_envelope.py:552-620 | what is reserved afterwards, key by key: as before for an envelope that fails a check before the cache's; otherwise what had not run out, and its own key for the rest of its life if it is accepted |
| `Verdicts.ForgedIsDenied` | security-foundations/envelope/verify_envelope.py:574-600 | a forged envelope is always denied and leaves the cache as it was |
| `Verdicts.ForgeriesLeaveNoTrace` | security-foundations/envelope/verify_envelope.py:574-620 | whatever forged traffic is mixed in, the cache is left as the genuine envelopes alone leave it |
| `Verdicts.AloneIsFreshness` | security-foundations/envelope/verify_envelope.py:552-620 | a thread that nobody runs beside does what verifying one envelope does |
| `Verdicts.AcceptedWasChecked` | security-foundations/envelope/verify_envelope.py:552-620 | in every interleaving each acceptance is of an envelope some thread began on earlier: genuine, within its life by the clock then, and with a life neither empty nor too long |
| `Slo.EarliestIsKept` | security-foundations/envelope/revocation_convergence.py:151-155 | however acknowledgements arrive, each node is left with its earliest one |
| `Slo.ConvergenceTracker.RegisterBroadcast` | security-foundations/envelope/revocation_convergence.py:127-133 | registering fails exactly for a known id |
| `Slo.ConvergenceTracker.RecordAck` | security-foundations/envelope/revocation_convergence.py:135-155 | recording fails exactly for an unknown id or an unexpected node, and otherwise keeps the earlier time |
| `Slo.OrderStatistic` | security-foundations/envelope/revocation_convergence.py:250-258 | the k-th smallest time is within a bound exactly when at least k are |
| `Slo.NeededIsLeast` | security-foundations/envelope/revocation_convergence.py:242-254 | a count reaches the needed one exactly when the coverage it makes reaches the target; the needed count lies between 1 and the number of expected nodes |
| `Slo.EvaluateSlo` | security-foundations/envelope/revocation_convergence.py:223-282 | MEETING exactly when the needed number of nodes acknowledged within the deadline; MISSED exactly when not, and either enough acknowledged late or the deadline is past; the time to target is the least time by which enough had |
| `Slo.RecordMeets` | security-foundations/envelope/revocation_convergence.py:151-155 | one more acknowledgement completes the target exactly when it is in time, from a node not yet counted, and one was missing |
| `Slo.MeetingIsStable` | security-foundations/envelope/revocation_convergence.py:135-155 | once met, the target stays met under any further acknowledgements |
| `Slo.TimeOnlyMisses` | security-foundations/envelope/revocation_convergence.py:260-270 | with no further acknowledgement, time only ever turns PENDING into MISSED |
| `Windows.TrimFront` | security-foundations/envelope/rate_limiter.py:96-97 | the popleft loop trims the queue |
| `Windows.TrimDrops` | security-foundations/envelope/rate_limiter.py:96-97 | trimming takes a prefix, all of it before the cutoff, and stops at the first time that is not |
| `RateLimiter.IdentityRateLimiter.Check` | security-foundations/envelope/rate_limiter.py:91-117 | every check is recorded, refused exactly when the identity's checks in the window outnumber its limit, and then told to come back just after its oldest one leaves |
| `RateLimiter.IdentityRateLimiter.Reset` | security-foundations/envelope/rate_limiter.py:119-125 | a reset drops exactly the named buckets, or all |
| `RateLimiter.BucketHolds` | security-foundations/envelope/rate_limiter.py:91-98 | a bucket is the identity's own check times, less some that had left the window, whatever other identities do |
| `RateLimiter.WindowHoldsAtMostLimit` | security-foundations/envelope/rate_limiter.py:91-117 | over any run in which the identity's clock does not go back, every closed window holds at most its limit of allowed checks |
| `RateLimiter.AllowedExactly` | security-foundations/envelope/rate_limiter.py:91-117 | over any such run the next check is allowed exactly when the identity's earlier checks in the window that ends now, refused ones too, are fewer than its limit |
| `RateLimiter.NextAllowedIff` | security-foundations/envelope/rate_limiter.py:96-114 | the next check is allowed exactly when all but fewer than limit of the recorded times, denied ones included, have left the window |
| `RateLimiter.RetryPromiseIff` | security-foundations/envelope/rate_limiter.py:101-114 | a refused identity that comes back after retry_after_seconds is allowed exactly when all but fewer than limit of its recorded times lie before a moment at most a second after the oldest |
| `RateLimiter.RetryAfterCanFail` | security-foundations/envelope/rate_limiter.py:101-114 | so coming back after retry_after_seconds can be refused |
| `Discovery.FreshnessTracker.Check` | security-foundations/envelope/discovery_propagation.py:90-110 | a record is refused exactly when its time is not above the pinned one |
| `Discovery.FreshnessTracker.Commit` | security-foundations/envelope/discovery_propagation.py:112-129 | committing never lowers a pin |
| `Discovery.FreshnessTracker.EvictOlderThan` | security-foundations/envelope/discovery_propagation.py:131-141 | eviction drops exactly the pins before the cutoff and counts them |
| `Discovery.PropagationLimiter.Check` | security-foundations/envelope/discovery_propagation.py:182-204 | checking trims the key's queue and refuses exactly when it is full |
| `Discovery.PropagationLimiter.Commit` | security-foundations/envelope/discovery_propagation.py:206-214 | committing records the time |
| `Discovery.AdmissionGate.Admit` | security-foundations/envelope/discovery_propagation.py:233-252 | a record is offered to freshness first, then to the rate limit, and recorded in both exactly when both allow it |
| `Discovery.CommitTrims` | security-foundations/envelope/discovery_propagation.py:206-214 | committing keeps of the queue and the new time what is from the first time in the window on |
| `Discovery.AdmissionKeepsQueueShort` | security-foundations/envelope/discovery_propagation.py:182-214 | an admission leaves at most max_per_window times in its key's queue, so no queue grows beyond that |
| `Discovery.QueueHolds` | security-foundations/envelope/discovery_propagation.py:177-214 | a key's queue is its admission times, less some that had left the window |
| `Discovery.WindowHoldsAtMostMax` | security-foundations/envelope/discovery_propagation.py:177-252 | every closed window holds at most max_per_window admissions under a key, evictions or not |
| `Discovery.AdmittedGetFresher` | security-foundations/envelope/discovery_propagation.py:90-129 | of two admitted records under one key the later is strictly fresher, unless an eviction passed the earlier one in between |
| `Discovery.PinnedIff` | security-foundations/envelope/discovery_propagation.py:90-141 | a key is pinned exactly while some admission under it has been passed by no later eviction, and no such admission is above the pin |
| `Discovery.AdmittedIff` | security-foundations/envelope/discovery_propagation.py:90-252 | over any run in which the times offered under a key do not go back, a record is admitted exactly when fewer than max_per_window were admitted under its key in the window that ends now, and it is above every admission under its key that no later eviction has passed |
| `Discovery.RefusedAs` | security-foundations/envelope/discovery_propagation.py:233-252 | a refusal is as rewound exactly when some admission that stands is at or above the record, and otherwise as rate-limited |
| `Discovery.KeysTellApart` | security-foundations/envelope/discovery_propagation.py:90-110 | records share a pin and a queue exactly when issuer and key id are both the same |
| `Discovery.AdmittedAfterEvictionIff` | security-foundations/envelope/discovery_propagation.py:131-252 | in every state, after an eviction a record is admitted exactly when its key is under its rate and is unpinned, pinned below the cutoff, or pinned below the record |
| `Discovery.EvictionAllowsRewind` | security-foundations/envelope/discovery_propagation.py:131-141 | so from any state an eviction past a key's pin lets any record of it, however old, back in while the rate allows |
| `Audit.VerifyChain` | security-foundations/envelope/audit.py:220-237 | accepts exactly the logs all of whose links hold, and otherwise reports the first broken one and how it is broken |
| `Audit.BuiltExactly` | security-foundations/envelope/audit.py:96-105 | an event is built exactly for the outcomes allow and deny, with the hash of the previous hash followed by the canonical body |
| `Audit.InMemoryAuditSink.Record` | security-foundations/envelope/audit.py:118-161 | recording fails exactly for an outcome that is neither allow nor deny, and otherwise extends an accepted log to an accepted log |
| `Audit.PrefixIsAccepted` | security-foundations/envelope/audit.py:220-237 | every prefix of an accepted log is accepted |
| `Audit.TailHashCommits` | security-foundations/envelope/audit.py:96-99 | two accepted logs with the same final hash are equal, unless the logs themselves exhibit two inputs with one hash or an input hashing to the genesis value |
| `Audit.DeletionAcceptedIff` | security-foundations/envelope/audit.py:220-237 | for any accepted log and any deletion of events from it, what is left is accepted exactly when it is a prefix, unless the log itself exhibits a collision or a genesis hit |
| `Audit.InsertionAcceptedIff` | security-foundations/envelope/audit.py:220-237 | for any accepted log and any insertion of events into it, at one place or many, the result is accepted exactly when they all come after it and carry the chain on, unless the result exhibits a collision or a genesis hit |
| `Audit.RewriteAcceptedIff` | security-foundations/envelope/audit.py:220-237 | for any rewriting of any events in place, the result is accepted exactly when the events from the first rewritten one on carry the chain on, and then every one of them has been rewritten, with an exhibited collision or genesis hit as the exception |
| `Audit.SharedEventSharesPast` | security-foundations/envelope/audit.py:220-237 | where two accepted logs hold one event, at whatever positions, they agree on all that came before it, with the same exception |
| `Audit.AlterationAcceptedIff` | security-foundations/envelope/audit.py:220-237 | of all logs whatever, accepted are exactly those that keep a start of the original, as much as the two have in common, and carry it on with events hashed afresh; none of those events is in the original, with the same exception |
| `Audit.CutAndCarriedOnIsAccepted` | security-foundations/envelope/audit.py:96-105 | a log cut anywhere and carried on with any bodies, hashed afresh, is accepted |
| `Audit.RememberedTailDetects` | security-foundations/envelope/audit.py:96-99 | with the last hash kept elsewhere, of all logs that end in it only the original is accepted, with the same exception |
| `Audit.TailLine` | security-foundations/envelope/audit.py:183-195 | the backward block scan finds the same last line as reading the whole file, for every file and block size |
| `Audit.LastLineFound` | security-foundations/envelope/audit.py:195 | that line is the last run of characters between newlines, whatever newlines end the file |
| `Audit.JsonlAuditSink.TailHash` | security-foundations/envelope/audit.py:178-198 | the hash read from the file's last line is the last event's, or genesis for an empty log |
| `Audit.JsonlAuditSink.Record` | security-foundations/envelope/audit.py:118-151 | recording through the file keeps file and log in step and the log accepted |
| `SafeMode.MaxState` | security-foundations/envelope/safe_mode_engine.py:79-84 | the loop finds the most severe of the states, or Normal |
| `SafeMode.WorstIsMax` | security-foundations/envelope/safe_mode_engine.py:79-84 | it is one of them, or Normal, and none is more severe |
| `SafeMode.SafeModeEngine.Observe` | security-foundations/envelope/safe_mode_engine.py:247-266 | observing keeps the stronger trigger of a kind and rebases the state |
| `SafeMode.SafeModeEngine.Clear` | security-foundations/envelope/safe_mode_engine.py:268-284 | clearing removes the kind and rebases the state |
| `SafeMode.SafeModeEngine.Downgrade` | security-foundations/envelope/safe_mode_engine.py:286-341 | a downgrade is refused, in order, for a more severe target, an outranked authority, or a target below what the triggers require |
| `SafeMode.ActiveIsStrongest` | security-foundations/envelope/safe_mode_engine.py:247-275 | the trigger held for a kind is the first to ask for the most severe state asked for since the kind's last clear |
| `SafeMode.CurrentIsComputed` | security-foundations/envelope/safe_mode_engine.py:355-384 | in every reachable state the engine is exactly where its active triggers put it |
| `SafeMode.StateRefinesHistory` | security-foundations/envelope/safe_mode_engine.py:247-341 | after any run from fresh the state is the most severe one any kind's observations since its last clear ask for, and Normal when there is none |
| `SafeMode.StepIsProper` | security-foundations/envelope/safe_mode_engine.py:360-384 | a trigger's transition rises, a clear's falls, a downgrade's goes nowhere |
| `SafeMode.TraceIsPath` | security-foundations/envelope/safe_mode_engine.py:247-384 | the transitions of a run form a linked path from Normal to the present state |
| `SafeMode.DowngradeNeverLowers` | security-foundations/envelope/safe_mode_engine.py:300-341 | in every reachable state a downgrade succeeds exactly for the present state and an authority no active trigger outranks, and changes nothing |
| `Transitions.DowngradeAnswers` | security-foundations/envelope/safe_mode_engine.py:286-341 | in every reachable state each of the three refusals, and the grant, is given exactly under its condition, and the grant is a transition from the present state to itself |
| `Transitions.ReportsItsEvent` | security-foundations/envelope/safe_mode_engine.py:360-384 | a transition bears the time and cause of its event and lists each kind active after it, once |
| `Transitions.KindsOldestFirst` | security-foundations/envelope/safe_mode_engine.py:247-284 | the kinds listed are in the order of their first observation since they were last cleared |
| `Transitions.OrdersAsListed` | security-foundations/envelope/safe_mode_engine.py:57-110 | the five states by severity and the four categories by authority |

## Left out

- Signature, certificate, capability and digest checks: one boolean in the replay model, absent elsewhere.
- SHA-256 and the JCS encoding (section 3.2 of RFC 8785): given functions, of fixed length and injective.
- Malformed JSON, wrongly typed fields and malformed gossip entries: the models start from decoded values.
- Transports over sockets and TLS, thread pools, SQLite and file stores, command lines, hosts and bridges.
- `send` in membership: a channel that loses, repeats and reorders but never raises; a raising transport is
  not modelled, and nodes are honest and do not restart after a crash.
- The admission callback of membership: a pure function of the peer's id.
- Floating-point rounding in shares, utilization and coverage.
- Reason texts and detail strings; rebalance decisions carry no reason, safe-mode transitions no detail.
- Object identity of `Member` records and of the dicts that snapshots copy: peers are values in a map.
- Whether repeated rebalancing settles: it need not.
- Sampler comparison and surge detection beside neighbour selection; audit queries other than the trust
  domain of an id.
- `IdentityRateLimiter` resets inside the window theorem, and clocks that go back.
- `mark` and the SQLite cache in the replay interleaving: verification calls only `mark_if_new`.
- UUID and field checks on broadcasts other than a non-empty set of expected nodes.
- Events appended to the audit file by other writers, and lines that are not JSON.
- The other signed-artifact verifiers, policy tables, scanning, sandbox profiles and the test registry:
  mostly single checks.
- Depth.CheckDepth: states nothing of the memory the stack takes.
