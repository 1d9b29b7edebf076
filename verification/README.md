# Watchtower: a verified model

Watchtower runs on every switch of a fabric. Each instance polls its switch, compares
counters with learned baselines, reports findings in the login banner, and gossips
findings to the Watchtower instances next to it. This project models the four parts of
that program that decide what an operator gets to see, and proves what they guarantee.

`dafny verify dfyconfig.toml` checks everything.

## What is modelled

**Finding gossip** (`SeenSet`, `Gossip`, `Network`, `HopBound`, `MessageBudget`,
`Spreading`, `AtMostOnce`, `Coverage`, `Trees`, `RootedTrees`, `GossipTrees`, `Shortfall`,
`PeerManager`). One switch is a value with its client list, its bounded seen set and its
recorded peer events; `Gossip.Share` and `Gossip.Receive` say what it does with a finding
of its own and with one from a peer. `Network` puts any number of switches together: the
state holds the copies in flight, and a run is any sequence of sharing, delivering,
losing a copy, and refreshing the clients of a switch. A step that is not possible in the
current state changes nothing, so the theorems speak about all step sequences. The class
`PeerManager.PeerManager` is the object as the program has it; its methods are proved to
act on its fields as `Share` and `Receive` say. The same class carries the client
connections, which `Discovery` feeds from the topology; their life is described by the
relation `PeerManager.Follows` between the connections before and after a call.

**Baselines and the anomaly decision** (`Calibration`, `Baselines`, `BaselineCompare`).
Streaming quantile estimates over real numbers, the table of rows for each port, metric and
hour of the week, and the decision that compares a counter with its row.

**Login banner** (`BannerWrap`, `Packing`, `Banner`, `Findings`). Greedy word wrap inside
a greedy line budget, fed by the findings table: what is active, in which order it is
listed, and what the banner then shows and hides.

**Change detection and correlation** (`TopologyDiff`, `StateChanges`, `PeerCorrelate`).
Change lists between LLDP snapshots, change events for polled states, and the join of
local with peer events.

## Assumptions

- A finding id is shared once in the whole fabric. The program's generator counts per
  process, so two switches can produce the same id on the same day;
  `Shortfall.SharedIdHidesFinding` shows what happens to a finding whose id is taken.
- Handling a finding (seen check, mark, record, hand copies to the clients) is one atomic
  step, although the server has four worker threads and no lock. The hop bound and the
  message bound do not depend on the seen check at all.
- Copies may arrive in any order. The program makes its calls one after the other and each
  waits for the receiver, so unless a call runs into its timeout a finding spreads depth
  first; the results hold for the other orders too.
- The hostname a switch is configured with is the name its peers list it under.
- Clock readings, the hour of the week, address resolution, the success of a connection
  and the governor's state are inputs. All clock readings of one port check give the same
  hour.
- Timestamps of findings are modelled as numbers; only their order is used.

## Where the code and its documentation disagree

- `_ema_quantile` is documented to converge to the true quantile, so that p95 would have
  95% of the samples below it. As coded, the steps are the other way round.
  `Calibration.SettlesIff` proves, for all bounded streams and with ties counted on neither
  side, that the q-estimate settles at the (1 - q)-quantile and at no other;
  `Calibration.QuantileClaimIff` that the documented claim therefore holds for the median
  and for no other quantile, and
  `Calibration.SwappedStepsSettle` that swapping the two step sizes would make it true.
  The model follows the code.
- "Propagates up to `finding_ttl` hops" is an upper bound only. Whether every switch within
  `finding_ttl` links hears of a finding, in lossless runs without evictions that have come
  to rest, can be told beforehand. From the number n of switches that can be reached and the
  TTL t alone: `Shortfall.RangeKnowsIff` proves that it holds on all fabrics and in all runs
  if and only if t <= 1 or t >= n - 1, and `Shortfall.EveryoneAlwaysKnowsIff` that every
  switch that can be reached at all hears of it if and only if max(1, t) >= n - 1. For each
  t in between `Shortfall.InRangeButMissed` gives a connected fabric and a run that leave out
  a switch two links away. For one given fabric `GossipTrees.AlwaysInformedIff` gives the
  exact condition: the switches that a run can inform are those that a gossip tree covers.
  On trees of links the range is met exactly (`RootedTrees.RootedTreeExactness`).

## Model

| member | source | states |
|---|---|---|
| SeenSet.LruRefinement | watchtower/peer/__init__.py:446-453 | after any history of marks the ordered seen set is exactly the last 1000 distinct ids, in order of last mark |
| SeenSet.ByLastMarkElems | watchtower/peer/__init__.py:446-453 | the recency order holds each id of the history exactly once |
| SeenSet.RecencyOrder | watchtower/peer/__init__.py:446-453 | in that order an id is followed by exactly the ids marked since its last mark |
| SeenSet.SeenIffRecent | watchtower/peer/__init__.py:455-456 | an id counts as seen if and only if fewer than 1000 distinct ids were marked since its last mark |
| SeenSet.ForgottenOnlyAfterMany | watchtower/peer/__init__.py:446-456 | a marked id that is no longer seen was pushed out by at least 1000 distinct others |
| PeerManager.PeerManager.MarkSeen | watchtower/peer/__init__.py:446-453 | moves a known id to the end, else evicts the oldest at capacity and appends |
| PeerManager.PeerManager.HasSeen | watchtower/peer/__init__.py:455-456 | membership, in terms of the whole mark history of the object |
| PeerManager.PeerManager.ShareFinding | watchtower/peer/__init__.py:264-295 | enabled, not dormant and severity warning or critical: marks the id and makes one call to each client, in order, with the host as sender and origin, the full TTL, the id and the content; otherwise nothing changes |
| PeerManager.PeerManager.HandleFinding | watchtower/peer/__init__.py:360-405 | a seen id changes nothing; else marks the id, records one event with all fields of the message, and with a TTL above 1 passes it on with one less, as the network model says |
| PeerManager.PeerManager.GossipFinding | watchtower/peer/__init__.py:409-433 | one call to every client but the sender, in the order of the dictionary, all with the given content |
| PeerManager.PeerManager.ConnectPeer | watchtower/peer/__init__.py:160-180 | adds one new connection, or changes nothing when the connection fails |
| PeerManager.PeerManager.RefreshPeers | watchtower/peer/__init__.py:140-158 | afterwards the live hosts are the discovered ones that were connected before or could be connected; surviving peers keep their connection; no connection created or closed before is taken back; a disabled manager changes nothing |
| PeerManager.PeerManager.RemoveStale | watchtower/peer/__init__.py:153-158 | closes and drops exactly the clients that were not discovered |
| PeerManager.PeerManager.Stop | watchtower/peer/__init__.py:129-138 | closes every connection and empties the dictionary, enabled or not |
| PeerManager.ConnectionsConserved | watchtower/peer/__init__.py:129-180 | over any sequence of refreshes and stops, each connection ever created is live once and never closed, or closed exactly once, and stays closed |
| PeerManager.ClosedForAReason | watchtower/peer/__init__.py:134-158 | over any such sequence a connection is closed only by a stop, or by a refresh that no longer discovers its peer |
| Discovery.DiscoverPeers | watchtower/peer/discovery.py:30-56 | exactly one endpoint for each named neighbour that resolves, with its address |
| Network.RunSound | watchtower/peer/__init__.py:264-295 | in every run each copy sent is in flight or was accepted, suppressed or lost exactly once; copies keep origin and content; stored events are the accepted copies in order |
| Network.ConservedStep | watchtower/peer/__init__.py:360-405 | every step keeps the books of sent copies balanced |
| Network.SharedAfterRefresh | watchtower/peer/__init__.py:285-295 | a finding shared after a refresh goes to exactly the new clients, in their order |
| Network.SharedIff | watchtower/peer/__init__.py:272-279 | in every run a finding is shared if and only if a switch that may share raised it with severity warning or critical, and then by that switch and with that content |
| HopBound.HopBound | watchtower/peer/__init__.py:392-403 | in any run every stored peer event names its true source and content and came over a walk of `finding_ttl` - ttl + 1 links ending at its sender, hence within `finding_ttl` hops |
| HopBound.RunRouted | watchtower/peer/__init__.py:421-433 | the same for every copy ever sent; the walk never turns straight back |
| MessageBudget.ProgressLowersPotential | watchtower/peer/__init__.py:360-405 | each delivery and each loss strictly lowers the potential, whether or not the seen check fires |
| MessageBudget.GossipDiesOut | watchtower/peer/__init__.py:360-433 | without new findings no run delivers or loses more copies than the potential it starts with, even while clients are refreshed |
| MessageBudget.SendsBounded | watchtower/peer/__init__.py:285-295 | with at most d clients a switch, one finding causes at most d + d^2 + ... + d^TTL sends in any run |
| AtMostOnce.RecordedTwiceNeedsEviction | watchtower/peer/__init__.py:371-389 | in any run, recording a finding twice needs 1000 distinct other ids marked in between |
| AtMostOnce.OwnRecordedNeedsEviction | watchtower/peer/__init__.py:279-389 | in any run, a switch records a finding of its own only after 1000 distinct other ids were marked since it shared the finding |
| AtMostOnce.NeverEvictedIff | watchtower/peer/__init__.py:446-456 | no switch evicts a finding at any time of a run if and only if at its end no switch has marked 1000 distinct other ids after it |
| AtMostOnce.OncePerSwitchAndLink | watchtower/peer/__init__.py:360-433 | a finding that is never evicted is recorded by each switch at most once and never by its origin, and crosses each link at most once, so it causes at most as many sends as there are links |
| Coverage.HeardExactly | watchtower/peer/__init__.py:264-433 | at rest after a lossless run, a switch knows a finding if and only if it is a client of the origin or of a switch that accepted it with TTL above 1 |
| Coverage.EveryoneKnowsIff | watchtower/peer/__init__.py:360-433 | in one lossless run at rest, whoever is left out is left out behind a switch that accepted the finding with its last TTL |
| Coverage.FullCoverage | watchtower/peer/__init__.py:264-433 | with `finding_ttl` at least the number of switches that can be reached less one, and unless the finding is evicted, each of them knows it |
| GossipTrees.InformedSetsIff | watchtower/peer/__init__.py:264-433 | on one fabric the sets of switches that lossless runs without evictions inform are exactly those covered by a tree of client links below the origin, no deeper than the TTL allows and closed under the clients of the switches with TTL left |
| GossipTrees.AlwaysInformedIff | watchtower/peer/__init__.py:264-433 | so every such run informs a given set of switches, for instance those in range, if and only if every gossip tree covers it |
| Trees.OneCopyEach | watchtower/peer/__init__.py:371-433 | without cycles each switch is sent at most one copy, the origin none, and the seen check never fires, with any losses and evictions |
| Trees.TreeExactness | watchtower/peer/__init__.py:371-433 | without cycles and losses, a switch records the finding if and only if its distance from the origin is between 1 and `finding_ttl`, exactly once |
| Trees.TtlTellsDistance | watchtower/peer/__init__.py:376-403 | without cycles the recorded TTL is `finding_ttl` - distance + 1 |
| RootedTrees.RootedTreeExactness | watchtower/peer/__init__.py:371-433 | on a fabric whose links form a tree, however rooted: recorded exactly at distances 1 to `finding_ttl`, once each, nothing suppressed, and each record tells its distance |
| Shortfall.InRangeButMissed | watchtower/peer/__init__.py:371-403 | for every TTL and any switches in number at least max(1, TTL) + 2, a connected symmetric fabric and a lossless run without evictions in which a switch at distance 2 never hears of the finding |
| Shortfall.RangeKnowsIff | watchtower/peer/__init__.py:264-433 | where n switches can be reached, every switch in range of a finding with TTL t hears of it in all runs on all fabrics, if and only if t <= 1 or t >= n - 1; also among connected symmetric fabrics alone |
| Shortfall.EveryoneAlwaysKnowsIff | watchtower/peer/__init__.py:264-433 | and every reachable switch does, if and only if max(1, t) >= n - 1 |
| Calibration.Books | watchtower/store/baselines.py:83-95 | an estimate equals its seed plus alpha times (samples above - q times all samples off the estimate) |
| Calibration.EstimateRange | watchtower/store/baselines.py:83-95 | an estimate leaves the range of its samples by at most one step |
| Calibration.Calibrated | watchtower/store/baselines.py:83-95 | over any bounded stream the samples above the estimate differ from a fraction q by at most (hi-lo)/alpha + 1 |
| Calibration.SettlesIff | watchtower/store/baselines.py:91-95 | on all bounded streams, ties included, the q-estimate settles at the (1 - q)-quantile of the samples and at no other |
| Calibration.QuantileClaimIff | watchtower/store/baselines.py:84-90 | so the documented claim, that it settles at the q-quantile, holds if and only if q is one half |
| Calibration.SwappedStepsSettle | watchtower/store/baselines.py:91-95 | with the step sizes swapped the documented claim would hold on all bounded streams |
| Calibration.BoundedCrossing | watchtower/store/baselines.py:69-71 | a higher quantile's estimate is ahead of a lower one's by at most alpha(1 - (q2 - q1)), ever |
| Baselines.HourOfWeek | watchtower/store/baselines.py:10-14 | buckets 0 to 167, one for each weekday and hour |
| Baselines.RowsAreStreams | watchtower/store/baselines.py:51-81 | each stored row holds the 0.50, 0.95 and 0.99 estimates of its own bucket's samples, with their count |
| Baselines.RowsAlmostOrdered | watchtower/store/baselines.py:66-79 | in every reachable row p95 <= p50 + 0.0275, p99 <= p95 + 0.048, p99 <= p50 + 0.0255 |
| Baselines.RowRange | watchtower/store/baselines.py:69-71 | for samples in [lo, hi] the stored p50 lies in [lo - 0.025, hi + 0.025], p95 in [lo - 0.0475, hi + 0.0025] and p99 in [lo - 0.0495, hi + 0.0005] |
| Baselines.WarmupConservation | watchtower/store/baselines.py:106-113 | the sample counts of all buckets of a port and metric add up to its number of updates |
| Baselines.BaselineStore.Get | watchtower/store/baselines.py:26-49 | the stored row of the bucket, which is that of its samples; nothing without samples |
| Baselines.BaselineStore.Update | watchtower/store/baselines.py:51-81 | seeds a row with the value in all columns, or moves p50, p95 and p99 up by 0.025, 0.0025 and 0.0005, down by 0.025, 0.0475 and 0.0495, or not at all on a tie; counts the sample and leaves the other rows alone |
| Baselines.BaselineStore.CheckWarmedUp | watchtower/store/baselines.py:106-113 | warmed up means at least that many positions of the sample log for the port and metric, in any bucket |
| BaselineCompare.LargeValuesFlagged | watchtower/analyzers/baseline_compare.py:88-100 | once warmed up, a positive value of at least a threshold times (hi + 0.0025) is always flagged, for either flag with its own threshold |
| BaselineCompare.SmallValuesNotFlagged | watchtower/analyzers/baseline_compare.py:88-100 | a value below a threshold times (lo - 0.0475) is never flagged, for either flag with its own threshold |
| BaselineCompare.CheckPortStats | watchtower/analyzers/baseline_compare.py:115-138 | stores five samples in order; returns, in that order and once each, exactly the positive counters with a baseline and enough samples that reach the threshold times p95 or whose p95 is not positive, each with its value, the stored p50, p95 and p99 and the immediate flag |
| BaselineCompare.LargeValuesReported | watchtower/analyzers/baseline_compare.py:88-138 | a positive counter of at least the threshold times (hi + 0.0025) is in that list, and marked immediate from that threshold on |
| BaselineCompare.SmallValuesNotReported | watchtower/analyzers/baseline_compare.py:88-138 | one below the threshold times (lo - 0.0475) is not |
| BaselineCompare.OtherMetricsDoNotMatter | watchtower/analyzers/baseline_compare.py:128-136 | updates of other metrics do not change a verdict |
| BaselineCompare.FlaggedOnlyAfterWarmup | watchtower/analyzers/baseline_compare.py:67-100 | over any run of calls a metric is flagged only after the warm-up number of earlier calls for its port, one of them in the same hour bucket |
| BaselineCompare.ReportedOnlyAfterWarmup | watchtower/analyzers/baseline_compare.py:115-138 | and the list a call returns names a metric only then |
| BannerWrap.WrapFinding | watchtower/output/banner.py:99-133 | prints the greedy layout: the severity in brackets before the first line, three blanks before the others, at most the allowed lines |
| BannerWrap.JoinReadsBack | watchtower/output/banner.py:109-118 | the words of a printed line can be read back from its text |
| BannerWrap.WrapIsOptimal | watchtower/output/banner.py:99-133 | the layout shows a prefix of the words in order, and no valid layout in as many lines shows more |
| BannerWrap.LongLinesAreSingleWords | watchtower/output/banner.py:113-123 | a line over its width holds a single word |
| BannerWrap.ReachMonotone | watchtower/output/banner.py:113-125 | starting later never ends earlier, line by line |
| Packing.FitIsLongest | watchtower/output/banner.py:64-94 | what is packed fits the budget and no longer prefix would |
| Banner.Format | watchtower/output/banner.py:33-97 | all-clear, empty, or the five header lines with the number of findings of each severity in the title, the shown findings in order, the overflow line and the footer |
| Banner.BlockPrints | watchtower/output/banner.py:81-92 | a finding takes a blank line and its words in at most three lines of 52 characters behind its severity in capitals |
| Banner.BlocksInOrder | watchtower/output/banner.py:91-94 | the shown findings stand one after the other in their order |
| Banner.BannerBudget | watchtower/output/banner.py:64-97 | at most max(7, max_lines) lines; the longest prefix that fits, at least min(total, (max_lines - 7) / 4); exactly one overflow line when findings are left out, which counts them, and none otherwise |
| Findings.ActiveIff | watchtower/store/findings.py:32-63 | over any log of creations and resolutions a finding is active if and only if it was created and not resolved since |
| Findings.FindingsStore.CreateFinding | watchtower/store/findings.py:32-54 | appends an active finding, unless the table has the id or does not know the severity (watchtower/store/schema.sql) |
| Findings.FindingsStore.ResolveFinding | watchtower/store/findings.py:56-63 | deactivates the row with that id, if there is one, and changes nothing else |
| Findings.FindingsStore.GetActive | watchtower/store/findings.py:80-106 | lists exactly the active findings, of one severity or all: critical before warning before info, and newer first within a severity |
| Findings.FindingsStore.CountActive | watchtower/store/findings.py:121-131 | the number of active rows of each severity and in all |
| Findings.FindingsStore.UpdateBanner | watchtower/main.py:238-240 | the active findings split into those the banner prints and those it hides; no hidden one outranks a shown one, the next one would not have fitted, and the title gives the number of active rows of the table, in all and by severity |
| Banner.CountSeverities | watchtower/output/banner.py:42-47 | counts each severity; the total is the number of findings |
| TopologyDiff.TopologyDiffAnalyzer.Analyze | watchtower/analyzers/topology_diff.py:38-114 | the snapshot has the named LLDP neighbours, or the last stored entry for each port; the first call records; each later call returns exactly the added, changed and removed ports, once each, and keeps the first snapshot plus all changes equal to the last snapshot |
| TopologyDiff.Diff | watchtower/analyzers/topology_diff.py:72-111 | lists exactly what happened, at most one change for each port |
| TopologyDiff.DiffRoundTrip | watchtower/analyzers/topology_diff.py:67-114 | patching the old snapshot gives the new one, undoing gives the old, in any order; empty if and only if equal |
| TopologyDiff.DiffsTelescope | watchtower/analyzers/topology_diff.py:67-114 | over any run the lists lead from the first snapshot to the last, and back |
| StateChanges.StateTracker.CheckChanges | watchtower/main.py:284-327 | stores the polled states and records one event, with old and new state, for each key whose stored state differs; after any sequence of polls each key's events are the consecutive pairs of its de-stuttered observations |
| StateChanges.TracksStep | watchtower/main.py:329-368 | one observation keeps that relation |
| StateChanges.RecordedChangesChain | watchtower/main.py:286-327 | recorded changes chain, have no self-loops, start at the first and end at the stored state, and are absent exactly when the state never changed |
| PeerCorrelate.Analyze | watchtower/analyzers/peer_correlate.py:39-95 | each result joins a local event on a port with a peer event from the neighbour the topology has there, and names the port, the neighbour and its port; no pair of ids twice; with distinct ids exactly the pairs that belong together |
| PeerCorrelate.IndexByHost | watchtower/analyzers/peer_correlate.py:53-60 | each non-empty hostname is indexed with its peer events in order |
| PeerCorrelate.CorrelationsExact | watchtower/analyzers/peer_correlate.py:62-95 | with distinct event ids the plain join has no repeated pair and holds exactly the correlations on a common link |

## Left out

- gRPC transport, TLS credentials and protobuf: an RPC is delivered or lost, a connection succeeds or fails.
- Redis collectors, syslog, CLI, configuration loading, DNS: their results are inputs.
- SQLite, JSON and timestamps as text: tables are maps, events are records.
- Journal pruning: baselines and findings are never deleted in the model.
- Heartbeats, event sharing and topology fragments between peers: single overwrites of one row.
- The resource governor's own state machine and the message templates: one branch settles each.
- Restart of a switch, which empties its seen set: a run covers one lifetime of each switch.
- Interleavings inside the handler, and edits of the client dictionary while a loop runs over it.
- Rounding of floating point numbers: baselines are real numbers.
- Several topology rows for one port: the lookup of a port's neighbour in `PeerCorrelate` is a map.
- Python's `str.split`: the wrap gets the words of a summary, none of which is empty.
- The order SQL gives to findings of equal severity and time: the listing is only promised to be sorted.
- Finding details and related events, and `get_history`: they do not reach the banner.
- `str.upper` beyond ASCII letters.
