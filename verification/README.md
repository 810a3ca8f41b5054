# A model of the collector's network reporting

This project models how the collector turns kernel events and scrapes into the connection updates it
streams to Sensor, and the indexes, limiters, codecs and stream client that this reporting stands on.
Sensor sees nothing but the messages, so the central results say what Sensor must believe after any
run, in terms of what the collector remembers and of the snapshots it has taken.

| file | content |
|---|---|
| `ConnStatus.dfy`, `DeltaReporting.dfy` | statuses, the deltas with and without afterglow, the remembered state |
| `SensorView.dfy` | Sensor's set of open connections over whole runs |
| `Tracker.dfy` | the tracker's map: events, scrapes, normalising fetches |
| `Normalization.dfy` | the keys that are reported; what a change of the external-IPs setting closes |
| `Emission.dfy`, `RateLimit.dfy` | rate-limited messages; token buckets, the bounded cache, the counter |
| `Notifier.dfy` | the reporting loop, from events to messages |
| `WholeRuns.dfy` | what every run of the loop guarantees to Sensor |
| `EndToEnd.dfy` | the same from the reports and listings of the inputs |
| `Words.dfy`, `Networks.dfy` | 64-bit words bit by bit; addresses, networks, private ranges |
| `PrefixMatch.dfy`, `RadixTree.dfy` | longest-prefix matching on values; the radix tree on the heap |
| `KnownNetworks.dfy` | taking over the known networks and marking families without private ones |
| `DuplexClient.dfy` | the duplex gRPC client against its completion queue |
| `WireFormat.dfy`, `Base64.dfy`, `Utf8.dfy` | the codecs |
| `Options.dfy`, `Octets.dfy` | shared types |

Main results:

- `Notifier.RunSingle`: through failed scrapes, kernel events, table and setting changes, rate
  limiting and a failed write, the loop's variables and every message are those that the rounds of
  its inputs determine.
- `WholeRuns.EveryRunIsFaithful`: in every such run, with or without afterglow and whatever the clock
  and the settings do, Sensor never holds more open than the collector believes open. What it lacks is
  exactly what a round withheld or disturbed and has been believed open ever since. Its endpoints are
  always right.
- `WholeRuns.ViewsAgreeExactly` and `RegularRunIsExact`: the two sides agree all along if and only if
  no round withholds or disturbs anything; a simple condition on the inputs rules disturbances out.
- `WholeRuns.EveryMessageIsNews`: every message of every run meets the limit of every container
  exactly, loses no close, opens nothing that Sensor holds open, and dates every entry.
- `WholeRuns.SensorHoldsWhatWasSeen`: what Sensor holds open after every run, from the snapshots and
  what was lost.
- `EndToEnd.HeardIsOpen`, `PlainOpenIsHeard`, `OpenEndpointsAreHeard` and `OpenWasHeard`: Sensor's
  open sets from what kernel events and scrapes reported, through every fetch and normalisation.
- `Normalization.OldKeyClosesExactly`: exactly which remembered keys a change of the external-IPs
  setting closes; without cross-family overlap, those it gives another key.
- `Normalization.ShortcutIsSound`: skipping the lookup for families without private networks never
  changes the key of a private address; `ShortcutMatters` says when it changes any other.
- `SensorView.CycleKeepsViewExactly`: a cycle keeps the view exact if and only if it disturbs no key.
  The two disturbances are a clock that goes back and a setting change that closes a live key.
- `Normalization.FreshKeyClosesExactly`: exactly when a setting change closes a key that was just
  confirmed. This needs a known network whose own address a longer network of the other family hides.
- `PrefixMatch.WalkAnswers`: exactly what the lockstep walk answers on any two trees that mix families.
- `RadixTree.Tree.Insert`, `Find` and `IsAnyIPNetSubset` with `PrefixMatch.FindAgreesWithScan`: the
  pointer-and-mask walks compute longest-prefix matching, and exactly when a lookup is right on a tree
  that mixes families.
- `DuplexClient.ReachableInv`, `CallbackHearsEveryRead` and `NothingIssuedAfterClosing`: flags and
  outstanding tags agree in every reachable state, reading goes on until the end is requested and
  every read reaches the callback, and nothing is issued afterwards.
- `Utf8.ValidExactly`: a byte string is accepted exactly when it encodes Unicode scalar values.

Conventions. Loops over hash maps visit keys in an arbitrary order. Clock readings, scrape results,
tables, limits, queue answers and whether a write succeeds are parameters. Timestamps are in
[0, 2^63). The external-IPs direction is a pair of booleans. Each locked section is one step.

Where the code and its comments differ, the model follows the code:

- `NRadix.h` promises the smallest network that holds the query. With both families in one tree the
  lookup takes the longest raw match first and only then compares families (`MixedFamiliesHide`).
- `NRadix.h` promises containment for a given family. On mixed trees the walk can answer yes without
  it (`MixedFamiliesFoolTheWalk`) and no despite it (`MixedFamiliesBlindTheWalk`); `WalkAnswers` says
  what it answers on any two trees and `WalkErrors` when that is wrong.
- An open that the limit withholds is not sent again while the connection stays recently active
  (`RateLimitedCycle`, and over whole runs `EveryRunIsFaithful`).

## Model

| member | source | states |
|---|---|---|
| ConnStatus.Merge | collector/lib/ConnTracker.h:35-37 | the merge of two statuses is one of them and at least both in the order active before inactive, then later before earlier |
| ConnStatus.PackingIsExact | collector/lib/ConnTracker.h:16-67 | flag-in-bit-63 packing is a bijection, and on packed words the unsigned maximum is the merge, for all words |
| ConnStatus.MergeLaws | collector/lib/ConnTracker.h:35-37 | merging is commutative, associative and idempotent, so a merged collection has one value |
| DeltaReporting.ComputeDeltaAfterglow | collector/lib/ConnTracker.h:289-400 | the two loops, in any order, produce the delta given key by key |
| DeltaReporting.ComputeDelta | collector/lib/ConnTracker.h:237-278 | the in-place loops turn the old state into the plain delta |
| DeltaReporting.InsertChanges | collector/lib/ConnTracker.h:239-259 | the first loop leaves every snapshot key with its delta entry and touches no other |
| DeltaReporting.CloseVanished | collector/lib/ConnTracker.h:261-277 | the second loop closes what vanished while active and drops what was already closed |
| DeltaReporting.UpdateOldState | collector/lib/ConnTracker.h:216-235 | what is remembered is the unexpired old entries overridden by the snapshot |
| DeltaReporting.CloseConnections | collector/lib/ConnTracker.cpp:124-137 | matching entries leave the old state and enter the delta closed, never overwriting an entry already there |
| SensorView.KeyThroughCycle | collector/lib/ConnTracker.h:289-400 | after any cycle a key is believed exactly when the replay of the delta leaves it open or the cycle disturbs it, and no believed key is reopened |
| SensorView.CycleKeepsViewExactly | collector/lib/NetworkStatusNotifier.cpp:251-274 | an exact view stays exact over a cycle delivered whole if and only if no key is disturbed |
| SensorView.DisturbedKeyDiverges | collector/lib/ConnTracker.h:377-400 | a disturbed key ends up believed open by the collector and closed at Sensor |
| SensorView.BackwardClockDiverges | collector/lib/ConnTracker.h:53-61 | two concrete cycles with a clock going back after which the views differ |
| SensorView.RateLimitedCycle | collector/lib/NetworkStatusNotifier.cpp:312-353 | after any cycle Sensor's set stays inside the believed set; what is missing is exactly what was missing and is still believed, what was withheld, and what was disturbed; nothing is reopened |
| SensorView.ClosedConnectionsAreReported | collector/lib/ConnTracker.cpp:139-165 | every old connection that a setting change affects and the snapshot does not show is reported inactive with its time, forgotten, and closed at Sensor |
| SensorView.DeltaIsNews | collector/lib/ConnTracker.h:321-400 | a key is in the delta exactly when its believed state changes otherwise than by the clock going back, it is new, it was closed by a setting change, or a closed connection shows later activity; its time and flag are the latest |
| SensorView.RunKeepsView | collector/lib/NetworkStatusNotifier.cpp:220-291 | in every orderly run with deltas delivered whole Sensor's set equals the recently active remembered keys |
| SensorView.RateLimitedRun | collector/lib/NetworkStatusNotifier.cpp:220-353 | in every run with any opens withheld Sensor's set is a subset of the recently active remembered keys |
| SensorView.NeverReopened | collector/lib/NetworkStatusNotifier.cpp:220-353 | no message of any run opens a connection Sensor already holds open |
| SensorView.PastByHistory | collector/lib/ConnTracker.h:216-235 | in every run, a key is remembered exactly when some snapshot is the last to mention it and no later cycle closed it or saw its afterglow end, and with that snapshot's status |
| SensorView.KeptByOrderedClock | collector/lib/ConnTracker.h:216-235 | with a clock that does not go back the afterglow need be tested only at the last cycle |
| SensorView.SensorFollowsHistory | collector/lib/NetworkStatusNotifier.cpp:220-291 | in every orderly run with deltas delivered whole, a connection is open at Sensor exactly when the last snapshot to mention it makes it recently active |
| SensorView.PlainDeltaReplays | collector/lib/ConnTracker.h:237-278 | replaying the plain delta turns the old active set into exactly the new one and opens nothing twice |
| SensorView.PlainDeltaIsNews | collector/lib/ConnTracker.h:237-278 | a key is in the plain delta exactly when its activity changes, it is new, or a closed connection shows later activity; its time and flag are the latest |
| SensorView.PlainCycleKeepsView | collector/lib/NetworkStatusNotifier.cpp:257-272 | the same with opens withheld: a subset, and what is missing is exactly what was missing and is still active, and what was withheld |
| SensorView.ZeroAfterglowIsPlain | collector/lib/ConnTracker.h:237-400 | with period zero and no time later than its scrape both deltas are equal |
| Tracker.ConnectionTracker.EmplaceOrUpdate | collector/lib/ConnTracker.cpp:193-201 | a report is stored only if the key is new or the report is newer; tells whether the key was new |
| Tracker.ConnectionTracker.Update | collector/lib/ConnTracker.cpp:49-72 | the state after a scrape, key by key |
| Tracker.ScrapeLeavesActive | collector/lib/ConnTracker.cpp:49-72 | a scrape leaves active exactly the listed keys that were absent or older than it, and forgets no key |
| Tracker.ScrapeIsEvents | collector/lib/ConnTracker.cpp:49-72 | a scrape is the silencing of every entry, times kept, followed by the events of its listing |
| Tracker.TrackerHears | collector/lib/ConnTracker.cpp:43-72 | after reports, a possible silence and more reports a key holds the first of its latest reports, active only if that is and was not silenced |
| Tracker.ConnectionTracker.FetchState | collector/lib/ConnTracker.cpp:233-263 | in any order, each normalised key gets a greatest status among the unfiltered raw keys mapping to it; clearing leaves exactly the active entries |
| Tracker.SnapshotIsUnique | collector/lib/ConnTracker.cpp:233-263 | the snapshot does not depend on the iteration order |
| Tracker.FirstOfLatestWins | collector/lib/ConnTracker.cpp:194-215 | from any state and after any events a key holds the status of the first of its latest events, what was stored counting as the earliest |
| Tracker.OrderIsIrrelevant | collector/lib/ConnTracker.cpp:43-47 | from any state the same events in any order and multiplicity give the same map if and only if no two latest events of one key, later than what is stored, disagree |
| Tracker.ClosedEntryIsFetchedOnce | collector/lib/ConnTracker.cpp:255-259 | a closed entry is gone after a clearing fetch through any operations that do not mention it |
| Normalization.CollapsesExactly | collector/lib/ConnTracker.cpp:74-119 | an address becomes the rest of the internet exactly when external IPs are off and it is neither private, nor in a network not to be aggregated, nor known, nor in a known network |
| Normalization.CollapsesFromLists | collector/lib/ConnTracker.cpp:74-119 | the same from the lists of networks the tables were built from |
| Normalization.KeyOfAddress | collector/lib/ConnTracker.cpp:74-112 | the address, prefix length and address flag of the key in every case: private, spared and known addresses keep their own under every setting |
| Normalization.ShortcutMatters | collector/lib/ConnTracker.cpp:85-93 | skipping the lookup changes a key exactly when a kept address of a family marked without private networks has a known network |
| Normalization.ShortcutIsSound | collector/lib/ConnTracker.cpp:39-41 | with the marks the two walks compute it never changes the key of a private address |
| Normalization.OldKeyClosesExactly | collector/lib/ConnTracker.cpp:139-150 | a key built under the old setting is closed by the change if and only if the new setting gives its address another key or, on switching off, it is a known network whose own address is hidden |
| Normalization.ChangedKeysAreClosed | collector/lib/ConnTracker.cpp:139-150 | without cross-family overlap exactly the keys the setting changes are closed |
| Normalization.ChangedConnectionsAreClosed | collector/lib/ConnTracker.cpp:152-189 | the same for whole connections, both directions and every change of setting |
| Normalization.FreshKeyClosesExactly | collector/lib/ConnTracker.cpp:74-165 | a key built under a setting meets the closing test of the change to it if and only if it is a known network whose own address is hidden |
| Normalization.FreshKeysStayOpen | collector/lib/ConnTracker.cpp:74-165 | without cross-family overlap no freshly built key is closed |
| Normalization.FreshConnectionsStayOpen | collector/lib/ConnTracker.cpp:139-189 | the same for whole connections, both directions and every change of setting |
| Normalization.KeyContainsAddress | collector/lib/ConnTracker.cpp:74-112 | a reported network with a prefix contains the address it stands for |
| Normalization.ReportedAsOne | collector/lib/ConnTracker.cpp:167-189 | exactly which connections share a key: container, protocol, role, service port and normalised remote |
| Normalization.KeyShowsService | collector/lib/ConnTracker.cpp:167-189 | a key shows the role, a server's own port or a client's remote port, and no other port or local address |
| Normalization.UdpRole | collector/lib/NetworkConnection.h:425-439 | which end of a UDP connection counts as the server, by the ranges of both ports |
| Normalization.OverlapClosesFreshKey | collector/lib/ConnTracker.cpp:90-97 | concrete known networks under which a live key is closed |
| RateLimit.TimeLimiter.AllowN | collector/lib/RateLimit.cpp:24-53 | the grant and the new bucket for any bucket, request and clock readings |
| RateLimit.GrantedIffShown | collector/lib/RateLimit.cpp:20-44 | on a bucket in use a request is granted exactly when it asks for no more than the bucket shows |
| RateLimit.UnusedBucketShowsLess | collector/lib/RateLimit.cpp:20-44 | on a bucket never used, what is granted is what is shown if and only if the burst is zero or the clock has passed one refill time |
| RateLimit.PassesExactly | collector/lib/RateLimit.cpp:24-53 | on a bucket in use a request passes exactly when the remaining tokens, or a whole burst once a refill time has passed, cover it; a bucket that is due or full is filled |
| RateLimit.WithinOnePeriod | collector/lib/RateLimit.cpp:24-53 | within one refill time of the first call exactly the requests that keep the total within one burst pass, and refused ones cost nothing |
| RateLimit.RoundsTowardZero | collector/lib/RateLimit.cpp:46-48 | the division of elapsed time rounds toward zero when the clock has gone back |
| RateLimit.GrantBound | collector/lib/RateLimit.cpp:16-53 | over every call sequence with an ordered clock the grants never exceed one burst plus one per whole refill time, and the bucket stays between zero and a burst |
| RateLimit.RateLimitCache.Allow | collector/lib/RateLimit.cpp:66-75 | the cache never exceeds its capacity; a key that overflows it empties it and passes; otherwise only that key's bucket changes |
| RateLimit.CountLimiter.Allow | collector/lib/RateLimit.cpp:83-90 | one call more is counted for the key, and it passes while the count is within the limit |
| Emission.AddConnections | collector/lib/NetworkStatusNotifier.cpp:312-353 | in any order the message keeps every close and, per container, exactly as many opens as the limit allows |
| Notifier.CloseOnConfigChange | collector/lib/ConnTracker.cpp:139-165 | the two passes together close exactly the connections either direction's change affects |
| Notifier.Feed | collector/lib/NetworkStatusNotifier.cpp:198-218 | the trackers after the events before a scrape, the scrape if it is on and succeeds, and the events up to the fetch |
| Notifier.FetchHears | collector/lib/NetworkStatusNotifier.cpp:198-218 | what a fetch finds of a connection is the first of the latest reports of the input, events, listing and late events, what was stored first; a listing marks inactive what is not reported again |
| Notifier.FetchHearsEndpoint | collector/lib/NetworkStatusNotifier.cpp:198-218 | the same for endpoints, from the listing |
| Notifier.ListedIsFetched | collector/lib/ConnTracker.cpp:49-72 | a connection nothing newer was reported of is active as of the scrape exactly when it is listed, and otherwise inactive with its time |
| Notifier.OneCycle | collector/lib/NetworkStatusNotifier.cpp:245-275 | the message, entry by entry, and the remembered state of a round are the specified ones; only opens are withheld, and of every container exactly as many pass as the limit allows |
| Notifier.Send | collector/lib/NetworkStatusNotifier.cpp:265-287 | nothing is sent exactly when both deltas are empty; a message that is sent is appended as specified; a failed write ends the run with the variables unchanged |
| Notifier.Iterate | collector/lib/NetworkStatusNotifier.cpp:228-290 | an iteration adds the round of its input, or none when the scrape failed; it fails only when there is a message and it is not delivered |
| Notifier.RunSingle | collector/lib/NetworkStatusNotifier.cpp:220-291 | for every script of inputs the variables, every message included, are those the rounds of the completed inputs determine, and the trackers hold what the inputs left; it ends early exactly at a message that is not delivered |
| WholeRuns.SnapshotStaysOpen | collector/lib/ConnTracker.cpp:139-189 | no key of a freshly normalised snapshot meets the closing test |
| WholeRuns.RoundGap | collector/lib/NetworkStatusNotifier.cpp:245-275 | after any round, in either mode, Sensor lacks exactly what it lacked and is still believed open, what was withheld, and what was disturbed; it holds nothing else, its endpoints are the active ones, and nothing is reopened |
| WholeRuns.EveryRunIsFaithful | collector/lib/NetworkStatusNotifier.cpp:220-291 | after the messages of any run, in either mode, Sensor's open connections are a subset of those the collector believes open; it lacks one exactly when some round withheld or disturbed it and it has been believed open ever since; its open endpoints are exactly the active ones |
| WholeRuns.ViewsAgreeExactly | collector/lib/NetworkStatusNotifier.cpp:220-291 | in any run, Sensor and the collector agree after every round if and only if no round withholds an open or disturbs a connection |
| WholeRuns.MessageIsNews | collector/lib/NetworkStatusNotifier.cpp:293-353 | a message has something to tell, per container all opens or as many as the limit, every close, no open for a connection or endpoint Sensor holds open, and in every entry the time last seen and the state now believed, or the remembered time and closed where a setting change overrules the snapshot |
| WholeRuns.EveryMessageIsNews | collector/lib/NetworkStatusNotifier.cpp:220-353 | each message of any run is the message of one of its rounds, sent after the messages before it, and has these properties |
| WholeRuns.CyclesAreOrderly | collector/lib/ConnTracker.cpp:139-165 | a run whose clock does not go back and whose changes of setting are harmless disturbs nothing and overrules no snapshot, and satisfies the hypotheses of the run theorems |
| WholeRuns.RegularRunIsExact | collector/lib/NetworkStatusNotifier.cpp:220-291 | in such a run, and in every run without afterglow, only the limit loses connections: while it has withheld nothing Sensor's set equals the believed one |
| WholeRuns.AdmissibleIsRegular | collector/lib/ConnTracker.cpp:139-189 | known networks without cross-family overlap and no address equal to the canonical external one make every change of setting harmless |
| WholeRuns.SensorHoldsWhatWasSeen | collector/lib/NetworkStatusNotifier.cpp:220-291 | end to end, in every run a connection is open at Sensor exactly when the snapshots say so and it was not lost to the limit or a disturbance |
| EndToEnd.SnapshotIsHeard | collector/lib/NetworkStatusNotifier.cpp:248-263 | the status of a key in a snapshot is the greatest heard of the connections fetched under it |
| EndToEnd.CarriedOver | collector/lib/ConnTracker.cpp:255-259 | what is carried to the next input is what was heard, after a fetch only if active |
| EndToEnd.HeardIsOpen | collector/lib/NetworkStatusNotifier.cpp:220-291 | in every run each connection its last input leaves active is open at Sensor under its key, or the key was lost |
| EndToEnd.PlainOpenIsHeard | collector/lib/NetworkStatusNotifier.cpp:220-291 | without afterglow the open connections are exactly those, less what was lost |
| EndToEnd.OpenEndpointsAreHeard | collector/lib/NetworkStatusNotifier.cpp:220-291 | the open endpoints are exactly those its last input leaves active |
| EndToEnd.OpenWasHeard | collector/lib/NetworkStatusNotifier.cpp:220-291 | in every run nothing is open at Sensor that was neither tracked from the start nor mentioned by an input |
| EndToEnd.RekeyedIsClosed | collector/lib/NetworkStatusNotifier.cpp:251-274 | in any round with afterglow a remembered connection whose key the setting changes is reported closed, forgotten and no longer open at Sensor, unless the snapshot has its old key |
| EndToEnd.SameKeyStays | collector/lib/ConnTracker.cpp:152-164 | one whose key the setting does not change is not closed by the change |
| Networks.NewIPNet | collector/lib/NetworkConnection.h:173-193 | the constructor's loop builds the mask words, the last partial one in host order, after cutting the prefix length |
| Networks.Contains | collector/lib/NetworkConnection.h:209-233 | the word comparison holds exactly when the families agree and the address begins with the network's prefix bits |
| Networks.NetMaskBit | collector/lib/NetworkConnection.h:197-205 | bit d of the netmask words is set exactly when d is below the prefix length |
| Networks.IsPublic | collector/lib/NetworkConnection.cpp:13-20 | public exactly when no private network of the family covers the address |
| Networks.PrivateV4ByBytes | collector/lib/NetworkConnection.h:442-452 | the private IPv4 addresses by their first two bytes |
| Networks.PrivateV6ByBytes | collector/lib/NetworkConnection.h:455-468 | the private IPv6 addresses: fd00::/8 and the mapped private IPv4 ones |
| Networks.LocalIsLoopback | collector/lib/NetworkConnection.h:111-124 | the local IPv4 addresses are those of 127.0.0.0/8 |
| Networks.MappedAddressesAgree | collector/lib/NetworkConnection.h:98-124 | an IPv4 address and its mapped form are both private or both public, and both local or neither |
| PrefixMatch.LongestIsLongest | collector/lib/NRadix.h:108-110 | the lookup returns a stored network covering the query with no longer one, and none exactly when there is none |
| PrefixMatch.LongestIsScan | collector/lib/NRadix.cpp:128-183 | the longest raw match is the scan of the inserted list without regard to family |
| PrefixMatch.FindAgreesWithScan | collector/lib/NRadix.cpp:128-183 | a lookup equals the linear scan of the query's family if and only if no network of another family hides the answer |
| PrefixMatch.OneFamilyFindIsScan | collector/lib/NRadix.cpp:128-183 | with one family it always equals the scan |
| PrefixMatch.AddressHasNetwork | collector/lib/NRadix.cpp:185-187 | where no network of the other family begins like an address, it has a network exactly when some listed network contains it, and the one found does |
| PrefixMatch.MixedFamiliesHide | collector/lib/NRadix.cpp:182 | a concrete lookup that fails only because of a network of the other family |
| PrefixMatch.WalkAnswers | collector/lib/NRadix.cpp:208-260 | on any two trees the walk says yes exactly when the nearest network above some network of the second is of the wanted family, or a network of the first lies on the way below one of the second that matches it |
| PrefixMatch.WalkErrors | collector/lib/NRadix.cpp:208-260 | the walk says yes wrongly exactly on a match from above with nothing inside, and no wrongly exactly when something is inside, no nearest network shows it, and there is no such match |
| PrefixMatch.BaitIsHonest | collector/lib/NRadix.cpp:229-248 | no wrong yes where the two trees do not overlap across families |
| PrefixMatch.NothingIsHidden | collector/lib/NRadix.cpp:229-248 | no wrong no where the first tree does not overlap itself across families |
| PrefixMatch.WalkIsSubset | collector/lib/NRadix.cpp:208-260 | without either overlap the walk's answer is containment of some network |
| PrefixMatch.WalkByFamily | collector/lib/NRadix.cpp:208-260 | then the answer is containment between two networks of the family asked for, or of one common family when none is asked for |
| PrefixMatch.OneFamilySubset | collector/lib/NRadix.cpp:208-260 | for trees of one family, asked for it or for any, the walk answers whether some network of the second list lies inside one of the first; asked for another family it answers no |
| PrefixMatch.MixedFamiliesFoolTheWalk | collector/lib/NRadix.cpp:208-260 | concrete mixed trees on which the walk answers yes without containment |
| PrefixMatch.MixedFamiliesBlindTheWalk | collector/lib/NRadix.cpp:208-260 | concrete mixed trees on which the walk answers no despite containment |
| RadixTree.Tree.Walk | collector/lib/NRadix.cpp:54-84 | the first loop ends at the network's node, or at the last existing node before the first missing bit |
| RadixTree.Tree.Grow | collector/lib/NRadix.cpp:97-122 | the second loop links new nodes down to the network and changes nothing stored |
| RadixTree.Tree.Insert | collector/lib/NRadix.cpp:35-126 | inserts exactly the networks with a prefix not yet taken, keeps every leaf filled, and changes nothing when it fails |
| RadixTree.Tree.Find | collector/lib/NRadix.cpp:128-183 | returns the specified lookup in what is stored |
| RadixTree.Tree.IsAnyIPNetSubset | collector/lib/NRadix.cpp:254-260 | answers whether some point on the way to a network of the other tree has matching nearest networks in both |
| RadixTree.Tree.IsSubsetUtil | collector/lib/NRadix.cpp:208-248 | the recursion finds exactly the hits at or below its nodes |
| RadixTree.Tree.FromList | collector/lib/NRadix.h:79-86 | a tree built from a list stores what the list inserts, in order |
| RadixTree.Tree.CopyOf | collector/lib/NRadix.h:43-53 | a copied tree stores the same and consists of new nodes only |
| KnownNetworks.ContainsPrivateNetwork | collector/lib/ConnTracker.cpp:39-41 | whether a known network of the family holds a private one or lies inside one, as the two walks answer |
| KnownNetworks.UpdateKnownIPNetworks | collector/lib/ConnTracker.cpp:345-373 | the tree stores what the lists of all families insert, in some order, and each family's mark is the answer for it |
| KnownNetworks.UpdatedTablesKeepKeys | collector/lib/ConnTracker.cpp:85-93 | with the marks of an update the skipped lookup leaves every private address its key |
| DuplexClient.Client.DoAsync | collector/lib/DuplexGRPC.h:610-637 | the error of an operation by the flags, and the flags and outstanding tags after it |
| DuplexClient.RequestOutcome | collector/lib/DuplexGRPC.h:610-637 | exactly when a request is issued, what that adds, and which error each refusal gives |
| DuplexClient.Client.ProcessEvent | collector/lib/DuplexGRPC.h:696-717 | the state after an event, a failure asking for the end before its own flags change |
| DuplexClient.Client.DoSync | collector/lib/DuplexGRPC.h:488-512 | a refusal changes nothing; otherwise the wait plays queue answers up to the first that is no event or is the operation's, which alone decides between success, error, timeout and shutdown; success and error mean the operation is done |
| DuplexClient.Client.Destroy | collector/lib/DuplexGRPC.h:548-553 | the drain loop ends, issues nothing, and only removes tags |
| DuplexClient.StepKeepsInv | collector/lib/DuplexGRPC.h:589-717 | every step keeps the invariant |
| DuplexClient.ReachableInv | collector/lib/DuplexGRPC.h:589-717 | in every reachable state: pending exactly when one tag is outstanding; FINISH and WRITES_DONE issued at most once and FINISH last; a stream error implies the end was requested; the end of reads is called at most once and last; until the end is requested a read is outstanding or its message waits |
| DuplexClient.CallbackHearsEveryRead | collector/lib/DuplexGRPC.h:679-694 | over every run the callback is called once for every completed read, in order, with its outcome |
| DuplexClient.BufferHoldsTheMessage | collector/lib/DuplexGRPC.h:555-579 | without a callback the buffer is valid exactly while the last read succeeded and was not taken |
| DuplexClient.ClosingIssuesNothing | collector/lib/DuplexGRPC.h:622-630 | once FINISH or shutdown is requested a step issues nothing and each event removes one tag |
| DuplexClient.NothingIssuedAfterClosing | collector/lib/DuplexGRPC.h:622-630 | from that moment on, over runs of any length, nothing is issued and the queue shrinks by one tag per event |
| WireFormat.ReadNetworks | collector/lib/NetworkStatusNotifier.cpp:45-58 | reads tuple after tuple and ignores an incomplete rest |
| WireFormat.TupleOfV4 | collector/lib/NetworkStatusNotifier.cpp:45-58 | a tuple is the bytes of the address in network order, then the prefix length |
| WireFormat.NetworksRoundTrip | collector/lib/NetworkStatusNotifier.cpp:411-421 | every list of networks of one family is read back as written, the signed byte of /128 included |
| Base64.Base64Decode | collector/lib/Utility.cpp:108-154 | the buffered loop decodes the characters before the first one outside the alphabet |
| Base64.GroupIsNumber | collector/lib/Utility.cpp:118-131 | four sextets and the three bytes they decode to are the same 24 bits |
| Base64.RoundTrip | collector/lib/Utility.cpp:99-154 | decoding the encoding of section 4 of RFC 4648 gives back every byte string, for all three paddings |
| Utf8.SpanIsLongest | collector/lib/Utility.cpp:245 | no valid prefix is longer than the span |
| Utf8.ValidExactly | collector/lib/Utility.cpp:245 | a byte string is valid exactly when it is the encoding of some Unicode scalar values |
| Utf8.RepairedIsValid | collector/lib/Utility.cpp:244-262 | the repaired string is valid UTF-8 |
| Utf8.RepairChangesStopsOnly | collector/lib/Utility.cpp:251-259 | the repair changes exactly the positions where a valid span stops, each to a question mark |
| Utf8.SanitizedUTF8 | collector/lib/Utility.cpp:244-262 | returns nothing exactly on valid input and the repaired string otherwise; the loop ends |

## Left out

- RateLimit.TimeLimiter.AllowN: 64-bit overflow of the token count and of microsecond times is not modelled.
- RateLimit.GrantBound: is about one bucket; a cache that is flushed starts its buckets afresh.
- Notifier.RunSingle: after a failed write the stream is opened anew with an empty remembered state; what Sensor does with the old stream is outside the model.
- Notifier.OneCycle: message entries keep the time of an open connection, which the wire form leaves out.
- DuplexClient.Client.DoSync: the deadline is a bound on the number of events that still arrive; the polling helpers around the same step are not separate members, nor is the text of the final status.
- Equality and hashing of connections: plain equality of keys is used; the asymmetric comparison of address-flagged and plain networks is not modelled.
- Listing all networks of a tree, which only feeds a debug log.
- Parsing of address strings, process attributes of endpoints, counters and log lines.
- The per-container limit itself, which goes through floating-point rounding, is a parameter.
- Kernel, procfs and gRPC libraries, threads and locks: inputs, or one step per locked section.
