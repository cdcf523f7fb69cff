# Tidegard: a verified model of its stateful core

Tidegard collects IPFIX flow records, classifies them against configured
prefixes, aggregates them into bounded tables and rate windows, and serves the
result over a rate-limited API. This project models the parts whose
correctness is a statement about every run, and proves those statements with
Dafny 4.11. `dafny verify dfyconfig.toml` checks the whole project.

| component | modules |
|---|---|
| longest-prefix-match index and direction | `Bits`, `Net`, `PrefixTable`, `Trie`, `Registry` |
| calendar arithmetic and RFC 3339 text | `Calendar`, `Text`, `Rfc3339` |
| GCRA rate limiter and its use for failed logins | `RateLimiter`, `LimiterRuns`, `Auth`, `Flights`, `FlightBounds`, `FlightExact`, `FlightSweeps` |
| bounded traffic aggregation | `BoundedMap`, `Recency`, `RateWindow`, `WindowRuns`, `Sums`, `Counters`, `TrafficRuns`, `Aggregator`, `AggregatorRuns`, `Dimensions` |
| exporter registry and template caches | `Allowlist`, `Templates`, `Messages`, `Exporters`, `ExporterRuns` |
| agreement between the components | `Coverage` |

How the pieces are built:

- What the source changes in place is a class here: the trie and its nodes, the
  registry, the limiter, the bounded map, the windows, the counters, the
  aggregator, the template cache, the exporter states and their registry. Each
  method is proved against a function or relation on values, and each class
  carries ghost fields (its run so far, its reference table) that its
  invariant ties to the real fields. The theorems about whole runs are then
  lemmas about those functions.
- Time is a natural number of nanoseconds and a parameter of every operation
  that reads a clock. Addresses are naturals below 2^32 or 2^128. `HashMap`
  iteration order is a nondeterministic choice, so among equally old entries
  any may be evicted.
- Machine widths matter where they are written out: counters saturate at
  2^64 - 1, masks shift within 32 or 128 bits, sequence numbers are below 2^32
  and are compared plainly, as the source does. Where the source adds or
  subtracts without a check, the result wraps, as in a release build.

Results that differ from what a comment or a natural reading promises; the
model follows the code:

- A quota with a limit of zero still admits one request per window, because the
  limit is raised to one. `LimiterRuns.LiteralBoundExactly` states exactly when
  the bound with the configured limit holds.
- The failed-login bound on all rejections holds for a set of sources exactly
  when the limiter's table has a place for each of them, or the quota does not
  space requests at all, because the middleware does not look at the answer of
  `check` (`Auth.FailedLoginBoundExactly`).
- Peeking and counting are apart while a request is in flight. Where every source
  has a place in the table, that bound holds exactly when at most one request of
  a source is in flight at a time, or the quota does not space requests at all
  (`FlightExact.QuotaKeptExactly`). With up to m in flight, the most rejections
  in a stretch of k emission intervals is the burst less one plus m * (k + 1),
  so m - 1 over the burst at one instant (`FlightExact.MostRejected`).
- A rejection is counted with the time its request began, so a sweep can forget a
  source with requests in flight and count it afresh. However requests
  interleave, counting conforms exactly when every source has a place, or the
  table has a single one, or the quota does not space requests at all
  (`FlightSweeps.CountingConformsExactly`); it also does whenever rejections come
  in the order their requests began (`FlightSweeps.CountedInOrder`).
- A comment takes both ends of a flow to be of one family, yet a record with one
  address of each is accepted. Each family's hosts are then brought its total
  twice, plus the flows that cross into the family, minus those that leave it
  (`AggregatorRuns.FamilyConservation`).
- A prefix length configured twice makes each network of that length count
  every flow twice. `AggregatorRuns.NetworkSumsExactlyWhen` states when a
  network's counters are the sum of its hosts' counters, and
  `AggregatorRuns.CountedTwice` gives a run where they are not.
- A prefix length past the width of its family masks like length zero, so all
  hosts share one network of it (`Aggregator.MaskV4`, `Aggregator.MaskV6`).
- `contains` takes an address in its canonical form while the trie and the masks
  take it as it is. They agree on all addresses of a network's family exactly
  when the network is IPv4 or does not cover ::ffff:0:0
  (`Coverage.AgreesExactly`).
- `decode_message` is documented not to trust part of a malformed message, yet
  what came before the error stays in the cache (`Messages.PartOfItStays`).
  `Messages.LeftAsItWas` states when a failed message leaves no trace.

## Model

| member | source | states |
|---|---|---|
| Bits.SamePathSameTop | crates/classifier/src/trie.rs:137-140 | two addresses take the same trie path of a length exactly when their top bits are the same number |
| Bits.TopBitsQuotient | crates/classifier/src/trie.rs:137-140 | within the family's width those top bits are the quotient by 2^(width - length) |
| Bits.MaskQuotient | crates/aggregator/src/aggregator.rs:325-341 | the bitwise mask keeps the quotient and clears the remainder, at every length including zero |
| Bits.CoverageAgrees | crates/collector/src/exporter.rs:136-149 | equal paths, equal masks, equal quotients, and a mask equal to a canonical network, are one and the same condition |
| Bits.MasksCompose | crates/aggregator/src/aggregator.rs:325-341 | masking twice is masking to the shorter length |
| Coverage.PathsMasksQuotients | crates/aggregator/src/aggregator.rs:325-341 | the trie's paths, the aggregator's masks and quotients agree on every address of a network's family |
| Coverage.OneCoverage | crates/collector/src/exporter.rs:117-149 | within its family an allowed network contains exactly the addresses that are in canonical form and share its path, or its mask |
| Coverage.CoverageAcross | crates/collector/src/exporter.rs:130-133 | an IPv4 network contains exactly the mapped forms of the addresses on its path, an IPv6 network no IPv4 address |
| Coverage.MappedLeftOut | crates/collector/src/exporter.rs:130-133 | the network ::/0 shares path and mask with every mapped address and contains none |
| Coverage.AgreesExactly | crates/collector/src/exporter.rs:117-149 | `contains` and the trie's paths agree on a whole family if and only if the network is IPv4 or does not cover ::ffff:0:0 |
| Coverage.MaskTwice | crates/aggregator/src/aggregator.rs:325-341 | masking is idempotent and two masks of an address compose to the shorter of the lengths they work at, in both families and for every length |
| PrefixTable.BestMatchUnique | crates/classifier/src/trie.rs:102-128 | a table of distinct prefixes has one longest match per address |
| PrefixTable.LongestMarkIsBest | crates/classifier/src/trie.rs:105-128 | the longest registered path of an address is what a linear scan for the longest covering prefix finds |
| PrefixTable.ReportsExact | crates/classifier/src/trie.rs:77-99 | any listing, each once, of the registered paths nested with a new prefix gives exactly the overlaps of the table, as a multiset |
| Trie.NestedReports | crates/classifier/src/trie.rs:77-99 | ancestors met on the way down and descendants found below are together exactly the nested prefixes, each once with its own length |
| Trie.PrefixTrie.constructor | crates/classifier/src/trie.rs:54-59 | a new trie has accepted nothing |
| Trie.PrefixTrie.Insert | crates/classifier/src/trie.rs:67-100 | refused exactly when too long or already present, and then no later answer changes; otherwise accepted, with the multiset of overlaps of the table of accepted prefixes |
| Trie.PrefixTrie.InsertPath | crates/classifier/src/trie.rs:77-99 | marks one path, unless it is marked, and reports marked ancestors and marked descendants |
| Trie.PrefixTrie.Walk | crates/classifier/src/trie.rs:77-90 | reaches or creates the node of a prefix and collects the marked paths above it |
| Trie.PrefixTrie.ChildOrNew | crates/classifier/src/trie.rs:77-90 | one step down, creating the missing child in place and changing no mark |
| Trie.PrefixTrie.CollectDescendantLengths | crates/classifier/src/trie.rs:142-153 | appends one report per marked path strictly below a node, each once |
| Trie.PrefixTrie.Lookup | crates/classifier/src/trie.rs:105-128 | the trie answers what a linear scan of the accepted prefixes answers |
| Trie.PrefixTrie.LongestMark | crates/classifier/src/trie.rs:105-128 | the descent ends with the longest marked path of the address |
| Registry.ScanIsLookup | crates/classifier/src/registry.rs:134-152 | the linear scan finds a covering entry of greatest length within the address's family, or none when nothing covers it |
| Registry.PrefixRegistry.constructor | crates/classifier/src/registry.rs:66-72 | a new registry is empty in both families |
| Registry.PrefixRegistry.InsertInFamily | crates/classifier/src/registry.rs:85-131 | the trie of the address's family gains the prefix and the other family's trie is untouched |
| Registry.PrefixRegistry.Register | crates/classifier/src/registry.rs:85-131 | the entry is recorded exactly when its prefix is new, and the tries still hold the recorded entries |
| Registry.PrefixRegistry.Insert | crates/classifier/src/registry.rs:85-131 | an error exactly for a length past the family's width or a prefix already registered, and then nothing changes; otherwise one diagnostic per nested registered prefix |
| Registry.PrefixRegistry.Lookup | crates/classifier/src/registry.rs:134-152 | longest match among the entries of the address's own family, by agreement with the scan |
| Registry.AddEntry | crates/classifier/src/registry.rs:193-222 | one turn of the build loop registers the entry with its warnings or reports it |
| Registry.AddAll | crates/classifier/src/registry.rs:193-222 | the loop registers exactly the valid entries and reports exactly the invalid ones, in order |
| Registry.BuildRegistry | crates/classifier/src/registry.rs:193-222 | succeeds exactly when no entry is too long or repeats an earlier one; then every entry is registered, in new objects, and there is one warning per unordered nested pair |
| Registry.NoErrorsMeansClean | crates/classifier/src/registry.rs:193-222 | no error is reported exactly when no entry is invalid, and then all entries are accepted in order |
| Registry.WarningsCountPairs | crates/classifier/src/registry.rs:193-222 | the warnings of a configuration number its strictly nested same-family pairs |
| Registry.ClassifyFlow | crates/classifier/src/direction.rs:43-110 | two lookups and the match give the classification by the registered entries, whose fields `Registry.EndsMeaning` reads off those entries |
| Registry.DirectionMeaning | crates/classifier/src/direction.rs:43-110 | Unknown exactly without prefixes; Incoming, Outgoing, Internal and Other exactly by which ends some prefix covers |
| Registry.LookupFinds | crates/classifier/src/registry.rs:134-152 | in a valid configuration a lookup finds the tenant, the hostgroup and the length of the longest entry that covers the address, and nothing exactly when none does |
| Registry.EndsMeaning | crates/classifier/src/direction.rs:100-108 | each end of a flow is local, with tenant and hostgroup, by the longest entry that covers it; without one it is not local and has neither; without entries nothing is said |
| Registry.ClassifySwapped | crates/classifier/src/direction.rs:43-110 | swapping the ends of a flow swaps incoming with outgoing and every matched field |
| Registry.CleanPermuted | crates/classifier/src/registry.rs:193-222 | a permutation of a valid configuration is valid |
| Registry.OrderIndependence | crates/classifier/src/registry.rs:193-222 | every order of a valid configuration answers every lookup and classification the same |
| Calendar.CivilRoundTrip | crates/common/src/rfc3339.rs:79-106 | every integer day number is a real date of the calendar, and its number is recovered |
| Calendar.DaysRoundTrip | crates/common/src/rfc3339.rs:79-106 | on real dates the day number determines the date |
| Calendar.NextIsOneDayLater | crates/common/src/rfc3339.rs:68-88 | the successor of a real date, by month lengths and leap years, is a real date numbered one higher |
| Calendar.ConsecutiveDays | crates/common/src/rfc3339.rs:90-106 | consecutive day numbers are consecutive dates |
| Calendar.Epoch | crates/common/src/rfc3339.rs:90-106 | day zero is 1970-01-01, which with the above fixes every date |
| Rfc3339.ParseComplete | crates/common/src/rfc3339.rs:26-66 | every well-formed text in range is accepted with the instant its fields denote |
| Rfc3339.ParseSound | crates/common/src/rfc3339.rs:26-66 | every accepted text is well formed and in range, with that instant as its value |
| Rfc3339.PrintThenParse | crates/common/src/rfc3339.rs:10-66 | a printed instant parses back to itself for years 0 to 9999 and is refused otherwise; `Rfc3339.PrintedExactly` says which text is printed |
| Rfc3339.ParseThenPrint | crates/common/src/rfc3339.rs:10-66 | any accepted text re-renders to a text accepted with the same instant |
| Rfc3339.PrintsCanonical | crates/common/src/rfc3339.rs:5-22 | for years 0 to 9999 what is printed is a well-formed text of the instant, with a `Z`, no fraction on whole seconds and exactly six digits otherwise |
| Rfc3339.PrintsParts | crates/common/src/rfc3339.rs:10-22 | in every year, negative and beyond 9999 included, what is printed spells the year with its sign in at least four characters and each other part of the instant in its own width |
| Rfc3339.CanonicalUnique | crates/common/src/rfc3339.rs:5-22 | an instant has only one such text |
| Rfc3339.PrintedExactly | crates/common/src/rfc3339.rs:5-22 | an accepted text is what the printer writes for its instant if and only if it is that one |
| Rfc3339.Positions | crates/common/src/rfc3339.rs:16-24 | which characters of a text are its year, month, day, hour, minute, second, fraction and suffix |
| RateLimiter.RetryAfterSecs | apps/api/src/rate_limit.rs:70-78 | the least whole number of seconds, at least one, that covers the wait |
| RateLimiter.RateLimiter.constructor | apps/api/src/rate_limit.rs:89-95 | an empty table with room for at least one key |
| RateLimiter.RateLimiter.Check | apps/api/src/rate_limit.rs:102-120 | the answer and the new table, sweep included, as functions of the old table, kept as a run of calls |
| RateLimiter.RateLimiter.Peek | apps/api/src/rate_limit.rs:125-135 | the answer without a change of state |
| LimiterRuns.SaturatedExactly | apps/api/src/rate_limit.rs:106-111 | refused for a full table exactly when the key is new and every one of max_keys entries is later than now |
| LimiterRuns.TableBounded | apps/api/src/rate_limit.rs:102-120 | in every run the table holds at most max_keys keys |
| LimiterRuns.BoundedRefinesUnbounded | apps/api/src/rate_limit.rs:102-120 | with times in order, every answer other than Saturated is that of a limiter that never sweeps and never saw the saturated requests |
| LimiterRuns.ArrivalTimeStep | apps/api/src/rate_limit.rs:112-120 | one call moves no key's arrival time back, and an allowed one moves its own forward by an interval from within the tolerance |
| LimiterRuns.ArrivalTimeGrows | apps/api/src/rate_limit.rs:102-120 | over a run, n allowed requests since s push the arrival time n intervals past s |
| LimiterRuns.Conformance | apps/api/src/rate_limit.rs:50-56 | in every run, any interleaving of keys and every interval, (allowed - burst) * interval is at most the time elapsed |
| LimiterRuns.LiteralBoundExactly | apps/api/src/rate_limit.rs:50-56 | the same bound with the configured limit holds for all runs if and only if the limit is at least one or the window is empty |
| LimiterRuns.LimitPerWindow | apps/api/src/rate_limit.rs:50-56 | a fresh key is allowed its limit at one instant, and the whole limit again one window later |
| LimiterRuns.RatePerWindow | apps/api/src/rate_limit.rs:50-56 | in every run and every interval, what is allowed beyond the limit is at most the limit per window elapsed, up to the rounding of the interval to whole nanoseconds |
| LimiterRuns.FreshBurst | apps/api/src/rate_limit.rs:50-56 | a fresh key can spend exactly its burst at one instant, and each further request is told to wait one interval |
| LimiterRuns.RetryAdviceExact | apps/api/src/rate_limit.rs:112-117 | a refusal changes nothing, its wait is positive, and with no request in between the key is allowed after d exactly when d is at least the wait |
| LimiterRuns.RetryAdviceShort | apps/api/src/rate_limit.rs:112-117 | in a run with times in order the wait is at most one interval |
| LimiterRuns.RetryAdviceAmidOthers | apps/api/src/rate_limit.rs:102-120 | the advice stands whatever other keys do meanwhile |
| LimiterRuns.PeekAgrees | apps/api/src/rate_limit.rs:122-135 | peek refuses exactly when check would answer RetryAfter, with the same wait |
| Auth.RequirePrincipal | apps/api/src/auth.rs:284-367 | limited exactly when the limiter says so, and then nothing else is looked at; otherwise the response is decided by the outcome, and only an authenticated one proceeds; only a rejected one reaches the limiter |
| Auth.RejectedSplit | apps/api/src/auth.rs:325-366 | every rejected authentication is counted by the limiter or met a table full of other live sources |
| Auth.FailedLoginBound | apps/api/src/auth.rs:296-301 | rejected authentications of a source in any interval, apart from those that met a full table, stay within burst plus elapsed over interval |
| Auth.EveryoneCounted | apps/api/src/auth.rs:325-366 | with no more sources than places in the table every rejection is counted |
| Auth.UncountedWithoutSlot | apps/api/src/auth.rs:361-365 | without a place in the table the bound fails: for every size of the table and every n, a run in which n rejections at one instant all go through |
| Auth.FailedLoginBoundExactly | apps/api/src/auth.rs:296-366 | all rejections of every source stay within the quota in every ordered run of a set of sources if and only if the table has a place for each of them or the interval is zero |
| Flights.BeginRequest | apps/api/src/auth.rs:296-301 | the first half of a request only asks the limiter |
| Flights.EndRequest | apps/api/src/auth.rs:325-366 | the second half counts a rejection at the time the request began, and nothing else |
| Flights.PeekInTime | apps/api/src/auth.rs:296-301 | a request may begin exactly when its source's arrival time is within the tolerance of its time |
| Flights.EntryStep | apps/api/src/auth.rs:361-365 | with a place for every source, a rejection is counted exactly when it is in time, and only a counted rejection moves the source's arrival time |
| Flights.CountedWithin | apps/api/src/auth.rs:296-366 | with a place for every source and however requests interleave, what the limiter counts of a source in any stretch of turns stays within the quota for the times at which those requests began |
| FlightBounds.OverdueFew | apps/api/src/auth.rs:296-366 | requests in flight that are past being counted are at most the others beside one of those in flight |
| FlightBounds.RejectedPerCounted | apps/api/src/auth.rs:296-366 | in any stretch each rejection is counted, or was left overdue by a count that took the arrival time past the tolerance, at most the others in flight after each |
| FlightBounds.CrowdingFew | apps/api/src/auth.rs:296-366 | a stretch of k intervals has at most k + 1 such counts, the one before it included |
| FlightBounds.InFlightBound | apps/api/src/auth.rs:296-366 | in any stretch of any run with at most m requests of a source in flight, its rejections begun within k intervals stay within the quota and (m - 1) * (k + 1) more |
| FlightBounds.InFlightRate | apps/api/src/auth.rs:296-366 | the same without counting intervals: m times the rate, past the burst and 2 * (m - 1); for m at most one it is the bound for requests handled one at a time |
| FlightExact.InFlightReached | apps/api/src/auth.rs:296-366 | for every burst, m and k, a run with a steady clock and at most m in flight rejects burst - 1 + m * (k + 1) requests begun within k intervals |
| FlightExact.MostRejected | apps/api/src/auth.rs:296-366 | no run of a set of sources rejects more than r in a stretch of k intervals if and only if r is at least that number, whether or not the clock may step back |
| FlightExact.QuotaKeptExactly | apps/api/src/auth.rs:296-366 | the bound for requests handled one at a time holds in every stretch of every run with at most m in flight if and only if m is at most one or the interval is zero |
| FlightSweeps.TableIsRun | apps/api/src/auth.rs:361-365 | whatever the interleaving and the size of the table, the limiter's table is that of its calls in the order the rejections came |
| FlightSweeps.CountedInOrder | apps/api/src/auth.rs:296-366 | for every size of the table, counting stays within the quota when rejections come in the order their requests began |
| FlightSweeps.CountedInOnePlace | apps/api/src/auth.rs:296-366 | with a single place counting stays within the quota in whatever order times come, for any number of sources |
| FlightSweeps.SweptAndForgotten | apps/api/src/auth.rs:296-366 | with more sources than places and at least two places, a run with a steady clock counts one more than the burst of a source at one instant |
| FlightSweeps.CountingConformsExactly | apps/api/src/auth.rs:296-366 | counting stays within the quota in every run of a set of sources if and only if each has a place, or there is a single place, or the interval is zero |
| BoundedMap.BoundedMap.constructor | crates/aggregator/src/bounded_map.rs:56-61 | an empty map, the run of no operations |
| BoundedMap.BoundedMap.LeastRecentlyUpdatedKey | crates/aggregator/src/bounded_map.rs:127-132 | none exactly when empty, otherwise an entry updated no later than any other |
| BoundedMap.BoundedMap.Upsert | crates/aggregator/src/bounded_map.rs:82-125 | one more upsert of the run, with the outcome decided by presence and capacity |
| BoundedMap.BoundedMap.ExpireInactive | crates/aggregator/src/bounded_map.rs:134-143 | one more sweep of the run: what was updated within the time to live stays, and the result is how many entries went |
| Recency.CapacityKept | crates/aggregator/src/bounded_map.rs:82-125 | no run exceeds the capacity |
| Recency.RemembersLast | crates/aggregator/src/bounded_map.rs:82-125 | an entry remembers the time of its key's last upsert |
| Recency.OutcomeMeaning | crates/aggregator/src/bounded_map.rs:82-125 | an upsert is rejected exactly when its key is absent afterwards, evicts exactly when another entry is gone, and otherwise inserts or updates by whether the key was there |
| Recency.HeldOnlyIf | crates/aggregator/src/bounded_map.rs:82-143 | with upsert times in order, ties allowed, a held key has fewer than max_entries distinct other keys upserted at a later time, and every sweep since came within the time to live of its last upsert |
| Recency.HeldIf | crates/aggregator/src/bounded_map.rs:82-143 | with upsert times in order, a key with fewer than max_entries distinct other keys upserted at its time or later is held if every sweep since came within the time to live of its last upsert |
| Recency.RecencyCharacterisation | crates/aggregator/src/bounded_map.rs:82-143 | with strictly increasing upsert times and any sweeps, a key is held exactly when fewer than max_entries distinct other keys were upserted since its last upsert and no sweep since found it inactive |
| Recency.ValueIsFold | crates/aggregator/src/bounded_map.rs:82-125 | a held value is the fold of its key's updates since the key was last admitted |
| RateWindow.Window.constructor | crates/aggregator/src/rate_window.rs:62-71 | an empty window that starts now and has finalized nothing |
| RateWindow.Window.RollIfElapsed | crates/aggregator/src/rate_window.rs:80-94 | the roll loop ends in the state given by the quotient of the time elapsed |
| RateWindow.Window.Record | crates/aggregator/src/rate_window.rs:73-78 | rolls, then adds one flow with saturation |
| RateWindow.RateWindowSet.constructor | crates/aggregator/src/rate_window.rs:103-110 | five new windows of the documented durations |
| RateWindow.RateWindowSet.Record | crates/aggregator/src/rate_window.rs:112-116 | every window has seen one more arrival |
| RateWindow.RateWindowSet.Tick | crates/aggregator/src/rate_window.rs:122-126 | every window has seen one more tick |
| RateWindow.RateWindowSet.Rates | crates/aggregator/src/rate_window.rs:130-135 | the last finalized sample of each window after the run so far |
| WindowRuns.TumblingWindow | crates/aggregator/src/rate_window.rs:73-94 | after any run the window starts a whole number of durations after its creation, contains now, holds the saturated sums of the arrivals since, and reports exactly the arrivals of the window before |
| WindowRuns.TicksInvisible | crates/aggregator/src/rate_window.rs:118-126 | runs with the same arrivals report the same after a later tick, whatever ticks came before |
| WindowRuns.SampleIsTotal | crates/aggregator/src/rate_window.rs:80-94 | a finalized sample is exactly the arrivals of its window |
| WindowRuns.WindowsNest | crates/aggregator/src/rate_window.rs:33-39 | a sample of a window n times as long is the saturated sum of the n shorter samples inside it |
| WindowRuns.DurationsNest | crates/aggregator/src/rate_window.rs:33-39 | this holds between each duration and the next shorter one |
| Counters.CounterCell.AddProtocol | crates/aggregator/src/counters.rs:38-54 | the branch on the protocol bumps exactly the counters of that protocol |
| Counters.CounterCell.AddFlow | crates/aggregator/src/counters.rs:33-63 | the in-place update takes the twelve counters to the next value of `Add` |
| Counters.AddCounts | crates/aggregator/src/counters.rs:33-63 | each counter grows by what the flow is worth to it, capped at 2^64 - 1 |
| Counters.SynBit | crates/common/src/flow.rs:192-196 | a flow counts as SYN exactly when it is TCP and bit 0x02 of its flags is set |
| Counters.CountersAreCappedSums | crates/aggregator/src/counters.rs:33-63 | over any flows each counter is the exact sum below 2^64, and 2^64 - 1 from there on |
| Counters.OrderNeverMatters | crates/aggregator/src/counters.rs:33-63 | any order of the same flows gives the same counters, saturated or not |
| Counters.CountersNested | crates/aggregator/src/counters.rs:33-63 | over any flows SYN packets are at most TCP packets, at most packets, and TCP bytes at most bytes, saturated or not |
| TrafficRuns.Conservation | crates/aggregator/src/aggregator.rs:310-323 | in any run of one dimension, while unsaturated, live plus evicted, expired and rejected equals what was brought, counter by counter |
| TrafficRuns.EntryIsOwnFlows | crates/aggregator/src/aggregator.rs:310-323 | an entry's counters are those of its key's own flows since it was last admitted |
| TrafficRuns.EntryIsBrought | crates/aggregator/src/aggregator.rs:310-323 | while nothing was lost and nothing has expired an entry counts exactly what its key was brought, and there is one exactly for each key brought a flow |
| TrafficRuns.RollUp | crates/aggregator/src/aggregator.rs:193-235 | for any two dimensions of which one hears every flow of the other under a parent key, a fixed number of times: live children have live parents, parents count at least that multiple of their live children, exactly so until something expires |
| TrafficRuns.RestrictedRun | crates/aggregator/src/aggregator.rs:193-217 | without losses the entries of some of the keys evolve as a map of their own |
| Aggregator.MaskV4 | crates/aggregator/src/aggregator.rs:325-332 | at every length the mask is the bitwise one, the special case for zero included; a length past the width wraps and masks like zero |
| Aggregator.MaskV6 | crates/aggregator/src/aggregator.rs:334-341 | the same for IPv6 |
| Aggregator.TallyIsNoLoss | crates/aggregator/src/aggregator.rs:310-323 | the evictions and rejections counted over a run are none exactly when every upsert found its key or room |
| Aggregator.TallyCounts | crates/aggregator/src/aggregator.rs:310-323 | in every run the evictions counted are the upserts after which an entry is gone and the rejections those that leave their own key out; only a map without capacity rejects, and only one with capacity evicts |
| Aggregator.LostAddsUp | crates/aggregator/src/aggregator.rs:310-323 | over the dimensions evictions add up to evictions and rejections to rejections |
| Aggregator.UpsertTraffic | crates/aggregator/src/aggregator.rs:310-323 | an upsert in one dimension extends its run, with the outcome decided by what the map held, and the run's tally counts that eviction or rejection |
| Aggregator.SweepTraffic | crates/aggregator/src/aggregator.rs:222-235 | a sweep of one dimension extends its run, counts what it removed and loses nothing to capacity |
| Aggregator.Aggregator.constructor | crates/aggregator/src/aggregator.rs:91-136 | eleven empty maps with the configured capacities, zero totals and rate windows, all of them new objects |
| Aggregator.Aggregator.TrackKey | crates/aggregator/src/aggregator.rs:310-323 | one step of one dimension's run, all others untouched, and the report grows by exactly the evictions and rejections that step caused |
| Aggregator.Aggregator.TrackOptional | crates/aggregator/src/aggregator.rs:162-170 | a dimension whose key is absent is not touched |
| Aggregator.Aggregator.TrackNetworks | crates/aggregator/src/aggregator.rs:204-215 | one step per configured length, in order |
| Aggregator.Aggregator.TrackAddress | crates/aggregator/src/aggregator.rs:193-217 | the host, the /24 of an IPv4 address, then its networks |
| Aggregator.Aggregator.TrackFlow | crates/aggregator/src/aggregator.rs:160-190 | a flow reaches the dimensions in the source's order, and the report is the evictions and the rejections of all of them |
| Aggregator.Aggregator.CountFlow | crates/aggregator/src/aggregator.rs:149-157 | every flow counts, in place, in the total and in the total of its source's family |
| Aggregator.Aggregator.RecordRates | crates/aggregator/src/aggregator.rs:158-158 | the rate windows see one arrival per flow |
| Aggregator.Aggregator.Ingest | crates/aggregator/src/aggregator.rs:141-191 | the whole state stays that of the run of events, extended by this one; the report is exactly the evictions and rejections that happened |
| Aggregator.Aggregator.SweepMaps | crates/aggregator/src/aggregator.rs:222-235 | every dimension is swept once, and the number returned is the entries removed in all of them |
| Aggregator.Aggregator.ExpireInactive | crates/aggregator/src/aggregator.rs:222-235 | the state of the run extended by a sweep: windows rolled, totals kept, entries removed and counted |
| AggregatorRuns.EveryDimensionRuns | crates/aggregator/src/aggregator.rs:70-89 | each map of an aggregator is the run of what its events ask of that dimension; its tally counts the evictions and the rejections of that run and is empty exactly without losses, and so for all of them when the reports add up to nothing |
| AggregatorRuns.EntriesByRecency | crates/aggregator/src/aggregator.rs:141-235 | for events in order, which keys any dimension holds, with the ties of flows that touch two keys at once |
| AggregatorRuns.EntriesNested | crates/aggregator/src/counters.rs:33-63 | in every entry of every dimension at any point of any run SYN packets are at most TCP packets, at most packets |
| AggregatorRuns.HostsSeeBothSides | crates/aggregator/src/aggregator.rs:171-173 | the host dimensions hear both ends of every flow, by family, and every sweep |
| AggregatorRuns.FamilyConservation | crates/aggregator/src/aggregator.rs:141-191 | unsaturated, what a family's live hosts hold plus what its hosts lost is twice the family's total, plus the flows from the other family into it, minus those out of it, counter by counter |
| AggregatorRuns.TwoSidedConservation | crates/aggregator/src/aggregator.rs:141-191 | unsaturated, what live hosts of both families hold plus what hosts lost to eviction, expiry or rejection is twice what flowed in, counter by counter |
| AggregatorRuns.FamiliesAddUp | crates/aggregator/src/aggregator.rs:149-157 | every total is the capped sum of the IPv4 and IPv6 totals and the capped sum of all flows |
| AggregatorRuns.Slash24Follows | crates/aggregator/src/aggregator.rs:193-203 | the /24 dimension hears what the IPv4 hosts hear, under the masked key, once |
| AggregatorRuns.Slash24RollsUp | crates/aggregator/src/aggregator.rs:193-235 | without losses each live IPv4 host's /24 is live and counts at least the sum of its live hosts, exactly so while nothing has expired |
| AggregatorRuns.NetworksFollow | crates/aggregator/src/aggregator.rs:204-215 | the networks of a length hear what the hosts of their family hear, once per occurrence of the length in the configuration |
| AggregatorRuns.NetworksRollUp | crates/aggregator/src/aggregator.rs:193-235 | the roll-up of hosts into every configured network of either family, with that multiplicity |
| AggregatorRuns.NetworkSumsExactlyWhen | crates/aggregator/src/aggregator.rs:204-215 | while nothing has expired a network counts exactly its live hosts if and only if its length is configured once, or their sum is zero or saturated |
| AggregatorRuns.CountedTwice | crates/aggregator/src/aggregator.rs:204-215 | a length configured twice and one flow between any two IPv4 hosts: a run without loss or expiry in which the source's network counts its hosts twice, the source alone when the flow leaves the network |
| Dimensions.CountsItsFlows | crates/aggregator/src/aggregator.rs:160-217 | while nothing was lost and nothing has expired, an entry of any of the eleven dimensions counts exactly the flows whose own fields name its key, as often as they name it, and a key has an entry exactly when some flow names it |
| Dimensions.AsnsInOrder | crates/aggregator/src/aggregator.rs:176-181 | a flow reaches the AS of its source before that of its destination, each if known |
| Dimensions.HostgroupsInOrder | crates/aggregator/src/aggregator.rs:183-188 | a flow reaches the hostgroup of its source before that of its destination, each if any |
| Dimensions.EvictsWhenFull | crates/aggregator/src/aggregator.rs:91-136 | no dimension exceeds its configured capacity, and one pushes an entry out exactly when a new key finds it full |
| Dimensions.SweepKeepsTheActive | crates/aggregator/src/aggregator.rs:222-235 | a sweep of a dimension keeps exactly the entries touched within the configured time to live, unchanged |
| Dimensions.SampleIsCounters | crates/aggregator/src/aggregator.rs:158-158 | a finalized sample of a rate window is what counting the flows that arrived in it from zero gives |
| Allowlist.ToCanonical | crates/collector/src/exporter.rs:122-122 | only IPv4-mapped addresses change, into the address they map |
| Allowlist.MaskedIsMultiple | crates/collector/src/exporter.rs:136-149 | an address is its own mask exactly when no bit below the length is set |
| Allowlist.NewNetwork | crates/collector/src/exporter.rs:118-128 | accepted exactly when the canonical address has a length of its family and no bit below it |
| Allowlist.Contains | crates/collector/src/exporter.rs:130-133 | exactly the addresses of the family that share the network's quotient |
| Allowlist.MappedAlike | crates/collector/src/exporter.rs:130-133 | an IPv4-mapped sender is judged like the same sender over IPv4 |
| Templates.TemplateCache.constructor | crates/protocol-ipfix/src/template_cache.rs:58-60 | an empty cache |
| Templates.TemplateCache.Insert | crates/protocol-ipfix/src/template_cache.rs:75-89 | accepted exactly when the cache with the template keeps both limits; the running field count stays the sum over all templates |
| Templates.TemplateCache.Remove | crates/protocol-ipfix/src/template_cache.rs:92-96 | forgets one template and gives its fields back |
| Templates.TemplateCache.Clear | crates/protocol-ipfix/src/template_cache.rs:124-128 | forgets every template and the sampling parameters |
| Templates.LastFieldDecides | crates/protocol-ipfix/src/template_cache.rs:136-152 | the last readable interval and the last readable algorithm of a record decide, cut to 32 and 8 bits; without one the parameter stays |
| Templates.BigEndianDigits | crates/protocol-ipfix/src/record.rs:27-34 | the integer of a field has its bytes as digits to base 256, most significant first, and no others |
| Templates.NoMinimumExactly | crates/protocol-ipfix/src/template.rs:112-123 | a record has minimum length zero exactly when all its fields have length zero |
| Templates.TemplateCache.ObserveOptionsData | crates/protocol-ipfix/src/template_cache.rs:136-152 | the loop over a record's fields leaves the sampling parameters its fields decide |
| Templates.TemplateCache.ApplyRecord | crates/protocol-ipfix/src/decoder.rs:129-168 | a record without fields withdraws, one of zero length or past the limits stops the message, any other is cached |
| Templates.TemplateCache.ApplyData | crates/protocol-ipfix/src/decoder.rs:104-120 | data under an unknown template or a reserved ID changes nothing; options data under a known one updates the sampling parameters |
| Templates.TemplateCache.DecodeMessage | crates/protocol-ipfix/src/decoder.rs:62-127 | the loop leaves the cache as edited up to the first error, and says whether it met one |
| Templates.DecodedBounded | crates/protocol-ipfix/src/template_cache.rs:62-89 | no message takes a cache past 512 templates or 8,192 fields |
| Templates.DecodedLearns | crates/protocol-ipfix/src/decoder.rs:129-168 | every template after a message was cached before it or is defined in it, with fields and a nonzero record length |
| Messages.DecodedIsEffective | crates/protocol-ipfix/src/decoder.rs:62-168 | a message succeeds exactly when none of its items is an error, and then each template ID stands for what the last record naming it says |
| Messages.FailedMessage | crates/protocol-ipfix/src/decoder.rs:62-168 | a message fails exactly when it has a first error, and leaves what was in effect before it |
| Messages.SamplingAppend | crates/protocol-ipfix/src/template_cache.rs:136-152 | the last readable interval and the last readable algorithm since the last withdrawal of all templates are what folding each record's fields gives |
| Messages.LeftAsItWas | crates/protocol-ipfix/src/decoder.rs:54-58 | a failed message leaves the cache as it was if and only if, before its first error, the last word on every template ID is what the cache had, and the last readable interval and algorithm since the last withdrawal of all templates leave the sampling parameters as they were |
| Messages.PartOfItStays | crates/protocol-ipfix/src/decoder.rs:54-58 | a definition followed by an error: the message fails and the template stays |
| Exporters.ExporterState.constructor | crates/collector/src/exporter.rs:30-39 | no templates, no sequence number, seen now |
| Exporters.ExporterState.ObserveSequence | crates/collector/src/exporter.rs:56-71 | reports a restart, and empties the cache, exactly when the number went back |
| Exporters.ExporterRegistry.constructor | crates/collector/src/exporter.rs:171-176 | tracks nothing |
| Exporters.ExporterRegistry.GetOrCreate | crates/collector/src/exporter.rs:183-193 | a state exactly when the key is tracked or there is room; only a new key changes the table |
| Exporters.HearMessage | crates/collector/src/lib.rs:522-527 | the sequence number is observed before the message is decoded, so a restart empties the cache the message is decoded with |
| Exporters.ExporterRegistry.Hear | crates/collector/src/lib.rs:522-527 | an admitted datagram changes the state of its own key and no other |
| Exporters.ExporterRegistry.Decide | crates/collector/src/lib.rs:491-521 | the verdict in the order allowlist, header, limit, and the table after it |
| Exporters.ExporterRegistry.ProcessDatagram | crates/collector/src/lib.rs:483-527 | the registry is that of the run extended by this datagram |
| Exporters.ExporterRegistry.EvictIdle | crates/collector/src/exporter.rs:195-203 | keeps exactly the exporters silent for at most the timeout, and counts the others |
| ExporterRuns.RefusedChangesNothing | crates/collector/src/lib.rs:491-521 | a datagram refused for any reason leaves the table of any run as it was |
| ExporterRuns.CountBounded | crates/collector/src/exporter.rs:183-193 | in every run at most max_exporters are tracked |
| ExporterRuns.TrackedPermitted | crates/collector/src/lib.rs:491-500 | in every run each tracked source is permitted |
| ExporterRuns.TrackedNeverRefused | crates/collector/src/lib.rs:491-521 | in every run a datagram with a header from a tracked key is accepted |
| ExporterRuns.NotAllowedExactly | crates/collector/src/exporter.rs:178-181 | in every run a datagram is not allowed exactly when there is a list and no network of it is of the canonical sender's family and shares its quotient |
| ExporterRuns.VerdictExactly | crates/collector/src/lib.rs:491-527 | in every run a permitted datagram is bad exactly without a header, turned away exactly when its key is new and as many are tracked as may be, and a restart exactly when its number is below that of the key's last one |
| ExporterRuns.SameExporter | crates/collector/src/exporter.rs:77-77 | datagrams share a state exactly when they agree in address, port and observation domain |
| ExporterRuns.StateIsOwnLife | crates/collector/src/exporter.rs:56-71 | in every run a key's state is the replay of its own accepted datagrams since its admission, and it is tracked exactly when there are any |
| ExporterRuns.LifeShows | crates/collector/src/exporter.rs:30-71 | a tracked exporter was first seen at its admission and last seen at its last accepted datagram, whose number it holds, and has counted them modulo 2^64 |
| ExporterRuns.SweepForgetsTheSilent | crates/collector/src/exporter.rs:195-203 | a sweep keeps exactly the keys whose last accepted datagram is no more than the timeout before it |
| ExporterRuns.CacheSinceRestart | crates/collector/src/exporter.rs:56-71 | replaying reports leaves the cache that the reports since the last sequence regression alone would leave |
| ExporterRuns.LearnedSinceRestart | crates/collector/src/exporter.rs:56-71 | in every run a cache is what its key's datagrams since admission or the last regression taught it, and each template in it was defined in one of those |
| ExporterRuns.CachesBounded | crates/protocol-ipfix/src/template_cache.rs:62-89 | in every run every cache keeps both limits |
| ExporterRuns.OthersNeverMatter | crates/collector/src/exporter.rs:183-203 | a key never turned away by the limit is tracked, and in the same state, as if the other exporters had sent nothing |

## Left out

- HTTP routing, TLS, sockets, signals, shutdown, metrics, logging and configuration parsing: plumbing without state of interest here.
- PostgreSQL and ClickHouse access: the behaviour is in the databases.
- Incident and mitigation lifecycles, the guard and the detection engine: not part of this model.
- IPFIX bytes: a datagram is its parsed header, or none, and the list of records and sets the decoder meets.
- Templates.TemplateCache.ApplyData: how data records are cut out of a set under a template is a parameter; what their fields make of the sampling parameters is modelled.
- Tokens, sessions, CSRF and hashing: an authentication outcome is a parameter of `Auth.RequirePrincipal`, and the CSRF refusal, which leaves the limiter alone, counts as a success there.
- Floating-point rates: the exact counts they are computed from are modelled instead.
- Message texts, `reason` strings and error payloads beyond their kind and lengths.
- Sampling correction and the building of normalized flows: their results are inputs.
- 64-bit overflow in the calendar formulas: day numbers and years are unbounded integers.
- Lock poisoning and threads: each limiter call is one step, and requests interleave between calls.
- Clocks that run backwards within a run: the theorems on rate windows, roll-up, refinement and conformance take times in order; the exact recency characterisation takes strictly increasing upsert times, since ties are broken by hash order, and its two halves take times in order.
- Overflow checks of a debug build, which would stop the program where a release build wraps.
- Counters.AddCounts: the slots of the maps hold counters as values, because the source's type is copied into and owned by its slot; the totals are updated in place.
- Trie.PrefixTrie.Insert: leaves the order of the reported overlaps open, since the source promises a set of them.
- Registry.PrefixRegistry.Insert: leaves the order of the diagnostics open, for the same reason.
- Registry.AddEntry: leaves the order of the warnings of one entry open, for the same reason.
- Registry.AddAll: leaves the order of the warnings open, for the same reason.
- Registry.BuildRegistry: leaves the order of the warnings open, for the same reason.
- Auth.FailedLoginBound: sets aside the rejections that met a full table; `Auth.FailedLoginBoundExactly` says when there are none.
- Aggregator.Aggregator.constructor: the eleven maps are one indexed sequence with one key type, so a key of the wrong kind is not excluded by types.
- BoundedMap.BoundedMap.Upsert: the source's branch for a full map without any entry is omitted, being unreachable.
- Exporters.ExporterRegistry.ProcessDatagram: takes the time at which a state is created and the time at which it first observes a sequence number as one instant.
- Aggregator.Aggregator.Ingest: does not model the 32-bit width of the two numbers in the report.
