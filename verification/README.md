# A verified model of the mini-sb-agent traffic, user and start-up logic

This project models, in Dafny, the state machines behind a proxy-node agent (`mini-sb-agent`), its
panel protocol, the small control panel that books its traffic, and the parts of the bundled
sing-box fork they rest on. Every file is one module; `dafny verify dfyconfig.toml` checks all of
them.

| area | files | main results |
|---|---|---|
| Token-bucket limiter shared by blocking TCP and dropping UDP callers | `RateLimiter.dfy`, `RateWindow.dfy`, `RateGrid.dfy`, `RateLedger.dfy`, `LimitedConn.dfy` | `WindowBound`, `FirstInFirstOut`, `TruncatedBoundIff`, `LedgerBound`, `WaitChargesExactly`, `Write` |
| Exactly-once traffic billing | `Traffic.dfy`, `Billing.dfy`, `Sharing.dfy`, `Sync.dfy` | `ExactlyOnce`, `ExactlyOnceIff`, `FinalFlushSettles`, `PayloadExactIff`, `Flush` |
| Idempotent traffic store | `Store.dfy` | `ReplayAgrees`, `AcknowledgedOnce`, `DeliveryIsAtomic`, `AnswerMeans` |
| Hot user synchronisation | `Users.dfy`, `Sessions.dfy`, `Inbounds.dfy`, `UserManager.dfy`, `TopologySync.dfy` | `DeltaExactIff`, `DeltaRunRefinesReplacement`, `ConvergesIff`, `RemovedClosedIff`, `LimitsCloseNothing`, `ApplyBoxByInbound`, `FetchUsers` |
| Dependency-ordered start-up | `Startup.dfy` | `StartAll`, `StartsIffAcyclic`, `Lint`, `BlamesPresentIff` |
| Racing dials | `Racing.dfy`, `NetworkRace.dfy` | `RaceIsSafe`, `FallbacksComeLater`, `MaximalRunReturns`, `NetworkIsSafe` |
| Translations and codecs | `Topology.dfy`, `RouteConfig.dfy`, `Chunked.dfy`, `Handshake.dfy` | `NodeRouted`, `AcceptedIsFramed`, `RoundTrip`, `AcceptedIff`, `UnknownIgnored` |

Conventions:

- Tokens and seconds are exact reals; clock readings, network answers, the order in which a Go map
  is ranged over and the moments at which other goroutines get a mutex are parameters or
  nondeterministic choices, so each statement is for all of them.
- Objects whose fields the agent updates in place are classes, loops are methods with invariants,
  and each such method is proved against a specification function or property. The two concurrent
  protocols (billing, racing dials) are state machines whose steps are the atomic sections of the code.
- Counters and byte totals are unbounded integers; they are assumed not to overflow 64 bits.

## What turned out not to hold as one might expect

Each of these is shown by a concrete input or family of inputs, with the exact condition under
which the expected law does hold.

- Waits are truncated to whole nanoseconds, so the window bound can be exceeded
  (`TruncationOvershoots`). On a clock of whole nanoseconds it holds as it stands, for all runs of a
  new limiter, if and only if the rate divides a second's nanoseconds (`TruncatedBoundIff`); at any
  rate it holds with one nanosecond added to the window (`SleptWindowBound`).
- A push numbers users with `strconv.Atoi` and assigns rather than adds, so `7` and `007` overwrite
  each other (`AliasLosesBytes`) and a number beyond 64 bits is dropped (`HugeNumberLost`), though all
  are acknowledged. A push is exact if and only if the users are pairwise different numbers that
  fit (`PayloadExactIff`); ids as the agent itself writes them always are (`CanonicalUsersNeverAlias`).
- Clients without an inbound tag are matched by protocol type, and one without a type matches every
  tag (`UntypedShares`), so a byte can be billed twice (`SharedTwice`). Every byte is billed once in all,
  over all runs, if and only if no billable traffic is matched by two clients (`ExactlyOnceIff`); node
  clients with their own tags never share (`NodesUnshared`), nor do a VLESS and a Hysteria 2 client
  (`ProtocolsUnshared`).
- A user delta differs from replacing the list when a removed user shares a credential with a kept
  one and nobody adds it back (`SharedCredentialLost`), and only then (`DeltaExactIff`).
- Deleting a user is meant to close the user's sessions, but a VLESS connection is stored in the
  session table before it is authenticated, under the empty name, and a Hysteria 2 packet session is
  not stored at all, so these stay open (`SessionOutlivesUser`). Over all runs an apply closes a session
  if and only if it is a Hysteria 2 stream whose user was removed or logs in differently
  (`RemovedClosedIff`); a kept user's sessions always survive.
- Retrying the same list always converges (`RetryConverges`), but an apply that failed part-way
  followed by a *different* list can leave a credential live for good (`StaleAfterOtherList`).
  `ConvergesIff` says, in terms of the lists alone, which lists may fail before which. This concerns
  the agent's error paths: the AddUsers and DelUsers of the bundled inbounds never return an error, so
  with them no apply fails part-way.
- `lintOutbound` looks only among outbounds and so can blame an endpoint that does exist
  (`EndpointBlamed`). It does so if and only if the walk of first unstarted dependencies reaches a
  component outside the registry first (`BlamesPresentIff`), never when all dependencies on present
  components are registered (`TruthfulWhenRegistered`).
- `WriteBuffer` ignores the counts its downstream returns, so with a downstream that breaks
  io.Writer's contract it reports success for bytes that were lost (`ShortWriteLost`). Success means that
  the whole buffer passed exactly when no downstream write was short without an error (`WriteBuffer`).

## Model

| member | source | states |
|---|---|---|
| RateLimiters.BurstFor | counter/ratelimit.go:41-60 | The burst is a fifth of a second of the rate rounded down, and never below 64 KiB |
| RateLimiters.BurstMeans | counter/ratelimit.go:41-60 | The same in plain numbers: 64 KiB up to the rate where a fifth of a second earns more, a fifth of the rate beyond |
| RateLimiters.RateLimiter.constructor | counter/ratelimit.go:35-39 | A new limiter is open, empty and at the given rate |
| RateLimiters.RateLimiter.SetRate | counter/ratelimit.go:41-60 | The whole new state: burst from the rate; a positive rate opens the limiter and keeps the tokens unless they are a debt or exceed the burst, when they become zero; a non-positive rate disables it and leaves it closed if it was |
| RateLimiters.RateLimiter.Close | counter/ratelimit.go:62-73 | The limiter is shut and disabled |
| RateLimiters.RateLimiter.Allow | counter/ratelimit.go:129-166 | Refill, then charge at once or drop without charging; never debt; no bytes pass free even when closed |
| RateLimiters.RateLimiter.Reserve | counter/ratelimit.go:168-200 | Refill, then always charge, going into debt, with the wait that pays it off, truncated to nanoseconds |
| RateLimiters.RateLimiter.Wait | counter/ratelimit.go:90-118 | The chunked loop computes exactly the pieces, end state and error of its specification, with other callers between its rounds |
| RateLimiters.WaitChargesExactly | counter/ratelimit.go:90-118 | Whatever others do between its rounds, Wait(n) on a limiting bucket succeeds and its pieces are positive, at most a burst each, and sum to n |
| RateLimiters.CallsKeepParameters | counter/ratelimit.go:136-200 | No sequence of calls changes rate, burst or open state, or lifts tokens above the burst |
| RateLimiters.ClosedFails | counter/ratelimit.go:90-118 | On a closed limiter every positive-size Wait, Allow and Reserve fails and changes nothing |
| RateLimiters.UnlimitedIsFree | counter/ratelimit.go:90-166 | On an open limiter that is disabled or has no positive rate every Allow and Reserve passes free without changing it, and every Wait succeeds, charges nothing and changes nothing |
| RateLimiters.NothingIsFree | counter/ratelimit.go:136-200 | A call for no bytes passes an open limiter free and unchanged, whatever its rate |
| RateLimiters.WaitForNothing | counter/ratelimit.go:90-118 | Waiting for no bytes succeeds on any limiter, even a closed one, and changes nothing |
| RateLimiters.RefillStands | counter/ratelimit.go:136-200 | A refill at a time that stands still or runs backwards changes nothing, and the first use only starts the clock |
| RateWindow.CallScaled | counter/ratelimit.go:136-200 | One call on the bucket and one step of a linear machine (time in earned tokens) decide, charge and release alike |
| RateWindow.SmallRequestsPayInFull | counter/ratelimit.go:41-60 | A granted request of at most 64 KiB is charged its real size |
| RateWindow.Scaled | counter/ratelimit.go:136-200 | Over a whole run bucket and linear machine release the same charges at the same times up to the rate |
| RateWindow.WindowBound | counter/ratelimit.go:136-200 | Over every run mixing Allow and Reserve at non-decreasing times, the charge released in any window of length T is at most burst + rate * T |
| RateWindow.FirstInFirstOut | counter/ratelimit.go:136-200 | Over every such run release times never decrease in call order |
| RateWindow.WindowBoundIsTight | counter/ratelimit.go:136-200 | From a full bucket the bound is reached for every window that earns at most a burst |
| RateWindow.SleptWindowBound | counter/ratelimit.go:168-200 | With waits truncated to nanoseconds the bound holds for the window lengthened by one nanosecond |
| RateWindow.TruncationOvershoots | counter/ratelimit.go:168-200 | A run at 3 GB/s whose truncated releases exceed the unlengthened bound |
| RateGrid.SleptIsExact | counter/ratelimit.go:168-200 | At a rate that divides a second's nanoseconds, from a bucket on the grid, truncation changes no release of any run on a whole-nanosecond clock |
| RateGrid.OtherRatesOvershoot | counter/ratelimit.go:168-200 | At every other positive rate a new limiter, once full, lets a burst and one byte pass in too short a window |
| RateGrid.TruncatedBoundIff | counter/ratelimit.go:168-200 | With truncated waits and a whole-nanosecond clock, burst + rate * T holds for all runs of a new limiter and all windows if and only if the rate divides a second's nanoseconds |
| RateWindow.SleptFirstInFirstOut | counter/ratelimit.go:168-200 | With whole-nanosecond clock readings truncated releases stay first in, first out |
| RateLedger.Balance | counter/ratelimit.go:35-60 | From any reachable bucket: charged plus remaining tokens is at most initial tokens plus the rate integral plus the debts written off |
| RateLedger.LedgerBound | counter/ratelimit.go:35-60 | From NewRateLimiter, over any run of SetRate, Close, Allow and Reserve at any rates: charged plus tokens never exceeds the time integral of the rate plus written-off debts, and tokens never exceed the burst |
| LimitedConns.RateLimitedConn.Write | counter/ratelimit.go:229-253 | What passed downstream is the prefix of exactly the returned length; success passes every byte in order and charges each once; a failure charged at most one chunk more than passed; a downstream error is reported if and only if there was one, and nothing is written after it; a closed limiter passes nothing |
| LimitedConns.RateLimitedConn.WriteBuffer | counter/ratelimit.go:263-283 | Success charges each byte once, and passed the whole buffer if and only if no downstream write was short without an error |
| LimitedConns.ShortWriteLost | counter/ratelimit.go:263-283 | A downstream that takes nothing without an error: the byte is lost and success reported |
| Topologies.Validate | panelapi/topology.go:105-144 | The loop with its three seen-sets accepts exactly the topologies whose nodes are well formed and pairwise differ in key, inbound tag and outbound tag |
| Topologies.NormalizedFamily | panelapi/topology.go:50-59 | Case and surrounding space aside, the three VLESS names are one protocol, the three Hysteria names another, and any other name is itself |
| Topologies.SameNodeIff | panelapi/topology.go:74-84 | Nodes of valid protocols have the same key if and only if their protocol families and trimmed ids agree |
| Topologies.TagsOf | panelapi/topology.go:86-103 | A node's inbound tag is its own tag made safe, if that leaves anything, and otherwise the protocol's short name with the safe id; its outbound tag is built from these two alone |
| Topologies.SafeTagMeans | panelapi/topology.go:61-64 | A tag part consists of letters, digits, underscores and dashes and neither starts nor ends in a dash; what is plain already, once trimmed, stays as it is |
| Topologies.DashedSplits | panelapi/topology.go:61-64 | A run of unsafe characters between safe text, however long, becomes exactly one dash |
| Topologies.ValidNodeIff | panelapi/topology.go:66-72 | A node is well formed if and only if its trimmed id is non-empty without slash, backslash or two dots in a row, its protocol is of one of the two families, and it goes out directly or through a Shadowsocks server given in full, with a port from 1 to 65535 |
| Traffic.TrafficTable.Count | cmd/mini-sb-agent/main.go:54-84 | Bytes are added to the storage of (tag or "default", user), created on first use, and no other |
| Traffic.TrafficTable.SnapshotDelta | cmd/mini-sb-agent/main.go:99-109 | The delta holds exactly the storages with something pending, and how much |
| Traffic.TrafficTable.CommitSnapshot | cmd/mini-sb-agent/main.go:110-116 | Commits the snapshot's amounts to storages still present and touches nothing else |
| Traffic.TrafficTable.RemoveAbsent | counter/counter.go:72-83 | Only storages of absent users with nothing pending disappear |
| Traffic.CommitSubtracts | counter/counter.go:62-70 | A commit takes exactly the snapshot off what is pending; what arrived since stays pending |
| Traffic.Flatten | panelapi/client.go:108-124 | In every map order, the acknowledged tags are those the client matches and each numeric user's amount is the sum over them |
| Traffic.Encode | panelapi/client.go:132-139 | In every map order, the payload is the one the order of users gives, last writer per number |
| Traffic.PayloadExactIff | panelapi/client.go:108-139 | The payload books what every account number is owed, however large, if and only if the users are pairwise different numbers that all fit in an int |
| Traffic.NumericMeans | panelapi/sync.go:154-164 | A user is billable if and only if its name is a non-empty decimal numeral |
| Traffic.AliasLosesBytes | panelapi/client.go:132-139 | Users "7" and "007": in either order one loses its bytes |
| Traffic.HugeNumberLost | panelapi/client.go:132-139 | A user number beyond an int is left out of the payload |
| Traffic.CanonicalUsersNeverAlias | cmd/mini-sb-agent/user_manager.go:225-235 | Distinct canonical decimal ids never collide |
| Traffic.ClientPayload | panelapi/client.go:94-156 | A client acknowledges exactly the tags of the snapshot it matches and sends a payload some map order builds from them; which tags those are, TypeMatches and ProtocolBills say |
| Traffic.OwnTagMatches | panelapi/client.go:94-98 | A client with an inbound tag matches that tag alone |
| Traffic.TypeMatches | panelapi/client.go:99-106 | Without one, in any letter case, the three VLESS names match "vless-in" alone, the three Hysteria names "hy2-in" alone, and any other type exactly the tags that contain it |
| Traffic.OneTagBills | panelapi/client.go:94-156 | A client that matches one tag books to each canonical user exactly its bytes under that tag, and acknowledges that tag, if the snapshot has it, and no other |
| Traffic.ProtocolBills | panelapi/client.go:94-156 | So a VLESS client books what is under "vless-in", and a Hysteria 2 client what is under "hy2-in", and nothing else |
| Traffic.PayloadCarries | panelapi/client.go:108-139 | For canonical users every order gives the same bookings: exactly the snapshot's bytes of each account, summed over the tags the client matches |
| Billing.StepInv | panelapi/sync.go:77-152 | Every step (arrival, pruning, reading a counter, a client's push that takes effect or fails, committing one storage) keeps the billing invariant, for clients matched by tag or by type |
| Billing.RunInv | panelapi/sync.go:77-152 | So does every run, with traffic arriving between any two steps |
| Billing.ExactlyOnce | panelapi/sync.go:77-152 | If no traffic is shared by two clients, in every reachable state 0 <= committed <= counted and no account is billed more than arrived under its client's tags; between flushes billed equals committed (with what pruned storages had committed), and billed plus pending is everything that arrived |
| Billing.NodeExactlyOnce | cmd/mini-sb-agent/topology_panel.go:48-65 | The same for a node's own client, storage by storage |
| Billing.NodesUnshared | cmd/mini-sb-agent/topology_panel.go:17-23 | Clients with their own, different inbound tags share no traffic |
| Billing.FinalFlushSettles | cmd/mini-sb-agent/main.go:506-523 | After any run, once traffic has stopped, a fully successful flush leaves no numeric user pending and every account of every client billed all that ever arrived for it |
| Sharing.SharedTwice | panelapi/multi.go:36-58 | Whenever two clients match a key, a flush of one byte with nothing going wrong bills it twice |
| Sharing.ExactlyOnceIff | panelapi/multi.go:36-58 | Over all runs the clients' bookings together come to what is committed under matched tags, each byte once, if and only if no billable traffic is matched by two clients |
| Sharing.ProtocolsUnshared | panelapi/client.go:94-106 | A VLESS client beside a Hysteria 2 client shares nothing |
| Sharing.UntypedShares | panelapi/client.go:94-106 | A client without a type beside a VLESS client shares the VLESS traffic |
| Sync.SelectCommitted | panelapi/sync.go:135-152 | The committed part is the acknowledged tags' numeric users, or all numeric users when no tag set is given |
| Sync.Syncer.PushTraffic | panelapi/multi.go:36-58 | Every client is tried even after a failure: whenever the network lets its push through it succeeds; exactly the successful clients' accounts grow, by exactly what the snapshot holds under the tags they match, and exactly those tags are acknowledged |
| Sync.Syncer.Flush | panelapi/sync.go:77-115 | Whatever fails, each account's bill grows by exactly what the flush commits under its client's tags, unless two clients share traffic; counts are untouched, no storage is over-committed, and if nothing fails no numeric user stays pending |
| Sync.CommitMatchesBill | panelapi/sync.go:135-152 | What a commit adds under an account's tags is what its client's push carried if that push succeeded, and nothing otherwise, unless traffic is shared |
| Stores.Store.PutAgent | panelserver/store.go:66-77 | Registers an agent exactly when id and secret are given |
| Stores.Store.AgentBySecret | panelserver/store.go:79-88 | In every map order, finds an agent that has the secret if and only if there is one |
| Stores.Store.PutTopology | panelserver/store.go:105-118 | Stores a topology exactly when it is valid and the agent is known |
| Stores.Store.ApplyTraffic | panelserver/store.go:136-183 | The validate loop and the apply loop together do what the atomic delivery does, with its answer; the accounts that move and by how much are those of DeliveryIsAtomic and ReplayAgrees |
| Stores.Store.Usage | panelserver/store.go:130-134 | Reads the account of agent, normalised node key and user, zero when absent |
| Stores.ReplayAgrees | panelserver/store.go:66-183 | After any history, agents, their secrets and their topologies are the last accepted ones, batches are those accepted, and each (agent, node, user) account is the sum, over accepted (agent, batch) pairs, of the items of the first accepted payload that name this user and this node, with acceptance defined on the history alone |
| Stores.AcceptedOnce | panelserver/store.go:136-183 | No two accepted deliveries share an agent's batch id |
| Stores.ReplyIsDecided | panelserver/store.go:136-183 | The answer is "applied" exactly for the first good delivery of a batch, "duplicate" only if an earlier one was accepted |
| Stores.AnswerMeans | panelserver/store.go:136-183 | On any state: applied if and only if the batch has an id, is new, the agent and its topology are known, and every item names a node of it by protocol family and id, a positive user and no negative amount; duplicate if and only if the batch is known |
| Stores.DeliveryIsAtomic | panelserver/store.go:136-183 | A delivery books all its items, each once, to the user it names on the node it names, one of the sender's current topology, or changes nothing; no other account moves |
| Stores.CheckPayload | panelapi/control_plane.go:104-115 | What the sender refuses, skips or sends |
| Stores.AcknowledgedOnce | panelapi/control_plane.go:104-135 | A sender that retries a batch under one id, with requests and answers lost, repeated and reordered at will, and sees one success has that payload booked, and booked exactly once |
| Startup.Lint | fork/sing-box/dns/transport_manager.go:124-143 | On a stuck start-up the recursion terminates, always finds a cause, and is truthful: a circular report is a real chain of unstarted components returning to itself, a missing one names an unregistered dependency |
| Startup.CircularIsCycle | fork/sing-box/dns/transport_manager.go:124-143 | The reported chain contains a dependency cycle |
| Startup.Sweep | fork/sing-box/dns/transport_manager.go:93-123 | One pass starts only components whose dependencies are started, stops at a failing start, and makes no progress only when stuck |
| Startup.StartAll | fork/sing-box/dns/transport_manager.go:90-146 | Terminates; nothing starts twice or before its dependencies; success starts everything; a failing start ends it there; a stuck start-up is diagnosed truthfully, from the first component that did not start |
| Startup.StartsIffAcyclic | fork/sing-box/adapter/outbound/manager.go:93-135 | When no single start fails, start-up succeeds if and only if all dependencies are present and acyclic |
| Startup.EndpointBlamed | fork/sing-box/adapter/outbound/manager.go:136-155 | An outbound waiting for an existing endpoint that waits for a missing one: the report calls the endpoint missing |
| Startup.BlamesPresentIff | fork/sing-box/adapter/outbound/manager.go:139-155 | The report blames a component that is there if and only if the walk of first unstarted dependencies reaches a present but unregistered one before it repeats or meets a tag that is nowhere |
| Startup.ReportBlamesPresentIff | fork/sing-box/adapter/outbound/manager.go:136-155 | So of what start-up reports, walking from the first component that did not start |
| Startup.TruthfulWhenRegistered | fork/sing-box/adapter/outbound/manager.go:93-158 | If every dependency on a present component is registered, whatever is reported missing is nowhere |
| Racing.RaceIsSafe | fork/sing-box/common/dialer/default_parallel_interface.go:25-87 | In every interleaving only a connection that was dialed is returned, at most one; an error only after every racer of both groups dialed and failed; fallbacks start at most once; and once all goroutines are done every connection dialed in the run is closed unless it is the one returned |
| Racing.FallbacksComeLater | fork/sing-box/common/dialer/default_parallel_interface.go:49-87 | In every run a fallback racer dials only after the fallback step, which comes only after the timer fired and only if there are fallbacks; primaries, and in a fast race everyone, can dial from the start, and a fast race has no fallback step |
| Racing.FailureRearms | fork/sing-box/common/dialer/default_parallel_interface.go:83-85 | A failing primary sets a timer that is still pending off anew; no other result touches the timer |
| Racing.NoDeadlock | fork/sing-box/common/dialer/default_parallel_interface.go:25-87 | Until the function has returned and every goroutine is done, some step is possible |
| Racing.RunsEnd | fork/sing-box/common/dialer/default_parallel_interface.go:90-151 | Every run is finite, bounded by a measure every step lowers |
| Racing.MaximalRunReturns | fork/sing-box/common/dialer/default_parallel_interface.go:25-151 | Every maximal run ends with the function returned, no goroutine left and every dialed connection closed unless it is the one returned |
| NetworkRace.StepSimulates | fork/sing-box/common/dialer/default_parallel_network.go:79-129 | A step of DialParallelNetwork, with its two stored results and their done flags, is a step of the race of one primary against one fallback |
| NetworkRace.RunSimulates | fork/sing-box/common/dialer/default_parallel_network.go:79-129 | So is every run |
| NetworkRace.NetworkIsSafe | fork/sing-box/common/dialer/default_parallel_network.go:79-129 | In every interleaving a returned connection was dialed by its side, a returned error is the primary's and both sides failed, the fallback starts at most once, and once both goroutines are done and no timer is pending it has returned, with every other dialed connection closed |
| NetworkRace.FallbackComesLater | fork/sing-box/common/dialer/default_parallel_network.go:79-129 | In every run the fallback side dials only after the fallback step, and that only after the timer fired; the primary can dial from the start |
| NetworkRace.MaximalRunReturns | fork/sing-box/common/dialer/default_parallel_network.go:79-129 | Every maximal run ends with it returned, no goroutine left and every dialed connection closed unless it is the one returned |
| Users.LastEntryWins | cmd/mini-sb-agent/user_manager.go:78-86 | The index holds, for each positive id, its last entry |
| Users.IndexUsers | cmd/mini-sb-agent/user_manager.go:78-86 | The loop builds that index |
| Users.UserChanges | cmd/mini-sb-agent/user_delta.go:8-28 | In every map order, removed and added enumerate without repetition exactly the users that left and those that came, and those of whom UUID, password or name differs, each of the three in either direction; when only speed limits change both are empty |
| Users.KeptMeans | cmd/mini-sb-agent/user_delta.go:16-26 | A user is kept if and only if it is in both lists with the same UUID, password and name |
| Users.LimitsDisturbNobody | cmd/mini-sb-agent/user_delta.go:5-8 | When only speed limits change, no credential is removed or added |
| Users.DeltaExactIff | cmd/mini-sb-agent/user_delta.go:8-28 | Applying the delta equals replacing the list if and only if no removed user's credential is also a kept user's, unless an added user brings it back |
| Users.SharedCredentialLost | cmd/mini-sb-agent/user_apply_vless_enabled.go:23-56 | Two users with one UUID, one leaves: the other is locked out |
| Users.KeptUndisturbed | cmd/mini-sb-agent/user_delta.go:8-28 | With distinct credentials a kept user is neither deleted nor added again |
| Users.DeltaRunRefinesReplacement | cmd/mini-sb-agent/user_manager.go:117-177 | Over any run of lists with distinct credentials, delta after delta leaves exactly the last list live |
| Users.RetryConverges | cmd/mini-sb-agent/user_manager.go:130-167 | Any number of part-way failures on one list, then a success on it, leave exactly that list live |
| Users.StaleAfterOtherList | cmd/mini-sb-agent/user_manager.go:130-148 | Were an add to fail after taking effect, a success with another list would leave a credential no snapshot knows |
| Users.ConvergesIff | cmd/mini-sb-agent/user_manager.go:130-167 | From an inbound in sync, every way of failing part-way at given lists and then succeeding with another ends at exactly that one, if and only if whatever each tried list adds the final one wants or deletes, and whatever each deletes that the final one wants the final one adds |
| Sessions.RunSound | fork/sing-box/protocol/hysteria2/inbound.go:118-178 | In every reachable state a VLESS inbound holds all its sessions under the empty name, and a Hysteria 2 inbound exactly its streams, each under its user's current password |
| Sessions.PurgeCloses | fork/sing-box/protocol/vless/vless_user.go:25-36 | One apply closes a session if and only if it is a Hysteria 2 stream whose user was removed or logs in differently |
| Sessions.LimitsCloseNothing | cmd/mini-sb-agent/user_delta.go:5-8 | A change of speed limits alone closes no session, whatever the tables hold |
| Sessions.RemovedClosedIff | fork/sing-box/protocol/vless/inbound.go:154-175 | The same over every run of accepted and ended sessions and lists with distinct credentials |
| Sessions.SessionOutlivesUser | fork/sing-box/protocol/vless/inbound.go:154-175 | A removed VLESS user's session, or a removed Hysteria 2 user's packet session, is still open |
| Inbounds.VlessInbound.Accept | fork/sing-box/protocol/vless/inbound.go:154-194 | The connection is stored under the empty name, whoever its user turns out to be |
| Inbounds.VlessInbound.DelUsers | fork/sing-box/protocol/vless/vless_user.go:25-56 | Exactly the named users leave the list, in order, and exactly what is stored under their names is closed |
| Inbounds.VlessInbound.Apply | cmd/mini-sb-agent/user_apply_vless_enabled.go:23-56 | Live names are patched with the delta, exactly what is stored under removed names is closed, every added entry carries its UUID as name and the vision flow, and a list without duplicates that is in sync with the old snapshot gets none from a new list of distinct UUIDs |
| Inbounds.Hysteria2Inbound.AddUsers | fork/sing-box/protocol/hysteria2/hysteria2_user.go:9-23 | Appends the passwords and enters them in both lookup tables |
| Inbounds.Hysteria2Inbound.AcceptStream | fork/sing-box/protocol/hysteria2/inbound.go:118-149 | A stream of a known id is stored under that id's password; of an unknown one it is refused |
| Inbounds.Hysteria2Inbound.AcceptPacket | fork/sing-box/protocol/hysteria2/inbound.go:151-178 | A packet session of a known id is stored nowhere; of an unknown one it is refused |
| Inbounds.Hysteria2Inbound.DelUsers | fork/sing-box/protocol/hysteria2/hysteria2_user.go:25-58 | Removes the names from the list and both tables and closes exactly what is stored under them |
| Inbounds.Hysteria2Inbound.Apply | cmd/mini-sb-agent/user_apply_hy2_enabled.go:18-58 | The list is patched with the delta, exactly what is stored under removed passwords is closed, and an inbound ready for the delta ends with list and both tables in agreement with the new list |
| Inbounds.SyncedIsReady | cmd/mini-sb-agent/user_apply_hy2_enabled.go:18-58 | An inbound in sync with its old snapshot is ready for any delta from it |
| Inbounds.AttemptKeepsReady | cmd/mini-sb-agent/user_apply_hy2_enabled.go:18-58 | An attempt that stopped among its deletes or its adds leaves all three tables in a state the same delta repairs |
| Inbounds.TablesRetryConverges | cmd/mini-sb-agent/user_apply_hy2_enabled.go:18-58 | Any number of such attempts and then one that goes through leave all three tables in sync with the list |
| Inbounds.VlessFollowsTries | fork/sing-box/protocol/vless/vless_user.go:10-56 | On the VLESS entry list, duplicates included, the live names after any tries are those the tries give |
| UserManagers.LimiterPair.Wait | counter/ratelimit.go:90-118 | In either direction waiting never reopens or re-rates a pair, and fails without effect on a closed one; on an open one it succeeds, without any effect if the user has no limit |
| UserManagers.LimiterPair.Allow | counter/ratelimit.go:129-166 | A datagram gets the verdict of its direction's bucket, which alone moves; it fails without effect on a closed pair and passes free without effect if the user has no limit |
| UserManagers.MbpsMeans | cmd/mini-sb-agent/user_manager.go:71-76 | A limit of m Mbps is 125000 m bytes a second, and no positive limit is no limit |
| UserManagers.LimiterTable.Retarget | cmd/mini-sb-agent/user_manager.go:163-176 | Afterwards there is an open pair at the user's rate for exactly the active ids; an id that stays keeps its very object; exactly the pairs of ids that left are retired, closed for good |
| UserManagers.ApplyDeltas | cmd/mini-sb-agent/user_manager.go:130-148 | In any map order, each inbound in sync with its old snapshot ends in sync with its own new list, whatever the others do, and closes exactly the Hysteria 2 streams of users removed from it; every inbound purges its session table of removed names |
| UserManagers.KeptSessionsSurvive | cmd/mini-sb-agent/user_delta.go:8-28 | Whatever state an inbound is in, an entry under a kept user's credential survives, and an entry that goes was stored under a removed user's |
| UserManagers.OpenSession | fork/sing-box/protocol/hysteria2/inbound.go:118-178 | Accepting a session from a user of the snapshot stores it as the inbound kind does, and keeps the inbound in sync |
| UserManagers.SecretsFrom | cmd/mini-sb-agent/user_manager.go:88-98 | In any map order, each non-empty secret maps to some user that has it |
| UserManagers.SecretsMean | cmd/mini-sb-agent/user_manager.go:88-98 | A non-empty string is a secret if and only if it is the UUID, password or name of some user |
| UserManagers.IndexLists | cmd/mini-sb-agent/user_manager.go:150-161 | Each tag gets the index of its own list, and the union covers all ids with one of their entries |
| UserManagers.UserManager.ApplyBoxByInbound | cmd/mini-sb-agent/user_manager.go:117-177 | Snapshots become the indexed lists, inbounds in sync stay in sync and close exactly the Hysteria 2 streams of users removed from them, users, secrets and limiters move together, and limiter objects live and retire as Retarget says |
| UserManagers.UserManager.WaitOn | counter/ratelimit.go:90-118 | A connection that waits on a pair it holds, live or retired, disturbs nothing the manager promises, and fails on a retired one |
| UserManagers.UserManager.AllowOn | counter/ratelimit.go:129-166 | The same for a datagram |
| UserManagers.UserManager.Run | cmd/mini-sb-agent/user_manager.go:117-223 | Over any run of applies with connections picking up limiters and using them in between, exactly the active users have pairs, open at their rates, a connection that comes in gets its user's pair, every pair a connection holds is one of these or retired, and what is retired stays closed |
| UserManagers.UserManager.ApplyGlobal | cmd/mini-sb-agent/user_manager.go:181-198 | The same for the single-list form, leaving the per-inbound snapshots alone |
| UserManagers.UserManager.Resolve | cmd/mini-sb-agent/user_manager.go:225-235 | The UUID, password or name of a user resolves to the canonical decimal id of a user who has it; anything else, and the empty string, passes unchanged |
| TopologySync.MergeUsersByNode | cmd/mini-sb-agent/topology_panel.go:67-86 | In every map order, accepts if and only if all entries with equal id agree on UUID, password and speed limit, and then has one entry per id |
| TopologySync.UnionAgrees | cmd/mini-sb-agent/user_manager.go:150-161 | For lists that agree, the union agrees with every list on UUID, password and speed limit, in every order |
| TopologySync.GroupNodeUsers | cmd/mini-sb-agent/node_runtime.go:8-14 | Each inbound tag gets exactly its own node's list |
| TopologySync.CompletedMeans | panelapi/client.go:79-91 | A fetched user keeps what the panel sent; a missing password becomes the UUID, a missing name the decimal id |
| TopologySync.PrepareLists | cmd/mini-sb-agent/topology_panel.go:25-46 | Goes ahead if and only if every node was fetched and all lists agree; then each inbound tag has its own node's list |
| TopologySync.FetchUsers | cmd/mini-sb-agent/topology_panel.go:25-46 | Node isolation end to end: on success each node's inbound lets in exactly the users fetched for that node and closes exactly the Hysteria 2 streams of users removed from it; a failed fetch or a conflict changes nothing at all |
| RouteConfig.Generate | cmd/mini-sb-agent/xboard_config.go:204-259 | Succeeds exactly for valid topologies with all nodes reachable, and builds the specified inbounds, outbounds, rules and final |
| RouteConfig.SelectOutbound | fork/sing-box/route/route.go:463-576 | The matching loop is first match, else final |
| RouteConfig.NodeRouted | cmd/mini-sb-agent/xboard_config.go:204-268 | For every valid topology each node has its inbound, and that is routed to the outbound it declares, which exists and is the only one with its tag: direct, or a Shadowsocks outbound with that node's own server data |
| RouteConfig.OthersBlocked | cmd/mini-sb-agent/xboard_config.go:204-259 | Any other inbound goes to block, which exists |
| RouteConfig.OutboundsUsable | cmd/mini-sb-agent/xboard_config.go:204-268 | Every outbound of a generated configuration is one of the three built in, direct, block and DNS, or a Shadowsocks one given in full |
| RouteConfig.CheckTags | fork/sing-box/option/options.go:61-96 | The seen-set loop accepts exactly lists without a repeated non-empty tag |
| RouteConfig.ChecksAccept | fork/sing-box/option/options.go:61-96 | Every generated configuration passes both duplicate checks |
| Chunked.Reader.ReadChunkedBody | panelapi/minhttp.go:171-213 | The loop over the reader returns the body, error and reader position of the decoder function |
| Chunked.FramedDecodes | panelapi/minhttp.go:171-213 | Any stream of framed chunks, ending and rest decodes to the joined data with the rest unread if that fits 16 MiB, and fails otherwise |
| Chunked.AcceptedIsFramed | panelapi/minhttp.go:171-213 | Conversely every accepted stream is such a framing, its body is the joined data and is at most 16 MiB |
| Chunked.SizeLine | panelapi/minhttp.go:178-185 | A bare hexadecimal size with any extension reads back as that size |
| Chunked.SizeOfDigits | panelapi/minhttp.go:178-185 | Digits in either letter case, with any extension, read as the number they write in base sixteen, and are refused exactly beyond 63 bits |
| Chunked.PaddedSize | panelapi/minhttp.go:178-185 | White space around a size does not matter |
| Chunked.ThreeByteSpace | panelapi/minhttp.go:178 | A character of three UTF-8 bytes is trimmed from either end if and only if it is white space to unicode.IsSpace |
| Chunked.SignedSizes | panelapi/minhttp.go:182-188 | Plus gives the number itself and minus its negative, which the decoder refuses unless it is zero; a sign without digits, or nothing, is no number |
| Chunked.BareNewlines | panelapi/minhttp.go:171-213 | A size line, and the blank line that ends the trailers, may end in a bare newline |
| Chunked.RoundTrip | panelapi/minhttp.go:171-213 | Any non-empty chunks with any extensions and trailers, encoded as in section 7.1 of RFC 9112, decode to their concatenation exactly when it is at most 16 MiB, with the reader just past the final blank line |
| Handshake.KeyUpdate.Marshal | fork/sing-box/common/ktls/ktls_handshake_messages.go:74-86 | Produces the five bytes of section 4.6.3 of RFC 8446 |
| Handshake.KeyUpdate.Unmarshal | fork/sing-box/common/ktls/ktls_handshake_messages.go:88-105 | Accepts exactly five-byte messages ending in 0 or 1, and leaves the field alone otherwise |
| Handshake.KeyUpdateRoundTrip | fork/sing-box/common/ktls/ktls_handshake_messages.go:74-105 | Every key update survives the trip; acceptance characterised for all byte strings |
| Handshake.FirstIsHighest | fork/sing-box/common/ktls/ktls_handshake_messages.go:199-238 | Numbers are read highest byte first |
| Handshake.HeadersMean | fork/sing-box/common/ktls/ktls_handshake_messages.go:173-197 | A ticket starts with type 4 and a key update with type 24, each followed by its length in three bytes |
| Handshake.EarlyDataMeans | fork/sing-box/common/ktls/ktls_handshake_messages.go:187-192 | A positive early-data limit is written as one extension of type 42 and four bytes, none otherwise |
| Handshake.NewSessionTicket.Marshal | fork/sing-box/common/ktls/ktls_handshake_messages.go:173-197 | Succeeds exactly for nonces up to 255 and labels up to 65535 bytes, producing the layout of section 4.6.1 of RFC 8446 |
| Handshake.NewSessionTicket.Unmarshal | fork/sing-box/common/ktls/ktls_handshake_messages.go:199-238 | The cursor reads and the extension loop accept and store exactly what the parser function says; a refused message leaves what had been read on top of zeros |
| Handshake.FieldsReadIff | fork/sing-box/common/ktls/ktls_handshake_messages.go:199-213 | Fields are read from a byte string precisely when it is their layout and they fit their prefixes |
| Handshake.TicketRoundTrip | fork/sing-box/common/ktls/ktls_handshake_messages.go:173-238 | Every ticket that can be marshalled unmarshals to itself |
| Handshake.AcceptedIff | fork/sing-box/common/ktls/ktls_handshake_messages.go:199-238 | A message is accepted as a ticket if and only if it lays out that ticket with some list of extensions whose last early_data, of four bytes each, is its limit |
| Handshake.LastEarlyDataWins | fork/sing-box/common/ktls/ktls_handshake_messages.go:215-235 | The last early_data extension decides the limit, whatever well-formed ones come before it and whatever others after |
| Handshake.UnknownIgnored | fork/sing-box/common/ktls/ktls_handshake_messages.go:215-235 | Inserting an unknown extension after any extensions and before any bytes changes neither acceptance nor the ticket |

## Left out

- Floating-point rounding in the limiter: tokens, rates and times are exact reals.
- Counter and byte arithmetic beyond 64 bits: counters are unbounded integers.
- Clock readings at or before Go's zero time: window and ledger runs start after it, so the first-use branch of the refill does not occur in them.
- Billing.ExactlyOnce: covers storages still in the table, since a connection that outlives RemoveAbsent keeps writing to a detached storage; RemoveAbsent is one atomic step. A push takes effect and reports success or does neither, since a UniProxy push whose answer is lost carries no batch id. Numeric users on matched tags are canonical decimals that fit an int, as Resolve yields them; Traffic.PayloadExactIff says exactly what happens to a push otherwise.
- Billing.FinalFlushSettles: speaks of tags some client matches; traffic on any other tag is committed by a fully successful flush without having been sent.
- Sync.Syncer.Flush: the snapshot and the commit are taken with no traffic in between; Billing has the interleavings. Users are named as in Billing.ExactlyOnce.
- Traffic.TrafficTable.Count: the two nested counter maps (by inbound tag, then by user) are one map keyed by the pair.
- Topologies.Validate: lower-casing is that of ASCII letters.
- Stores.Store.ApplyTraffic: agent names, timestamps, the HTTP layer and JSON are not modelled; persistence does not exist in the source either.
- UserManagers.LimiterPair.Wait: a pair holds its two buckets as values, not as two limiter objects; the per-node limiter is not modelled.
- UserManagers.UserManager.ApplyBoxByInbound: AddUsers and DelUsers of the bundled inbounds never return an error, so no error path is taken here; failing attempts are modelled in Users.ConvergesIff and Inbounds.TablesRetryConverges. ApplyBox, which gives every inbound one list, is not modelled.
- Sessions.RunSound: a VLESS connection that fails to authenticate, and the moment between storing and authenticating it, are not modelled; a session is accepted from a user of the committed list.
- Startup.StartAll: removal of components and the dependency index it consults are not modelled.
- Racing.RaceIsSafe: the caller's context being cancelled shows as dials failing; choosing interfaces and addresses, and the serial fallbacks, are not modelled.
- RouteConfig.Generate: fetching a node, checking its protocol and building the body of its inbound are one answer per node; certificate paths, log settings and file writing are not modelled.
- RouteConfig.SelectOutbound: rules match on inbound tags only, which is all the generated configurations contain; other rule items and actions are not modelled.
- Chunked.RoundTrip: chunk lengths are Go ints, so at most 2^63 - 1.
- Sockets, TLS, request and header handling, the statistics server, dashboard, flags, certificates, DNS caching, sniffers, kernel TLS calls and platform code.
