# A verified model of wg-sockd

wg-sockd is an agent that manages WireGuard peers. It keeps four copies of the peer state in step: the
peers table in SQLite, the kernel's peer map, one iptables chain per peer, and `wg0.conf`. It also guards
its API with several small bounded stores. This project models those parts in Dafny and proves what they
promise, for all inputs, all runs and all interleavings.

`dafny verify dfyconfig.toml` checks everything.

## How it is organised

| files | subject |
|---|---|
| `Text`, `TextLaws`, `Collections` | the few functions of Go's `strings` package that matter, and their laws; map lookups and set sizes |
| `Storage`, `PeersTable` | a row of the peers table; the table with its constraints and statements |
| `Kernel`, `DevClient` | the kernel's peer map and the calls that change it; the in-memory client used for development |
| `Iptables` | operational semantics of a table of chains: the eight commands used, and packet verdicts |
| `Firewall` | the firewall compiler: every operation as the exact list of commands it issues (its plan), and the class that issues them one by one |
| `FirewallEffects`, `FirewallMeaning`, `FirewallTheorems`, `FirewallRuns` | what plans do to tables, what tables mean for packets, `Sync`, runs of handler calls |
| `ForwardVerdict` | from the FORWARD chain on: which packets reach the dispatch chain, and their verdict after Sync and any run |
| `FirewallOrder`, `FirewallActivation`, `FirewallExample` | exactly when the history of the jumps shows, exactly when `ApplyPeer` is atomic, and a concrete instance of both |
| `Reconciler`, `ReconcilePass`, `PassRules` | one pass as a function of state and failures, its convergence; the pass as loops; the rules it puts right |
| `PauseLock`, `PauseProgress` | passes, batch creations and deletions as interleaved threads under the pause lock; what each achieves undisturbed |
| `Requests`, `Sagas` | what each mutating handler makes of rows, rules and kernel whichever calls fail; the handlers themselves with their compensating calls |
| `RowsInStep`, `AgentRuns` | rules and rows in step: exactly which requests and failures break that, over whole runs, and what repairs it |
| `KernelRuns` | kernel entries and rows: exactly which requests and failures leave an entry other than its row, over whole runs, and what a pass repairs |
| `ConfFile`, `ConfKinds`, `ConfLaws`, `ConfTheorems`, `ConfBody`, `ConfParts` | parser, writer and metadata scanner of `wg0.conf`, character by character; what is read back of every field, and that no line is lost |
| `RateLimit`, `RateLimiterRuns` | the token bucket per connection |
| `Debounce` | the debounced conf writer and its interleavings |
| `LoginRate` | the login limiter |
| `ChallengeStore`, `ChallengeRuns` | the WebAuthn challenge store |
| `SessionStore` | the session store |
| `Bits`, `Addresses`, `DeriveIPv6`, `ClientAddresses` | address arithmetic |

Two conventions recur. A class holds the fields that the Go type updates in place, and each method's
contract ties the new state to a function of the old one; the theorems are then lemmas about those
functions. Calls that may fail take the failure as a parameter (`Faults`, `CreateFaults`, ...), so a theorem
that leaves them free holds under every pattern of failures.

## What the environment is taken to be

- iptables is the table semantics of module `Iptables`: `-N` fails if the chain exists, `-X` fails if it is
  not empty or is referenced, `-C` and `-D` match by rule, a jump falls through on return. How address text
  is read is an arbitrary function (`Env.read`), and so are `net.ParseCIDR`, key parsing and DNS resolution
  wherever they occur: fixed during a run, but otherwise unconstrained.
- `ConfigurePeers` does what the field comments of `PeerConfig` say (agent/internal/wireguard/client.go:60-69):
  a nil field leaves the setting alone. A failing call changes nothing. `DevClient` is simpler; where the two agree is
  stated by `DevClient.AgreesIff`.
- A stored public key was printed by `Key.String`, so it parses to itself if it parses at all. Generated keys
  and tokens are globally fresh.
- The peers table has UNIQUE `public_key` and a partial UNIQUE `client_address`. `rename` is atomic.
- Clocks are monotone. Time is `real` in the token bucket and `int` in the other stores. `WORD` is 2^32, and
  uint32 arithmetic is written out where it can wrap.

## Where the code and its documentation differ

- docs/firewall.md:25, docs/architecture.md:134 and README.md:483 speak of 8 alphanumeric characters in a
  chain name; the code takes 16 (agent/internal/firewall/iptables.go:48), and the model follows the code.
- The comment that a key always has at least 32 alphanumeric characters (agent/internal/firewall/iptables.go:42)
  is not guaranteed; `ChainName` takes what there is, and distinct chain names are an assumption of the theorems.

## Results that are negative or conditional

- `ApplyPeer` on a table in step is atomic exactly when no peer in force uses the chain (`AtomicIff`). On a
  chain in use there is a moment after `-F` when the old row's packets leave the dispatch chain undecided
  (`LiveUpdateGap`, `GapOpens`).
- `client_address` is UNIQUE only as text, so two rows may share a host. Incremental edits cannot be told from a
  rebuild exactly when peers that share an address treat its packets alike (`RebuildIff`); otherwise disabling
  and enabling other rows makes any owner of a packet the one that decides (`SharedSourceDiverges`, `SharedHost`).
- Rules and rows stay in step under every request, pass and failure of a modelled call but four: a row in force that
  stays although its creation was undone, a failed rotation of a peer in force, an approval that breaks off after its
  first statement for a row in force, and an update whose row cannot be read back, when that row needs other rules than
  the ones left (`StepIff`, `RunIff`). A peer disabled by such an update keeps its rules. A pass repairs none of the
  four while the kernel has exactly the enabled keys (`GapStays`); `Sync` repairs everything (`SyncRepairs`).
- A request that `UpdatePeer` turns down for a malformed endpoint or keepalive is not without effect: the network call
  comes before that validation (agent/internal/api/handlers.go:860-940), so a new address is in the kernel and not in
  the row. The kernel is left alone exactly when the request is stopped earlier, moves no address, or asks for the
  network that is there (`RefusedIff`); `RefusalMovesPeer` is a concrete case, which no number of passes repairs.
- Kernel entries stay as the rows of their peers say (networks and preshared key) under every request, pass and failure
  but those of `Spoils` (`MirrorIff`, `RunMirrorsIff`). Among them is every creation, approval or move
  that gives the row a readable IPv6 network besides: the kernel gets the first network only (`OneNetworkIff`), and a
  later failed rotation cannot restore such an entry (`CreatedRestorableIff`). A pass sets an entry right only by taking out a
  disabled peer (`PassRepairsIff`, `PassesRepairNothing`).
- `UpdatePeer` puts a peer that is not in the kernel, a disabled one for example, there exactly when it moves the
  address or sends an endpoint or keepalive (`UpdateAddsIff`). A failing statement leaves the kernel changed.
  A request that clears the address is aborted before any effect: no network comes out of the parser, and the handler
  dereferences the nil pointer (agent/internal/api/handlers.go:876-880).
- Clearing an endpoint or a keepalive, or setting an endpoint that cannot be resolved, is not told to the kernel. After
  an update without failures the entry is what the new row says exactly when there was nothing to clear and no second
  network (`UpdatedRebuiltIff`); a created peer that is lost is rebuilt as it was exactly when its row lists one network
  (`CreatedRebuiltIff`).
- A failed key rotation restores the kernel exactly when the kernel held what the row says (`Restorable`);
  for a peer that is not in the kernel, a disabled one for example, the rollback puts the old key there.
- Writing a conf twice equals writing the second peers alone exactly when the file has an `[Interface]` line
  or the first peer of the first write has no metadata (`PutPutIff`).
- `DevClient` and the kernel differ exactly when a configuration would add addresses to a peer that is
  already there (`AgreesIff`).
- A second reconciliation pass is idle exactly when the endpoints of the peers it re-added were on record
  (`SecondPassIdleIff`); a third one always is (`ThirdPassIdle`).
- Dropping idle buckets is unobservable exactly when an idle bucket is full again (`CleanupSafeIff`).
- Two /32 clients with the same last octet get the same derived IPv6 address (`HostRouteCollision`).

## Model

| member | source | states |
|---|---|---|
| `Firewall.PeerChainName` | agent/internal/firewall/iptables.go:43-54 | the loop that stops at 16 characters yields the prefix and the first 16 alphanumeric characters |
| `Firewall.ChainNameLength` | agent/internal/firewall/iptables.go:43-54 | a chain name is `WG_PEER_` and ASCII letters and digits: 16 of them, 24 characters in all, if the key has as many, else all it has |
| `Firewall.ChainNameTakes` | agent/internal/firewall/iptables.go:43-54 | of a key of letters and digits the first 16 are taken as they are |
| `Firewall.ChainNameSkips` | agent/internal/firewall/iptables.go:43-54 | any other character of a key does not bear on its chain name |
| `Firewall.IptablesFirewall.constructor` | agent/internal/firewall/iptables.go:30-35 | only `-N` for the managed chain is issued, no jump yet |
| `Firewall.IptablesFirewall.EnsureDispatchChain` | agent/internal/firewall/iptables.go:101-116 | issues exactly `-N`, `-C`, and `-I FORWARD 1` when `-C` fails, the latter two with `-i` interface `-j` dispatch chain; errors only when that insertion fails |
| `Firewall.IptablesFirewall.ApplyPeer` | agent/internal/firewall/iptables.go:124-173 | the exact command sequence on every table, and when it reports an error |
| `Firewall.IptablesFirewall.RemoveAllDispatchJumpsTo` | agent/internal/firewall/iptables.go:179-194 | deletes each listed jump to the chain, and nothing if the dispatch chain cannot be listed |
| `Firewall.IptablesFirewall.RemovePeer` | agent/internal/firewall/iptables.go:201-225 | the exact command sequence: one `-D` by source, or a scan when the source is empty, then `-F` and `-X`; never an error |
| `Firewall.IptablesFirewall.Sync` | agent/internal/firewall/iptables.go:230-271 | the exact command sequence of ensure, flush, apply or remove each peer, clean up; an error iff some step reported one |
| `Firewall.IptablesFirewall.CleanupOrphanChains` | agent/internal/firewall/iptables.go:277-329 | for every listed chain no peer owns, once each: delete its listed jumps, flush, delete |
| `FirewallEffects.FillEffect` | agent/internal/firewall/iptables.go:137-157 | whatever was in the chain, it ends with one ACCEPT per readable destination and a final DROP; adding the DROP cannot fail |
| `FirewallEffects.EnsureEffect` | agent/internal/firewall/iptables.go:101-116 | afterwards the dispatch chain exists and FORWARD has its jump, inserted first if it was missing; it cannot fail while FORWARD exists |
| `ForwardVerdict.EnsurePutsJumpFirst` | agent/internal/firewall/iptables.go:105-111 | when FORWARD has no jump to the dispatch chain, a jump for exactly the packets of the WireGuard interface is put before all its rules |
| `ForwardVerdict.ForwardDecides` | agent/internal/firewall/iptables.go:14-19 | in a table in step a packet of the WireGuard interface gets the verdict of the policy where the policy decides, every other packet that of the remaining rules of FORWARD |
| `ForwardVerdict.SyncGuards` | agent/internal/firewall/iptables.go:230-271 | `Sync` puts that jump before everything FORWARD held, and changes nothing else there |
| `ForwardVerdict.RunKeepsForward` | agent/internal/api/handlers.go:991-1010 | no run of handler calls changes FORWARD |
| `ForwardVerdict.ForwardAfterRun` | agent/internal/firewall/iptables.go:124-271 | from any machine without that jump: after `Sync` and any run of handler calls, packets of the WireGuard interface get the verdict of the rows then in force, and all others go through the rules FORWARD held before |
| `FirewallEffects.InstallEffect` | agent/internal/firewall/iptables.go:137-172 | closed form of the table after `ApplyPeer` on any table; it succeeds iff the source is readable |
| `FirewallEffects.RemoveEffect` | agent/internal/firewall/iptables.go:201-225 | closed form of the table after `RemovePeer` on any table, including a chain that stays because it is still referenced |
| `FirewallEffects.UnjumpEffect` | agent/internal/firewall/iptables.go:185-193 | deleting the jumps of a listing one by one leaves exactly the other rules, in order |
| `FirewallMeaning.RemoveKeeps` | agent/internal/firewall/iptables.go:196-225 | on a table in step with a set of peers, `RemovePeer` leaves it in step with the others, and drops exactly that chain |
| `FirewallMeaning.ApplyKeeps` | agent/internal/firewall/iptables.go:118-173 | one `ApplyPeer`, whether enabled, disabled or without address, leaves the table in step with the new row and the other peers |
| `FirewallMeaning.SyncedTransfer` | agent/internal/firewall/iptables.go:124-173 | the rules depend only on key, address, destinations and enabled flag of the peers in force |
| `FirewallTheorems.PolicyDecides` | agent/internal/firewall/iptables.go:141-157 | a peer's chain accepts its packets iff the destination is in a readable CIDR of the list, and drops all others |
| `FirewallTheorems.ListDecides` | agent/internal/firewall/iptables.go:141-157 | the same from the text of the list: of destinations written with commas, with or without a blank after each, exactly the readable ones are reached |
| `FirewallTheorems.OwnsIff` | agent/internal/firewall/iptables.go:62-72 | a packet is a peer's iff the peer is enabled, has an address, and the packet comes from the host of that address, or from what the address reads as when it cannot be parsed |
| `TextLaws.FieldsOfList` | agent/internal/firewall/iptables.go:142-150 | the fields of a list written with commas are its items, in order |
| `TextLaws.TrimSpaceIs` | agent/internal/firewall/iptables.go:143 | trimming takes blanks off both ends, nothing else, and leaves none there |
| `FirewallTheorems.SyncedMeansPolicy` | agent/internal/firewall/iptables.go:14-19 | a table in step gives every packet the verdict of the policy, whatever the order of its jumps, when peers that share an address treat its packets alike |
| `FirewallTheorems.HostsAreDisjoint` | agent/internal/firewall/iptables.go:56-72 | parsed client addresses of different hosts, whatever mask they carry, become disjoint sources, given that a printed host with /32 is read as that one host |
| `FirewallTheorems.CleanupEffect` | agent/internal/firewall/iptables.go:273-329 | the cleanup removes exactly the orphan chains |
| `FirewallTheorems.SyncRebuilds` | agent/internal/firewall/iptables.go:227-271 | `Sync` forgets history: from any table where only the dispatch chain jumps to peer chains, each packet is decided by the first active peer of the list with its source, other packets return, no orphan remains, foreign chains are untouched |
| `FirewallRuns.CallKeeps` | agent/internal/api/handlers.go:991-1010 | the firewall calls of create, update, approve, rotate, delete, re-apply, edits and discovery keep the table in step with the rows |
| `FirewallRuns.RunKeeps` | agent/internal/api/handlers.go:991-1010 | the same over any run of such calls |
| `FirewallRuns.IncrementalEqualsRebuild` | agent/internal/firewall/iptables.go:124-271 | from a synced table, after any run of handler calls, every packet gets the verdict it would get after `Sync` on the rows then in force, when peers that share an address treat its packets alike |
| `FirewallOrder.RebuildIff` | agent/internal/firewall/iptables.go:165-170 | from a table in step, all runs of handler calls that end in the same rows give every packet the verdict of a rebuild iff peers that share an address treat its packets alike |
| `FirewallOrder.SharedSourceDiverges` | agent/internal/storage/db.go:36 | for any list of rows and any owner of a packet, there is a run that only disables and enables other rows, ends in the same rows, and makes that owner decide |
| `FirewallOrder.EnabledGoesLast` | agent/internal/firewall/iptables.go:165-170 | with two rows on one source, enabling the older row gives the younger one's policy, while the list order gives the older one's |
| `FirewallActivation.AtomicActivation` | agent/internal/firewall/iptables.go:118-173 | after every single command of `ApplyPeer` for a chain that the dispatch chain does not reach: foreign packets keep their verdict, the peer's packets have the old verdict or the complete policy, and at the end the policy unless decided before |
| `FirewallActivation.AtomicIff` | agent/internal/firewall/iptables.go:137-170 | on a table in step with disjoint sources, `ApplyPeer` is atomic for all packets after every command iff no peer in force uses the chain |
| `FirewallActivation.LiveUpdateGap` | agent/internal/firewall/iptables.go:137-139 | on a chain in use, whatever the new row says, right after `-F` every packet of the old row leaves the dispatch chain undecided |
| `FirewallExample.SharedHost` | agent/internal/firewall/iptables.go:165-170 | a concrete instance: 10.0.0.2/32 and 10.0.0.2/24, where the incremental table drops what the table after `Sync` accepts |
| `FirewallExample.GapOpens` | agent/internal/firewall/iptables.go:137-139 | on that table, re-applying a peer that may reach nothing leaves its packets undecided after the second command |
| `FirewallRuns.UndoFirst` | agent/internal/api/handlers.go:312-316 | `RemovePeer` undoes `ApplyPeer` of a new peer exactly, even with other new peers applied in between |
| `FirewallRuns.UndoAll` | agent/internal/api/handlers.go:625-629 | removing all new peers of a batch restores the very same table |
| `Reconciler.PassAt` | agent/internal/reconciler/reconciler.go:106-244 | what a pass makes of one key, in the kernel and in the table, given which calls fail |
| `Reconciler.Converges` | agent/internal/reconciler/reconciler.go:73-77 | without failures one pass makes the kernel keys the enabled keys, records unknown keys disabled and without access but with their runtime endpoint and keepalive, rebuilds missing peers from their rows, records the endpoints seen, and leaves surviving kernel entries and all else of the rows untouched |
| `Reconciler.RebuiltFromList` | agent/internal/reconciler/reconciler.go:161-169 | from the text of a row's list a re-added peer gets exactly the networks of its items that can be read |
| `Reconciler.ConfEntries` | agent/internal/reconciler/reconciler.go:257-275 | the conf has an entry for each enabled row and no other, column by column |
| `Reconciler.BootsAsRebuilt` | agent/internal/reconciler/reconciler.go:161-203 | an interface brought up from the conf has exactly the enabled peers, each as a pass would re-add it |
| `Reconciler.ThirdPassIdle` | agent/internal/reconciler/reconciler.go:78-247 | a third pass without failures changes nothing: kernel, rows or conf |
| `Reconciler.SecondPassIdleIff` | agent/internal/reconciler/reconciler.go:224-244 | the second pass is idle iff every re-added peer's resolved endpoint was already recorded |
| `Reconciler.NeverWorse` | agent/internal/reconciler/reconciler.go:106-217 | under any failures a pass never enlarges the difference between kernel keys and enabled keys, never changes which rows are enabled, loses no row |
| `Reconciler.KeysAreIndependent` | agent/internal/reconciler/reconciler.go:108-217 | the outcome for a key depends only on that key's state and that key's failures |
| `Reconciler.RecoversAfterFailures` | agent/internal/reconciler/reconciler.go:78-247 | after a pass with any failures, one pass without failures converges |
| `ReconcilePass.ReconcileLoop.ReconcileOnce` | agent/internal/reconciler/reconciler.go:78-247 | the loops compute the pass, for every map iteration order and every failure; the rules gone over are exactly those of zombies and of missing peers that could be added; a table in step with the rows stays so |
| `ReconcilePass.ReconcileLoop.RemoveUnwanted` | agent/internal/reconciler/reconciler.go:106-147 | step 1 key by key: zombies and unknown peers leave the kernel, unknown peers become rows |
| `ReconcilePass.ReconcileLoop.AddMissing` | agent/internal/reconciler/reconciler.go:149-217 | step 2: enabled rows that the kernel lacked are added from the row, each failure by itself |
| `ReconcilePass.ReconcileLoop.RewriteConf` | agent/internal/reconciler/reconciler.go:251-278 | the conf lists exactly the enabled rows |
| `ReconcilePass.ReconcileLoop.RecordEndpoints` | agent/internal/reconciler/reconciler.go:224-244 | recording only the changed endpoints equals recording all of them |
| `ReconcilePass.ReapplyInStep` | agent/internal/reconciler/reconciler.go:213-216 | applying a row again keeps the table in step with the rows |
| `ReconcilePass.PassInStep` | agent/internal/reconciler/reconciler.go:78-247 | the rows after a pass have the same peers in force |
| `PassRules.PassServes` | agent/internal/reconciler/reconciler.go:118-217 | whatever the table had lost and in whatever order the pass goes: a peer that the pass puts back into the kernel has its jump and its policy afterwards, and the chain of a disabled peer found in the kernel holds nothing |
| `PauseLock.StepKeeps` | agent/internal/reconciler/reconciler.go:45-54 | every step of a pass, a batch creation or a deletion keeps the lock invariant, and no pass step touches a batch-created key or revives a deleted one |
| `PauseLock.PausesSuffice` | agent/internal/api/handlers.go:596-702 | in every interleaving with any failures: no pass removes or disables a batch-created key nobody deleted, none adds a key whose `DeletePeer` deleted the row, and a key taken out of the kernel by a finished `DeletePeer` stays out |
| `PauseLock.PauseNeeded` | agent/internal/api/handlers.go:596-601 | without the pause there is an interleaving in which a pass removes a key that a batch has just created |
| `PauseProgress.PassAchieves` | agent/internal/reconciler/reconciler.go:78-247 | a pass whose calls succeed and that runs undisturbed ends with exactly the enabled keys in the kernel and a disabled row for every unknown key |
| `PauseProgress.PassEnds` | agent/internal/reconciler/reconciler.go:78-247 | and it does come to its end |
| `PauseProgress.BatchAchieves` | agent/internal/api/handlers.go:603-690 | a batch on its own puts its keys into the kernel and enabled rows for them into the table, and changes nothing else |
| `PauseProgress.DeleteAchieves` | agent/internal/api/handlers.go:1506-1528 | a deletion on its own takes the key out of both copies, and changes nothing else |
| `Sagas.Handlers.CreatePeer` | agent/internal/api/handlers.go:222-364 | rows, rules and kernel after every pattern of failures of the calls and of the compensating ones; what success does, the row column by column; refused requests do nothing; after successful compensation rows, conf and kernel are as before, and with room for the peer so is the very firewall table; rules stay in step iff it is no break |
| `Sagas.Handlers.BatchCreatePeers` | agent/internal/api/handlers.go:603-702 | the same for any number of peers, one kernel call, one transaction and one conf write; on success exactly one row for each request, column by column |
| `Sagas.Handlers.RotateKeys` | agent/internal/api/handlers.go:1060-1216 | rows, rules and kernel after every pattern of failures of the calls and of the four compensating ones; after a failure the old rules are gone; when the compensation succeeds, rows are as before, and the kernel is so iff it held what the row says; rules stay in step iff it did not fail or the peer was not in force |
| `Sagas.Handlers.RecordRotation` | agent/internal/api/handlers.go:1151-1197 | key, then preshared key, then conf; a failure undoes the earlier database steps as far as the two compensating calls succeed, each by itself: what the row is in each case |
| `Sagas.Handlers.ReplaceKey` | agent/internal/api/handlers.go:1124-1209 | kernel, rows and conf of a rotation after every pattern of failures |
| `Sagas.RotationRestores` | agent/internal/api/handlers.go:1139-1209 | a failed rotation whose two kernel compensations succeed leaves keys, allowed addresses and preshared keys as they were iff the kernel held what the row says |
| `Sagas.Handlers.DeletePeer` | agent/internal/api/handlers.go:1500-1534 | the row goes iff the database call succeeds, the entry iff the kernel call does, and the firewall stays in step with the remaining rows |
| `Sagas.RestorableExactly` | agent/internal/api/handlers.go:1139-1146 | re-adding the old peer restores keys, allowed addresses and preshared keys iff the kernel entry matched the row (or, if the removal failed, contained it) |
| `Sagas.RollbackRevives` | agent/internal/api/handlers.go:1139-1146 | for a peer that was not in the kernel the rollback never restores the kernel: it puts the old key there |
| `Sagas.PskBack` | agent/internal/api/handlers.go:1190-1197 | renaming back and restoring the preshared key gives back the very rows |
| `Sagas.Handlers.UpdatePeer` | agent/internal/api/handlers.go:833-1010 | kernel, rows and rules after every pattern of failures; rows and rules change only when the statement runs, the kernel also when malformed settings are found after the network call; on success each column given has the new value and every other the old one; rules stay in step iff it is no break |
| `Sagas.Handlers.ApprovePeer` | agent/internal/api/handlers.go:1281-1466 | kernel, rows and rules after every pattern of failures; rules stay in step iff it does not break off after the first statement with a row in force |
| `PeersTable.PeersTable.CreatePeer` | agent/internal/storage/peers.go:135-146 | inserts iff key and address are free; uniqueness is kept |
| `PeersTable.PeersTable.CreatePeersBatch` | agent/internal/storage/peers.go:264-290 | all rows or none: it succeeds iff each row can be inserted after the ones before it; uniqueness is kept |
| `PeersTable.PeersTable.DeletePeer` | agent/internal/storage/peers.go:149-159 | removes that row, and reports when there was none |
| `PeersTable.PeersTable.UpdatePeer` | agent/internal/storage/peers.go:162-230 | one statement: each column given has the new value, every other the old one; a taken address or a failing call changes nothing, an empty update succeeds |
| `PeersTable.Assignments` | agent/internal/storage/peers.go:163-213 | the list of assignments carries out the update on any row, and is empty iff nothing was given |
| `PeersTable.PeersTable.UpdatePeerPublicKey` | agent/internal/storage/peers.go:326-336 | moves the row to the new key, refuses a taken one, reports a missing row |
| `PeersTable.PeersTable.UpsertPeerFromReconcile` | agent/internal/storage/peers.go:236-245 | inserts, or leaves the existing row alone |
| `PeersTable.PeersTable.ApprovePeer` | agent/internal/storage/peers.go:249-260 | enables the row and clears the discovery flag, nothing else |
| `PeersTable.PeersTable.IsClientAddressTaken` | agent/internal/storage/peers.go:340-352 | false exactly when the address constraint would accept the address for that key |
| `PeersTable.PeersTable.UpdateLastSeenEndpoints` | agent/internal/storage/peers.go:357-384 | all given endpoints or none, keys without a row passed over |
| `PeersTable.InsertAllRows` | agent/internal/storage/peers.go:271-284 | a batch insertion adds exactly the new rows and disturbs no other |
| `PeersTable.InsertUndone` | agent/internal/api/handlers.go:683-688 | deleting the keys of a batch gives back the very rows |
| `PeersTable.RenameBack` | agent/internal/api/handlers.go:1190-1193 | renaming a key and back gives back the very rows |
| `DevClient.DevClient.ConfigurePeers` | agent/internal/wireguard/dev_client.go:54-80 | the loop applies the requests in order |
| `DevClient.DevClient.RemovePeer` | agent/internal/wireguard/dev_client.go:82-91 | removes the peer, and errs iff it was not there |
| `DevClient.AgreesIff` | agent/internal/wireguard/client.go:60-69 | client and kernel agree on a configuration iff the peer is new, its addresses are replaced, or none is added |
| `DevClient.BatchAgrees` | agent/internal/wireguard/dev_client.go:54-80 | on a batch of new, distinct keys, as the creating handlers send it, they agree on keys and addresses |
| `KernelRuns.UpdateAddsIff` | agent/internal/api/handlers.go:859-982 | an update, also one turned down or failing, puts a key into the kernel that was not there iff it gets past the network call and moves the address or sends an endpoint or keepalive; a disabled peer is there after a pass iff the removal fails |
| `RowsInStep.UpdateInStep` | agent/internal/api/handlers.go:991-1010 | removing the old jump first on a change of address, and applying otherwise, keeps the table in step with the rows |
| `RowsInStep.UnappliedIff` | agent/internal/api/handlers.go:1003-1009 | a row changed without applying its rules is in step iff it asks for the very rules that are there |
| `RowsInStep.RuledIff` | agent/internal/firewall/iptables.go:118-173 | in a table in step a peer has one jump if it is in force and none otherwise, and its chain is its policy |
| `RowsInStep.Extras` | agent/internal/firewall/iptables.go:165-170 | a table that enforces some peers enforces rows with more peers iff none of the others is in force |
| `AgentRuns.CreateIff` | agent/internal/api/handlers.go:288-364 | a creation leaves rules and rows in step unless a row in force stays although the creation was undone |
| `AgentRuns.BatchIff` | agent/internal/api/handlers.go:603-702 | the same for a batch, for any set of failing row removals |
| `AgentRuns.RemovedIff` | agent/internal/api/handlers.go:1119-1122 | once a peer's rules are removed, a table with any row of that peer is in step iff that row is not in force |
| `AgentRuns.RotateIff` | agent/internal/api/handlers.go:1119-1216 | a rotation leaves rules and rows in step iff it succeeds or the peer was not in force, whichever of the four compensating calls fail |
| `AgentRuns.UpdateIff` | agent/internal/api/handlers.go:985-1010 | an update leaves rules and rows in step iff it is not one whose row is changed, cannot be read back, and needs other rules than the ones left |
| `AgentRuns.ApproveIff` | agent/internal/api/handlers.go:1408-1466 | an approval leaves rules and rows in step iff it does not break off after its first statement with a row in force |
| `AgentRuns.StepIff` | agent/internal/api/handlers.go:281-1534 | exactly which request or pass, with which failures, puts rules and rows out of step |
| `AgentRuns.RunIff` | agent/internal/api/handlers.go:281-1534 | over any run of requests and passes with any failures, rules and rows are in step throughout iff no act is one of these breaks |
| `AgentRuns.HarmlessRunDecides` | agent/internal/firewall/iptables.go:227-271 | after any run without a break every packet gets the verdict of the rows then in force |
| `AgentRuns.GapStays` | agent/internal/reconciler/reconciler.go:106-217 | no break is repaired by a pass that finds exactly the enabled keys in the kernel: it touches no rules |
| `AgentRuns.SyncRepairs` | agent/internal/firewall/iptables.go:227-271 | after any run whatever, breaks included, `Sync` gives every packet the verdict of the rows |
| `KernelRuns.MirrorIff` | agent/internal/api/handlers.go:281-1534 | exactly which request or pass, with which failures of calls and of compensating calls, leaves the kernel entry of a peer with other networks or another preshared key than its row |
| `KernelRuns.RunMirrorsIff` | agent/internal/api/handlers.go:281-1534 | over any run with any failures all entries say what their rows say throughout iff no act is one of these |
| `KernelRuns.BatchMirrors` | agent/internal/api/handlers.go:603-702 | a batch leaves all entries as their rows say iff no peer of it that stays in both copies has a row with another network |
| `KernelRuns.RotateMirrors` | agent/internal/api/handlers.go:1119-1209 | a rotation leaves entries as rows say unless the peer has a PSK and the rollback is half done: the row renamed back fails and the new entry stays, or the PSK alone is not restored and the old entry is there |
| `KernelRuns.UpdateMirrors` | agent/internal/api/handlers.go:859-988 | which updates, successful, turned down or failing, leave an entry other than its row |
| `KernelRuns.UpdatedEntry` | agent/internal/api/handlers.go:859-982 | networks and PSK of the entry after an update that is told to the kernel; every other entry, and the kernel otherwise, is as before |
| `KernelRuns.UpdatedSettings` | agent/internal/api/handlers.go:957-982 | endpoint and keepalive of the entry after an update: what the request says, where it can be read and is sent, else as before |
| `KernelRuns.UpdatedRebuiltIff` | agent/internal/api/handlers.go:833-988 | after an update without failures the entry is what a pass would build from the new row iff nothing had to be cleared in the kernel and the row has no second network |
| `KernelRuns.CreatedRebuiltIff` | agent/internal/api/handlers.go:266-342 | a created peer that is lost is rebuilt by a pass just as it was iff its row lists one network |
| `KernelRuns.PrefixIff` | agent/internal/api/handlers.go:1735-1749 | with the agent's own routes an IPv4 client has one network iff there is no IPv6 prefix or the derived address cannot be read as another network |
| `KernelRuns.ApproveMirrors` | agent/internal/api/handlers.go:1408-1455 | which approvals leave an entry other than its row |
| `KernelRuns.RefusedIff` | agent/internal/api/handlers.go:860-940 | an update turned down for its settings leaves the kernel alone iff it was stopped before the network call, moves no address, or asks for the network that is there |
| `KernelRuns.RefusalMovesPeer` | agent/internal/api/handlers.go:912-943 | a concrete update, with an endpoint without port or keepalive 70000, that is turned down with its address in the kernel, and no run of passes repairs it |
| `KernelRuns.OneNetworkIff` | agent/internal/api/handlers.go:1735-1749 | kernel and row get the same networks for an address iff no second network of the row can be read |
| `KernelRuns.CreatedRestorableIff` | agent/internal/api/handlers.go:266-270 | a failed rotation can restore a created peer's entry iff its row lists one network |
| `KernelRuns.MirroredRotationRestores` | agent/internal/api/handlers.go:1139-1209 | while entries say what rows say, a failed rotation undone in the kernel leaves keys, allowed addresses and preshared keys as they were |
| `KernelRuns.PassRepairsIff` | agent/internal/reconciler/reconciler.go:106-217 | whatever fails, an entry says what its row says after a pass iff it did before or the peer is disabled and taken out |
| `KernelRuns.PassesRepairNothing` | agent/internal/reconciler/reconciler.go:106-217 | an enabled peer's entry that is other than its row stays so over any number of passes |
| `Sagas.OnlyNewKeys` | agent/internal/api/handlers.go:671-675 | removing the batch's keys undoes the kernel configuration exactly |
| `RowsInStep.RemoveInStep` | agent/internal/api/handlers.go:1531-1534 | removing a deleted peer's rules keeps the table in step with the other rows |
| `ConfFile.ParseConf` | agent/internal/confwriter/writer.go:49-140 | the buffer-building loop computes the line-by-line parser |
| `ConfFile.WriteConf` | agent/internal/confwriter/writer.go:145-209 | the file written is the kept text before `[Interface]`, the kept interface text, and the lines of the peers in order; what they say is stated by `ConfBody.FieldsRoundTrip` |
| `ConfFile.ParseConfComments` | agent/internal/confwriter/writer.go:215-280 | the scanning loop computes the line-by-line scanner |
| `ConfFile.Sanitize` | agent/internal/confwriter/writer.go:284-288 | the result holds no newline and no carriage return |
| `ConfKinds.MetaKind` | agent/internal/confwriter/writer.go:233-250 | a written metadata line is read back as its key and trimmed value, whatever the value holds |
| `ConfLaws.OnePeer` | agent/internal/confwriter/writer.go:88-134 | one written section closes the open one and is read under its own key |
| `ConfLaws.InterfaceIff` | agent/internal/confwriter/writer.go:66-105 | the parser collects an interface section iff some line of the file reads `[Interface]`, wherever it stands |
| `ConfTheorems.Reread` | agent/internal/confwriter/writer.go:49-209 | what the parser collects from any written file, with or without `[Interface]` |
| `ConfTheorems.PutPutIff` | agent/internal/confwriter/writer.go:142-209 | writing ps then qs is byte for byte writing qs alone iff the file has `[Interface]` or the first of ps has no metadata |
| `ConfTheorems.PutPutFails` | agent/internal/confwriter/writer.go:109-121 | on an absent file, writing any named peer and then none leaves the name behind |
| `ConfTheorems.HeadIsKept` | agent/internal/confwriter/writer.go:142-160 | re-parsing a written file gives the same text before `[Interface]` and the same interface text |
| `ConfTheorems.KeysRoundTrip` | agent/internal/confwriter/writer.go:46-48 | `ParseConf` reads back exactly the written keys, in order |
| `ConfTheorems.MetadataRoundTrip` | agent/internal/confwriter/writer.go:211-214 | `ParseConfComments` recovers exactly the peers with some metadata, with sanitized and trimmed values |
| `ConfBody.FieldsRoundTrip` | agent/internal/confwriter/writer.go:163-202 | parsing any written file finds one section per peer, in order, and in it each field of the peer under its own label with its own value, optional ones exactly when set, keepalive as the same number |
| `ConfParts.NothingDropped` | agent/internal/confwriter/writer.go:66-140 | of any file the parser keeps every line, as often as it occurs, in one of its parts, except the metadata comments under `[Interface]` |
| `ConfKinds.SanitizeConcat` | agent/internal/confwriter/writer.go:284-288 | sanitizing works character by character |
| `ConfKinds.SanitizeEach` | agent/internal/confwriter/writer.go:284-288 | a newline becomes a blank, a carriage return goes, any other character stays |
| `RateLimiterRuns.RateLimiter.Allow` | agent/internal/middleware/ratelimit.go:85-112 | the answer and the new bucket, no other bucket touched |
| `RateLimiterRuns.RateLimiter.DropIdle` | agent/internal/middleware/ratelimit.go:124-131 | exactly the buckets idle for more than five minutes go |
| `RateLimit.ExactOverRuns` | agent/internal/middleware/ratelimit.go:84-112 | a request at t is allowed iff for every earlier instant s, and for t, the requests allowed in [s, t] including this one stay within burst + rate * (t - s) |
| `RateLimiterRuns.LimiterIsExact` | agent/internal/middleware/ratelimit.go:84-134 | the same for each connection among all, with cleanups at any time, which never change an answer |
| `RateLimiterRuns.CleanupWouldMatter` | agent/internal/middleware/ratelimit.go:114-134 | a concrete run that tells, when an idle bucket is not full again |
| `RateLimiterRuns.CleanupSafeIff` | agent/cmd/wg-sockd/main.go:360-363 | no run can observe the cleanup iff burst <= 300 * rate, which main.go's equal numbers satisfy |
| `Debounce.DebouncedWriter.Notify` | agent/internal/confwriter/debounce.go:38-55 | sets pending and a fresh timer unless closed |
| `Debounce.DebouncedWriter.BeginFlush` | agent/internal/confwriter/debounce.go:59-71 | the locked section of Flush: no timer, pending read and kept |
| `Debounce.DebouncedWriter.TakePending` | agent/internal/confwriter/debounce.go:73-80 | exactly one flush takes a pending notification |
| `Debounce.DebouncedWriter.BeginClose` | agent/internal/confwriter/debounce.go:89-103 | the locked section of Close: closed, no timer, pending read and kept |
| `Debounce.DebouncedWriter.BeginDirectWrite` | agent/internal/confwriter/debounce.go:108-116 | the locked section of DirectWrite: no timer, nothing pending |
| `Debounce.NothingLost` | agent/internal/confwriter/debounce.go:38-119 | in every interleaving each accepted notification is pending with a timer or flush on its way, carried by a flush, written from a later read, or cancelled; flushes write at most once per accepted notification |
| `Debounce.CloseFlushesAll` | agent/internal/confwriter/debounce.go:88-103 | in every run with a Close in it, once all flushes are over, each notification ever accepted came before the Close and was written or cancelled |
| `Debounce.CloseStops` | agent/internal/confwriter/debounce.go:42-44 | after Close no run accepts a notification or sets a timer |
| `Debounce.TimerUnset` | agent/internal/confwriter/debounce.go:59-116 | Flush, Close, DirectWrite and the timer itself leave no timer set |
| `Debounce.SilentWithoutNotify` | agent/internal/confwriter/debounce.go:49-55 | from a moment without a timer, as after Flush, Close and DirectWrite, no flush starts by itself before another notification is accepted |
| `LoginRate.LoginRateLimiter.Check` | agent/internal/auth/login_rate.go:41-62 | counts the stored failures inside the window |
| `LoginRate.LoginRateLimiter.RecordFailure` | agent/internal/auth/login_rate.go:65-86 | appends and trims, for that address only |
| `LoginRate.LoginRateLimiter.Reset` | agent/internal/auth/login_rate.go:89-93 | forgets that address only |
| `LoginRate.LoginRateLimiter.DropStale` | agent/internal/auth/login_rate.go:112-128 | drops exactly the addresses without a recent failure |
| `LoginRate.ChecksFullLog` | agent/internal/auth/login_rate.go:39-131 | under trimming and cleanup Check answers as if every failure since the last reset were kept |
| `LoginRate.AllowedIff` | agent/internal/auth/login_rate.go:41-62 | over any run Check passes iff fewer than maxAttempts failures of the address lie after the cutoff with no success of it after them |
| `LoginRate.WindowsBounded` | agent/internal/auth/handlers.go:123-162 | with at most k attempts of an address in flight, no window since its last reset holds more than maxAttempts + k - 1 recorded failures |
| `LoginRate.BoundIsReached` | agent/internal/auth/handlers.go:123-162 | the bound is sharp: for every limit and every k some run records maxAttempts + k - 1 failures in one window |
| `ChallengeStore.ChallengeStore.Store` | agent/internal/auth/webauthn.go:60-81 | on the FIFO list: the oldest live challenge goes iff 100 are live, the new one comes last; the eviction loop ends |
| `ChallengeStore.ChallengeStore.Get` | agent/internal/auth/webauthn.go:85-101 | removes the challenge in any case, and answers its data iff it was live and within its TTL |
| `ChallengeStore.ChallengeStore.Cleanup` | agent/internal/auth/webauthn.go:121-134 | removes exactly the expired challenges, and consumed tokens from the order |
| `ChallengeStore.LiveCount` | agent/internal/auth/webauthn.go:72 | the size of the map is the length of the FIFO list, although the order keeps consumed tokens |
| `ChallengeStore.CleanupResult` | agent/internal/auth/webauthn.go:121-134 | map and order after a cleanup stand for the unexpired part of the list |
| `ChallengeRuns.RedeemedWasStored` | agent/internal/auth/webauthn.go:83-101 | over any run, a redeemed challenge was stored, is within its TTL, and was not asked for before |
| `ChallengeRuns.RedeemedOnce` | agent/internal/auth/webauthn.go:35-36 | over any run with fresh tokens no token is redeemed twice |
| `ChallengeRuns.StoredIsRedeemed` | agent/internal/auth/webauthn.go:58-101 | conversely, a challenge within its TTL, not asked for since and followed by fewer than 100 others is handed out with its own data |
| `ChallengeRuns.NeverOverCap` | agent/internal/auth/webauthn.go:60-81 | over any run at most 100 challenges are live, and after a cleanup none is older than 60 seconds |
| `SessionStore.SessionStore.EvictOldest` | agent/internal/auth/session.go:160-174 | removes a session of minimal creation time, and none only when there is none |
| `SessionStore.SessionStore.Create` | agent/internal/auth/session.go:45-67 | makes room only when full, by the oldest session, and adds the new one |
| `SessionStore.SessionStore.Get` | agent/internal/auth/session.go:71-87 | answers a session within the TTL of its last activity, and drops an expired one |
| `SessionStore.SessionStore.Touch` | agent/internal/auth/session.go:92-99 | moves the last activity of that session only |
| `SessionStore.SessionStore.DeleteByUsername` | agent/internal/auth/session.go:109-117 | removes exactly that user's sessions |
| `SessionStore.SessionStore.Cleanup` | agent/internal/auth/session.go:147-154 | removes exactly the expired sessions |
| `SessionStore.SessionStore.Admit` | agent/internal/auth/middleware.go:47-59 | accepts a cookie iff its session is fresh, and only user-initiated requests extend it |
| `SessionStore.NeverOverfull` | agent/internal/auth/session.go:55-58 | over any run the store never holds more than max(1, maxSessions) sessions |
| `SessionStore.AcceptedIff` | agent/internal/auth/session.go:69-99 | over any run a cookie is accepted at t iff nothing ended the session since its login and the login, the user's non-polling requests and t leave no gap longer than the TTL |
| `SessionStore.NeverWithoutLogin` | agent/internal/auth/session.go:71-78 | a token no login issued is never accepted |
| `Bits.AndMask` | agent/internal/wireguard/ipv6.go:51-53 | AND with a mask of k ones is the remainder modulo 2^k |
| `Bits.MaskWraps` | agent/internal/wireguard/ipv6.go:52-53 | the mask is right in uint32 arithmetic too, where for a /0 the shift gives zero and the subtraction wraps |
| `DeriveIPv6.DeriveIPv6` | agent/internal/wireguard/ipv6.go:18-56 | errors, skipped inputs, and the text: prefix, decimal of the address modulo 2^(32-m) (for a /32 the last octet), `/128` |
| `DeriveIPv6.SuffixIs` | agent/internal/wireguard/ipv6.go:41-54 | the number in the text: the address less the start of its subnet, so the last octet for a /24, the last two for a /16; for a /32 the last octet |
| `DeriveIPv6.DerivedIsInjective` | agent/internal/wireguard/ipv6.go:46-55 | on one subnet shorter than /32, equal texts iff equal addresses |
| `DeriveIPv6.HostRoutesCollide` | agent/internal/wireguard/ipv6.go:41-44 | for /32 clients, equal texts iff equal last octets |
| `DeriveIPv6.HostRouteCollision` | agent/internal/wireguard/ipv6.go:41-44 | two clients of one /16 that get the same address |
| `DeriveIPv6.GroupsDiffer` | agent/internal/wireguard/ipv6.go:55 | decimal digits read as a hexadecimal group (section 2.2 of RFC 4291) still tell hosts apart |
| `DeriveIPv6.FitsOneGroup` | agent/internal/wireguard/ipv6.go:55 | every host of the subnet fits one four-digit group iff the prefix length is at least 19 |
| `ClientAddresses.NextAddress` | agent/internal/api/handlers.go:1755-1851 | which reply in which situation: the lowest unoccupied host of the scan, and subnet_full iff there is none |
| `ClientAddresses.HostInside` | agent/internal/api/handlers.go:1834-1836 | no host of the scan wraps in uint32; each lies strictly between network and broadcast address, in the same subnet |
| `ClientAddresses.ExhaustedIff` | agent/internal/api/handlers.go:1815-1851 | the subnet is full iff every address strictly between network and broadcast address, up to the 65535th, is occupied |
| `ClientAddresses.LowestFreeIsLeast` | agent/internal/api/handlers.go:1834-1846 | the address answered is inside the subnet, free, and the lowest such |
| `ClientAddresses.RoomIsFound` | agent/internal/api/handlers.go:1834-1851 | pigeonhole: with fewer occupied addresses than scanned hosts the search succeeds |
| `ClientAddresses.FewPeersFit` | agent/internal/api/handlers.go:1798-1851 | so it succeeds whenever peers and interface address together number fewer than the scanned hosts |
| `ClientAddresses.ServerRoutesDiffer` | agent/internal/api/handlers.go:1735-1749 | the first route of two IPv4 clients' server AllowedIPs is the same iff the addresses are |
| `ClientAddresses.RoutesOf` | agent/internal/api/handlers.go:1735-1749 | the routes of an IPv4 client are its /32 and, exactly when there is a prefix, the derived /128 |

## Left out

- HTTP decoding, JSON, cookies, status texts, the configuration files of clients, the CLI, the web UI, discovery, health and metrics: little state or no hard property.
- Columns id, created_at, profile, client_dns and client_mtu of a row; validation of requests before the first effect, except the uniqueness of client_address and the existence of the row; reads of the database that fail before it. Validation after an effect is modelled.
- `ForwardVerdict.ForwardAfterRun`: rules that others put before the jump in FORWARD after the agent came are not part of the run.
- `KernelRuns.MirrorIff`: says nothing of rows still marked as discovered, whose entries hold whatever the kernel had, nor of endpoint and keepalive, which the kernel changes by itself.
- The iptables binary failing for reasons outside the table semantics (a missing binary, a lock timeout), its check against jump loops, and counters; `Walk` bounds nested jumps by `depth` instead.
- Moving an allowed address from one kernel peer to another when two peers claim it; `Configure` changes the configured peer only.
- `ReconcileOnce` with handler calls in between its own steps is modelled in `PauseLock` on keys and enabled flags only; allowed addresses, firewall and conf are not part of that state machine. Key rotation, update and single creation do not take the pause lock and are not threads of it.
- `Sagas.Handlers.RotateKeys`: does not claim that chains, endpoint or keepalive are restored on failure, because the code does not restore them; `AgentRuns.RotateIff` says when the table is then out of step with the rows.
- Debounced conf writes of `UpdatePeer`, `ApprovePeer` and `DeletePeer` are the subject of `Debounce`, not of these handlers.
- `Sagas.Handlers.CreatePeer`: the very table is claimed to be restored only when both dispatch jumps existed and the chain was unused; otherwise what `ensureDispatchChain` added stays, as in the code.
- `ReconcilePass.ReconcileLoop.RewriteConf`: the conf is a set of entries there, without creation times and without order; its text is the subject of `ConfFile`.
- The 64 KiB line limit of `bufio.Scanner` in `ParseConfComments`; its treatment of a final carriage return is absorbed by trimming. Read errors other than a missing file.
- `Debounce.NothingLost`: a conf write that fails counts as written, because the code only logs the failure; the order of overlapping writes is not modelled.
- `ChallengeStore.ChallengeStore.Store`: the fallback to an all-zero token when the random source fails; tokens are fresh.
- `SessionStore.SessionStore.Admit`: Get and Touch of one request happen at one instant; the two clock readings of Create are one.
- `LoginRate.WindowsBounded`: logins over the Unix socket, which skip Check, are not steps of the machine.
- `ClientAddresses.NextAddress` and `DeriveIPv6.DeriveIPv6`: one abstract parser stands for `net.ParseCIDR` and `netip.ParsePrefix`; the printed IPv6 text in `serverAllowedIPs` is a parameter.
- Floating-point rounding in the token bucket: tokens and time are reals.
- bcrypt, WebAuthn ceremonies, random tokens and key generation: abstract verdicts and fresh values.
- agent/internal/wireguard/cidr.go: the set subtraction itself is in netipx, which is not part of this model.
