# RobiNET, modelled and proved

RobiNET builds small overlay networks. A hub hands out address space, carries
enrollment requests to the owner of each instance, keeps the list of members, and
serves the route table and the blocklist everybody reads. It signs nothing and can
revoke nothing. This project models the hub's allocator and its membership state
machine, the owner's and the connector's side of them, the tenant's name-space
router, and the small guards around the API, and proves what they promise over all
inputs and over whole runs.

`dafny verify dfyconfig.toml` checks everything.

## How the model is laid out

| file | models |
|---|---|
| `Bits.dfy`, `Netip.dfy` | big-endian bytes as numbers; addresses and prefixes, with the IPv4-mapped 16-byte form of section 2.5.5.2 of RFC 4291 |
| `Ipam.dfy`, `Pools.dfy` | the two-ended address search, its byte loops, and whole runs of one pool |
| `Overlays.dfy`, `Store.dfy` | stepping between subnets, carving overlays out of pools, creating and finding instances, names |
| `Membership.dfy`, `Instance.dfy` | one instance as a value with its steps, and as the object the hub updates in place |
| `Invariant.dfy`, `Answers.dfy`, `Bands.dfy`, `Removal.dfy` | what every step keeps; what each step answers and changes, case by case; runs without removal and who is let in; what a removal leaves |
| `Reuse.dfy`, `Breach.dfy`, `Unguarded.dfy` | why an address may be given out again, that the guard it takes is exact, and three runs that break it |
| `Stranded.dfy`, `Owner.dfy`, `Desks.dfy` | what a name refused after the approval leaves behind, how the owner finds a request, and both roles together when lists are out of date |
| `RouteTable.dfy`, `Polling.dfy`, `Sorting.dfy` | routes, resolvers and the blocklist, and how a refusal reaches a connector |
| `DnsRouter.dfy`, `NameTable.dfy`, `Text.dfy` | the name-space router and its table |
| `Nonces.dfy`, `Limiter.dfy`, `Endpoint.dfy` | the replay guard, the rate limiter, and the endpoint printer and parser |

Conventions. Keys, fingerprints and certificates are opaque strings compared for
equality; a public key's fingerprint never equals an owner's identity, because one
is a hex digest and the other starts with `ed25519:`. Times are integers, read once
per call and passed in. Random identifiers are parameters. Walking a map picks its
keys in an arbitrary order. `Store.Update` does not roll back, so the model's
`Decide` keeps the approval and the bundle it wrote when the name is refused
afterwards; for the same reason there is no claim that an approved record has a
member. The comment on `Resolve` (internal/hub/store.go:480-486) says two instances may
share a name; `Add` refuses that, and the model follows the code. Letter case and white space are those of ASCII.

Findings the proofs led to:

- What keeps an address from being shared is that approved records are left as they
  are. Deciding about rejected records is harmless, and so is approving again with the
  same certificate. Every other disturbance (another certificate, a rejection,
  forgetting, a new record under the same identifier, an approval that names no
  certificate) lets harmless steps alone end with two usable certificates for one
  address. The hub takes all of these.
- The owner's machine lists pending requests first and decides later, with nothing held
  in between. That is enough as long as no request is approved between a list and a
  decision taken from it, however old the lists are. Two commands about one request
  that both list it before either decides are not: the later one disturbs the approved
  record, by approving, rejecting or forgetting it, and two usable certificates for one
  address can follow.
- An approval whose name is refused has put a certificate out that no ban or removal
  can ever reach, as long as nobody goes back to the record.
- The limiter lets at most `2 * limit - 1` calls of a key through in one window,
  one less than two full buckets, and that number is reached.
- A signed request can be accepted a second time exactly when its time stamp is not
  before the moment of its first acceptance.
- An endpoint is read back exactly when the url parser takes the hub's host and port
  and the endpoint does not end in white space, which the reader trims.
- Two aliases give different tables in different orders exactly when one is in the way
  of the name the other stands for and they stand for different networks.

## Model

| member | source | states |
|---|---|---|
| `Overlays.AddAt` | internal/hub/ipam.go:194-214 | the byte-carry loop adds exactly 2^shift to the 16-byte number, and its flag is exactly a carry out of 128 bits |
| `Overlays.NextSubnet` | internal/hub/ipam.go:187-225 | the next subnet is one step of 2^(BitLen-size) up; past the end IPv6 fails and IPv4 leaves the IPv4-mapped block, so no IPv4 pool contains it |
| `Ipam.SetHostBits` | internal/hub/ipam.go:155-161 | setting the low h bits one by one adds 2^h - 1 to an aligned 16-byte number |
| `Ipam.LastAddr` | internal/hub/ipam.go:151-171 | the result is network address + 2^(BitLen-bits) - 1 in the prefix's own family |
| `Ipam.UsableIsTested` | internal/hub/ipam.go:174-184 | containment, the network test and the Next-based broadcast test together say exactly that an address is between the first and last usable one |
| `Ipam.LowestFree` | internal/hub/ipam.go:107-121 | the least free usable address, and none exactly when none is free |
| `Ipam.HighestFree` | internal/hub/ipam.go:129-148 | the greatest free usable address, and none exactly when none is free |
| `Ipam.FromPool` | internal/hub/ipam.go:84-103 | a key keeps its address; otherwise connectors get the greatest and others the least address that is neither held nor reserved |
| `Pools.UsableCount` | internal/hub/ipam.go:105-121 | a prefix has as many usable addresses as it spans, less the network address and, for IPv4 shorter than /31, the broadcast address |
| `Pools.FreshKeyFits` | internal/hub/ipam.go:84-103 | a key without an address gets one exactly while fewer addresses are held than there is room for, and the pool stays injective and in range |
| `Pools.FitsExactly` | internal/hub/ipam.go:84-148 | any interleaving of tenants and connectors fits exactly min(distinct keys, usable minus reserved) of them |
| `Pools.Sticky` | internal/hub/ipam.go:14-17 | once a key holds an address it holds that one in every later state |
| `Pools.TenantsBelowConnectors` | internal/hub/ipam.go:18-21 | in every run the taken addresses are one low and one high segment, and every tenant address is below every connector address |
| `Overlays.AllocateOverlay` | internal/hub/ipam.go:243-268 | the lowest free slice of the first pool with room; full only when every slice of every pool is taken; a size error only after full pools |
| `Overlays.RefuseOverlap` | internal/hub/config.go:254-263 | configuration is refused exactly when two pools share an address |
| `Overlays.SliceSizes` | internal/hub/ipam.go:243-268 | a pool no larger than an instance is one slice, and a pool cut into single addresses has each of its addresses |
| `Overlays.CarvedDisjoint` | internal/hub/ipam.go:236-242 | two different slices of pools that do not overlap share no address |
| `Netip.OverlapsIsSharing` | internal/hub/config.go:257 | comparing the bits both prefixes fix answers exactly whether they share an address |
| `Store.Carve` | internal/hub/hub.go:132-150 | an overlay is the first choice of the pools and its two reserved addresses are its two lowest usable ones; none exactly when every pool up to the first ill-sized one is full or the first choice has fewer than two usable addresses, later pools not being tried |
| `Store.FreePort` | internal/hub/hub.go:544-557 | the lowest unused port of the range, none exactly when all are used |
| `Store.Store.Prepare` | internal/hub/hub.go:131-173 | what a creation picks is unused, lowest, and in the first pool with room, per family; refused exactly when a family cannot be carved or all ports are used |
| `Store.Store.CreateInstance` | internal/hub/hub.go:131-225 | a creation taken as one step stores exactly what it picked or changes nothing; refused exactly when nothing could be picked or the identifier or the name is there |
| `Store.LiveOverlaysDisjoint` | internal/hub/hub.go:131-225 | in every state of every serial run of creations and deletions live overlays are pairwise disjoint as address sets, in each family, and ports distinct |
| `Store.ParseName` | internal/hub/name.go:22-49 | gives exactly the name the text is a spelling of, character by character: any letters as capitals, any white space around it; none when it spells no name |
| `Store.NamesAre` | internal/hub/name.go:22-58 | one to sixty-three letters, digits and hyphens, no hyphen first or last, and not sixteen hex characters |
| `Store.Store.Add` | internal/hub/store.go:430-449 | inserts exactly when neither the identifier nor the name is there, and never touches an instance that is |
| `Store.Store.Remove` | internal/hub/store.go:452-462 | drops exactly that instance |
| `Store.Store.Resolve` | internal/hub/store.go:487-514 | whatever the walk order: the identifier first, else the one instance with the folded name, else not found or ambiguous |
| `Store.NamesAlwaysResolve` | internal/hub/store.go:436-443 | over every interleaving of insertions and removals names stay unique, and a lookup gives an instance exactly when the reference is its identifier or a spelling of its name, and nothing otherwise, never an ambiguous answer |
| `Instances.Instance.constructor` | internal/hub/hub.go:175-209 | a new instance is the fresh state with its owner as only member, and satisfies the invariant |
| `Instances.Instance.Enroll` | internal/hub/hub.go:319-380 | the in-place enrollment does exactly the step, in every branch, and keeps the invariant |
| `Instances.Instance.Decide` | internal/hub/hub.go:446-529 | the in-place decision does exactly the step, with the approval kept when the name is refused, and keeps the invariant |
| `Instances.Instance.Forget` | internal/hub/hub.go:533-541 | drops exactly that record and keeps the invariant |
| `Instances.Instance.MemberIn` | internal/hub/hub.go:738-745 | any member meant by the reference, none only when none is meant |
| `Instances.Instance.Ban` | internal/hub/hub.go:749-767 | records a ban on a member the reference means unless it is banned, and keeps the invariant |
| `Instances.Instance.Unban` | internal/hub/hub.go:771-789 | records an unban on a member the reference means if it is banned, and keeps the invariant |
| `Instances.Instance.RemoveMember` | internal/hub/hub.go:824-860 | erases a banned member that is not the owner, burning key and certificate, and keeps the invariant |
| `Instances.Instance.Allocate` | internal/hub/ipam.go:22-35 | the pick avoids allocations, members' addresses and the two reserved ones, and is written down |
| `Instances.Instance.Allocate6` | internal/hub/ipam.go:44-61 | the same over the IPv6 pool, and nothing at all without one |
| `Invariant.CreatedInv` | internal/hub/hub.go:144-209 | a fresh instance satisfies the invariant |
| `Invariant.StepKeepsInv` | internal/hub/hub.go:319-860 | every step, refusals and half-done refusals included, on records of any status: one record per key; lighthouse, owner and allocations usable and pairwise distinct; records and members hold exactly their key's allocation; non-empty names distinct; removed keys gone |
| `Invariant.RunKeepsInv` | internal/hub/hub.go:319-860 | the invariant holds at the end of every run |
| `Invariant.PickIgnoresMembers` | internal/hub/ipam.go:63-80 | reading members' addresses changes no pick, because the allocation map already has them |
| `Invariant.AddressesApart` | internal/hub/ipam.go:105-148 | in a state with the invariant an allocation is inside the prefix, neither network nor broadcast address, neither reserved one, and nobody else's |
| `Answers.FreshExactly` | internal/hub/hub.go:144-209 | a fresh instance: its owner as only member, under the instance's name, at the second usable address of each overlay, the lighthouse at the first, nothing asked, granted or held against anybody |
| `Answers.ApprovalExactly` | internal/hub/hub.go:454-515 | an approval with a certificate is on record whatever follows; it is refused exactly when its name, the one decided on or else the one asked for, is not empty and belongs to a member under another key; otherwise the key is a member under that name with what was granted, and nobody else changes |
| `Answers.DecisionExactly` | internal/hub/hub.go:446-529 | the other refusals each with its cause and without effect; a rejection takes back the bundle and no member |
| `Answers.ForgetExactly` | internal/hub/hub.go:533-541 | exactly that record goes, and only a missing one is refused |
| `Answers.BanExactly` | internal/hub/hub.go:749-767 | after a ban the member is banned in every case and no certificate leaves the blocklist; refused exactly if it was banned before, and then nothing changes |
| `Answers.UnbanExactly` | internal/hub/hub.go:771-789 | the mirror image |
| `Answers.RemovalExactly` | internal/hub/hub.go:824-860 | refused exactly for the owner or a member that is not banned; otherwise exactly that key's member, addresses and records go, and key and certificate are burned |
| `Answers.NameMeans` | internal/hub/hub.go:738-745 | a member's name means that member and no other, unless a key begins with it |
| `Answers.KeyMeans` | internal/hub/hub.go:738-745 | the first characters of a key mean its member |
| `Bands.RunIsPoolRun` | internal/hub/hub.go:346-377 | a run without removals is a pool run: its requests are enrollments at increasing steps of the run, with the pool's state just before and just after each being the family's allocations there |
| `Bands.InstanceIsBanded` | internal/hub/ipam.go:18-35 | in any such run from a fresh instance, per family: tenants below connectors, one low and one high segment, never more keys than there is room for; a key's kind is that of the very enrollment before which it had no address and after which it had one, and that enrollment passed the token and the tenant checks |
| `Bands.RefusedExactly` | internal/hub/hub.go:295-329 | an enrollment is refused at the door exactly when the request is malformed, the owner or a tenant announcing routes asks, a connector lacks the token an instance has, or the key was removed, each with its own answer, and nothing changes |
| `Bands.AdmittedExactly` | internal/hub/hub.go:346-379 | a welcome new key is admitted exactly when a family has room, with an address in exactly the families that do |
| `Bands.AskingAgain` | internal/hub/hub.go:331-345 | a welcome key with a record keeps it, its addresses and what was decided; only a rejection is reopened |
| `Bands.RetryAfterReject` | internal/hub/hub.go:331-345 | a rejected key that asks again is pending on its own record, at its own addresses, and nothing else changes |
| `Removal.RemovalIsFinal` | internal/hub/hub.go:843-860 | in every later state of every run: no record, no member, no address, every enrollment of the key refused, its certificate still blocked |
| `Removal.AddressForLife` | internal/hub/ipam.go:14-17 | between any two states of any run, removals included, a key that holds an address in both holds the same one |
| `Reuse.AddressNeverShared` | internal/hub/hub.go:446-541 | in every run that leaves approved records as they are, with decisions on pending and on rejected ones: one certificate per key, none for the lighthouse's or the owner's address, and of two certificates for one address at least one is blocked, per family, counting certificates whose name was refused |
| `Breach.StepKeepsExactly` | internal/hub/hub.go:446-541 | a legal step keeps the invariant behind that exactly when it is guarded |
| `Breach.GuardIsExact` | internal/hub/hub.go:319-541 | from every state with that invariant, a step is guarded exactly when no guarded steps after it can lead to two usable certificates for one address; no certificate is issued to two keys up to the step, nor in the runs that show a breach |
| `Unguarded.DisturbingShares` | internal/hub/hub.go:446-541 | in every instance with room for a tenant in some family, with or without a token: approving an approved record again, rejecting it, or forgetting it each has a concrete run that ends with two unblocked certificates for the same addresses |
| `Unguarded.RacingShares` | internal/tenant/tenant.go:990-1128 | each of these runs is one the owner's machine can take part in: two commands list the request as pending, then both act on it |
| `Desks.OwnerNeverShares` | internal/tenant/tenant.go:990-1171 | in every run of hub steps, lists, and decisions and forgettings taken from any earlier list: if no request is approved between a list and a decision about it taken from that list, the hub sees a guarded run and no address is shared |
| `Stranded.NameDecidesReach` | internal/hub/hub.go:474-501 | in every later state where nobody goes back to an approved record, a certificate belongs to a member or is burned exactly when its name was free at the decision; otherwise its bundle stays on record, its address stays its key's, and it is never blocked |
| `Owner.MatchPending` | internal/tenant/tenant.go:1178-1199 | an exact identifier wins, a leading part only when one entry has it, otherwise none or the count |
| `Owner.AllPending` | internal/tenant/tenant.go:960-988 | lists exactly what is pending in the owned instances that could be read, each entry once |
| `Owner.Pending` | internal/hub/hub.go:430-443 | lists exactly the pending requests, each once |
| `Owner.FindPending` | internal/tenant/tenant.go:1164-1171 | over all owned instances: what is found is pending and the only request the reference can mean, an exact identifier first; none exactly when no pending request starts with it |
| `Owner.FoundStaysGuarded` | internal/tenant/tenant.go:1164-1171 | however old the list is when the decision or the forgetting arrives, over any run in between, it meets the guard unless that very request was approved meanwhile |
| `RouteTable.RoutesOf` | internal/hub/hub.go:607-628 | one route per prefix of each connector that is not banned, in whatever walk order |
| `RouteTable.ResolversOf` | internal/hub/hub.go:631-656 | one resolver per connector with a zone that is not banned |
| `RouteTable.BlockedIn` | internal/hub/hub.go:704-724 | the banned members' and the burned certificates, each as often, in order |
| `RouteTable.BlockedInIsDetermined` | internal/hub/hub.go:704-724 | the answer is the same sequence for every walk order |
| `RouteTable.BlocklistIsBlocked` | internal/hub/hub.go:704-724 | it names exactly the banned members' and burned non-empty certificates |
| `RouteTable.BanTakesRoutes` | internal/hub/hub.go:749-763 | a ban takes away exactly that member's routes and resolver |
| `RouteTable.BanBlocks` | internal/hub/hub.go:749-763 | a ban adds exactly that member's certificate to the blocklist |
| `RouteTable.UnbanRestoresRoutes` | internal/hub/hub.go:771-785 | unban after ban restores routes and resolvers as multisets |
| `RouteTable.UnbanRestoresBlocklist` | internal/hub/hub.go:771-785 | unban after ban restores the blocklist |
| `RouteTable.RemoveIsInvisible` | internal/hub/hub.go:868-870 | removing a banned member leaves routes, resolvers and blocklist as they were |
| `RouteTable.ApprovalEffect` | internal/hub/hub.go:503-515 | admitting a new key adds exactly its granted routes and its zone, and blocks nobody |
| `Polling.Except` | internal/connector/connector.go:444-456 | exactly the list without the entry, and the list itself when there is nothing to drop |
| `Polling.Connector.Tick` | internal/connector/connector.go:375-422 | the installed list changes only to what was read, less the connector's own entry, and the ban flag follows what was read |
| `Polling.PollInstalls` | internal/hub/hub.go:419-427 | a poll that is read and applied leaves exactly the hub's blocked certificates but for the connector's own |
| `Polling.FailedPollKeeps` | internal/connector/connector.go:375-422 | a poll that is lost, not answered to an approved record, or not taken by the reload changes nothing |
| `Polling.BurnedIsRefusedEverAfter` | internal/connector/connector.go:400-422 | a certificate burned before such a poll is refused after it for ever, over any interleaving of hub steps and polls |
| `Polling.ConnectorMeetsOneHolder` | internal/connector/connector.go:400-422 | after such a poll and for ever after, over any interleaving, of two certificates issued to other keys for one address the connector refuses at least one |
| `DnsRouter.RestoreUndoesRewrite` | internal/tenant/dnsrouter.go:75-120 | with a suffix, restoring a rewritten question gives it back lower-cased with one dot |
| `DnsRouter.BareRestoresOneLabel` | internal/tenant/dnsrouter.go:75-120 | on a network without a suffix that holds exactly for a single non-empty label |
| `DnsRouter.RestoreLeavesOthers` | internal/tenant/dnsrouter.go:104-119 | a name outside the real zone comes back unchanged |
| `DnsRouter.RewriteOfSpace` | internal/tenant/dnsrouter.go:78-85 | the name space itself is asked about as the root |
| `DnsRouter.RestoreOfZone` | internal/tenant/dnsrouter.go:108-115 | the real zone comes back as the name space, and any name under it with its labels kept, in any letter case |
| `DnsRouter.RestoreOfLabel` | internal/tenant/dnsrouter.go:98-106 | without a suffix a single label comes back under the name space |
| `DnsRouter.Match` | internal/tenant/dnsrouter.go:54-70 | the loop keeps the longest match so far |
| `DnsRouter.BestIsLongest` | internal/tenant/dnsrouter.go:52-70 | the answer matches at a label boundary and nothing longer does; none only when nothing matches |
| `DnsRouter.MatchIgnoresOrder` | internal/tenant/dnsrouter.go:54-70 | with distinct name spaces the order of the routes does not matter |
| `DnsRouter.AddAliases` | internal/tenant/dnsrouter.go:236-248 | whatever order the map is walked in, the result is the table built along some order of its entries, each once |
| `DnsRouter.AliasesIgnoreOrder` | internal/tenant/dnsrouter.go:236-248 | if no alias ends a canonical name at a label boundary, every order gives the same multiset of routes |
| `DnsRouter.TwoAliasesCommute` | internal/tenant/dnsrouter.go:236-248 | for any table and any two aliases, both orders give the same multiset exactly when neither is in the way of the name the other stands for or both stand for the same network |
| `DnsRouter.AliasOrderCanMatter` | internal/tenant/dnsrouter.go:236-248 | one table and two aliases for which the two orders give tables of different length |
| `DnsRouter.AliasStandsForCanonical` | internal/tenant/dnsrouter.go:236-248 | a question whose longest match is an alias is rewritten as the same labels under the name space it stands for |
| `DnsRouter.AliasesLeaveOthers` | internal/tenant/dnsrouter.go:231-235 | a question no alias ends is answered as without aliases |
| `NameTable.TableFor` | internal/tenant/dnsrouter.go:127-194 | the loops build the table of entries that the rows below are about |
| `NameTable.TableIsLower` | internal/tenant/dnsrouter.go:155-165 | every name space and zone of the table is folded, as matching and rewriting need |
| `NameTable.FlagsAreOwn` | internal/tenant/dnsrouter.go:128-137 | grouping routes by address marks a connector for a family exactly when one of its own routes is of it |
| `NameTable.ConnectorIsResolvable` | internal/tenant/dnsrouter.go:139-169 | a connector that is not banned, with an IPv4 address and a zone, is in the table with those flags |
| `NameTable.ConnectorIsAsked` | internal/tenant/dnsrouter.go:139-169 | from the hub's member to the upstream question: labels under name.instance.robinet go to the connector's address, in any letter case, unless something as long goes elsewhere, and are asked for in its zone, or alone where there is no suffix |
| `NameTable.NamelessIsOneLabel` | internal/tenant/dnsrouter.go:144-152 | a connector without a name goes by its address with dashes for dots and colons |
| `NameTable.LighthouseIsAsked` | internal/tenant/dnsrouter.go:171-191 | everything under instance.instance goes to the lighthouse as it stands, for both families, whatever the connectors are called |
| `Nonces.MemoryNonces.Spend` | internal/wrak/nonce.go:29-51 | the in-place sweep and spend do exactly the step |
| `Nonces.KeyIsUnambiguous` | internal/wrak/nonce.go:30 | one key is one identity and one nonce |
| `Nonces.SweptAnswersLikeLog` | internal/wrak/nonce.go:36-43 | with a clock that does not go back the swept map answers as a log that never forgets |
| `Nonces.AcceptedExactly` | internal/wrak/nonce.go:29-51 | a use is accepted exactly when every earlier accepted use of the nonce has outlived its lifetime, under any schedule of sweeps |
| `Nonces.AcceptancesApart` | internal/wrak/nonce.go:45-50 | two acceptances of one nonce are at least the first one's lifetime apart |
| `Nonces.RemembersRecent` | internal/wrak/nonce.go:32-43 | after every call what is remembered was still good one lifetime before, so the map does not grow with history |
| `Nonces.FirstUse` | internal/wrak/identity.go:167-189 | an unused nonce passes exactly with a good signature and a stamp within five minutes, on either side of the clock |
| `Nonces.FailuresLeaveNoTrace` | internal/wrak/identity.go:183-187 | over every run of requests the memory is as if those with a bad stamp or signature had not come |
| `Nonces.ReplayExactly` | internal/wrak/identity.go:171-189 | an accepted request can be accepted again exactly when it was stamped at or after its first acceptance |
| `Nonces.AcceptedAtMostOnce` | internal/wrak/identity.go:171-189 | in every run a request stamped before its first acceptance is accepted once |
| `Limiter.RateLimiter.Allow` | internal/hub/api.go:740-753 | the in-place count does exactly the step |
| `Limiter.BucketAdmits` | internal/hub/api.go:740-753 | a bucket lets exactly min(calls, limit) of its calls through, the first one even for a limit below one |
| `Limiter.AtMostTwoBuckets` | internal/hub/api.go:740-753 | at most 2 * limit - 1 calls of a key in any closed interval one window long |
| `Limiter.BoundIsReached` | internal/hub/api.go:740-753 | and a run that reaches it |
| `Endpoint.ParseEndpoint` | cmd/robinet/connect.go:132-191 | the loop classifies trailing parts as its function does |
| `Endpoint.EndpointRoundTrip` | internal/tenant/socket.go:578-593 | for every host and explicit port of an https url, in all presence cases, with the default port and bracketed hosts: what is written is read back exactly when the url parser takes host and port whole and the text does not end in white space |
| `Endpoint.UrlRoundTrip` | cmd/robinet/connect.go:138-151 | the full enrollment url is read back as its base and instance, under http and https; without an instance it is refused |
| `Endpoint.HubUrlAlone` | cmd/robinet/connect.go:141-145 | a hub's url alone is its base, without a last slash |
| `Endpoint.DefaultPort` | internal/tenant/socket.go:583 | port 8443 is not written, and is what is read where none is |
| `Endpoint.HasPortExactly` | cmd/robinet/connect.go:163-166 | which hosts have a port of their own: one colon, or brackets with a port behind them |
| `Endpoint.UrlHostExactly` | internal/tenant/socket.go:579-582 | user, path, query and fragment are dropped; a url the parser does not take is used as it is |
| `Endpoint.WrittenExactly` | internal/pin/pin.go:59-62 | a part is a pin exactly when it begins with the prefix, in any letter case and behind any white space |
| `Endpoint.EitherOrder` | cmd/robinet/connect.go:168-188 | token and pin are told apart in either order |
| `Endpoint.TwoOfAKind` | cmd/robinet/connect.go:172-187 | two pins, two tokens and a bad pin are each refused for what they are |
| `Endpoint.CountsParts` | cmd/robinet/connect.go:155-161 | too few parts are no endpoint and too many are refused |
| `Endpoint.BlankIsNone` | cmd/robinet/connect.go:133-136 | white space alone is no endpoint and no error |

## Left out

- Nebula, TLS, SSH signatures, ed25519, HMAC, base64, PEM and the decoding of pins: a signature, a message authentication code and a pin are only good or not.
- HTTP handlers, JSON, files, reload after a crash and the lighthouse processes: saving always succeeds, and reloading a lighthouse has no effect on the state.
- Reading a full pool or a missing route back to the operator: error texts are kept apart only by kind.
- Concurrent creations of instances: names are covered at the granularity of the store's lock, overlays and ports only for creations taken one after another, because the reads and the insertion are separate critical sections in the source.
- Runs over several instances at once: an owner's decisions are followed in one instance, and lists and lookups range over all that are owned.
- Overlays after a pool's instance size is changed: occupancy is an exact lookup of the prefix.
- The order of routes and resolvers: they are sorted on one field alone, so they are compared as multisets.
- Routes and resolvers of members without an IPv4 address: both use that address only.
- `ParseMemberName`, `ParsePool`, `Domains`, `carriable`, `SetSharedToken`, MTU selection, platform hints and variants: single-branch facts.
- The wire format of DNS messages and the sockets: the model is about names and the choice of a route.
- `Endpoint.EndpointRoundTrip`: leaves out hosts with a percent sign, IPv6 zones among them, and hosts outside ASCII, because percent-decoding and Unicode spaces are not modelled; which text in brackets is an IPv6 address is a parameter.
- Schemes other than http and https, and Unicode letters and spaces in names: the name models range over ASCII.
- `NameTable.TableFor`: how an address is written out before its dots and colons become dashes is a parameter.
