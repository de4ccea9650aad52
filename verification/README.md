# A model of the SD-WAN controller and node

The repository is a software-defined network: a controller leases virtual addresses to nodes, signals
between them and distributes routes; nodes discover their NAT, agree on direct or relayed tunnels, and route
the packets of a TUN device through them. This project models its logic and proves what it keeps.

| files | component |
|---|---|
| Lease, LeaseTheorems, LeaseRequests, LeaseIndex, LeaseHistory | the lease protocol in atomic steps, every interleaving |
| ControlService, Pool | the registration service, its second index and the heartbeat sweep, one operation at a time |
| ConfigService, ConfigEffects | stored nodes and routes, the route lists pushed and answered |
| JavaInt, IpText, Cidr | signed 32-bit arithmetic, dotted decimals, address blocks |
| ByteBuf, Checksum, Ipv4Packet, TcpPacket, UdpPacket, Packets | packet codecs over a cursor buffer and the Internet checksum |
| StunCodec, StunTheorems, StunWire | the STUN codec, and its bytes one by one |
| NatDiscovery | NAT classification against a NAT as a state machine |
| Futures, AsyncTask | combinators over futures, requests with timeouts |
| P2p, Connections, ConnectionEffects | offers and answers, tunnels, connections |
| RouteManager | a node's routes and the operating system's table |

Code that updates state in place is a class whose methods are proved against functions on values. What each step
of those functions does to the state, field by field and byte by byte, and what they keep over whole runs, is
proved about them. Concurrent code is a state machine over its atomic steps (`Lease`, `AsyncTask`), and the class
beside it runs one operation at a time and returns, as a ghost result, the steps that it took.

## Where the code falls short of what it is for

Each of these is stated with its exact condition, by the members named.

- The checksum folds its sum once, so it is one too large exactly when that fold carries again
  (`Checksum.ChecksumExact`). Of packets without IP options a standard receiver drops exactly those TCP segments
  and UDP datagrams (`Tcp.SegmentAccepted`, `Tcp.SegmentDropped`, `Udp.DatagramAccepted`,
  `Udp.DatagramDropped`).
- IP options are taken for the start of the payload. They are not summed into the header's checksum, which a
  receiver does (`Ipv4.HeaderAccepted`; dropped headers of either kind in `Ipv4.SecondCarryHeader` and
  `Ipv4.OptionsHeader`). They are taken for the start of the segment, so the segment's checksum overwrites
  another word, and what the options come to as sent decides whether a receiver accepts
  (`Packets.RefreshedField`, `Tcp.SegmentAccepted`, `Udp.DatagramAccepted`, `Udp.OptionsOverwritten`).
- A UDP checksum that comes out as zero is sent as zero, which means none (`Udp.DatagramAccepted`,
  `Udp.ZeroFieldSent`).
- A channel that has its name is answered with its own address whatever hardware address it asks for, so a
  hardware address can be granted two addresses (`LeaseRequests.SameAddressExactly`,
  `LeaseRequests.TwoAddresses`).
- A registration that succeeds on a channel that is closed already leaves an index entry without a slot
  (`ControlService.ControlService.Regist`, `ControlService.LateAgreement`, `ControlService.LateReached`).
- An index entry is removed by address, so a listener of a node's old channel that fires late removes the entry of
  its new one, which then gets no offers, is not swept and is not closed by deleteChannel
  (`LeaseIndex.IndexedUntil`, `LeaseIndex.EntryLost`).
- The mask text of a /32 is 127.255.255.255, and a /1 loses its last address (`Cidr.MaskIsRight`,
  `Cidr.Contains`).
- The leasable list leaves out the configured address, not the network address (`Cidr.ParseCidr`). updateNode
  accepts any address of the block; a node that was given one that is not leasable is turned away with SysError
  (`Pool.RegistrableExactly`, `Pool.AcceptedButNotLeasable`, `Pool.TwoNotLeasable`).
- updateRoute does not look at the node a route is moved to. Under the id of no node, the list is neither pushed
  nor answered any more, and the change is already committed; under that of a node that is not a mesh node, it is
  pushed but not answered (`ConfigService.ApplyKeepsMeshRefs`, `ConfigService.PushedExactly`,
  `ConfigService.AnsweredExactly`, `ConfigService.WildUpdate`, `ConfigService.SimpleUpdate`).
- A message with both OtherAddress and ChangedAddress decodes to whichever the sender's map yielded last
  (`StunTheorems.OrderFreeExactly`).
- The last request of a NAT check opens the very permission that the next check tests for, so a port restricted
  cone whose entries outlive the pause is reported as a full cone from the second check on
  (`NatDiscovery.RepeatedChecks`).
- A tunnel whose address is taken is used but not kept in the map. It gets no heartbeat, is never closed, and its
  connection keeps its entry for good (`Connections.EstablishedStuck`, `Connections.StuckForever`,
  `Connections.StuckReached`).
- A late failed heartbeat removes by address and so drops a newer tunnel from the map without closing it
  (`Connections.HeartFailExactly`). With none of its own heartbeats out, that too is used for good
  (`Connections.DroppedStuck`, `Connections.StuckExactly`, `Connections.LateHeartReached`).
- An update of the routes under a changed own address leaves routes behind (`RouteManager.UpdateUnderNewAddress`,
  `RouteManager.RouteLeftBehind`).

## Readings

- Section 3.1 of RFC 791, section 3.1 of RFC 9293 and RFC 768 define the headers, section 1 of RFC 1071 the
  checksum. IPv4 options are not cut off: the decoder takes 20 bytes as the header whatever the header length says.
  A standard receiver sums the header to its length, and reads a zero UDP checksum as none.
- Section 6 of RFC 5389 defines the STUN header; attributes are not padded to four bytes and XorMappedAddress is
  coded as a plain address. The STUN server is not part of the repository; its replies follow section 10.1 of
  RFC 3489.
- `x | y` and shifts of disjoint bits are written as sums and products; `int` wraps explicitly.
- A `HashMap` or `ConcurrentHashMap` yields its entries in any order; proofs hold for each.
- Texts in STUN attributes and transaction ids are held as their bytes, which is what they are in ASCII.

## Model

| member | source | states |
|---|---|---|
| Lease.StepKeepsInv | sdwan-controller/src/main/java/io/jaspercloud/sdwan/domain/control/service/impl/SDWanControlServiceImpl.java:64-170 | Every atomic step of every handler, of closes, close listeners, the sweep and the administrator keeps the invariant: slot ownership, names held, index safe, nodes unique. |
| Lease.SeekKeepsInv | sdwan-controller/src/main/java/io/jaspercloud/sdwan/domain/control/service/impl/SDWanControlServiceImpl.java:118-170 | The part for the first half of a registration: look up, compare-and-set, add listener. |
| Lease.SettleKeepsInv | sdwan-controller/src/main/java/io/jaspercloud/sdwan/domain/control/service/impl/SDWanControlServiceImpl.java:64-131 | The part for its second half: save, set attribute, index, reply or fail. |
| Lease.OutsideKeepsInv | sdwan-controller/src/main/java/io/jaspercloud/sdwan/domain/control/service/SDWanNodeManager.java:44-87 | The part for closes, fired listeners, the sweep of an entry, and changes to stored nodes. |
| Lease.AcquireKeeps | sdwan-controller/src/main/java/io/jaspercloud/sdwan/domain/control/service/impl/SDWanControlServiceImpl.java:133-137 | A compare-and-set that wins takes a slot that nobody holds or has a listener for. |
| Lease.AddReleaseKeeps | sdwan-controller/src/main/java/io/jaspercloud/sdwan/domain/control/service/impl/SDWanControlServiceImpl.java:138-144 | The holder of a slot gets its one release listener; nobody else has one. |
| Lease.ReleaseKeeps | sdwan-controller/src/main/java/io/jaspercloud/sdwan/domain/control/service/impl/SDWanControlServiceImpl.java:138-144 | A release listener that fires belongs to the slot's holder, which is closed, so setting the slot to null frees nobody else's lease. |
| Lease.UnindexKeeps | sdwan-controller/src/main/java/io/jaspercloud/sdwan/domain/control/service/SDWanNodeManager.java:70-76 | Removing an index entry by key keeps the index safe, whosever entry it was. |
| Lease.RunKeepsInv | sdwan-controller/src/main/java/io/jaspercloud/sdwan/domain/control/service/impl/SDWanControlServiceImpl.java:64-170 | The invariant holds after every run, for any number of channels and any interleaving. |
| LeaseTheorems.NoSharedAddress | sdwan-controller/src/main/java/io/jaspercloud/sdwan/domain/control/service/impl/SDWanControlServiceImpl.java:64-145 | In every run, two open channels never carry the same address in their attribute. |
| LeaseTheorems.StoredUnique | sdwan-controller/src/main/java/io/jaspercloud/sdwan/domain/control/service/impl/SDWanControlServiceImpl.java:118-131 | In every run, stored addresses are unique. |
| LeaseTheorems.OneListener | sdwan-controller/src/main/java/io/jaspercloud/sdwan/domain/control/service/impl/SDWanControlServiceImpl.java:133-170 | In every run, a channel has an unfired release listener for an address exactly when it holds that slot and is past addListener, and then exactly one. |
| LeaseTheorems.ReleaseFreesOwn | sdwan-controller/src/main/java/io/jaspercloud/sdwan/domain/control/service/impl/SDWanControlServiceImpl.java:138-144 | In every run, a release that fires frees the slot of its own closed channel and leaves every other lease alone. |
| LeaseTheorems.SignalsReachHolder | sdwan-controller/src/main/java/io/jaspercloud/sdwan/domain/control/service/impl/SDWanSignalServiceImpl.java:20-36 | The channel that was looked up for an offer or answer, if it is still open when that is written, any steps later, holds the address and is named by it. |
| LeaseTheorems.NothingLeaks | sdwan-controller/src/main/java/io/jaspercloud/sdwan/domain/control/service/impl/SDWanControlServiceImpl.java:133-170 | In every run, a channel with no handler under way and no release listener left holds no slot. |
| LeaseTheorems.LoserFreed | sdwan-controller/src/main/java/io/jaspercloud/sdwan/domain/control/service/impl/SDWanControlServiceImpl.java:118-131 | The loser of two racing first registrations of one hardware address, in every continuation in which the administrator leaves that alone and the channel registers no more: never named, closed once its handler is through, and holding nothing once its listeners have fired. |
| LeaseTheorems.LoserFreedAtOnce | sdwan-controller/src/main/java/io/jaspercloud/sdwan/domain/control/service/impl/SDWanControlServiceImpl.java:118-131 | Save, fail and one fired listener are all it takes, and change nothing but the loser and its slot. |
| LeaseTheorems.Capacity | sdwan-controller/src/main/java/io/jaspercloud/sdwan/domain/control/service/impl/SDWanControlServiceImpl.java:55-61 | In every run, the open registered channels number at most the pool. |
| LeaseTheorems.StepConsistent | sdwan-controller/src/main/java/io/jaspercloud/sdwan/domain/control/service/impl/SDWanControlServiceImpl.java:118-131 | Until the administrator touches a hardware address, whatever a channel carries for it is what the table stores for it. |
| LeaseTheorems.RunConsistent | sdwan-controller/src/main/java/io/jaspercloud/sdwan/domain/control/service/impl/SDWanControlServiceImpl.java:118-131 | The same over whole runs, and the stored address stays. |
| LeaseRequests.SameAddressExactly | sdwan-controller/src/main/java/io/jaspercloud/sdwan/domain/control/service/impl/SDWanControlServiceImpl.java:64-170 | By the hardware address that requests carry: until the administrator touches it, every success reply names the address stored for it if and only if no request for it is answered on a channel already named under another hardware address with another address. |
| LeaseRequests.SameAddressEveryTime | sdwan-controller/src/main/java/io/jaspercloud/sdwan/domain/control/service/impl/SDWanControlServiceImpl.java:118-170 | So without such a request any two success replies name the same address, racing first registrations included. |
| LeaseRequests.StrayedIsLent | sdwan-controller/src/main/java/io/jaspercloud/sdwan/domain/control/service/impl/SDWanControlServiceImpl.java:66-69 | The stray replies are exactly the answers to requests that took the branch of a channel that has its node. |
| LeaseRequests.GrantsAreStored | sdwan-controller/src/main/java/io/jaspercloud/sdwan/domain/control/service/impl/SDWanControlServiceImpl.java:118-131 | All other success replies name the stored address. |
| LeaseRequests.OtherNameOtherAddress | sdwan-controller/src/main/java/io/jaspercloud/sdwan/domain/control/service/impl/SDWanControlServiceImpl.java:66-81 | A channel named under an untouched other hardware address does have another address. |
| LeaseRequests.TwoAddresses | sdwan-controller/src/main/java/io/jaspercloud/sdwan/domain/control/service/impl/SDWanControlServiceImpl.java:66-81 | A run in which one hardware address is granted two addresses that way. |
| ControlService.ControlService.constructor | sdwan-controller/src/main/java/io/jaspercloud/sdwan/domain/control/service/impl/SDWanControlServiceImpl.java:55-61 | Every pool address starts with a free slot; nothing is registered or indexed. |
| ControlService.ControlService.Regist | sdwan-controller/src/main/java/io/jaspercloud/sdwan/domain/control/service/impl/SDWanControlServiceImpl.java:64-116 | Run alone, a registration is a run of the lease protocol, answers a known channel as before, and serves a new hardware address if and only if some pool address is neither stored nor bound. Afterwards slots and index agree if and only if the channel was open or was turned away. |
| ControlService.ControlService.BindVip | sdwan-controller/src/main/java/io/jaspercloud/sdwan/domain/control/service/impl/SDWanControlServiceImpl.java:118-131 | The stored address if it is in the pool and free; otherwise a free one that is then stored; or the error, with the state unchanged but for the handler. |
| ControlService.ControlService.ApplyChannel | sdwan-controller/src/main/java/io/jaspercloud/sdwan/domain/control/service/impl/SDWanControlServiceImpl.java:133-145 | VipBound if the slot is taken, SysError if the address is outside the pool, otherwise the slot and one release listener. |
| ControlService.ControlService.ApplyVip | sdwan-controller/src/main/java/io/jaspercloud/sdwan/domain/control/service/impl/SDWanControlServiceImpl.java:147-170 | Whatever the order of the entries: a slot that was free and not stored, or NotEnough exactly when there is none. |
| ControlService.ControlService.AddChannel | sdwan-controller/src/main/java/io/jaspercloud/sdwan/domain/control/service/SDWanNodeManager.java:70-79 | The listener is added and the entry put, over an older one. |
| ControlService.ControlService.Close | sdwan-controller/src/main/java/io/jaspercloud/sdwan/domain/control/service/SDWanNodeManager.java:81-87 | With its listeners, a close takes exactly the channel's slot and its index entries out, in whatever order the listeners fire. |
| ControlService.ControlService.DeleteChannel | sdwan-controller/src/main/java/io/jaspercloud/sdwan/domain/control/service/SDWanNodeManager.java:81-87 | Closes the channel under an address, if there is one. |
| ControlService.ControlService.SweepEntry | sdwan-controller/src/main/java/io/jaspercloud/sdwan/domain/control/service/SDWanNodeManager.java:50-56 | Close and iterator removal together take out exactly that channel; slots and index stay in agreement. |
| ControlService.ControlService.SweepPass | sdwan-controller/src/main/java/io/jaspercloud/sdwan/domain/control/service/SDWanNodeManager.java:46-61 | A pass removes exactly the entries of the overdue channels and closes them. |
| ControlService.AfterCalm | sdwan-controller/src/main/java/io/jaspercloud/sdwan/domain/control/service/impl/SDWanControlServiceImpl.java:64-116 | Between registrations on open channels, run as single steps, the index and the occupied slots are the same map. |
| ControlService.LateAgreement | sdwan-controller/src/main/java/io/jaspercloud/sdwan/domain/control/service/SDWanNodeManager.java:70-79 | A success on a channel that is closed already puts an entry after its removal has fired, so the index names a channel without a slot. |
| ControlService.LateReached | sdwan-controller/src/main/java/io/jaspercloud/sdwan/domain/control/service/SDWanNodeManager.java:70-79 | A run to such a state: close, then a registration that gets the pool's only address. |
| ControlService.ControlService.CheckAndBind | sdwan-controller/src/main/java/io/jaspercloud/sdwan/domain/control/service/impl/SDWanControlServiceImpl.java:69-75 | A malformed hardware address is refused before anything is looked up. |
| LeaseIndex.IndexedUntil | sdwan-controller/src/main/java/io/jaspercloud/sdwan/domain/control/service/SDWanNodeManager.java:70-79 | From its put on, until it puts again, a channel is found under its address exactly as long as no listener and no sweep removes that entry and no other channel puts one. |
| LeaseIndex.EntryUntil | sdwan-controller/src/main/java/io/jaspercloud/sdwan/domain/control/service/SDWanNodeManager.java:50-79 | The same from any state on. |
| LeaseIndex.EntryLost | sdwan-controller/src/main/java/io/jaspercloud/sdwan/domain/control/service/SDWanNodeManager.java:70-79 | A run in which a node reconnects while its old channel's listeners fire: the new channel is open, leases its address and is named by it, but is not found under it. |
| LeaseHistory.RowIsLastWrite | sdwan-controller/src/main/java/io/jaspercloud/sdwan/domain/control/service/impl/SDWanControlServiceImpl.java:118-131 | After every run, what is stored for a hardware address is what was written last for it: by a save that found neither it nor the address stored, by an update, or by a deletion. |
| LeaseHistory.HolderIsLastTaker | sdwan-controller/src/main/java/io/jaspercloud/sdwan/domain/control/service/impl/SDWanControlServiceImpl.java:133-170 | After every run, a slot belongs to the channel that took it last, or to nobody once a release for it has fired. |
| LeaseHistory.OpenUntilClosed | sdwan-controller/src/main/java/io/jaspercloud/sdwan/domain/control/service/SDWanNodeManager.java:44-87 | A channel is open exactly until it is closed, refused, or taken by the sweep. |
| LeaseHistory.RefusedExactly | sdwan-controller/src/main/java/io/jaspercloud/sdwan/domain/control/service/impl/SDWanControlServiceImpl.java:64-170 | Which step turns a request away, and with which code, also between the steps of other handlers. |
| LeaseHistory.DeletesExactly | sdwan-controller/src/main/java/io/jaspercloud/sdwan/domain/control/service/impl/ConfigServiceImpl.java:173-186 | A deletion is always possible and takes out the row of its hardware address and nothing else. |
| LeaseHistory.UpdatesExactly | sdwan-controller/src/main/java/io/jaspercloud/sdwan/domain/control/service/impl/ConfigServiceImpl.java:154-170 | An update is possible if and only if the row exists and no other row has the address; it changes the address of that row and nothing else. |
| LeaseHistory.FirstTimeExactly | sdwan-controller/src/main/java/io/jaspercloud/sdwan/domain/control/service/impl/SDWanControlServiceImpl.java:147-170 | A first registration can get an address if and only if it is in the pool, free, and stored for nobody. |
| LeaseHistory.FreedByDeletion | sdwan-controller/src/main/java/io/jaspercloud/sdwan/domain/control/service/impl/SDWanControlServiceImpl.java:147-170 | Right after a deletion another node can get an address if and only if it could before, or the address is free and was stored for the deleted node; it then has the address and the deleted node has none. |
| LeaseHistory.ReusedAfterDeletion | sdwan-controller/src/main/java/io/jaspercloud/sdwan/domain/control/service/impl/SDWanControlServiceImpl.java:147-170 | A run from the start, with one address: after its node has left, another node is turned away with NotEnough while the row is stored, and gets the address once the row is deleted. |
| ControlService.FiredAll | sdwan-controller/src/main/java/io/jaspercloud/sdwan/domain/control/service/SDWanNodeManager.java:70-79 | Once a closed channel's listeners have fired it is in neither map, and the two maps agree again. |
| Pool.AfterPropertiesSet | sdwan-controller/src/main/java/io/jaspercloud/sdwan/domain/control/service/impl/SDWanControlServiceImpl.java:55-61 | The service starts with a free slot for exactly the leasable addresses: those of the block as printed, other than the configured text and the broadcast address. |
| Pool.AvailableIsLeasable | sdwan-core/src/main/java/io/jaspercloud/sdwan/Cidr.java:53-57 | The list parseCidr leaves available has exactly those. |
| Pool.PoolSize | sdwan-core/src/main/java/io/jaspercloud/sdwan/Cidr.java:37-59 | They are 2^(32-m) - 2 for a prefix m from 2 to 31 configured with its network address. |
| Pool.CapacityOfBlock | sdwan-controller/src/main/java/io/jaspercloud/sdwan/domain/control/service/impl/SDWanControlServiceImpl.java:55-61 | In every run over that pool, the open registered channels number at most 2^(32-m) - 2. |
| Pool.RegistrableExactly | sdwan-controller/src/main/java/io/jaspercloud/sdwan/domain/control/service/impl/ConfigServiceImpl.java:154-170 | After the administrator has changed a node's address and leaves it alone, whatever else happens: a registration of the node on an unnamed channel is turned away with SysError if and only if the address is not leasable, and otherwise ends with that address or with VipBound. |
| Pool.RunKeepsUnderway | sdwan-controller/src/main/java/io/jaspercloud/sdwan/domain/control/service/impl/SDWanControlServiceImpl.java:118-145 | What such a registration can have come to at any moment. |
| Pool.AcceptedButNotLeasable | sdwan-controller/src/main/java/io/jaspercloud/sdwan/domain/control/service/impl/ConfigServiceImpl.java:159-161 | Of the texts that updateNode accepts, exactly the configured address, the broadcast address and what the program prints otherwise are not leasable. |
| Pool.TwoNotLeasable | sdwan-controller/src/main/java/io/jaspercloud/sdwan/domain/control/service/impl/ConfigServiceImpl.java:159-161 | The configured and the broadcast address are accepted and not leasable for every prefix from 2 on. |
| ConfigService.ApplyKeepsTables | sdwan-controller/src/main/java/io/jaspercloud/sdwan/domain/control/service/impl/ConfigServiceImpl.java:53-186 | Every operation keeps ids, addresses and hardware addresses unique. |
| ConfigService.ApplyKeepsMeshRefs | sdwan-controller/src/main/java/io/jaspercloud/sdwan/domain/control/service/impl/ConfigServiceImpl.java:53-186 | An operation keeps every route on an existing mesh node if and only if it is not an updateRoute that gives an existing route the id of something else. |
| ConfigService.RunKeeps | sdwan-controller/src/main/java/io/jaspercloud/sdwan/domain/control/service/impl/ConfigServiceImpl.java:53-186 | The same over whole runs. |
| ConfigService.PushedExactly | sdwan-controller/src/main/java/io/jaspercloud/sdwan/domain/control/service/impl/ConfigServiceImpl.java:130-151 | A push fails exactly when the node of some route is gone; otherwise it lists, in order, every route with its node's address. |
| ConfigService.AnsweredExactly | sdwan-controller/src/main/java/io/jaspercloud/sdwan/domain/control/service/impl/SDWanControlServiceImpl.java:173-195 | A route list request is answered exactly when every route goes to a mesh node, and then with the pushed list. |
| ConfigService.OneRouteList | sdwan-controller/src/main/java/io/jaspercloud/sdwan/domain/control/service/impl/SDWanControlServiceImpl.java:173-195 | After every run without such an update, the pushed and the answered list are one sequence, with one entry per route. |
| ConfigService.WildUpdate | sdwan-controller/src/main/java/io/jaspercloud/sdwan/domain/control/service/impl/ConfigServiceImpl.java:86-105 | A concrete run in which updateRoute gives a route the id of no node, and no node gets a list any more. |
| ConfigService.SimpleUpdate | sdwan-controller/src/main/java/io/jaspercloud/sdwan/domain/control/service/impl/ConfigServiceImpl.java:86-105 | One in which it gives the id of a node that is not a mesh node: the list is pushed but not answered. |
| ConfigEffects.UpdateNodeExactly | sdwan-controller/src/main/java/io/jaspercloud/sdwan/domain/control/service/impl/ConfigServiceImpl.java:154-170 | The errors in order, DuplicateKey exactly when another row has the address; on an error nothing changes, otherwise the row with the id has the new address and remark, its old type and hardware address, and all other rows are as they were. |
| ConfigEffects.DeleteNodeExactly | sdwan-controller/src/main/java/io/jaspercloud/sdwan/domain/control/service/impl/ConfigServiceImpl.java:173-186 | MeshUsed exactly when a route refers to the node; otherwise its row is gone and all others stay. |
| ConfigEffects.RegistExactly | sdwan-controller/src/main/java/io/jaspercloud/sdwan/domain/control/service/impl/SDWanControlServiceImpl.java:118-131 | DuplicateKey exactly when a row has the address or the hardware address; otherwise a row with a new id in front. |
| ConfigEffects.SaveRouteExactly | sdwan-controller/src/main/java/io/jaspercloud/sdwan/domain/control/service/impl/ConfigServiceImpl.java:53-74 | The errors in order; otherwise the new route in full, with a new id, in front of the others. |
| ConfigEffects.UpdateRouteExactly | sdwan-controller/src/main/java/io/jaspercloud/sdwan/domain/control/service/impl/ConfigServiceImpl.java:86-105 | The errors in order; otherwise each given field of the route is new, the rest of it and all other routes stay. |
| ConfigEffects.DeleteRouteExactly | sdwan-controller/src/main/java/io/jaspercloud/sdwan/domain/control/service/impl/ConfigServiceImpl.java:77-83 | The route is gone, all others stay. |
| ConfigEffects.RowsAreTables | sdwan-controller/src/main/java/io/jaspercloud/sdwan/domain/control/service/impl/ConfigServiceImpl.java:130-151 | After all operations the rows are in descending order of their ids, so the set of rows says what every query lists. |
| ConfigEffects.AnnouncedExactly | sdwan-controller/src/main/java/io/jaspercloud/sdwan/domain/control/service/impl/ConfigServiceImpl.java:107-151 | The exception; or a failed push exactly when a route's node is gone; or a hop for each route, in order, to the address of its node. |
| ConfigEffects.DeliveredExactly | sdwan-controller/src/main/java/io/jaspercloud/sdwan/domain/control/service/impl/ConfigServiceImpl.java:123-126 | A push reaches exactly the channels of the index. |
| ConfigEffects.DeletedExactly | sdwan-controller/src/main/java/io/jaspercloud/sdwan/domain/control/service/SDWanNodeManager.java:81-87 | The channel goes from every address it has in the index, all other entries stay. |
| ConfigService.ConfigService.SaveNode | sdwan-controller/src/main/java/io/jaspercloud/sdwan/domain/control/service/impl/SDWanControlServiceImpl.java:118-131 | A registered node is stored unless its address or hardware address is taken. |
| ConfigService.ConfigService.SaveRoute | sdwan-controller/src/main/java/io/jaspercloud/sdwan/domain/control/service/impl/ConfigServiceImpl.java:53-74 | NotFoundNode, NodeIsNotMesh, CidrError or the index or number exception without a change; otherwise the route is stored and the list pushed. |
| ConfigService.ConfigService.DeleteRoute | sdwan-controller/src/main/java/io/jaspercloud/sdwan/domain/control/service/impl/ConfigServiceImpl.java:77-83 | The route is gone and the list is pushed. |
| ConfigService.ConfigService.UpdateRoute | sdwan-controller/src/main/java/io/jaspercloud/sdwan/domain/control/service/impl/ConfigServiceImpl.java:86-105 | NotFoundRoute, or the given fields replaced and the list pushed; a bad destination changes nothing. |
| ConfigService.ConfigService.PushRouteRuleList | sdwan-controller/src/main/java/io/jaspercloud/sdwan/domain/control/service/impl/ConfigServiceImpl.java:107-127 | Every channel of the index is sent the current list, or none is and the call fails after the change was committed. |
| ConfigService.ConfigService.GetRouteList | sdwan-controller/src/main/java/io/jaspercloud/sdwan/domain/control/service/impl/ConfigServiceImpl.java:130-151 | The loop builds the list that the lookups define, or fails at the first missing node. |
| ConfigService.ConfigService.UpdateNode | sdwan-controller/src/main/java/io/jaspercloud/sdwan/domain/control/service/impl/ConfigServiceImpl.java:154-170 | Refused exactly by the tests of the address, or unchanged when the address is taken; otherwise the row of the id has the new address and remark, all else in the table stays, and the channel of the old address goes out of the index exactly when the address changed. |
| ConfigService.ConfigService.CheckVip | sdwan-controller/src/main/java/io/jaspercloud/sdwan/domain/control/service/impl/ConfigServiceImpl.java:159-164 | The exceptions of an address text in their order: a malformed pool, no number, outside the block, no IPv4 literal. |
| ConfigService.ConfigService.AddChannel | sdwan-controller/src/main/java/io/jaspercloud/sdwan/domain/control/service/SDWanNodeManager.java:70-79 | The entry is put. |
| ConfigService.ConfigService.DeleteChannel | sdwan-controller/src/main/java/io/jaspercloud/sdwan/domain/control/service/SDWanNodeManager.java:81-87 | Every entry of the channel under an address goes, if there is one. |
| ConfigService.ConfigService.DeleteNode | sdwan-controller/src/main/java/io/jaspercloud/sdwan/domain/control/service/impl/ConfigServiceImpl.java:173-186 | MeshUsed exactly when a route refers to the node; otherwise the row goes and the channel of its address leaves the index. |
| IpText.QuadOfBytes | sdwan-core/src/main/java/io/jaspercloud/sdwan/IPUtil.java:26-42 | bytes2ip then ip2bytes is the identity on four bytes. |
| IpText.IpToBytes | sdwan-core/src/main/java/io/jaspercloud/sdwan/IPUtil.java:35-42 | The loop yields the four numbers of the text. |
| IpText.Ip2Int | sdwan-core/src/main/java/io/jaspercloud/sdwan/IPUtil.java:5-15 | The loop of shifts and ors yields the big-endian value as a signed int. |
| IpText.IpValueOfInt2Ip | sdwan-core/src/main/java/io/jaspercloud/sdwan/IPUtil.java:5-24 | ip2int(int2ip(n)) is n for every int. |
| IpText.Int2IpOfIpValue | sdwan-core/src/main/java/io/jaspercloud/sdwan/IPUtil.java:5-32 | int2ip(ip2int(t)) is t for every text the program prints. |
| IpText.DigitsInOrder | sdwan-core/src/main/java/io/jaspercloud/sdwan/IPUtil.java:26-33 | A byte is printed as its decimal digits, most significant first. |
| IpText.ReadInOrder | sdwan-core/src/main/java/io/jaspercloud/sdwan/IPUtil.java:35-42 | A text of digits is read most significant first, leading zeros included. |
| IpText.TextInOrder | sdwan-core/src/main/java/io/jaspercloud/sdwan/IPUtil.java:26-33 | The text of four bytes has their numbers in order, with dots between. |
| IpText.ValueInOrder | sdwan-core/src/main/java/io/jaspercloud/sdwan/IPUtil.java:5-15 | The first number of an address is the most significant byte of its value. |
| Cidr.Contains | sdwan-core/src/main/java/io/jaspercloud/sdwan/Cidr.java:108-120 | For every address literal and mask from 1 to 32: true exactly when the top maskBits bits agree, except the last address of a /1; an exception otherwise. |
| Cidr.ContainsValue | sdwan-core/src/main/java/io/jaspercloud/sdwan/Cidr.java:108-120 | The same for an address that has been read. |
| Cidr.ParseIpList | sdwan-core/src/main/java/io/jaspercloud/sdwan/Cidr.java:69-80 | The list is the consecutive addresses from the network address on. |
| Cidr.ConsecutiveListsBlock | sdwan-core/src/main/java/io/jaspercloud/sdwan/Cidr.java:69-80 | That list is exactly the addresses with the same prefix, once each, ascending; a /1 loses its last one. |
| Cidr.ParseCidr | sdwan-core/src/main/java/io/jaspercloud/sdwan/Cidr.java:37-59 | The list has 2^(32-m) addresses, starts with the network and ends with the broadcast address; the leasable list is it without the configured address and the broadcast address, in order. |
| Cidr.NetworkIsFloor | sdwan-core/src/main/java/io/jaspercloud/sdwan/Cidr.java:88-92 | Shifting right and left rounds down to a multiple of the block size; the whole block is in int range. |
| Cidr.BlockIsInterval | sdwan-core/src/main/java/io/jaspercloud/sdwan/Cidr.java:108-120 | Agreeing on the top bits is lying in the interval from the network address on, across the sign change too. |
| Cidr.BroadcastInBlock | sdwan-core/src/main/java/io/jaspercloud/sdwan/Cidr.java:94-100 | The broadcast address has the block's prefix and is network plus size minus one. |
| Cidr.MaskIsRight | sdwan-core/src/main/java/io/jaspercloud/sdwan/Cidr.java:102-106 | The mask has exactly the top maskBits bits set if and only if maskBits is not 32. |
| Cidr.RemoveBoth | sdwan-core/src/main/java/io/jaspercloud/sdwan/Cidr.java:54-57 | Removing by equality takes out exactly the configured and the broadcast address and keeps the order. |
| Checksum.SumWords | sdwan-tun/src/main/java/io/jaspercloud/sdwan/tun/TcpPacket.java:301-304 | The loop computes the sum of all 16-bit words modulo 2^32, for a buffer of any even size. |
| Checksum.CalcChecksum | sdwan-tun/src/main/java/io/jaspercloud/sdwan/tun/Ipv4Packet.java:191-222 | Padding, loop, fold and complement compute the program's checksum of the buffer. |
| Checksum.NoOverflow | sdwan-tun/src/main/java/io/jaspercloud/sdwan/tun/TcpPacket.java:301-304 | Up to 65536 bytes no partial sum leaves the range of an int. |
| Checksum.ChecksumExact | sdwan-tun/src/main/java/io/jaspercloud/sdwan/tun/TcpPacket.java:305-309 | Up to 65536 bytes the result equals the checksum of section 1 of RFC 1071 if and only if the single fold is at most 65535; otherwise it is larger by exactly one. |
| Checksum.AcceptedBehind | sdwan-tun/src/main/java/io/jaspercloud/sdwan/tun/TcpPacket.java:269-272 | The same for a segment summed behind its pseudo header. |
| Ipv4.Ipv4Packet.Decode | sdwan-tun/src/main/java/io/jaspercloud/sdwan/tun/Ipv4Packet.java:133-164 | Fails exactly below 20 bytes; otherwise the fields of the header and everything behind it as payload. |
| Ipv4.Ipv4Packet.DecodeMark | sdwan-tun/src/main/java/io/jaspercloud/sdwan/tun/Ipv4Packet.java:126-131 | The same, with the cursor put back when it succeeds. |
| Ipv4.Ipv4Packet.SetPayload | sdwan-tun/src/main/java/io/jaspercloud/sdwan/tun/Ipv4Packet.java:117-120 | The payload is what the buffer still holds at that moment. |
| Ipv4.Ipv4Packet.GetPayload | sdwan-tun/src/main/java/io/jaspercloud/sdwan/tun/Ipv4Packet.java:112-115 | The payload buffer, back at its mark. |
| Ipv4.Ipv4Packet.Encode | sdwan-tun/src/main/java/io/jaspercloud/sdwan/tun/Ipv4Packet.java:170-189 | The header with the computed checksum, then the payload; the assertion fails exactly on a different stored checksum. The payload is as before, so a second call gives the same bytes. |
| Ipv4.HeaderRoundTrip | sdwan-tun/src/main/java/io/jaspercloud/sdwan/tun/Ipv4Packet.java:133-189 | Printing a parsed header gives the same 20 bytes but for the checksum field. |
| Ipv4.ParsedLayout | sdwan-tun/src/main/java/io/jaspercloud/sdwan/tun/Ipv4Packet.java:133-164 | Every field of a header, at its place in section 3.1 of RFC 791: the source in bytes 12 to 15, the destination in bytes 16 to 19. |
| Ipv4.WrittenLayout | sdwan-tun/src/main/java/io/jaspercloud/sdwan/tun/Ipv4Packet.java:170-222 | Every field is written at that place, with the computed checksum in bytes 10 and 11 and the payload behind. |
| Ipv4.HeaderAccepted | sdwan-tun/src/main/java/io/jaspercloud/sdwan/tun/Ipv4Packet.java:170-222 | A standard receiver, which sums options too, accepts an encoded packet if and only if its options sum to 0 modulo 65535 when one fold was enough, and to 65534 when not; without options, if and only if one fold was enough. |
| Ipv4.SecondCarryHeader | sdwan-tun/src/main/java/io/jaspercloud/sdwan/tun/Ipv4Packet.java:210-218 | A header without options for which one fold is not enough, and which is dropped. |
| Ipv4.OptionsHeader | sdwan-tun/src/main/java/io/jaspercloud/sdwan/tun/Ipv4Packet.java:133-149 | A header with options for which one fold is enough, and which is dropped. |
| Tcp.FlagsRecompose | sdwan-tun/src/main/java/io/jaspercloud/sdwan/tun/TcpPacket.java:213-223 | The picked bits and the header length are the whole flags word but for its three reserved bits. |
| Tcp.FlagLayout | sdwan-tun/src/main/java/io/jaspercloud/sdwan/tun/TcpPacket.java:213-223 | Which bit is which flag, counted in the two bytes. |
| Tcp.ParsedLayout | sdwan-tun/src/main/java/io/jaspercloud/sdwan/tun/TcpPacket.java:207-251 | Every other field of a segment at its place in section 3.1 of RFC 9293. |
| Tcp.WrittenLayout | sdwan-tun/src/main/java/io/jaspercloud/sdwan/tun/TcpPacket.java:257-313 | Every field is written at that place, then options and payload. |
| Tcp.PseudoLayout | sdwan-tun/src/main/java/io/jaspercloud/sdwan/tun/TcpPacket.java:280-284 | Source, destination, a zero, the protocol and the length, in that order. |
| Tcp.TcpPacket.Decode | sdwan-tun/src/main/java/io/jaspercloud/sdwan/tun/TcpPacket.java:207-251 | Fails exactly below 20 bytes or when the header length is below 20 or behind the end; otherwise header, options and payload. |
| Tcp.TcpPacket.WritePseudoHeader | sdwan-tun/src/main/java/io/jaspercloud/sdwan/tun/TcpPacket.java:280-284 | Addresses, protocol and the length of the IP payload. |
| Tcp.TcpPacket.Encode | sdwan-tun/src/main/java/io/jaspercloud/sdwan/tun/TcpPacket.java:257-313 | Header with the computed checksum, options, payload; both cursors are reset first, so a second call gives the same bytes. |
| Tcp.SegmentRoundTrip | sdwan-tun/src/main/java/io/jaspercloud/sdwan/tun/TcpPacket.java:207-313 | Decoding and encoding a segment changes its checksum field only, to the value over pseudo header and segment. |
| Tcp.ReceivedAccepted | sdwan-tun/src/main/java/io/jaspercloud/sdwan/tun/TcpPacket.java:276-313 | A receiver, which takes the segment behind the whole IP header, accepts what is sent if and only if the words that it does not sum and the length that it does not count come to 0 modulo 65535 when one fold was enough, and to 1 when not. |
| Tcp.SegmentAccepted | sdwan-tun/src/main/java/io/jaspercloud/sdwan/tun/TcpPacket.java:257-313 | For a segment in a datagram: without IP options a standard receiver accepts what is sent if and only if one fold was enough; with k bytes of options, if and only if k plus their sum as sent is 0 modulo 65535, or 1 when one fold was not enough. Only the word at 16 changes, which with options is not the receiver's field; that stays as it was. |
| Tcp.SegmentDropped | sdwan-tun/src/main/java/io/jaspercloud/sdwan/tun/TcpPacket.java:305-309 | A segment without IP options whose fold carries again, and which is dropped. |
| Udp.UdpPacket.Decode | sdwan-tun/src/main/java/io/jaspercloud/sdwan/tun/UdpPacket.java:65-79 | Fails exactly below 8 bytes or when the length field is below 8 or behind the end; the payload ends at the length field. |
| Udp.UdpPacket.Encode | sdwan-tun/src/main/java/io/jaspercloud/sdwan/tun/UdpPacket.java:85-126 | Header with the computed checksum and payload; a second call gives the same bytes. |
| Udp.DatagramRoundTrip | sdwan-tun/src/main/java/io/jaspercloud/sdwan/tun/UdpPacket.java:65-126 | Decoding and encoding a datagram cuts it at its length field and changes its checksum field only. |
| Udp.ParsedLayout | sdwan-tun/src/main/java/io/jaspercloud/sdwan/tun/UdpPacket.java:65-79 | Ports, length and checksum at their places in RFC 768. |
| Udp.WrittenLayout | sdwan-tun/src/main/java/io/jaspercloud/sdwan/tun/UdpPacket.java:85-126 | They are written at those places, then the payload. |
| Udp.DatagramAccepted | sdwan-tun/src/main/java/io/jaspercloud/sdwan/tun/UdpPacket.java:85-126 | The same for a datagram, and what a length field below the IP payload adds to the condition. Without options and with that length, accepted if and only if one fold was enough; the field is sent as zero, which a receiver reads as no checksum, if and only if the words sum to a positive multiple of 65535. |
| Udp.ZeroFieldSent | sdwan-tun/src/main/java/io/jaspercloud/sdwan/tun/UdpPacket.java:121-125 | A datagram that is sent without a checksum that way. |
| Udp.DatagramDropped | sdwan-tun/src/main/java/io/jaspercloud/sdwan/tun/UdpPacket.java:121-125 | One whose fold carries again, and which is dropped. |
| Udp.AcceptedAsItCame | sdwan-tun/src/main/java/io/jaspercloud/sdwan/tun/UdpPacket.java:65-79 | A packet with IP options whose datagram a receiver accepts as it came. |
| Udp.OptionsOverwritten | sdwan-tun/src/main/java/io/jaspercloud/sdwan/tun/UdpPacket.java:85-126 | The same packet as the program sends it: one fold was enough, the checksum stands where the datagram's destination port was, and the receiver drops it. |
| Packets.ReencodeTcp | sdwan-tun/src/main/java/io/jaspercloud/sdwan/tun/TcpPacket.java:207-313 | Decoding and encoding both layers succeeds exactly on well-formed bytes and gives the same bytes with both checksum fields filled in. |
| Packets.ReencodeUdp | sdwan-tun/src/main/java/io/jaspercloud/sdwan/tun/UdpPacket.java:65-126 | The same for UDP when its length field is that of the IP payload; otherwise the datagram is cut there. |
| Packets.RefreshedBytes | sdwan-tun/src/main/java/io/jaspercloud/sdwan/tun/Ipv4Packet.java:170-189 | Only the bytes of the header checksum and of the word at 20 + i change, with i the place of the checksum field in what the program takes for the segment. |
| Packets.RefreshedField | sdwan-tun/src/main/java/io/jaspercloud/sdwan/tun/Ipv4Packet.java:149-149 | That word is the segment's checksum field if and only if there are no IP options; with options it lies in front of that field, which keeps its value, and holds the program's checksum. |
| Packets.RefreshIdempotent | sdwan-tun/src/main/java/io/jaspercloud/sdwan/tun/Ipv4Packet.java:170-222 | Filling the two fields in again changes nothing. |
| Packets.SecondTcpPass | sdwan-tun/src/main/java/io/jaspercloud/sdwan/tun/TcpPacket.java:207-313 | A second pass over a TCP packet succeeds and gives the same bytes. |
| Packets.SecondUdpPass | sdwan-tun/src/main/java/io/jaspercloud/sdwan/tun/UdpPacket.java:65-126 | So does one over a UDP packet, with the same length field. |
| StunCodec.CodesInvert | sdwan-stun/src/main/java/io/jaspercloud/sdwan/stun/AttrType.java:45-52 | valueOf inverts getCode for message and attribute types, and every code belongs to at most one type. |
| StunCodec.ValueRoundTrip | sdwan-stun/src/main/java/io/jaspercloud/sdwan/stun/AddressAttr.java:33-51 | An attribute of the class its type declares decodes from its own bytes, for addresses, flags, bytes and texts. |
| StunCodec.ChangeRoundTrip | sdwan-stun/src/main/java/io/jaspercloud/sdwan/stun/ChangeRequestAttr.java:23-42 | The two flag bits survive the 32-bit word. |
| StunCodec.Decode | sdwan-stun/src/main/java/io/jaspercloud/sdwan/stun/StunDecoder.java:13-40 | For a transaction id in ASCII: the decoder's reads and its loop over slices compute the decoding of the bytes that are there; it fails exactly on truncation. |
| StunCodec.ReadAttrs | sdwan-stun/src/main/java/io/jaspercloud/sdwan/stun/StunDecoder.java:24-37 | The loop ends on every input and yields the attributes or the failure. |
| StunCodec.ReadFrame | sdwan-stun/src/main/java/io/jaspercloud/sdwan/stun/StunDecoder.java:25-27 | One attribute's code and the slice of its value, or truncation. |
| StunCodec.Encode | sdwan-stun/src/main/java/io/jaspercloud/sdwan/stun/StunEncoder.java:14-47 | Header and attributes, for the order in which the map yields its entries, which takes every entry once. |
| StunCodec.WriteAttrs | sdwan-stun/src/main/java/io/jaspercloud/sdwan/stun/StunEncoder.java:20-35 | The attribute area is the entries' frames in that order. |
| StunWire.MessageWritten | sdwan-stun/src/main/java/io/jaspercloud/sdwan/stun/StunEncoder.java:37-41 | Every message as it is sent: the number of its type in two bytes, the length of the area, 21 12 a4 42, the transaction id, and the attributes one after another with their numbers, lengths and values. |
| StunWire.FrameWritten | sdwan-stun/src/main/java/io/jaspercloud/sdwan/stun/StunEncoder.java:28-30 | The number of each attribute type, the length in two bytes, the value. |
| StunWire.ValueWritten | sdwan-stun/src/main/java/io/jaspercloud/sdwan/stun/AddressAttr.java:33-38 | An address is a zero, 1 or 2 for the family, the port and the four numbers; a change request has 4 for the address and 2 for the port in its last byte. |
| StunWire.NumbersRead | sdwan-stun/src/main/java/io/jaspercloud/sdwan/stun/MessageType.java:5-28 | Two bytes name a message type, and an attribute type, exactly when they are its number. |
| StunWire.ValueRead | sdwan-stun/src/main/java/io/jaspercloud/sdwan/stun/AddressAttr.java:43-51 | A value is read if and only if it is long enough, with family, port, address or flags from their bytes. |
| StunWire.MessageRead | sdwan-stun/src/main/java/io/jaspercloud/sdwan/stun/StunDecoder.java:13-40 | A message is read if and only if it is complete and its attributes are read; type and transaction id come from their bytes, and those of the cookie do not matter. |
| StunWire.AreaRead | sdwan-stun/src/main/java/io/jaspercloud/sdwan/stun/StunDecoder.java:24-37 | Attributes are read if and only if each one with a known number is long enough for it. |
| StunWire.AttributeRead | sdwan-stun/src/main/java/io/jaspercloud/sdwan/stun/StunDecoder.java:28-36 | Each type holds what the value of the last attribute with its number is read as; the number of OtherAddress counts as that of ChangedAddress. |
| StunTheorems.DecodeIsFold | sdwan-stun/src/main/java/io/jaspercloud/sdwan/stun/StunDecoder.java:24-37 | The loop is: cut into attributes, failing on truncation, then store them in turn. |
| StunTheorems.FramesOfBytes | sdwan-stun/src/main/java/io/jaspercloud/sdwan/stun/StunDecoder.java:24-37 | Cutting undoes writing, for any list of attributes. |
| StunTheorems.BytesOfFrames | sdwan-stun/src/main/java/io/jaspercloud/sdwan/stun/StunDecoder.java:24-37 | Only the bytes of a list of attributes can be cut. |
| StunTheorems.DecodeExactly | sdwan-stun/src/main/java/io/jaspercloud/sdwan/stun/StunDecoder.java:24-37 | On any bytes: success if and only if they are a list of attributes whose known ones decode, and then the result of storing that list. |
| StunTheorems.LastWins | sdwan-stun/src/main/java/io/jaspercloud/sdwan/stun/StunDecoder.java:28-36 | Every stored type holds the value of its last attribute. |
| StunTheorems.UnknownIgnored | sdwan-stun/src/main/java/io/jaspercloud/sdwan/stun/StunDecoder.java:28-31 | An attribute of unknown type inserted anywhere changes nothing. |
| StunTheorems.DecodeEncoded | sdwan-stun/src/main/java/io/jaspercloud/sdwan/stun/StunDecoder.java:13-40 | For every order of the map, decoding an encoded message stores its entries in that order. |
| StunTheorems.RoundTrip | sdwan-stun/src/main/java/io/jaspercloud/sdwan/stun/StunDecoder.java:13-40 | Without both address attributes, decode(encode(m)) is m with OtherAddress renamed to ChangedAddress, for every order. |
| StunTheorems.OrderFreeExactly | sdwan-stun/src/main/java/io/jaspercloud/sdwan/stun/StunEncoder.java:20-35 | Encoded messages decode alike for every two orders of the map if and only if the two address attributes are not both present with different values. |
| NatDiscovery.MappingManager.Check | sdwan-node/src/main/java/io/jaspercloud/sdwan/node/node/MappingManager.java:69-99 | The requests of a check and the type and address it reports, on any NAT table. |
| NatDiscovery.MappingManager.RunOnce | sdwan-node/src/main/java/io/jaspercloud/sdwan/node/node/MappingManager.java:47-67 | A failed check leaves the last mapping in place. |
| NatDiscovery.CheckExact | sdwan-node/src/main/java/io/jaspercloud/sdwan/node/node/MappingManager.java:69-107 | A check always reports the address of its first bind; the type is that of section 5 of RFC 3489 if and only if no stale permission lets a test reply through, and otherwise which wrong type it is. |
| NatDiscovery.LastReply | sdwan-node/src/main/java/io/jaspercloud/sdwan/node/node/MappingManager.java:82-91 | The bind to the changed address is seen from the same address if and only if the NAT is a cone. |
| NatDiscovery.TestsAdmitted | sdwan-node/src/main/java/io/jaspercloud/sdwan/node/node/MappingManager.java:77-81 | Which NAT tables admit the replies of the two tests. |
| NatDiscovery.CheckedTable | sdwan-node/src/main/java/io/jaspercloud/sdwan/node/node/MappingManager.java:69-99 | What permissions a check leaves behind. |
| NatDiscovery.RepeatedChecks | sdwan-node/src/main/java/io/jaspercloud/sdwan/node/node/MappingManager.java:47-67 | While NAT entries outlive the pause between checks: from a clean table the first check is right; every later one is too, if and only if the NAT is not a port restricted cone, which is then reported as a full cone. |
| Futures.OrderMeaning | sdwan-core/src/main/java/io/jaspercloud/sdwan/CompletableFutures.java:55-76 | order succeeds with a future exactly when everything before it failed; the last failure is the result when all failed. |
| Futures.OrderStable | sdwan-core/src/main/java/io/jaspercloud/sdwan/CompletableFutures.java:64-76 | Once it has completed, later completions change nothing. |
| Futures.Order.constructor | sdwan-core/src/main/java/io/jaspercloud/sdwan/CompletableFutures.java:55-62 | Futures that are already complete are taken at once; an empty list stays pending. |
| Futures.Order.DoNext | sdwan-core/src/main/java/io/jaspercloud/sdwan/CompletableFutures.java:64-76 | Goes on to the first future that has not failed, or to the last failure. |
| Futures.Order.Complete | sdwan-core/src/main/java/io/jaspercloud/sdwan/CompletableFutures.java:64-76 | After completions in any order, the result is that of the list. |
| Futures.AllOf.Complete | sdwan-core/src/main/java/io/jaspercloud/sdwan/CompletableFutures.java:16-31 | After completions in any order, the result is there exactly when all are complete. |
| Futures.AllOf.WhenComplete | sdwan-core/src/main/java/io/jaspercloud/sdwan/CompletableFutures.java:19-29 | The loop lists the successes in list order. |
| Futures.SuccessesInOrder | sdwan-core/src/main/java/io/jaspercloud/sdwan/CompletableFutures.java:20-28 | Each success is in that list, behind as many values as there are successes before it, and nothing else is. |
| Futures.FirstSuccess | sdwan-core/src/main/java/io/jaspercloud/sdwan/CompletableFutures.java:20-28 | The front of that list is the first success; it is empty exactly when all failed. |
| Futures.OrderIsFirstOfAll | sdwan-core/src/main/java/io/jaspercloud/sdwan/CompletableFutures.java:16-76 | order and the front of allOf pick the same success. |
| Futures.OnException.CompleteLast | sdwan-core/src/main/java/io/jaspercloud/sdwan/CompletableFutures.java:33-53 | The supplier is called exactly after a failure; the result is that of order on the two futures. |
| Futures.OnException.CompleteSupplied | sdwan-core/src/main/java/io/jaspercloud/sdwan/CompletableFutures.java:41-47 | The supplied future decides, success or failure. |
| AsyncTask.StepKeepsInv | sdwan-core/src/main/java/io/jaspercloud/sdwan/AsyncTask.java:22-57 | Every step of replies, duplicates and timers on any threads keeps: an open future is in the map or in one thread's hands. |
| AsyncTask.RunKeepsInv | sdwan-core/src/main/java/io/jaspercloud/sdwan/AsyncTask.java:22-57 | So does every run. |
| AsyncTask.CompletedOnce | sdwan-core/src/main/java/io/jaspercloud/sdwan/AsyncTask.java:34-46 | Whoever gets as far as completing a future finds it not completed, and is the only one. |
| AsyncTask.FirstWins | sdwan-core/src/main/java/io/jaspercloud/sdwan/AsyncTask.java:34-46 | The first reply or timer to remove the entry decides the result, in every continuation. |
| AsyncTask.NothingLeft | sdwan-core/src/main/java/io/jaspercloud/sdwan/AsyncTask.java:22-57 | With no thread at work on it, a future is complete if and only if its timer has run or was cancelled, and if and only if its entry is gone. |
| AsyncTask.TimerCompletes | sdwan-core/src/main/java/io/jaspercloud/sdwan/AsyncTask.java:27-32 | A request without a reply is completed by its timer. |
| AsyncTask.AsyncTask.WaitTask | sdwan-core/src/main/java/io/jaspercloud/sdwan/AsyncTask.java:22-32 | A new entry and an armed timer. |
| AsyncTask.AsyncTask.CompleteTask | sdwan-core/src/main/java/io/jaspercloud/sdwan/AsyncTask.java:34-39 | A reply completes the future, cancels its timer and removes the entry; a duplicate changes nothing. |
| AsyncTask.AsyncTask.CompleteExceptionallyTask | sdwan-core/src/main/java/io/jaspercloud/sdwan/AsyncTask.java:41-46 | The timer's task completes the future with a timeout and removes the entry. |
| P2p.P2pManager.ProcessP2pOffer | sdwan-node/src/main/java/io/jaspercloud/sdwan/node/tunnel/P2pManager.java:131-179 | For every order in which the probes finish, the answer is the pick of the first success; as a step of the network, the node's table stays its tunnel map. |
| P2p.PickIsFirst | sdwan-node/src/main/java/io/jaspercloud/sdwan/node/tunnel/P2pManager.java:141-172 | The answer names the first offered address whose probe succeeded. |
| P2p.PickNone | sdwan-node/src/main/java/io/jaspercloud/sdwan/node/tunnel/P2pManager.java:143-152 | NotFound when no probe succeeded. |
| P2p.RelayAnswers | sdwan-node/src/main/java/io/jaspercloud/sdwan/node/tunnel/P2pManager.java:143-152 | An offer that names a relay anywhere is never answered NotFound. |
| P2p.RelayIsLast | sdwan-node/src/main/java/io/jaspercloud/sdwan/node/connection/ConnectionManager.java:138-157 | With the order that sendBind builds, the relay is picked if and only if every direct probe fails, and the answer is never NotFound. |
| P2p.OfferedAddresses | sdwan-node/src/main/java/io/jaspercloud/sdwan/node/connection/ConnectionManager.java:115-152 | The offered list: the host address, the one the server sees, the one a direct bind was seen from if it was answered, the relay. |
| P2p.P2pManager.Create | sdwan-node/src/main/java/io/jaspercloud/sdwan/node/tunnel/P2pManager.java:181-203 | The initiator's tunnel has the addresses of the answer the other way round, and is returned even when an older one stays in the map; a step of the network like the responder's. |
| P2p.P2pManager.OnData | sdwan-node/src/main/java/io/jaspercloud/sdwan/node/tunnel/P2pManager.java:64-77 | A packet is handed to the one kept tunnel whose destination is the packet's source, and to none exactly when no kept tunnel leads there. |
| P2p.P2pManager.HeartTimeout | sdwan-node/src/main/java/io/jaspercloud/sdwan/node/tunnel/P2pManager.java:102-115 | A step of the network that removes by address. |
| P2p.StepIsLocal | sdwan-node/src/main/java/io/jaspercloud/sdwan/node/tunnel/P2pManager.java:28-46 | A step at one node leaves the tunnel maps of all others alone. |
| P2p.StepKeepsInv | sdwan-node/src/main/java/io/jaspercloud/sdwan/node/tunnel/P2pManager.java:131-203 | Entries are tunnels that were made at their node, under their own destination; a side has made its tunnel exactly when it has sent or received the answer. |
| P2p.AddressesMirrored | sdwan-node/src/main/java/io/jaspercloud/sdwan/node/tunnel/P2pManager.java:183-199 | In every run, the initiator's pair of addresses is the responder's, swapped. |
| P2p.FoundUntilLost | sdwan-node/src/main/java/io/jaspercloud/sdwan/node/tunnel/P2pManager.java:97-119 | A tunnel stays in its node's map exactly until a heartbeat fails under its address, and never comes back. |
| P2p.PacketsFindTheirTunnel | sdwan-node/src/main/java/io/jaspercloud/sdwan/node/tunnel/P2pManager.java:64-203 | Once both sides have made their tunnels, a packet of either finds the other's at its node if and only if the address was free when that was made and no heartbeat has failed there since. |
| P2p.PacketsAddressed | sdwan-node/src/main/java/io/jaspercloud/sdwan/node/tunnel/P2pDataTunnel.java:59-73 | What either side sends carries the payload, from the address that the other sends to, to the address that the other sends from. |
| Connections.StepKeepsInv | sdwan-node/src/main/java/io/jaspercloud/sdwan/node/connection/ConnectionManager.java:57-170 | Requests, answers, failures, packets and failed heartbeats keep: finished entries are live, one unclosed connection per address, connections closed with their tunnel. |
| Connections.RunKeepsInv | sdwan-node/src/main/java/io/jaspercloud/sdwan/node/connection/ConnectionManager.java:57-170 | So does every run. |
| Connections.NoDeadEntry | sdwan-node/src/main/java/io/jaspercloud/sdwan/node/connection/ConnectionManager.java:57-170 | In every run, no entry holds a finished connection whose tunnel is closed. |
| Connections.OneConnection | sdwan-node/src/main/java/io/jaspercloud/sdwan/node/connection/ConnectionManager.java:57-170 | In every run, there is at most one unclosed connection per address. |
| Connections.CloseRemovesExactly | sdwan-node/src/main/java/io/jaspercloud/sdwan/node/connection/ConnectionManager.java:62-74 | Closing a tunnel removes exactly the entries of connections built on it. |
| Connections.StuckForever | sdwan-node/src/main/java/io/jaspercloud/sdwan/node/tunnel/P2pManager.java:97-119 | An open tunnel outside the map with no heartbeat out stays open, and a connection on it keeps its entry, in every continuation. |
| Connections.StuckExactly | sdwan-node/src/main/java/io/jaspercloud/sdwan/node/tunnel/P2pManager.java:97-119 | A finished entry stays in every continuation if and only if its tunnel is of that kind. |
| Connections.EstablishedStuck | sdwan-node/src/main/java/io/jaspercloud/sdwan/node/tunnel/P2pManager.java:188-201 | A connection is established on such a tunnel if and only if the tunnel's address was taken. |
| Connections.DroppedStuck | sdwan-node/src/main/java/io/jaspercloud/sdwan/node/tunnel/P2pManager.java:97-119 | A failed heartbeat makes an entry's tunnel one of that kind if and only if it drops it from the map for another tunnel and none of its own heartbeats is out. |
| Connections.HeartFailExactly | sdwan-node/src/main/java/io/jaspercloud/sdwan/node/tunnel/P2pManager.java:97-119 | A failed heartbeat closes its own tunnel only; it drops an open tunnel from the map if and only if the address has been given to another one since. |
| Connections.StuckReached | sdwan-node/src/main/java/io/jaspercloud/sdwan/node/tunnel/P2pManager.java:156-201 | A run to such a connection: both nodes start an exchange that comes to the same address. |
| Connections.LateHeartReached | sdwan-node/src/main/java/io/jaspercloud/sdwan/node/tunnel/P2pManager.java:97-119 | A run in which a late heartbeat drops a newer tunnel, whose connection keeps its entry for good. |
| ConnectionEffects.DataExactly | sdwan-node/src/main/java/io/jaspercloud/sdwan/node/connection/ConnectionManager.java:59-88 | A packet through a tunnel of the map, from an address without an entry, makes a connection on that same tunnel, which will close it; any other packet changes nothing. |
| ConnectionEffects.EstablishedExactly | sdwan-node/src/main/java/io/jaspercloud/sdwan/node/connection/ConnectionManager.java:159-170 | The answer to a request makes a tunnel and a connection on it; the entry is finished with that. |
| ConnectionEffects.GetExactly | sdwan-node/src/main/java/io/jaspercloud/sdwan/node/connection/ConnectionManager.java:91-101 | A pending entry, if there is none and the channel is active, and nothing else. |
| ConnectionEffects.FailedExactly | sdwan-node/src/main/java/io/jaspercloud/sdwan/node/connection/ConnectionManager.java:102-107 | The pending entry goes, and nothing else. |
| ConnectionEffects.AnsweredExactly | sdwan-node/src/main/java/io/jaspercloud/sdwan/node/tunnel/P2pManager.java:156-172 | A new tunnel, found under its address unless that is taken. |
| ConnectionEffects.CheckExactly | sdwan-node/src/main/java/io/jaspercloud/sdwan/node/tunnel/P2pManager.java:97-101 | One more heartbeat of the tunnel that the address leads to. |
| ConnectionEffects.BeatExactly | sdwan-node/src/main/java/io/jaspercloud/sdwan/node/tunnel/P2pManager.java:102-115 | One heartbeat less; when it has failed, that tunnel is closed and nothing is found under its address. |
| ConnectionEffects.BeatConnections | sdwan-node/src/main/java/io/jaspercloud/sdwan/node/connection/ConnectionManager.java:62-74 | A failed heartbeat closes exactly the connections on its tunnel and removes exactly their entries. |
| ConnectionEffects.ConnectionsLeadBack | sdwan-node/src/main/java/io/jaspercloud/sdwan/node/connection/ConnectionManager.java:57-170 | In every run each connection leads to the address that its packet came from, or that its request was answered with, in the order in which they were made. |
| Connections.ConnectionManager.GetConnection | sdwan-node/src/main/java/io/jaspercloud/sdwan/node/connection/ConnectionManager.java:91-109 | The entry that is there, or a new pending one, or the exception of a closed channel without an entry. |
| Connections.ConnectionManager.CreateConnection | sdwan-node/src/main/java/io/jaspercloud/sdwan/node/connection/ConnectionManager.java:159-170 | A pending entry becomes a connection on a new tunnel to the address of the answer. |
| Connections.ConnectionManager.WhenFailed | sdwan-node/src/main/java/io/jaspercloud/sdwan/node/connection/ConnectionManager.java:102-107 | A request that fails leaves no entry. |
| Connections.ConnectionManager.OnData | sdwan-node/src/main/java/io/jaspercloud/sdwan/node/connection/ConnectionManager.java:57-88 | A packet gets the connection of its source; if there was none, a new one on the tunnel that the packet came through, and otherwise nothing changes. |
| Connections.ConnectionManager.HeartCheck | sdwan-node/src/main/java/io/jaspercloud/sdwan/node/tunnel/P2pManager.java:97-101 | A heartbeat of a tunnel of the map goes out. |
| Connections.ConnectionManager.HeartResult | sdwan-node/src/main/java/io/jaspercloud/sdwan/node/tunnel/P2pManager.java:102-115 | One comes back; if it has failed, the tunnel is removed by address and closed with its connections. |
| Connections.ConnectionManager.Close | sdwan-node/src/main/java/io/jaspercloud/sdwan/node/connection/PeerConnection.java:18-48 | The listeners close the connections and remove their keys, in whatever order. |
| RouteManager.ApplySynced | sdwan-node/src/main/java/io/jaspercloud/sdwan/node/route/RouteManager.java:114-173 | Initialising puts the operating system's table in step with the cache whatever the old address was; updating and releasing keep it in step under an unchanged address. |
| RouteManager.UpdateUnderNewAddress | sdwan-node/src/main/java/io/jaspercloud/sdwan/node/route/RouteManager.java:129-142 | Which routes an update under a changed address leaves behind. |
| RouteManager.RouteLeftBehind | sdwan-node/src/main/java/io/jaspercloud/sdwan/node/route/RouteManager.java:129-142 | A route that is left behind that way. |
| RouteManager.RunSynced | sdwan-node/src/main/java/io/jaspercloud/sdwan/node/route/RouteManager.java:114-173 | The same over whole runs. |
| RouteManager.ManagedRoutes | sdwan-node/src/main/java/io/jaspercloud/sdwan/node/route/RouteManager.java:114-173 | After every run: the managed routes are exactly the destinations of cached routes whose next hop is not the node, duplicates included; none after a release; a foreign route that no list names is untouched. |
| RouteManager.CacheIsLastList | sdwan-node/src/main/java/io/jaspercloud/sdwan/node/route/RouteManager.java:114-154 | After every run the cache is the list of the last operation as it came, or empty after a release. |
| RouteManager.RoutedExactly | sdwan-node/src/main/java/io/jaspercloud/sdwan/node/route/RouteManager.java:114-173 | For every destination, whether the operating system routes it after an operation, and whether a command named it. |
| RouteManager.RouteManager.InitRoute | sdwan-node/src/main/java/io/jaspercloud/sdwan/node/route/RouteManager.java:114-127 | Deletes the whole old list, adds the new routes to others, and keeps the node's own network. |
| RouteManager.RouteManager.UpdateRouteList | sdwan-node/src/main/java/io/jaspercloud/sdwan/node/route/RouteManager.java:129-142 | Replaces the routes to others and the cache. |
| RouteManager.RouteManager.ReleaseRoute | sdwan-node/src/main/java/io/jaspercloud/sdwan/node/route/RouteManager.java:144-154 | Deletes the routes to others and forgets cache and network. |
| RouteManager.RouteManager.DoUpdateRouteList | sdwan-node/src/main/java/io/jaspercloud/sdwan/node/route/RouteManager.java:156-173 | All deletions, then all additions, on the set of destinations. |
| RouteManager.RouteManager.FindRoute | sdwan-node/src/main/java/io/jaspercloud/sdwan/node/route/RouteManager.java:105-112 | The first cached route whose block has the address, unless a destination that fails its check comes before it. |
| RouteManager.RouteManager.RouteOut | sdwan-node/src/main/java/io/jaspercloud/sdwan/node/route/RouteManager.java:60-85 | That route's next hop, else the destination itself inside the own network, else nothing. |
| RouteManager.OwnNetwork | sdwan-core/src/main/java/io/jaspercloud/sdwan/Cidr.java:61-67 | The network text kept at initialisation has exactly the addresses that share the own address's prefix. |

## Left out

- Netty pipelines, thread loops and sleeping, logging, TUN devices, iptables and route shell commands, JDBC and SQL text, REST controllers, protobuf and URI text: messages and address URIs are records.
- The relay server and its token map, ECDH: a timestamped map and library cryptography. The token filter of RelayDataTunnel.check is part of a heartbeat that here just succeeds or fails.
- Clocks: the sweep is given the overdue channels or picks entries at will, timers may run at any time, and NAT entries do not expire during a check nor, for repeated checks, between checks.
- Packet loss and transport: a packet that is sent may be looked up at the peer; whether it arrives is not modelled.
- The split of a block text at its slash, prefix /0, IPv6 address attributes and texts outside ASCII: addresses are dotted quads with their mask given apart. What the program reads in other address texts, and which of them are IPv4 literals, is given to ConfigService.ConfigService.UpdateNode; elsewhere such texts are left out.
- Setters with field values that do not fit their place on the wire.
- Sharing of bytes between a buffer and its slices: a slice is a buffer of its own, which nothing writes to.
- RouteChain, routeIn, the handler list and processNodeInfo: filters and look-ups that would only add easy members.
- The exception of an offered address with an unknown scheme: schemes are the four that exist.
- Memory limits: a list of 2^31 addresses is a list.
- StunCodec.Decode: transaction ids outside ASCII, whose text may not have 12 characters, which the program refuses.
- Pool.RegistrableExactly: the node table of the lease protocol stands for the rows that ConfigService keeps; the two are not one state.
- Connections.StepKeepsInv: the heartbeat thread takes entries that are in the map at that moment, and callbacks run with the completion that triggers them, so a callback that is registered late on a future that has already failed, and then removes a newer entry by key, is not modelled.
- AsyncTask.StepKeepsInv: ids are unique and a reply comes only after waitTask has returned, as its callers arrange.
- NatDiscovery.CheckExact: one STUN socket, a NAT of one of the four types, and a server with two addresses and two ports.
