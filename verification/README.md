# SoftGRE in Dafny

SoftGRE is a daemon that learns GRE peers from captured packets and sets up, for each of
them, a tunnel interface, VLAN ports on bridges and bridge-firewall rules. This project
models the parts of it that carry state and can go wrong in the middle, and proves what they
keep.

- **Provisioning** (`Kernel`, `Firewall`, `Provision`, `ProvisionInvariant`, `ProvisionCalls`,
  `ProvisionTheorems`, `ProvisionChains`, `ProvisionOwners`, `ProvisionRevoke`,
  `ProvisionRollback`, `ProvisionCleanup`, `ProvisionProgress`, `ProvisionVerdicts`, `ProvisionDaemon`). The kernel is a value: interfaces with their two ends,
  VLAN children, bridge ports, jump rules and two ordered rule chains. Each command takes effect
  or fails without effect; an arbitrary environment decides which, so a statement for all
  environments covers every pattern of failures. Each command and the kernel after it go into
  a log, which is what statements about "every command step" quantify over. The calls are
  functions on a state; the class `Daemon` updates the tables in place, with the loops of
  the source, is proved equal to those functions and keeps their invariant. The theorems are about whole runs:
  start, then any sequence of packets and cleanups.
- **Hash map** (`Sequences`, `HashTable`, `HashMap`, `HashMapUse`, `Bits`). The slot array is an array updated in place, with
  linear probing, tombstones and rehashing, against a mathematical map. Keys are pointers;
  what they point to decides equality and hash.
- **Capture parser and filter** (`Payload`, `PayloadGrammar`, `PayloadLayout`, `Bpf`, `LabFrame`, `CaptureRuns`). The parser is
  shown to accept exactly a grammar of serialised frames and exactly a layout of bytes, the BPF jump program to compute
  exactly its condition, and the lab's frame builder to produce frames that parse back.
- **Netlink attributes** (`Netlink`). The nested attribute writer and the walk that reads it back.
- **Configuration text** (`Text`, `Cidr`, `Allowlist`, `BridgeMap`). Splitting and trimming in one shared buffer,
  masked comparison against CIDR membership, and what an allowlist and a bridge map mean for runs.
- **Names and status service** (`Names`, `Replies`, `Commands`, `Service`, `Server`). Interface names and wildcards,
  replies about the tables, the commands that ask for them, one client under arbitrary fragmentation, and whole runs of the service over its client slots.

Assumptions about the environment: a failing kernel command does not report ENOSPC, a failing
deletion of a present interface does not report ENODEV, a command that reports failure had no
effect, and no other process creates or deletes interfaces with the tunnel prefix during a run
(such interfaces may exist before it). Order of keys in a hash table, existence of bridges, and time
are arbitrary.

Two properties one might expect do not hold without a condition, and are stated with it. The owned
chains do not end in DROP at every step, because a cleanup flushes them
(`CleanupEmptiesChains`); after every command they do if and only if the last command that took
effect on the end of the chain appended the DROP, and always while a tunnel interface exists
(`EveryCommandFenced`). The ingress chain does not always equal the learned relation, because the
command that undoes a half-installed pair may itself fail, as in the run of `FailedUndoOpensPort`;
`FirewallExact` gives the exact relation and `ClientsOwnTheirPort` the learned one when no undo has
failed.

## Model

| member | source | states |
|---|---|---|
| ProvisionChains.EveryCommandFenced | src/iface_ebtables.c:56-124 | After every command of every run, whatever failed, a bridge port has its three jumps installed and both chains behind them end in DROP; an owned chain ends in DROP iff the last command that took effect on its end appended the DROP, which is always so while a tunnel interface exists |
| ProvisionChains.ServingEndsInDrop | src/iface_ebtables.c:56-65 | In every reachable state without a pending cleanup both owned chains end in DROP |
| ProvisionTheorems.CleanupEmptiesChains | src/iface_ebtables.c:119-124 | The unconditional form fails: a cleanup passes through a state with an empty ingress chain |
| ProvisionTheorems.FirewallExact | src/iface_ebtables.c:126-143 | In every reachable state, first-match traversal on a ready tunnel accepts ingress iff the source is learned there or its undo failed since the last flush, and egress iff the destination has the group bit or is learned there |
| ProvisionTheorems.ClientsOwnTheirPort | src/provision.c:123-145 | With no failed undo, a ready tunnel lets an address in iff the client index gives the address to that remote |
| ProvisionProgress.FailedUndoOpensPort | src/iface_ebtables.c:136-141 | A run of two packets whose second egress rule and undo are refused ends in a reachable state whose port accepts an address nobody learned |
| ProvisionTheorems.NothingLeaks | src/iface_ebtables.c:136-141 | If no command removing an ingress rule failed, no ingress rule is left over |
| ProvisionTheorems.OwnerForLife | src/provision.c:181-184 | Over any events without a completed cleanup, every owned client keeps its remote |
| ProvisionOwners.OwnedExactly | src/provision.c:133-139 | In every reachable state a client belongs to a remote iff some packet of that remote taught it to the daemon and no cleanup has completed since |
| ProvisionOwners.LearnedIsServed | src/provision.c:147-184 | Only a packet to the local address, from a possible peer, on a VLAN of the bridge map, outside backoff and cleanup, teaches an address, and only one nobody owns |
| ProvisionTheorems.TablesAgree | src/provision.c:76-105 | In every reachable state the client index inverts the per-tunnel sets, a slot is taken iff exactly one record has its id, records are keyed by their remote, the limits 4096 and 1024 hold, and the index has as many entries as all tunnels together |
| ProvisionRevoke.DelKeepsTables | src/provision.c:209-233 | Deleting any tunnel, with clients or not, keeps the tables in agreement wherever it stops; success leaves neither record nor client nor, where each client had one rule in each chain, a rule of the tunnel, and the rules of others stay |
| ProvisionRevoke.DropMacsSound | src/provision.c:216-224 | The client loop of a deletion keeps the tables in agreement at every stop; success empties the set and takes all its rules, and a failure leaves at most one recorded client whose rules differ from the record |
| ProvisionRevoke.OneRuleEach | src/provision.c:123-145 | In every reachable state without a pending cleanup, a tunnel whose undos worked has exactly one rule in each chain for each of its clients |
| ProvisionTheorems.KernelAgrees | src/provision.c:97-105 | Every tunnel interface belongs to a record and runs between the local address and that record's remote, every jump belongs to a record, bit i is set iff jump i is installed once, and ready tunnels are on all their bridges |
| ProvisionTheorems.CleanupOutcome | src/provision.c:235-269 | A cleanup either stays pending with the client index unchanged, or leaves no tunnel, interface or jump and exactly the default rules |
| ProvisionTheorems.CleanupCompletes | src/provision.c:235-269 | From every reachable state, however many attempts failed, a cleanup succeeds if its own commands do, four for each tunnel and five for the chains |
| ProvisionTheorems.FailuresSpaced | src/provision.c:185-203 | Between completed cleanups setup failures are at least a second apart |
| ProvisionTheorems.FailureRate | src/provision.c:185-203 | Between completed cleanups any failures no more than T microseconds apart number at most T/10^6 + 1 |
| ProvisionTheorems.TurnedAwayUnseen | src/provision.c:194-201 | An eligible packet whose tunnel is full, or whose remote is unknown while no slot is left, changes nothing, the backoff included |
| ProvisionTheorems.FullExactly | src/provision.c:76-88 | A packet gets the verdict of no room iff it is eligible and its tunnel holds 1024 clients, or its remote is unknown and every slot or its name is taken |
| ProvisionTheorems.FullPeersUnseen | src/provision.c:194-201 | Deleting from a run all packets that only lack room changes neither tables, kernel, command log nor backoff |
| ProvisionTheorems.RunSound | src/provision.c:147-269 | Every run preserves the invariant of tables, kernel and chains |
| ProvisionTheorems.BootSound | src/iface_ebtables.c:56-65 | The state after the default rules are in place satisfies the invariant |
| ProvisionCalls.DelSound | src/provision.c:209-233 | Rolling back a tunnel not in service keeps the invariant, every other record and every client, whichever command fails |
| ProvisionCalls.SetupSound | src/provision.c:103-121 | Firewall, ports and rollback keep the invariant; success means the tunnel is ready |
| ProvisionCalls.CreateSound | src/provision.c:76-105 | Creating a tunnel in the first free slot keeps the invariant; it reports no space iff no slot is left, and then changes nothing |
| ProvisionRollback.CreateRollsBack | src/provision.c:97-121 | A tunnel that could not be created leaves a record iff a deletion of its rollback failed; else tables and kernel are exactly what they were |
| ProvisionCalls.AddSound | src/provision.c:64-121 | Adding a remote keeps the invariant and all other records and clients; it reports no space iff the remote is unknown and no slot is left |
| ProvisionCalls.AllowMacSound | src/provision.c:123-145 | Learning a client keeps the invariant and all owners; failure changes only the kernel and its log, and no space is reported iff the ready tunnel is full for a new client, at no cost |
| ProvisionCalls.PacketSound | src/provision.c:147-207 | Handling a packet keeps the invariant and all owners; a learned client is recorded for its sender, and the backoff moves only on a failure |
| ProvisionVerdicts.VerdictExact | src/provision.c:147-203 | From the tables, the settings and the clock alone: a packet is ignored iff it is not for this host, not from a possible and listed peer, on no mapped VLAN, during a cleanup, or its client belongs to another remote; known iff its client is this remote's; backed off, or without room, iff only that stands against it; all four leave everything as it was, and only the rest is learned or fails |
| ProvisionVerdicts.FailureHasCause | src/provision.c:185-203 | A packet fails only if nothing in tables, settings or clock stands against it and one of the commands it takes is refused or a bridge is missing |
| ProvisionVerdicts.ServiceableIsLearned | src/provision.c:147-207 | With room and no failing command a packet is learned if some bridge has its VLAN, some listed network its sender, and the sender is a possible peer |
| ProvisionVerdicts.IdlePacketsUnseen | src/provision.c:150-184 | Leaving out of a run any packets that are ignored, known, backed off or without room where they occur changes neither tables, kernel, command log nor backoff |
| ProvisionCalls.TakeDownSound | src/provision.c:243-259 | The cleanup loop keeps the invariant's core; success leaves nothing of the listed tunnels in the kernel |
| ProvisionCleanup.CleanupGoesOn | src/provision.c:243-259 | After a cleanup that stays pending, a tunnel is down iff none of its own commands failed, whatever became of the others |
| ProvisionCalls.DelAllSound | src/provision.c:235-269 | A full cleanup keeps the invariant, and clears everything if it clears its flag |
| ProvisionInvariant.CoreFenced | src/provision.c:106-113 | Records that agree with the kernel imply that every bridge port is guarded |
| ProvisionInvariant.GreDeleted | src/iface_gre.c:143-153 | Deleting the interface of an idle tunnel keeps the invariant; success or ENODEV means neither interface nor port remains |
| ProvisionProgress.EligibleIsLearned | src/provision.c:147-207 | With room, and if none of the bounded number of commands it takes fails, an eligible packet is learned and owned by its remote |
| ProvisionProgress.FirstPacketLearned | src/provision.c:64-121 | The first packet of a new remote takes exactly four commands, two for each bridge and two for the client |
| ProvisionProgress.AttachPortsCompletes | src/iface_bridge.c:69-96 | With distinct VLANs and no failing command, all ports of a new tunnel get attached by two commands each |
| ProvisionDaemon.Daemon.OnPacket | src/provision.c:147-207 | The in-place handler keeps the invariant and every owner, gives each verdict exactly when the fields say so, changes nothing for packets it ignores, knows, backs off or has no room for, makes a learned client the sender's, arms the backoff on a failure, and counts packets, ignored packets and failures |
| ProvisionDaemon.Daemon.AddTunnel | src/provision.c:64-121 | The in-place form of adding a remote equals its specification |
| ProvisionDaemon.Daemon.CreateTunnel | src/provision.c:76-121 | The in-place creation with its rollback equals its specification |
| ProvisionDaemon.Daemon.FindSlot | src/provision.c:76-84 | The scan finds the first slot that is free and whose name is not taken |
| ProvisionDaemon.Daemon.AllowClient | src/provision.c:123-145 | Success makes the client a client of this remote alone and lets its frames through both ways; failure changes no table and lets no frame out; a full tunnel costs no command; the invariant is kept |
| ProvisionDaemon.Daemon.Remove | src/provision.c:209-233 | The in-place deletion equals its specification |
| ProvisionDaemon.Daemon.Clean | src/provision.c:235-269 | The in-place cleanup keeps the invariant and either stays pending with every owner kept, or leaves empty tables, a kernel without tunnels, ports or jumps, and the default rules |
| ProvisionDaemon.Daemon.Live | src/softgred.c:162-202 | Any sequence of events takes the daemon to the end state of the specified run, with the invariant kept and every command so far leaving the kernel fenced |
| ProvisionDaemon.Daemon.constructor | src/iface_ebtables.c:67-81 | A successful start establishes the invariant, with the default rules as its first commands |
| ProvisionDaemon.Daemon.AddTunnelHooks | src/iface_ebtables.c:92-105 | The loop over the hooks equals its specification, bits included |
| ProvisionDaemon.Daemon.DelTunnelHooks | src/iface_ebtables.c:107-117 | The loop tries every recorded jump and keeps the bits of those that stay |
| ProvisionDaemon.Daemon.AttachBridges | src/provision.c:108-113 | The loop over the bridges creates, then enslaves, and stops at the first failure |
| ProvisionDaemon.Daemon.ResetOwnedChains | src/iface_ebtables.c:119-124 | Success leaves exactly the default rules and nothing leaked; failure leaves each chain as it was or with a part of its defaults; nothing else in the kernel changes, and without tunnels every step is safe |
| Firewall.InstallHooksSound | src/iface_ebtables.c:92-105 | Bits and jumps agree at every stop, jumps of other tunnels stay, success means all three |
| Firewall.RemoveHooksSound | src/iface_ebtables.c:107-117 | Bits and jumps agree at every stop, and no port loses its fence on the way |
| Firewall.AttachPortsSound | src/iface_bridge.c:69-96 | Ports are added only behind a complete fence; success puts every VLAN on its bridge |
| Firewall.AllowRulesSound | src/iface_ebtables.c:126-143 | Egress gains the rule exactly on success, and an ingress rule that outlives a failure is accounted for |
| Firewall.ResetChainsSound | src/iface_ebtables.c:119-124 | A successful reset leaves exactly the default rules, and every step of it is safe without interfaces |
| Firewall.ChainDefaultsSound | src/iface_ebtables.c:56-65 | The defaults are appended in the order multicast, ingress DROP, egress DROP |
| Firewall.TraverseExact | src/iface_ebtables.c:126-143 | Accept rules in front of a tail decide by membership, then by the tail |
| HashMapUse.Replay | src/hashmap.c:126-254 | Any history of inserts, removals, lookups, resets, key listings and iterations with removal answers as a mathematical map; live and deleted slots stay below 3/4 of a capacity that is a power of two, 16 or below 4*(peak+1); all rehashes scan at most 4 slots per insert; after destroy every key and value was released exactly once |
| HashMapUse.Sweep | src/hashmap.c:204-243 | Iterating with removal offers every entry once, leaves exactly the kept ones, and changes nothing in the books but what was released |
| HashMapUse.Iter.Next | src/hashmap.c:212-229 | Returns an entry of the start not visited before, or ends when all were visited |
| HashMapUse.Iter.Remove | src/hashmap.c:231-243 | Removes the entry returned last and releases its key and value once; a second call does nothing |
| HashMap.HashMap.Find | src/hashmap.c:82-105 | Finds a key iff it is in the map, else a reusable slot reachable by probing; the walk always meets an empty slot |
| HashMap.HashMap.Insert | src/hashmap.c:137-164 | Inserts or replaces, keeping the stored key and releasing the new key and old value on replacement |
| HashMap.HashMap.Resize | src/hashmap.c:107-124 | Rehashing keeps the map, drops tombstones and costs the old capacity |
| HashMap.HashMap.Reserve | src/hashmap.c:139-144 | Before an insert there is room below three quarters of the capacity, which doubles only for live entries |
| HashMap.RehashBounded | src/hashmap.c:139-144 | A rehash is paid for by the inserts that filled the table, and keeps load and capacity bounds |
| HashMap.HashMap.Remove | src/hashmap.c:166-177 | Removes exactly the key and releases its entry once |
| HashMap.HashMap.RemoveAll | src/hashmap.c:179-192 | Empties the map, releases everything and returns to the least capacity |
| HashMap.HashMap.Destroy | src/hashmap.c:69-78 | Everything handed over has been released |
| HashMap.HashMap.KeyList | src/hashmap.c:245-254 | The snapshot lists every entry once and fits its buffer of count |
| HashMap.HashMap.Lookup | src/hashmap.c:126-130 | Gives the value of the mathematical map |
| HashMap.HashMap.Contains | src/hashmap.c:132-135 | Gives membership in the mathematical map |
| HashMap.HomeIsMasked | src/hashmap.c:84-85 | Masking with the capacity less one is the remainder by the capacity |
| HashTable.Absent | src/hashmap.c:87-101 | An empty slot on the probe path proves a key absent: tombstones hide nothing |
| HashTable.Inserted | src/hashmap.c:156-163 | Filling a reachable reusable slot keeps every key findable and unique |
| HashTable.Removed | src/hashmap.c:171-175 | A tombstone keeps every other key findable |
| PayloadGrammar.ParseIsGrammar | src/payload.c:32-79 | The parser accepts bytes with result p iff they are a serialised frame carrying p plus trailing bytes |
| PayloadLayout.ParseIsLayout | src/payload.c:32-79 | The parser accepts bytes with result p iff, behind at most two tags, each byte that matters has its value at its offset and the fields of p are the bytes at theirs, addresses in network order |
| PayloadLayout.IpOfOctets | src/payload.c:73-74 | An address is the four bytes in network order |
| CaptureRuns.OwnersWereCaptured | src/payload.c:32-79 | In every reachable state of a run over captured bytes, each client belongs to the source of a captured frame that holds both addresses, the local address and a mapped VLAN at their offsets |
| CaptureRuns.MartiansUnseen | src/provision.c:155-160 | A frame whose source address starts with 0, 127 or 224 and above makes no difference to a run |
| PayloadGrammar.FrameAccepted | src/payload.c:32-79 | Every valid frame, with any trailer, parses to what it carries |
| PayloadGrammar.FrameSound | src/payload.c:32-79 | Accepted bytes are a valid serialised frame and a trailer |
| PayloadGrammar.TruncationRefused | src/payload.c:49-51 | Every truncation inside the IP total length is refused |
| Payload.ParseFrame | src/payload.c:32-79 | The walk over offsets makes the decisions of the specified parser |
| Bpf.FilterExact | src/payload.c:93-111 | The jump program returns 65535 iff IPv4 GRE follows at most two tags, else 0 |
| Bpf.FilterBytes | src/payload.c:93-111 | The jump program passes a packet iff behind at most two tags the bytes 08 00 and, at its offset, 47 stand |
| Bpf.FilterAdmitsParsed | src/payload.c:93-111 | The filter passes every packet the parser accepts |
| LabFrame.BuildFrame | scripts/lab/packets.py:15-50 | Every lab frame has an IP header that sums to all ones, and with arguments in range the parser finds exactly the bytes of both addresses, the client and the VLAN in it |
| LabFrame.Checksum | scripts/lab/packets.py:7-12 | The folding loop gives the complement of the ones' complement sum |
| LabFrame.ChecksumVerifies | scripts/lab/packets.py:46-46 | A header completed with its checksum sums to all ones |
| Netlink.WrittenDecodes | src/iface_gre.c:34-59 | Properly nested calls succeed iff the encoding fits; the result is aligned, within bounds and decodes to the intended tree |
| Netlink.AllCallsEncode | src/iface_gre.c:34-59 | The calls for a forest append exactly its encoding, or are refused |
| Netlink.DecodeEncode | src/iface_gre.c:34-59 | The RTA_OK/RTA_NEXT walk inverts the encoding |
| Netlink.LeafOnWire | src/iface_gre.c:34-48 | An attribute is its length and type, least significant byte first, its payload and zeros up to a multiple of four |
| Netlink.NestOnWire | src/iface_gre.c:50-59 | The length of a nested attribute covers its children, and bit 15 of its type is set |
| Netlink.LinkRequest.LinkAttr | src/iface_gre.c:34-48 | Appends one padded attribute, or refuses and leaves the message unchanged |
| Netlink.LinkRequest.LinkNest | src/iface_gre.c:50-54 | Opens a nested attribute and returns where it starts |
| Netlink.LinkRequest.LinkNestEnd | src/iface_gre.c:56-59 | Patches the length so that the attribute reaches the end of the message |
| Netlink.Write | src/iface_gre.c:34-59 | Any sequence of the three calls acts on the request buffer as on the abstract writer |
| Netlink.WriteTree | src/iface_gre.c:34-59 | Any typed tree is written into the buffer iff its encoding fits, and what then stands there decodes to the tree |
| Netlink.GreRequest | src/iface_gre.c:114-139 | The request for a gretap always fits and decodes to attributes 3 (name) and 18 (1 kind, 2 (1 link, 6 local, 7 remote, 10 zero)) |
| Cidr.StoredIsNetwork | src/softgred_config.c:203-212 | The masked comparison equals agreement of the leading prefix bits |
| Text.Fields | src/compat.c:82-110 | Splitting and trimming in one buffer equals splitting at delimiters and trimming each field |
| Text.StrTrim | src/compat.c:82-95 | The string becomes its trimmed self and nothing beyond its end changes |
| Text.StrSplitNext | src/compat.c:97-110 | The field ends at the first delimiter and the cursor moves behind it |
| Text.SplitJoins | src/compat.c:97-110 | Joining the fields gives the text back, and no field holds a delimiter |
| Text.TrimExact | src/compat.c:82-95 | Trimming removes exactly the surrounding white space |
| Allowlist.ParseAllow | src/softgred_config.c:215-256 | Succeeds iff there are at most 64 entries and each parses, with the stored network of each |
| Allowlist.EntryExact | src/softgred_config.c:229-247 | An entry is read as an address with 32 bits iff it is an address alone, and with n bits iff a slash and n, at most 32, in decimal follow |
| Allowlist.EntryReads | src/softgred_config.c:229-247 | An address, a slash and a number in decimal are read back up to 32 and refused beyond |
| Allowlist.AllowlistExact | src/softgred_config.c:203-212 | The stored list lets an address in iff an entry of the text names a network that contains it |
| Allowlist.PeersAreListed | src/provision.c:155-166 | With an allowlist, every remote that owns a tunnel in any run lies in a listed network, is not local, and lies between 1.0.0.0 and 223.255.255.255 outside 127/8 |
| Allowlist.BarePeersAreListed | src/provision.c:161-166 | With a list of bare addresses, every remote that owns a tunnel in any run is one of them |
| BridgeMap.ParseBridges | src/softgred_config.c:258-290 | Succeeds iff there are at most 10 fields, each a VLAN from 1 to 4094, an @ and a valid interface name, and no VLAN twice; yields what the fields say |
| BridgeMap.BridgeExact | src/softgred_config.c:263-283 | A field is read as a bridge iff it is a VLAN from 1 to 4094 in decimal, an @ and a name of at most 15 legal characters, with white space around either |
| BridgeMap.BridgeReads | src/softgred_config.c:263-283 | A VLAN in decimal, an @ and a legal name are read back |
| BridgeMap.CutBridge | src/softgred_config.c:264-271 | A field is cut at its @ and both halves are trimmed in place, with the rest of the buffer untouched |
| BridgeMap.ConfiguredNamesFit | src/softgred_config.c:305-306 | With an accepted bridge map and prefix every tunnel and port name fits 15 characters |
| BridgeMap.ConfiguredIsLearned | src/provision.c:147-207 | With accepted settings, room and no failing command, a packet for this host is learned if its VLAN stands in the bridge map and an entry of the allowlist covers its sender |
| Names.NamesFit | src/softgred_config.c:305-306 | With a prefix of at most 6 characters all interface names fit 15 |
| Names.TunnelNameInjective | src/provision.c:92-92 | Tunnel names determine the id |
| Names.PortNameInjective | src/iface_bridge.c:71-72 | Port names determine id and VLAN |
| Names.TunnelNameReads | src/provision.c:92-92 | A tunnel's name is the prefix and its id in decimal |
| Names.PortNameReads | src/iface_bridge.c:71-72 | A port's name is its tunnel's name, a dot and its VLAN in decimal |
| Names.IpTextReads | src/service_cmd.c:88-89 | The text of an address, cut at its dots, is its four octets in decimal, the first one first |
| Names.WildcardExact | src/iface_ebtables.c:94-95 | A tunnel's wildcard matches its own ports only, and no tunnel interface |
| Names.MacTextInjective | src/provision.c:175-177 | Tables keyed by address text are keyed by the address |
| Replies.RepliesBounded | src/service_cmd.c:65-131 | In every reachable state the LMIP and STUN replies stay below 1 MiB |
| Replies.OwnerReplyExact | src/service_cmd.c:81-93 | GTMC names the remote that learned the address, else not found, and is invalid only for a malformed address |
| Replies.ValidMac | src/service_cmd.c:24-35 | Accepts exactly six colon-separated hex pairs and lowers their case |
| Replies.NormalisedText | src/service_cmd.c:24-35 | A normalised text is the text of the address it denotes |
| Replies.MacTextExact | src/service_cmd.c:24-35 | A text is accepted iff in lower case it is the text of an address, and then denotes it |
| Replies.MacTextReads | src/provision.c:175-177 | The text of a client holds its six bytes in order, each at its place |
| Replies.ListClients | src/service_cmd.c:69-80 | The LMIP reply is the header, the addresses joined by semicolons, and a line feed |
| Replies.ListTunnels | src/service_cmd.c:112-128 | The STUN reply is the header, the entries of the tunnels in table order and a line feed, or says that there is none |
| Replies.StunReads | src/service_cmd.c:119-126 | The body of STUN, cut at its semicolons, is one entry for each tunnel: its remote, an @ and its interface name |
| Replies.ClientsRead | src/service_cmd.c:73-76 | The body of LMIP, cut at its semicolons, is the texts of the clients |
| Commands.OwnerAsked | src/service_cmd.c:81-93 | Over the wire: GTMC and an address in either case, with or without a carriage return, gets the remote that learned it and its interface, or not found |
| Commands.ClientsAsked | src/service_cmd.c:65-80 | Over the wire: LMIP and an address gets the learned clients of that remote, or not found |
| Commands.TunnelsAsked | src/service_cmd.c:112-128 | Over the wire: STUN gets the listing of all tunnels, or null |
| Commands.Refused | src/service_cmd.c:42-64 | Anything but the seven commands with the right number of words gets the one refusal |
| Commands.TokensCut | src/service_cmd.c:50-57 | Any separator cuts the line, and runs of separators make no difference |
| Service.OneReply | src/service.c:114-169 | Whatever the fragmentation and partial sends, what was sent is a prefix of the one reply the stream deserves, a closed conversation has sent all of it, and it is closed after at most stream + reply + 2 rounds in which the socket gave or took something |
| Service.RoundFaithful | src/service.c:120-171 | One round keeps the conversation faithful and, if the socket gave or took something, brings its end nearer |
| Service.NothingElseSent | src/service.c:120-169 | Whatever happens to a connection, errors, expiry and malformed input included, it is sent nothing but the beginning of the one reply to the text read from it, and nothing if that text holds a NUL |
| Service.ReplyDependsOnLine | src/service.c:143-154 | Bytes after the first line feed do not influence the reply |
| Service.LineReply | src/service.c:143-154 | A line of less than 255 bytes gets exactly what the command answers to its text, replaced only above 1 MiB |
| Service.HalfClosedReply | src/service.c:143-154 | A shorter request without a line feed gets the same once the client has closed its side |
| Service.OverflowReply | src/service.c:146-148 | A request without a line feed in its first 255 bytes is refused as too large |
| Server.Server.Serve | src/service.c:118-171 | One round of its own conversation for every polled slot, nothing for the others |
| Server.Server.Admit | src/service.c:172-186 | A connection gets the first free slot, empty and with a fresh deadline, or is closed at once when none is free |
| Server.Server.AdmitBatch | src/service.c:172-187 | A batch accounts for every accepted descriptor |
| Server.Server.Store | src/service.c:39-47 | An emptied slot closes its descriptor once |
| Server.Server.End | src/service.c:190-198 | At the end every accepted descriptor has been closed exactly once |
| Server.Server.PollSlots | src/service.c:98-112 | Lists exactly the slots in use, in order |
| Server.Session | src/service.c:98-198 | Over any run of polls, dispatches and accepts up to the end, every accepted descriptor is closed exactly once; each was turned away in a turn in which every slot was held by another connection, or went through exactly the rounds its slot was polled for until the service closed it or the end cut it short; no slot served two at a time; each was sent what its own conversation says, was gone with the first round past its deadline or finding it broken, and unless cut short a clean request got exactly its one reply |
| Server.TalkMore | src/service.c:118-171 | A conversation continues round by round from where it stood |

## Left out

- State after `provision_end` and `iface_ebtables_end`, and failures while the owned chains are created: runs start after a successful start and end before the tables are discarded.
- Commands that time out after taking effect, and interfaces created or deleted by others during a run: excluded by the assumptions above.
- Sockets, poll, signals, fork and exec, netlink send and receive: only their outcomes appear, as arbitrary choices.
- Interface names inside the provisioning model: interfaces, ports and rules carry the tunnel id; the lemmas on names and wildcards justify it.
- ProvisionDaemon.Daemon.OnPacket: counters are unbounded, so wrap-around of the 64-bit counters is not modelled.
- HashMap.HashMap.Insert: destructors are modelled as always present, sizes as unbounded naturals, and allocation as never failing (the source aborts).
- Netlink.LinkRequest.LinkAttr: lengths are unbounded naturals, so wrap-around of a length near the largest size is not modelled; byte order is least significant first.
- Payload.ParseFrame: null pointer arguments are not modelled.
- Service.OneReply: the answer to a command is a function of its text; that the tables may change between connections is outside this statement.
- Replies.ListClients: takes the addresses in the order the sort produced; the sort is a library call.
- Hash functions of the hash map (integer mixing and FNV-1a): the proofs hold for every hash function.
- The INI reader, command line, PID file and logging: nothing modelled here depends on them beyond the values of the settings, which are arbitrary.
- Texts of the commands VERS, HELP and STAT: arbitrary strings, as nothing else depends on them.
- Growth of string buffers: replies are unbounded sequences, so only their contents and lengths are stated.
- `iface_bridge_prepare`, and the request bytes of VLAN and master changes: built like the gretap request, which is modelled.
