# ebfw egress firewall: verified model

ebfw is a node agent that turns egress policies into eBPF lookup tables. This project models its
decision-making in Dafny and proves what those decisions mean, from policy resources down to
dropped packets.

- **Policies.** `Policy` and `Engine` hold the policy model, the first-match engine that defines what
  a policy means for a flow, and the compiled form that evaluates it. `Domains`, `Matching` and
  `Selectors` say what names, matches and selectors mean in independent terms. `Order` and
  `Aggregate` merge many resources into one node policy by folding each resource's subject selector
  into its rules.
- **Compiler.** `Programmer` writes a policy and the live pods into three kernel maps and reconciles
  them on every change. `Kernel` and `Lpm` are the machine that reads the maps, most specific entry
  first, down to the bits of a trie key. `Compiler` says what the written tables mean, and `Agreement`
  exactly when that is what the engine means. `History` covers whole runs of applies. `Datapath` is
  the packet and connect hooks. `Pipeline` composes the stages.
- **Learning.** `Learner` turns DNS answers into verdicts with an expiry. `VerdictProtocol`
  interleaves the programmer, the answer handler, the sweeper, engine updates and LRU eviction on
  the one shared map. `Broadcast` is the lossy one-slot channel that carries policy changes.
- **Decoders.** `Http2` is the HTTP/2 frame decoder and `Tracker` the per-connection table over it.
  `Sni` extracts the server name of a TLS ClientHello.

`dafny verify dfyconfig.toml` checks the whole project.

## Conventions

- The three maps `default_action`, `verdicts` and `cidr_verdicts` are one map over a tagged key, so
  each law is stated once. Cgroup 0 is the node-global key and port 0 the any-port key.
- A map write may fail. An apply of the programmer takes the set of its writes that fail as a
  parameter and its result is exact for every such set. The learner has a `reliable` flag: writes
  succeed when it is set and fail arbitrarily when it is not. Deletes succeed.
- Cgroup ids of pods are inode numbers and never 0, so `0 !in pods` is assumed of the pod table.
- Protocols are state machines with one step per atomic operation; "reaches" means by any finite
  sequence of enabled steps.
- Clocks, HPACK, the HTTP/1 parser, DNS message parsing, CIDR text parsing and the pod table are
  parameters. HPACK is any deterministic state transformer.
- Go map iteration order is left open: loops over a map pick any remaining key.

## Where the code differs from what it says

- `bpf/egress.bpf.c:105-107` says per-IP entries are always faithful to rule order. They are not:
  the datapath takes the most specific entry. `Agreement.ScopesDisagree` exhibits the disagreement,
  for single hosts and for networks. `Agreement.AgreementExact` gives the exact condition for
  agreement on any policy and flow, and `Agreement.AgreementByRank` the form of it that does not
  mention the flow. Being free of inversions is sufficient (`Agreement.RefinesEngine`), and it is
  necessary too when the rules may be removed at will (`Agreement.HereditaryAgreement`).
- `internal/enforce/programmer.go:232-234` says reconciliation tracks what was written. A failed
  write of the global default after an earlier success leaves that key behind unrecorded
  (`History.GlobalDefaultLeftBehind`). `History.RecordsExact` says, in terms of which writes of that
  key failed, exactly when records and tables match.
- `internal/enforce/dnslearn.go:209-210` promises the smallest TTL. A zero TTL doubles as "unset", so
  the fold is the smallest TTL exactly when a zero, if present, comes last
  (`Learner.SmallestTtlExact`, with `Learner.ZeroTtlForgotten` as the failing input).
- The sweeper deletes an expired learned verdict even when the programmer has since written the same
  key, and the programmed verdict is then missing until the next apply
  (`VerdictProtocol.SweepDropsProgrammed`). `VerdictProtocol.ProgrammedVerdictLostExactly` says
  exactly when a programmed verdict is exposed to this: when the learner holds, or is writing, an
  expiry for its key.
- `internal/tlsparse/tlsparse.go:15-16` says the no-SNI error means there was no server_name extension.
  A ClientHello that has one is also reported so when the capture ends inside the length of its
  extensions block or inside the header of an extension (`Sni.NamePresentButUnseen`).
  `Sni.TruncationExactly` gives the result of every cut of every well-formed ClientHello.
- A selector of negative requirements matches an unattributed process in the engine and is never
  programmed for it (`Agreement.UnknownCgroupDiverges`). A rule for port 0 programs the any-port key
  (`Agreement.PortZeroDiverges`). `Agreement.TrackedExactly` says for every rule and flow exactly when
  the two readings of the rule differ, and the agreement theorems cover everything else, unknown
  cgroups included.

## Model

| member | source | states |
|---|---|---|
| Compiler.Denotation | internal/enforce/programmer.go:125-193 | For every policy, pod set and destination, the kernel's eight lookups on the programmed tables return the action of the most specific rule that speaks about the destination, ties to the earlier rule, the posture last. |
| Compiler.BestByIndex | internal/enforce/programmer.go:140-184 | The winner by position: the earliest rule of greatest rank, or the posture when no rule speaks. |
| Compiler.BestIsTop | internal/enforce/programmer.go:140-184 | The winning rule's rank and action are those of the most specific covering key in the compiled table. |
| Compiler.RuleRankIsMax | internal/enforce/programmer.go:146-183 | A rule's rank is the greatest rank of the keys it writes, and is absent exactly when none covers the destination. |
| Compiler.SpeaksExactly | internal/enforce/programmer.go:142-230 | A rule says something about a destination if and only if its shape is programmable, its selector is node-global or matches the known pod, and a writable CIDR holds the address on a listed port, port 0 counting as any. |
| Compiler.CgroupCovered | internal/enforce/programmer.go:164-230 | The destination side of that, per cgroup. |
| Agreement.AgreementExact | internal/policy/engine.go:79-87 | For every policy, pod set, destination and flow, datapath and engine agree if and only if the first rule that matches and the most specific rule that speaks act alike, the posture standing in for a missing one. |
| Agreement.AgreementByRank | internal/enforce/programmer.go:140-184 | When every rule is read alike, they agree if and only if the first rule that speaks and the most specific one act alike. |
| Agreement.TrackedExactly | internal/enforce/programmer.go:142-230 | Engine and datapath read a rule alike at a destination if and only if it is not a match the datapath cannot express and not a port-0 rule about an unlisted port; for known and unknown cgroups. |
| Agreement.RefinesEngine | internal/policy/engine.go:79-87 | Without inversions at a destination, most-specific-wins on the tables equals first-match-wins on the rules. |
| Agreement.InversionDisagrees | test/crd.sh:366-371 | An inversion between the first rule that speaks and the most specific one is a disagreement. |
| Agreement.HereditaryAgreement | test/crd.sh:366-371 | A policy is free of inversions if and only if it and all its sub-policies agree with the engine. |
| Agreement.ScopesDisagree | bpf/egress.bpf.c:102-107 | A node-wide Deny followed by a namespace's Allow of the same host and port, or the same network: the engine denies and the datapath allows, for every such pod, target and flow. |
| Agreement.UnknownCgroupDiverges | internal/policy/selector.go:123-136 | A valid policy whose negative selector denies an unknown cgroup's flow in the engine while the datapath allows it. |
| Agreement.PortZeroDiverges | internal/enforce/programmer.go:214-221 | A valid policy for port 0 that denies every other port of the host in the datapath while the engine allows it. |
| Compiler.SilentRules | internal/enforce/programmer.go:140-184 | Rules that write nothing about a destination can be inserted anywhere without effect on it. |
| Compiler.UnmatchedRuleSilent | internal/enforce/programmer.go:146-149 | A rule whose selector misses a pod says nothing about that pod's destinations. |
| Kernel.VerdictIsTop | bpf/egress.bpf.c:179-230 | The eight lookups return the value of the most specific covering key of any valid table. |
| Kernel.VerdictOfNothing | bpf/egress.bpf.c:229 | With no covering key the datapath allows. |
| Kernel.RankInjective | bpf/egress.bpf.c:102-107 | No two covering keys are equally specific. |
| Kernel.SpecificityOrder | bpf/egress.bpf.c:102-105 | Own host entries, then the node's, exact port before any port; own networks, then the node's, longer first; own default, then the node's. |
| Kernel.TrieFinds | bpf/egress.bpf.c:207-218 | The bit-level trie lookup returns the longest network of exactly the cgroup looked up. |
| Kernel.TrieMisses | bpf/egress.bpf.c:207-218 | It finds nothing when no network of that cgroup contains the address. |
| Lpm.KeyAdequacy | bpf/egress.bpf.c:124-133 | An entry's key bits prefix-match a lookup's if and only if the cgroups are equal and the address lies in the network. |
| Lpm.InNetIsRange | internal/policy/engine.go:152-165 | A masked network is the block of 2^(32-n) addresses from its base. |
| Lpm.CidrKeyBytesInjective | internal/enforce/programmer.go:302-308 | Distinct (length, cgroup, network) triples have distinct key bytes. |
| Programmer.ResolveCgroups | internal/enforce/programmer.go:263-284 | The list built is exactly the cgroups the selector programs. |
| Programmer.MapProgrammer.Put | internal/enforce/programmer.go:218-220 | A write updates one key or, when it fails, nothing. |
| Programmer.MapProgrammer.PutRecorded | internal/enforce/programmer.go:218-220 | A key is recorded exactly when its write succeeds. |
| Programmer.FaultlessWrites | internal/enforce/programmer.go:133-184 | When no write fails, an apply writes exactly the compiled table. |
| Programmer.PostureDecides | internal/policy/policy.go:127-134 | An unset posture is Allow to the engine and in the tables, and where no rule matches the posture is the verdict. |
| Programmer.MapProgrammer.ProgramPosture | internal/enforce/programmer.go:133-136 | The posture is written under key 0 and recorded, unless the write fails. |
| Programmer.MapProgrammer.ProgramRules | internal/enforce/programmer.go:140-184 | Last to first, the rules leave the written table, with exactly its keys recorded. |
| Programmer.MapProgrammer.ProgramNext | internal/enforce/programmer.go:142-184 | One rule on top of the later ones. |
| Programmer.MapProgrammer.ProgramCidr | internal/enforce/programmer.go:197-230 | Writes exactly the keys of one CIDR and refuses exactly the unrepresentable ones. |
| Programmer.MapProgrammer.ProgramPorts | internal/enforce/programmer.go:210-222 | One verdict key per port. |
| Programmer.MapProgrammer.ProgramCidrs | internal/enforce/programmer.go:165-173 | All CIDRs of a rule for one cgroup. |
| Programmer.MapProgrammer.ProgramCgroup | internal/enforce/programmer.go:164-183 | CIDR keys, or the per-cgroup default of a pod-only rule. |
| Programmer.MapProgrammer.ProgramRule | internal/enforce/programmer.go:142-184 | Exactly the rule's keys, with its action, for every cgroup it resolves to; nothing for L7, domain and port-only rules. |
| Programmer.MapProgrammer.Reconcile | internal/enforce/programmer.go:235-255 | Deletes exactly the stale keys, never the global default, and records the new key set. |
| Programmer.MapProgrammer.Apply | internal/enforce/programmer.go:125-193 | For every set of failing writes, the new state is the old table overlaid with the keys that landed, minus the keys recorded before and not now, and the records are the keys that landed. |
| History.HistoryIndependence | internal/enforce/programmer.go:125-255 | After any run, failed writes and other actors on `verdicts` included, one clean apply leaves the default and CIDR maps as on an empty machine, whatever the other actors do next. |
| History.ApplyForgets | internal/enforce/programmer.go:235-255 | One clean apply erases the past on the private maps. |
| History.RunsStayInStep | internal/enforce/programmer.go:235-255 | Under any write failures and any changes to `verdicts` by others, recorded private keys are present and only the global default can be present unrecorded. |
| History.GlobalInRun | internal/enforce/programmer.go:133-136 | After any run the global default is present if and only if some write of it ever succeeded, and recorded if and only if one did in the last apply. |
| History.SelfHealing | internal/enforce/programmer.go:125-255 | Alone on the machine, after any run with failing writes, one clean apply restores exactly the compiled table and its records, verdict keys included. |
| History.RecordsExact | internal/enforce/programmer.go:134-136 | After any run, records equal the private keys of the table if and only if the global default, should any apply have managed to write it, was written by the last one. |
| History.GlobalDefaultLeftBehind | internal/enforce/programmer.go:246-249 | Two applies of the empty policy, the second with its only write failing, after which records and table differ. |
| Engine.NewEngine | internal/policy/engine.go:30-49 | Compilation succeeds if and only if the policy validates, and yields the compiled rules in order. |
| Engine.Compile | internal/policy/engine.go:101-134 | Fails exactly on an unparseable CIDR; otherwise the compiled dimensions. |
| Engine.RuleMatches | internal/policy/engine.go:136-180 | The compiled match equals the reference match of the source rule. |
| Engine.Decide | internal/policy/engine.go:79-87 | The engine's verdict is that of the first matching rule, or the posture. |
| Engine.DomainRuleVerdict | internal/policy/engine.go:59-76 | Finds the first domain-bearing rule for the pod and name, or there is none. |
| Policy.ValidIsContingent | internal/policy/selector.go:102-136 | Validation accepts exactly the requirements with a key that some labels satisfy and some do not, and that list no values no operator looks at. |
| Policy.RuleValidExactly | internal/policy/policy.go:159-208 | A rule validates if and only if its action is known, it carries mutations exactly when it modifies and each says what it edits, its networks parse and its expressions are valid. |
| Policy.PolicyValidExactly | internal/policy/policy.go:139-157 | A policy validates if and only if its posture is unset or known and all its expressions and rules validate. |
| Selectors.InOneIsLabel | internal/policy/selector.go:123-136 | `k In [v]` is the label k=v; as a matchLabels entry an absent label also passes for the empty value. |
| Selectors.OperatorsByLabel | internal/policy/selector.go:123-145 | `In` is the disjunction of its values, `NotIn` and `DoesNotExist` are the complements of `In` and `Exists`, on all labels. |
| Selectors.LabelAndExpressionAlike | internal/enforce/programmer.go:263-284 | A label selector and the one-value expression program the same cgroups, those of the pods that carry the label. |
| Selectors.NegationResolves | internal/enforce/programmer.go:263-284 | Negative expressions program exactly the other live pods. |
| Selectors.ResolvesByDimension | internal/enforce/programmer.go:263-284 | A selector programs exactly the live pods that pass its namespace, name, uid, each label and each expression. |
| Matching.AcrossIsAnd | internal/policy/policy.go:79-81 | A match is the conjunction of its dimensions taken alone. |
| Matching.ByPort | internal/policy/engine.go:166-170 | A port list passes exactly its members. |
| Matching.ByCidr | internal/policy/engine.go:152-165 | A network list passes exactly the addresses in one of its aligned address runs, IPv4 and IPv6 never mixing. |
| Matching.ByMethod | internal/policy/engine.go:127-132 | A method list passes exactly the methods it names up to letter case and surrounding space. |
| Matching.ByPath | internal/policy/engine.go:176-178 | A path prefix passes exactly its extensions. |
| Matching.ByDomain | internal/policy/engine.go:140-151 | A pattern list passes a name that falls under one of its surviving patterns, and everything when none survives. |
| Domains.DomainMatchesByLabel | internal/policy/engine.go:225-231 | A name matches a base if and only if the base's labels are the name's last labels. |
| Domains.PatternSpellings | internal/policy/engine.go:213-221 | Plain or wildcard, fully qualified or not, in any letter case and with any space around it, a pattern normalizes to the one plain base. |
| Domains.NameSpellings | internal/policy/engine.go:225-231 | A name in any letter case, qualified or not, with any space around it, matches a base if and only if the base's labels are the last labels of the plain name. |
| Aggregate.FoldRuleMeaning | internal/policy/aggregate.go:39-46 | A folded rule matches exactly the governed flows that its remaining selector matches, for every rule. |
| Aggregate.FoldExact | internal/policy/selector.go:66-86 | Folding is conjunction except where it overrides: a folded match is a match of the rule itself if and only if the rule is compatible with its policy. |
| Aggregate.CatchAllMeaning | internal/policy/aggregate.go:52-56 | The trailing Deny matches exactly the pods the policy governs. |
| Aggregate.FoldRules | internal/policy/aggregate.go:119-121 | Every rule folded, in order. |
| Aggregate.MergeCluster | internal/policy/aggregate.go:111-129 | Cluster rules, subject-scoped catch-alls, and a node-wide Deny exactly for an unselected Deny. |
| Aggregate.AppendExplicit | internal/policy/aggregate.go:131-140 | Namespaced rules appended in order. |
| Aggregate.AppendCatchAlls | internal/policy/aggregate.go:145-150 | Namespaced catch-alls appended in order. |
| Aggregate.Aggregate | internal/policy/aggregate.go:96-153 | The result is the merge of the inputs rearranged so that no later cluster name, and no later namespace or name within a namespace, comes before an earlier one at their first difference. |
| Aggregate.MergedMeaning | internal/policy/aggregate.go:71-95 | Evaluating the merge is the layered reading: cluster rules, namespaced rules, scoped default-denies, node posture, each only for governed pods. |
| Aggregate.Precedence | internal/policy/aggregate.go:71-95 | However the resources were given: the speaking cluster resource that is first by name decides; failing any, the namespaced one first by namespace and name; failing those, any governing scoped default-deny, then the node posture. |
| Aggregate.StrippedIsOwn | internal/policy/aggregate.go:35-46 | Where a policy governs, compatible rules are read as written. |
| Aggregate.ConvertedResource | api/v1/egresspolicy_types.go:162-175 | A resource whose rules carry no selector of their own says what its first matching rule says wherever it governs, and nothing elsewhere. |
| Aggregate.NamespacedNonInterference | internal/policy/aggregate.go:131-150 | Adding a namespaced resource, wherever it sorts, changes no verdict of a flow it does not govern. |
| Aggregate.ClusterNonInterference | internal/policy/aggregate.go:111-129 | The same for a cluster resource whose selector misses the flow. |
| Aggregate.OrderFree | internal/policy/aggregate.go:96-106 | With unique names the merge does not depend on input order. |
| Aggregate.MergedValid | internal/crdsource/crdsource.go:116-138 | Valid resources merge to a valid policy. |
| Aggregate.FlattenMeaning | internal/policy/aggregate.go:58-69 | For every policy, flattening acts on the selected pods as written up to label demands the subject overrides, and allows the rest; without such a clash, exactly as written. |
| Order.LessByFirstDifference | internal/policy/aggregate.go:98-106 | The name order is decided at the first difference. |
| Order.Sort | internal/policy/aggregate.go:97-106 | A rearrangement in ascending order of namespace, then name, by first difference. |
| Order.SortedByName | internal/policy/aggregate.go:97-106 | The comparison used for sorting is that order. |
| Order.SortedUnique | internal/policy/aggregate.go:97-106 | With unique keys there is only one. |
| Order.SortedInsertion | internal/policy/aggregate.go:97-106 | Adding one resource inserts it at one place. |
| Pipeline.NamespacedIsolation | internal/policy/aggregate.go:131-150 | Adding a namespaced resource changes no kernel verdict of a pod it does not govern, whatever the other policies. |
| Pipeline.ClusterIsolation | internal/policy/aggregate.go:111-129 | The same for a cluster resource whose selector misses the pod. |
| Pipeline.PacketFollowsPolicy | bpf/egress.bpf.c:316-447 | With the merged policy programmed, no inversion and no rule read differently at the destination, a packet is dropped if and only if enforcement is on, not dry, and the layered reading denies its flow. |
| Datapath.DropExactly | bpf/egress.bpf.c:316-447 | A packet is dropped if and only if it is well-formed IPv4 TCP, or UDP not to port 53, to a refused destination. |
| Datapath.WellFormedExactly | bpf/egress.bpf.c:334-366 | The packets read as well-formed are exactly those laid out as IPv4 prescribes, with any options, source port and payload. |
| Datapath.ConnectExactly | bpf/egress.bpf.c:534-552 | Connect fails exactly TCP connects to refused destinations and reports exactly the TCP connects the tables deny while enforcement is on, dry or not; other protocols are untouched. |
| Datapath.ConnectAgreesWithEgress | bpf/egress.bpf.c:534-552 | For every protocol, connect refuses a destination if and only if it is TCP and egress drops every well-formed TCP packet of that cgroup to it. |
| Datapath.DnsAlwaysPasses | bpf/egress.bpf.c:377-392 | DNS queries over IPv4 and IPv6 pass and are reported, whatever is programmed. |
| Datapath.AttemptReported | bpf/egress.bpf.c:405-412 | A connection attempt is reported once, stamped with its verdict, even when dropped. |
| Datapath.AttemptReportedV6 | bpf/egress.bpf.c:368-412 | Over IPv6 an attempt is reported as allowed and passes. |
| Datapath.OthersUnreported | bpf/egress.bpf.c:405-412 | A packet that is neither a DNS query nor a connection attempt reports neither. |
| VerdictProtocol.Invariant | internal/enforce/dnslearn.go:122-190 | In every interleaving each verdict is the programmer's or carries the provenance the learner claims for it. |
| VerdictProtocol.NoUntrackedVerdict | internal/enforce/dnslearn.go:154-189 | Every verdict key is recorded for expiry, is about to be, or is one the programmer answers for. |
| VerdictProtocol.ExpiryWindow | internal/enforce/dnslearn.go:147-163 | Every expiry lies a minute to an hour after its answer. |
| VerdictProtocol.BoundedStaleness | internal/enforce/dnslearn.go:176-186 | After a sweep at T, every learned verdict was stamped no earlier than T minus an hour. |
| VerdictProtocol.ReplacedEngineForgotten | internal/enforce/dnslearn.go:93-120 | Nothing learned under an engine replaced over an hour before the sweep survives it, unless its handling straddled the replacement. |
| VerdictProtocol.OneStraddlingAnswer | internal/enforce/dnslearn.go:93-147 | At most one answer straddles each replacement. |
| VerdictProtocol.ProgrammedVerdictLostExactly | internal/enforce/dnslearn.go:154-186 | From any state, a verdict the programmer keeps answering for can disappear without eviction and without a new answer for its key if and only if the learner holds an expiry for the key or is about to record one. |
| VerdictProtocol.SafeStays | internal/enforce/dnslearn.go:176-186 | Otherwise it stays, over every such continuation. |
| VerdictProtocol.AtRiskRemovable | internal/enforce/dnslearn.go:154-186 | And where it is so, some such continuation removes it. |
| VerdictProtocol.SweepDropsProgrammed | internal/enforce/dnslearn.go:179-184 | From a fresh start, a sweep comes to delete a verdict whose last writer was the programmer. |
| VerdictProtocol.ClampTtl | internal/enforce/dnslearn.go:198-207 | The TTL in seconds, raised to a minute and lowered to an hour; the product fits 63 bits. |
| Learner.RecordExact | internal/enforce/dnslearn.go:122-131 | An event is read if and only if it holds a cgroup, a nonempty message and its length as the ingress hook lays them out, and then as exactly those. |
| Learner.ParseAnswers | internal/enforce/dnslearn.go:212-253 | The first question that is nonempty once undotted, the addresses at the positions of all A records in order, and the fold of the TTLs at those positions. |
| Learner.AddressesResolve | internal/enforce/dnslearn.go:237-247 | An address is learned if and only if some A record of the message holds it. |
| Learner.SmallestTtlExact | internal/enforce/dnslearn.go:237-247 | The folded TTL is the smallest if and only if a zero, when present, comes last. |
| Learner.ZeroTtlForgotten | internal/enforce/dnslearn.go:245 | A zero TTL followed by a long one is forgotten. |
| Learner.DnsLearner.Handle | internal/enforce/dnslearn.go:122-167 | From the raw event: nothing changes unless it is well-formed and its answer has a name, an address and a domain rule; otherwise exactly the first such rule is learned, and with writes that succeed the datapath follows the engine on every flow the rule decides. |
| Learner.DnsLearner.HandleMessage | internal/enforce/dnslearn.go:133-165 | Learns the action of the first domain rule for every address some A record holds, on every port of the rule, with the clamped expiry, and nothing else. |
| Learner.DnsLearner.Sweep | internal/enforce/dnslearn.go:176-186 | A verdict and its entry go if and only if the entry has expired; everything else keeps its value. |
| Learner.DomainRuleIsFirstMatch | internal/policy/engine.go:59-87 | The domain rule is the first match of the named flow unless an earlier domain-free rule matches. |
| Learner.LearnedVerdict | bpf/egress.bpf.c:184-194 | Whatever the other maps hold, a learned address on a covered port gets the rule's action if and only if no different exact-port verdict shadows an any-port one. |
| Learner.LearnedFollowsEngine | internal/enforce/dnslearn.go:138-165 | End to end: after a handled answer the datapath verdict equals the engine's on every flow the rule decides, under exactly that condition. |
| Broadcast.Invariant | internal/policy/filesource.go:106-124 | In every interleaving each channel's deliveries are in step with what was sent. |
| Broadcast.ReceivesSubsequence | internal/policy/filesource.go:75-124 | What a subscriber received sits at increasing positions of what was broadcast to it. |
| Broadcast.LatestKept | internal/policy/filesource.go:98-124 | Between broadcasts the current policy is in the slot or was received last. |
| Broadcast.RetrySucceeds | internal/policy/filesource.go:118-121 | With one producer the second send never fails. |
| Broadcast.FileSource.Send | internal/policy/filesource.go:106-124 | Undisturbed, every slot ends up holding the new value. |
| Broadcast.FileSource.Reload | internal/policy/filesource.go:93-101 | A failed load changes nothing; a good one becomes current and is sent to all. |
| Broadcast.FileSource.Subscribe | internal/policy/filesource.go:75-81 | A new empty channel. |
| Http2.H2Conn.Feed | internal/l7/http2.go:32-65 | The decoder's new state and requests are those of the stream function; the retained buffer is bounded. |
| Http2.H2Conn.DrainFrames | internal/l7/http2.go:45-64 | Consumes exactly the complete frames. |
| Http2.H2Conn.TakeFrame | internal/l7/http2.go:47-60 | Consumes one frame. |
| Http2.H2Conn.ParseFrame | internal/l7/http2.go:56-60 | Only END_HEADERS HEADERS frames advance HPACK. |
| Http2.ChunkingInvariance | internal/l7/http2.go:32-65 | However a stream is cut into writes, requests, buffer, preface flag and HPACK state are those of one write. |
| Http2.FedTwice | internal/l7/http2.go:32-65 | Two writes are one write of their concatenation. |
| Http2.FedSettles | internal/l7/http2.go:46-52 | After any write no complete frame remains. |
| Http2.SettledBounded | internal/l7/http2.go:35-52 | Fewer than 24 bytes are kept before the preface decision and fewer than 9 + 2^24 after it. |
| Http2.RoundTrip | internal/l7/http2.go:32-87 | Any frames sent after the preface, in any chunks, hand HPACK exactly the END_HEADERS HEADERS fragments in order. |
| Http2.FragmentRoundTrip | internal/l7/http2.go:67-85 | Padding and priority are removed exactly. |
| Http2.FragmentExact | internal/l7/http2.go:67-87 | A payload has a fragment if and only if it is laid out for its flags, and then it is the one laid out. |
| Http2.FlagBits | internal/l7/http2.go:67-87 | END_HEADERS is 0x04, PADDED 0x08 and PRIORITY 0x20, whatever the other bits. |
| Http2.RoundTripBare | internal/l7/http2.go:32-87 | The same round trip for a stream that does not open with the preface. |
| Http2.RequestExactly | internal/l7/http2.go:108-112 | A decoded block is one request if and only if its last method and path are both nonempty. |
| Http2.CollectMeaning | internal/l7/http2.go:91-112 | Last method and path, all regular fields in order; the host is the last authority, or where that is missing or empty the first nonempty `host` field behind it. |
| Tracker.ConnTracker.Handle | internal/sslsnoop/sslsnoop.go:120-168 | One event does exactly what the step function says and keeps the table's invariant. |
| Tracker.CaptureExact | internal/sslsnoop/sslsnoop.go:120-133 | An event is read if and only if it holds a nonempty write as the kernel side lays it out, and then as exactly that. |
| Tracker.ReachableTables | internal/sslsnoop/sslsnoop.go:135-168 | Every reachable table has at most 16384 connections, each with a chosen mode and a decoder exactly in HTTP/2 mode. |
| Tracker.ModeFixed | internal/sslsnoop/sslsnoop.go:135-168 | Between resets, over any run, a connection once in the table stays there in the mode it first chose. |
| Tracker.Demultiplexing | internal/sslsnoop/sslsnoop.go:135-168 | Between resets, a pointer's requests over any interleaving are those of a lone connection. |
| Tracker.StreamReassembled | internal/sslsnoop/sslsnoop.go:145-165 | A new HTTP/2 connection's requests are those of one decoder given all its bytes at once. |
| Tracker.PlainConnection | internal/sslsnoop/sslsnoop.go:144-167 | A new connection without the preface: if its first write parses as HTTP/1, each write is parsed alone and reported if it parses; if not, nothing is ever reported. |
| Tracker.ResetStartsOver | internal/sslsnoop/sslsnoop.go:135-142 | A new connection that finds 16384 others is handled as the first of all and is then alone in the table; otherwise every other connection stays as it was. |
| Sni.ServerName | internal/tlsparse/tlsparse.go:28-87 | The walker computes the parse function. |
| Sni.WalkExtensions | internal/tlsparse/tlsparse.go:61-86 | Finds the first server_name extension within the extensions block. |
| Sni.ParseServerNameList | internal/tlsparse/tlsparse.go:91-114 | Finds the first host_name of the list. |
| Sni.PrefixStable | internal/tlsparse/tlsparse.go:28-114 | A name found on a prefix is the name found on every longer buffer. |
| Sni.TruncationNeverLies | internal/tlsparse/tlsparse.go:13-14 | A truncated capture yields the right name or an error. |
| Sni.RoundTrip | internal/tlsparse/tlsparse.go:28-138 | Every well-formed ClientHello with a server name, behind any other extensions, yields that name. |
| Sni.TruncationExactly | internal/tlsparse/tlsparse.go:28-114 | What every prefix of every well-formed ClientHello is read as: the name once its extension is complete, otherwise truncation or absence by where the cut falls. |
| Sni.NameListExactly | internal/tlsparse/tlsparse.go:91-114 | A server_name body is read up to the length it states or the bytes it has, with the result of every such cut. |
| Sni.NamePresentButUnseen | internal/tlsparse/tlsparse.go:15-16 | A ClientHello with a server name, cut where its extensions begin, is reported as having none. |
| Sni.NoServerName | internal/tlsparse/tlsparse.go:71-87 | A well-formed ClientHello without a server_name extension is reported as having none. |
| Sni.NotClientHelloExactly | internal/tlsparse/tlsparse.go:28-39 | Exactly the captures that do not start as a ClientHello does are reported as not being one. |

## Left out

- eBPF loading, attachment, ring buffers and the SSL_write uprobe: foreign calls without logic of their own.
- HPACK, HTTP/1, DNS message, YAML and CIDR text parsing: library code, taken as parameters or as already parsed values.
- IPv4-mapped IPv6 CIDRs: the CIDR parser yields an IPv4 address with an IPv6 prefix length for them; parsed CIDRs here are plain IPv4 or IPv6.
- Text case and space: upper and lower case and trimming cover ASCII only.
- The egress hook's TLS and HTTP payload classification and the contents of event records: they do not affect the verdict.
- Map capacities: a full map appears only as a failed write or an eviction.
- The programmer's run loop, its ticker and the enable and disable writes of the config map: plumbing around `Apply`.
- The count of rule dimensions the datapath cannot express: used for a log line only.
- Event attribution, domain filtering and output of tracked requests: plumbing behind the decoder.
- The ingress hook that captures DNS answers: its event layout is `Learner.EncodeRecord`; which packets it copies is not modelled.
- The CRD source's broadcast: several concurrent rebuilds share its channels, and nothing is claimed for it.
- Updates that land between a snapshot and a subscription: delivery is claimed from subscription on.
- Error texts of validation: validity is a yes or no.
- Learner.DnsLearner.Learn: one call is a map write and its recording together; `VerdictProtocol` separates the two steps and interleaves the other actors between them.
- Tracker.ConnTracker.Handle: connection states are values in the table, so pointer identity of the decoder objects is not captured.
- Aggregate.Aggregate: inputs with equal names may come out in either order; order-freedom is stated for unique names.
- Failing map deletes: a delete is taken to succeed in `Reconcile`, `Sweep` and `VerdictProtocol`.
