# ESP32 captive-portal gateway: verified model

A Dafny model of the firmware of an ESP32 WiFi gateway: it inspects the TLS
traffic of its SoftAP clients against host name rules, manages two upstream
WiFi configurations, keeps a table of authorized clients, reassembles MQTT
commands and answers DNS for its captive portal. `dafny verify dfyconfig.toml`
checks the whole project.

Code that updates state in place is modelled in place: classes over arrays and
fields whose methods follow the C functions loop by loop. Each method is proved
against a function on values, and the promises of the firmware are proved about
those functions, over all inputs, all runs and all interleavings.

| files | what they cover |
|---|---|
| `ClientHello`, `HelloGrammar` | abstract syntax and serialization of a ClientHello, the index scanner the code runs, and the proof that the scanner decides the grammar |
| `SniMachine`, `SniParser` | the stream as a byte machine and as two layers; the parser over its fixed buffers |
| `Hostnames`, `AccessRules` | host names as label lists, the normalizer, the policy; the two append-only rule tables and the scan outside their lock |
| `FlowSpec`, `TlsFlows`, `FlowTables`, `FlowRuns`, `FlowLaws` | one TCP flow modulo 2^32, the twelve-slot table in place, whole runs: non-interference, segmentation, containment, and what single segments do |
| `HelloVerdicts` | from records, ClientHello and rules to the fate of the connection |
| `WifiConfig`, `WifiAnswers`, `AppStorage` | the configuration namespace as a map, its invariant, version history and answers; the storage calls with a fault possible at every one |
| `UpstreamWifi`, `UpstreamTurns`, `UpstreamHistory`, `UpstreamTrials` | the dual-slot protocol as a transition system over shared accesses and its invariant; the outcome of each undisturbed turn; over whose link a candidate was verified and in which slot failures were counted; runs that show what the protocol lets happen |
| `UpstreamLoop` | the main loop, the driver call and the event handlers in place, with events of other tasks between any two accesses, as runs of that protocol |
| `ClientSpec`, `ClientTime`, `ClientStale`, `ClientTables`, `ClientDepartures` | the client table, its wrapping clock against grants on an unbounded one, what stale tick samples end, who is reported as departed |
| `MqttCommands` | reassembly of fragmented commands |
| `PortalDns`, `PortalAnswers`, `PortalDnsServer` | question parser, response builder and who gets which answer (sections 4.1.1 to 4.1.4 of RFC 1035) |
| `Bytes` | bytes, 16-bit fields, modulo 2^32, C strings |

Standards the code follows: sections 4.1.2 and 5.1 of RFC 8446, section 3 of
RFC 6066, section 3.4 of RFC 9293, section 2.1 of RFC 1123 and section 2.3.4 of
RFC 1035.

## What the proofs found

- A Portal save removes a pending candidate, a credential clear does not
  (components/app_storage/app_storage.c:765-778). After a clear a version stored
  before it can therefore still be promoted; `WifiConfig.PromotedAreStored`
  gives the exact condition.
- Only one trailing dot is dropped: "a." is accepted, "a.." is refused
  (`Hostnames.SecondDotRefused`). By `Hostnames.NormalIgnoresOneDot` one more
  dot matters exactly to a legal name that has one already.
- The comment at src/main.c:887 wants a candidate promoted only after an address
  and a fresh MQTT connection since the slot switch. The checks behind it
  (src/main.c:410-421) also pass on events of the old link, whose disconnect is
  asynchronous. When a higher version supersedes a candidate whose link is up,
  MQTT may reconnect over that link after the new attempt took its sample
  (`UpstreamTrials.ConnectOfOldLink`); an address of the old link may come late
  as well (`UpstreamTrials.CandidateUntried`).
  `UpstreamHistory.VerifiedOverOwnLink` gives the exact condition:
  s_sta_reconfigure_pending was down at both events since the attempt raised it.
- Slot CURRENT is cleared after a load that found no candidate, but the load
  (src/main.c:363) and the clear (src/main.c:375) are separate accesses. A
  candidate staged between them is left behind without current credentials
  (`UpstreamTrials.CandidateLeftBehind`), and the next boot goes to provisioning
  (src/main.c:279-285) without trying it. By
  `UpstreamHistory.ClearsWithoutCandidate` a candidate is stored at a clear
  exactly when a command stored one between the two.
- The recovery branch assumes that a rejection is about the slot it is read in.
  The promotion's slot switch (src/main.c:430) neither looks at the status nor
  resets the failure counter. A verdict that arrives just before it is carried
  out against the promoted slot (`UpstreamTrials.ClearWithoutCurrentFailures`),
  and two failures counted before it need only one after it
  (`UpstreamTrials.ClearAfterOneFailure`).
  `UpstreamHistory.ClearsOnCurrentFailures` gives the exact condition: the
  counter was 0 at the switch or was reset before the verdict.
- The periodic check samples its tick before it takes the lock
  (components/client_access/client_access.c:805-808). An authorization made in
  between ends at once: `ClientTime.SampleDecides` says so of one check,
  `ClientStale.RefusedWithinGrant` says of whole runs which packets are refused
  inside their grant.
- Verified promotion needs no bound on the number of MQTT connects: a wrapped
  generation can only withhold a promotion (`UpstreamWifi.GenerationComparison`).
- The comment at components/captive_portal/portal_dns.c:171-175 says that a
  missing terminator is caught there; that test never fires, and such packets
  are rejected by the length test after it. The model follows the code.

## Model

| member | source | states |
|---|---|---|
| `HelloGrammar.ParseMeaning` | components/tls_sni_parser/tls_sni_parser.c:16-193 | For every byte string and hostname buffer size: FOUND with name n exactly when the bytes serialize a well-formed hello with exactly one host_name, a legal one that lowers to n; NO_SNI exactly when they serialize one with none; INVALID exactly when they serialize neither kind; and unless INVALID the ECH flag is set exactly when some extension of the hello has type 0xFE0D |
| `HelloGrammar.ParseComplete` | components/tls_sni_parser/tls_sni_parser.c:16-193 | The serialization of any well-formed hello is judged by its host_names and extension types alone, so no byte string has two readings |
| `HelloGrammar.ParseSound` | components/tls_sni_parser/tls_sni_parser.c:16-193 | Whatever is not INVALID is, byte for byte, the serialization of a well-formed hello |
| `HelloGrammar.ServerNameOnWire` | components/tls_sni_parser/tls_sni_parser.c:85-140 | A server_name extension with one host_name, byte by byte |
| `HelloGrammar.FoundHost` | components/tls_sni_parser/tls_sni_parser.c:150-173 | A reported name leaves room for its terminator in the hostname buffer and contains no NUL |
| `SniMachine.RunHost` | components/tls_sni_parser/tls_sni_parser.c:150-173 | The same for every name any stream can yield, from any state of the incremental parser |
| `SniMachine.MachineIsStreamVerdict` | components/tls_sni_parser/tls_sni_parser.c:212-290 | Reading a stream byte by byte through header, record and message states gives the verdict of the two-layer definition: strip the record layer from the whole stream first, then judge the handshake bytes |
| `SniMachine.HandshakeStable` | components/tls_sni_parser/tls_sni_parser.c:260-283 | Bytes after the ones that settled a handshake message never change its verdict |
| `SniMachine.FragmentationRoundTrip` | components/tls_sni_parser/tls_sni_parser.c:214-289 | A ClientHello message of 5 to 2048 bytes split into any non-empty handshake records, with surplus bytes in the last record and anything after it, yields the verdict on the unsplit message |
| `SniMachine.ChunkingIndependence` | components/tls_sni_parser/tls_sni_parser.c:203-293 | Two ways of cutting one stream into chunks, fed until the first answer other than NEED_MORE, end in the same result, hostname and ECH flag, namely the verdict of the stream |
| `SniParser.TlsSniParser.Init` | components/tls_sni_parser/tls_sni_parser.c:195-201 | From any state of the buffers the parser stands at the start of a stream, unfinished |
| `SniParser.TlsSniParser.StoreHost` | components/tls_sni_parser/tls_sni_parser.c:158-171 | Accepts exactly printable ASCII names; on success the lower-cased name and its NUL are in the hostname buffer |
| `SniParser.TlsSniParser.ParseNames` | components/tls_sni_parser/tls_sni_parser.c:123-181 | The in-place ServerNameList walk refuses exactly when the list does not parse, repeats a host_name or holds an illegal one, and otherwise leaves the host_name now held in the buffer |
| `SniParser.TlsSniParser.ParseExtensions` | components/tls_sni_parser/tls_sni_parser.c:85-192 | The in-place extension walk decides the whole extension block as the grammar scan does, sets the ECH flag even for blocks it then rejects, and leaves the held host_name in the buffer |
| `SniParser.TlsSniParser.ParseClientHello` | components/tls_sni_parser/tls_sni_parser.c:16-193 | On the complete message in the buffer: result, ECH flag and hostname are those that ParseMeaning characterizes |
| `SniParser.TlsSniParser.FillHeader` | components/tls_sni_parser/tls_sni_parser.c:214-218 | Moves input into the five-byte header until it is full or the input ends, in order and without loss |
| `SniParser.TlsSniParser.ReadHeader` | components/tls_sni_parser/tls_sni_parser.c:214-239 | The stretch of input taken for a record header drives the parser exactly as the byte machine, including the two rejections that finish it |
| `SniParser.TlsSniParser.CopyPayload` | components/tls_sni_parser/tls_sni_parser.c:241-258 | Appends exactly the next input bytes to the message, never beyond the record, the input, the announced length or the buffer |
| `SniParser.TlsSniParser.SettleHello` | components/tls_sni_parser/tls_sni_parser.c:260-283 | Decides exactly what the handshake bytes so far decide, and keeps the announced length in step |
| `SniParser.TlsSniParser.ReadPayload` | components/tls_sni_parser/tls_sni_parser.c:241-289 | The stretch of input taken out of a record drives the parser exactly as the byte machine; at least one byte is consumed |
| `SniParser.TlsSniParser.Feed` | components/tls_sni_parser/tls_sni_parser.c:203-293 | For any chunk and any parser state: terminates within all buffer and counter bounds and reports the byte machine's state after that chunk (result, ECH flag, hostname); a finished parser or an empty hostname buffer changes nothing and is INVALID |
| `Hostnames.NormalizeHostname` | components/access_filter/access_filter.c:171-238 | Succeeds exactly on names whose labels, after one trailing dot is dropped, are 1 to 63 letters, digits or inner hyphens and that have at most 253 characters; the buffer then holds the lower-case name, terminated |
| `Hostnames.NormalizeLabels` | components/access_filter/access_filter.c:191-237 | The one-pass loop, which looks at one or two characters at a time, decides the label-by-label definition of a legal name |
| `Hostnames.NormalizesHostNames` | components/access_filter/access_filter.c:171-238 | A name normalizes exactly when, one trailing dot aside, it has at most 253 characters in labels of 1 to 63 letters, digits and hyphens with no hyphen at either end; the normal form is the same text without capitals |
| `Hostnames.NormalSameButCase` | components/access_filter/access_filter.c:191-237 | Names that differ only in the case of their letters normalize alike, or both fail |
| `Hostnames.NormalIdempotent` | components/access_filter/access_filter.c:171-238 | Normalizing a normal form changes nothing |
| `Hostnames.NormalIgnoresCase` | components/access_filter/access_filter.c:191-237 | Names equal up to ASCII case normalize alike, or both fail |
| `Hostnames.NormalIgnoresOneDot` | components/access_filter/access_filter.c:180-187 | One more trailing dot makes no difference, exactly when the name is not a legal name with a dot already added |
| `Hostnames.SecondDotRefused` | components/access_filter/access_filter.c:180-187 | The name "a." normalizes to "a", the name "a.." is refused |
| `Hostnames.MatchIsLabelSuffix` | components/access_filter/access_filter.c:261-275 | The character comparison (equal, or preceded by a dot at the end) holds exactly when the rule's label list is a suffix of the name's |
| `Hostnames.PolicyIsLabelSuffix` | components/access_filter/access_filter.c:240-279 | With at least one rule a name is blocked exactly when it has no normal form or some rule's labels end its labels; with none nothing is blocked |
| `Hostnames.BlockedMonotone` | components/access_filter/access_filter.c:240-279 | What a rule list blocks, every extension of it blocks |
| `AccessRules.RuleTable.BlockTraffic` | components/access_filter/access_filter.c:569-662 | The in-place install on both arrays: every error in the code's order, both tables or neither |
| `AccessRules.RuleTable.FindDestination` | components/access_filter/access_filter.c:611-618 | True exactly for an installed destination |
| `AccessRules.RuleTable.FindHostname` | components/access_filter/access_filter.c:620-630 | True exactly for an installed host name |
| `AccessRules.RuleTable.Append` | components/access_filter/access_filter.c:643-655 | Adds exactly the missing rules at the ends of the two tables |
| `AccessRules.RuleTable.IsHostnameBlocked` | components/access_filter/access_filter.c:240-279 | With no install meanwhile, the normalizing scan of the rule array answers the label-suffix policy of PolicyIsLabelSuffix |
| `AccessRules.RuleTable.IsHostnameBlockedMeanwhile` | components/access_filter/access_filter.c:240-279 | With any number of installs between its two critical sections, the answer is the policy of one rule table between entry and exit |
| `AccessRules.RuleTable.ScanHostnames` | components/access_filter/access_filter.c:258-278 | The scan under the lock is true exactly when the name equals a rule or ends in a dot and a rule |
| `AccessRules.RuleTable.IsDestinationBlocked` | components/access_filter/access_filter.c:549-567 | With any number of installs between any two comparisons, the scan outside the lock answers membership in the table as it stood at the locked count read |
| `AccessRules.PublishAppends` | components/access_filter/access_filter.c:643-646 | A cell write and its count update append one entry, and a scan under way goes on through both |
| `AccessRules.ScanIsSnapshotMembership` | components/access_filter/access_filter.c:549-567 | The same for every interleaving of the reader with a writer's separate cell write and count update |
| `AccessRules.InstallOutcome` | components/access_filter/access_filter.c:569-641 | Which commands are accepted: filter started, valid destination, no host name or one with a normal form, and each rule known or with fewer than 16 in its table; and which of the other cases gets which error |
| `AccessRules.InstallAddsOwnRules` | components/access_filter/access_filter.c:606-657 | An accepted command adds its own rules, those not yet there, and no other |
| `AccessRules.RulesAreAccepted` | components/access_filter/access_filter.c:569-657 | After any run of commands the two tables hold exactly the rules of the commands accepted on the way |
| `AccessRules.InstallAllOrNothing` | components/access_filter/access_filter.c:606-657 | A refused command changes neither table; an accepted one leaves both its rules in force and repeating it is accepted and changes nothing; entries only ever get appended |
| `AccessRules.InstallKeepsLegal` | components/access_filter/access_filter.c:606-657 | Entries stay distinct, within the capacity of 16 and, for host names, in normal form |
| `AccessRules.InstallsOnlyAppend` | components/access_filter/access_filter.c:606-657 | The same over any run of commands |
| `AccessRules.BlockedForever` | components/access_filter/access_filter.c:240-279 | Over any further run of commands a blocked destination or host name stays blocked |
| `FlowSpec.ConsumeInStep` | components/access_filter/access_filter.c:305-354 | Feeding the next stretch of a stream leaves the flow inspecting exactly the longer prefix, or decided as that prefix (its first 4096 bytes) decides |
| `FlowSpec.ReceiveInStep` | components/access_filter/access_filter.c:443-467 | A payload at or before the expected offset, for any initial sequence number: retransmitted bytes are skipped, only new ones are fed, and the flow is in step with the longer prefix |
| `FlowSpec.ReceiveGap` | components/access_filter/access_filter.c:445-451 | Non-empty data less than 2^31 beyond the expected offset blocks the flow |
| `FlowSpec.SaysStable` | components/access_filter/access_filter.c:281-354 | Once a prefix of the stream decides, longer prefixes decide the same |
| `TlsFlows.TlsFlow.ApplyParseResult` | components/access_filter/access_filter.c:281-302 | NEED_MORE keeps inspecting; ECH, NO_SNI and INVALID block; FOUND is decided by the hostname policy in force |
| `TlsFlows.TlsFlow.ParseChunk` | components/access_filter/access_filter.c:337-339 | One chunk through the parser with the reported name read back from its buffer as a C string: the byte machine's verdict and hostname |
| `TlsFlows.TlsFlow.FeedChunk` | components/access_filter/access_filter.c:337-345 | One chunk through parser and policy: still inspecting at the byte machine's state, or decided by its verdict |
| `TlsFlows.TlsFlow.FeedNext` | components/access_filter/access_filter.c:309-346 | One turn of the loop advances by at most 256 bytes within the 4096-byte budget and stays on the way to the stream's decision |
| `TlsFlows.TlsFlow.FeedStream` | components/access_filter/access_filter.c:305-354 | The chunk loop has the effect of consuming the payload in one piece: chunk size never matters, the budget does |
| `TlsFlows.TlsFlow.FeedNew` | components/access_filter/access_filter.c:454-463 | New bytes are fed and the expected sequence number moves past them modulo 2^32 |
| `TlsFlows.TlsFlow.Receive` | components/access_filter/access_filter.c:443-467 | Gap, full retransmission and overlap are told apart by the signed 32-bit distance, each with its effect on the flow |
| `TlsFlows.TlsFlow.Handle` | components/access_filter/access_filter.c:429-482 | What a segment leaves of its known flow and whether it is dropped, FIN included |
| `TlsFlows.TlsFlow.Clear` | components/access_filter/access_filter.c:356-362 | The slot is free and its parser reset |
| `TlsFlows.TlsFlow.Start` | components/access_filter/access_filter.c:525-547 | The slot inspects a new stream from the given sequence number |
| `FlowTables.FlowTable.ExpireFlows` | components/access_filter/access_filter.c:485-504 | Exactly the flows idle for 15 s (inspecting) or 120 s (decided) on the wrapping clock are freed |
| `FlowTables.FlowTable.FindFlow` | components/access_filter/access_filter.c:506-523 | The first used slot with the 4-tuple, if any |
| `FlowTables.FlowTable.CreateFlow` | components/access_filter/access_filter.c:525-547 | The first free slot starts inspecting under the key; with none free the table is unchanged |
| `FlowTables.FlowTable.IsSynRetransmission` | components/access_filter/access_filter.c:391 | True exactly for a SYN without data that repeats the one its inspected flow started from, before any byte was taken |
| `FlowTables.FlowTable.OpenFlow` | components/access_filter/access_filter.c:389-421 | A SYN other than a plain retransmission replaces the flow, unknown data opens one, and a full table is reported |
| `FlowTables.FlowTable.Reopen` | components/access_filter/access_filter.c:393-407 | The flow of the key is gone and a new one inspects from the SYN in the first free slot, or there is none |
| `FlowTables.FlowTable.OpenUnknown` | components/access_filter/access_filter.c:411-421 | A new flow inspects from the first data seen, in the first free slot, or there is none |
| `FlowTables.FlowTable.InspectSegment` | components/access_filter/access_filter.c:364-483 | Any segment at any tick on the twelve slots in place: new table and drop decision are those of TableStep, whose laws are the rows below |
| `FlowRuns.StepLooksUp` | components/access_filter/access_filter.c:364-483 | Seen as a map from 4-tuple to flow with distinct live keys, one segment changes its own flow as if it were alone and only ages the others, unless the table has no room for it |
| `FlowRuns.ExhaustedMeansFull` | components/access_filter/access_filter.c:393-421 | A new flow is refused exactly when a SYN that is no repetition, or data of a connection without a flow, meets as many other live flows as there are slots |
| `FlowLaws.UnknownDataInspected` | components/access_filter/access_filter.c:411-421 | Data of a connection without a flow opens one that has taken in exactly these bytes from their own sequence number on, and is dropped exactly when they alone are to be dropped; with a FIN, unless they alone are allowed |
| `FlowLaws.SynStartsOver` | components/access_filter/access_filter.c:389-409 | A SYN, with or without data, starts its flow over from the next sequence number whatever flow there was, unless it repeats the SYN of an inspected flow before any byte was taken |
| `FlowLaws.NothingTaken` | components/access_filter/access_filter.c:383-427 | That repetition leaves the flow as it is, a RST ends it, and an empty segment of an unknown connection passes without a slot |
| `FlowLaws.VerdictKept` | components/access_filter/access_filter.c:431-441 | A decided flow answers every segment but a SYN or RST with its verdict, until its FIN |
| `FlowLaws.InspectedTakes` | components/access_filter/access_filter.c:443-467 | An inspected flow takes in whatever is new of a segment at or behind the expected offset and answers as the longer prefix dictates |
| `FlowLaws.GapBlocks` | components/access_filter/access_filter.c:447-451 | Data beyond the expected offset is dropped and blocks the flow |
| `FlowLaws.BehindIgnored` | components/access_filter/access_filter.c:445-466 | A segment 2^31 or more ahead on the sequence circle counts as one behind; what ends at or before the expected offset is not fed again |
| `FlowLaws.FinSettles` | components/access_filter/access_filter.c:469-482 | A FIN leaves no flow, and is dropped exactly when without it the segment would have left a flow that is not allowed |
| `FlowLaws.IdleFlowForgotten` | components/access_filter/access_filter.c:485-504 | On the unbounded clock a flow is forgotten exactly 15 s (inspected) or 120 s (decided) after it was last seen, as long as less than 2^32 ms have passed |
| `FlowLaws.OthersOnlyAge` | components/access_filter/access_filter.c:364-504 | One segment leaves every flow of another 4-tuple alone but for forgetting it when idle that long, full table or not |
| `FlowLaws.NoBlindSpot` | components/access_filter/access_filter.c:364-483 | After any run from the empty table, with full tables and RSTs: a segment with data is forwarded only if its flow is then in the table and either allowed or inspected with nothing of the data ahead of what it was fed; with a FIN only if the data leave it allowed |
| `FlowRuns.NonInterference` | components/access_filter/access_filter.c:364-547 | In any interleaving of flows that never runs out of slots, with less than 2^32 ms between segments of one flow, every flow gets the answers it would get alone, eager or lazy expiry and clock wrap included |
| `FlowRuns.SegmentationIndependence` | components/access_filter/access_filter.c:443-467 | From the segment that opens a flow, for any initial sequence number, cuts, overlaps and retransmissions without gap, FIN or time-out, each answer is the one dictated by the stream prefix received by then and the rules at its decision |
| `FlowRuns.FlowIsStreamVerdict` | components/access_filter/access_filter.c:305-354 | After any such run the flow either still inspects, its parser fed exactly the n bytes received, once and in order, n being both inspected_bytes and the distance of the expected sequence number and below 4096, or holds the verdict of those n bytes |
| `FlowRuns.CutIndependence` | components/access_filter/access_filter.c:443-467 | Two flows that carry one stream, opened, numbered, cut and repeated in any two ways under the same rules, get the same answer once the same bytes are in |
| `FlowRuns.TableAnswersAreStreamAnswers` | components/access_filter/access_filter.c:364-483 | The answers of the shared table to one flow, among any others, are a function of that flow's byte stream |
| `FlowRuns.Containment` | components/access_filter/access_filter.c:429-482 | From the opening segment until the flow is cleared, whatever of the stream arrives in whatever order (less than 2^31 beyond the expected offset while the flow inspects, and without bound once it has decided), bytes forwarded before an allow verdict end inside a prefix that decides nothing |
| `FlowRuns.BlockedStreamWithheld` | components/access_filter/access_filter.c:281-302 | If the stream is to be blocked, neither the byte that completes its ClientHello nor anything after it is forwarded while the flow lives; the pieces are those of Containment |
| `FlowRuns.TableContainment` | components/access_filter/access_filter.c:364-483 | Containment in the shared table: in any interleaving that never runs out of slots, from the opening segment until the flow is cleared, no bytes beyond an undecided prefix are forwarded unless the rules of that or an earlier segment of the flow let the stream pass; the pieces are those of Containment |
| `HelloVerdicts.WaitsForHello` | components/tls_sni_parser/tls_sni_parser.c:212-290 | Whole records and the start of a further header: more bytes are waited for exactly while the handshake bytes so far may still become a message of type 1 and length 5 to 2048; a wrong message type or length, a record of another content type or of length 0 ends in a drop |
| `HelloVerdicts.BudgetSpent` | components/access_filter/access_filter.c:305-354 | A stream is settled by its first 4096 bytes, at the latest by a drop |
| `HelloVerdicts.HelloDecides` | components/access_filter/access_filter.c:240-354 | A ClientHello in any legal records within 4096 bytes is forwarded exactly when it has no extension 0xFE0D, has one host_name, of 1 to 255 printable characters, and the rules do not name that host |
| `HelloVerdicts.ConnectionDecided` | components/access_filter/access_filter.c:364-483 | End to end: once its records are in, cut, repeated and overlapped in any way, the segments of the connection are dropped exactly when the hello is not one to forward |
| `WifiConfig.StorageInvariant` | components/app_storage/app_storage.c:292-795 | Every run of operations from an empty namespace, any of them failing, keeps current credentials, active pair and candidate each whole and valid or absent, an active pair only beside current credentials, and any candidate above the active version |
| `WifiConfig.NothingTorn` | components/app_storage/app_storage.c:131-230 | Under that invariant the loaders never report a torn or invalid entry |
| `WifiConfig.StageIsolated` | components/app_storage/app_storage.c:531-593 | Staging never changes current credentials or the active pair; it stores exactly versions above all known ones; a replay of the pending or the active identity is reported idempotent and changes nothing |
| `WifiAnswers.StageAnswer` | components/app_storage/app_storage.c:474-604 | Each answer to a staging exactly when: invalid (SSID not 1 to 32, password 1 to 7 or above 63, request id not 1 to 63, version 0), known identity, version below a stored one, another identity at the highest stored version, new highest version; only the last changes anything, and only the candidate |
| `WifiAnswers.SaveAnswer` | components/app_storage/app_storage.c:292-370 | A save of valid credentials leaves them alone in the configuration and no recovery mark, any other changes nothing |
| `WifiAnswers.PromoteAnswer` | components/app_storage/app_storage.c:606-682 | Each answer to a promotion exactly when; only the identity of the stored candidate promotes it, to current and active, with candidate and recovery marks gone |
| `WifiAnswers.ClearAnswer` | components/app_storage/app_storage.c:741-795 | A clear takes current credentials and active version and nothing else, recovery marks included |
| `WifiAnswers.UnreadableRefused` | components/app_storage/app_storage.c:497-593 | On any flash contents a candidate or active pair that is there but cannot be read fails a staging, and an unreadable or missing candidate a promotion, with its error, and nothing changes |
| `WifiAnswers.BookkeepingExact` | components/app_storage/app_storage.c:232-269 | Over every run the retry counter is the number of increments since the last save or promotion, stopped at 255, and the recovery flag is the last word on it |
| `WifiAnswers.CandidateFound` | components/app_storage/app_storage.c:131-189 | On any flash contents: a candidate is found exactly when its four entries are there and valid, NOT_FOUND without an SSID, INVALID_STATE exactly when the first unreadable entry after it is missing |
| `WifiAnswers.ActiveFound` | components/app_storage/app_storage.c:191-230 | On any flash contents: none without either entry, a pair exactly when both are there and not empty, else torn or too long |
| `WifiAnswers.CredentialsFound` | components/app_storage/app_storage.c:372-439 | On any flash contents: credentials exactly when both texts are there and valid, NOT_FOUND when one is missing |
| `WifiConfig.VersionHistory` | components/app_storage/app_storage.c:474-682 | Between two resets stored versions strictly increase, promoted versions strictly increase, and promoted ones are in order among the candidate pending at the start and the stored ones |
| `WifiConfig.PromotedAreStored` | components/app_storage/app_storage.c:741-795 | Promotions after a reset all come from stagings after it, in every continuation, exactly when the reset left no candidate |
| `WifiConfig.ResetsAndCandidates` | components/app_storage/app_storage.c:292-370 | A Portal save never leaves a candidate; a credential clear leaves one exactly when there was one |
| `WifiConfig.SlotsRefinement` | components/app_storage/app_storage.c:131-846 | On every legal namespace the keyed operations are exactly operations on three optional values (current, active, candidate); recovery bookkeeping touches none of them |
| `AppStorage.Namespace.EraseText` | components/app_storage/app_storage.c:97-109 | The key is gone, and it is reported whether it was there; a missing key is no error |
| `AppStorage.Namespace.EraseCandidate` | components/app_storage/app_storage.c:111-129 | All four candidate keys are gone from the working copy and it is reported whether any was there, or a fault is reported |
| `AppStorage.Namespace.ReadCandidate` | components/app_storage/app_storage.c:131-189 | The candidate, NOT_FOUND without an SSID, INVALID_STATE when torn, INVALID_ARG when invalid, or the fault |
| `AppStorage.Namespace.ReadActive` | components/app_storage/app_storage.c:191-230 | The active pair, none, INVALID_STATE when half present, or the fault |
| `AppStorage.Namespace.SaveWifiCredentials` | components/app_storage/app_storage.c:292-370 | Commits new credentials and removes candidate, active pair and recovery marks at once, or fails and commits nothing |
| `AppStorage.Namespace.LoadWifiCredentials` | components/app_storage/app_storage.c:372-439 | Reads the committed credentials, with every error of the code |
| `AppStorage.Namespace.LoadCandidateConfig` | components/app_storage/app_storage.c:441-472 | Reads the committed candidate, with every error of the code |
| `AppStorage.Namespace.StageCandidate` | components/app_storage/app_storage.c:474-604 | Whatever call fails, the namespace is either untouched or exactly as the staging rules say, with their result code |
| `AppStorage.Namespace.StoreCandidate` | components/app_storage/app_storage.c:574-593 | The four writes take effect together or not at all |
| `AppStorage.Namespace.PromoteCandidate` | components/app_storage/app_storage.c:606-682 | Whatever call fails, either nothing changes or candidate becomes current and active at once and the candidate and recovery keys are gone |
| `AppStorage.Namespace.StorePromotion` | components/app_storage/app_storage.c:638-671 | Its writes and erases take effect together or not at all |
| `AppStorage.Namespace.ClearWifiCredentials` | components/app_storage/app_storage.c:741-795 | Credentials and active pair go together or not at all, the candidate stays; without anything to erase no commit is made |
| `AppStorage.Namespace.IncrementRecoveryRetry` | components/app_storage/app_storage.c:232-269 | The counter goes up by one and stops at 255, or a fault leaves it |
| `AppStorage.Namespace.SetRecoveryTriggered` | components/app_storage/app_storage.c:797-819 | The flag is set, or a fault leaves everything |
| `AppStorage.Namespace.ClearRecoveryTriggered` | components/app_storage/app_storage.c:821-846 | The flag is gone, or a fault leaves everything |
| `UpstreamWifi.RunSafe` | src/main.c:306-451 | Every interleaving of main loop, WiFi events, MQTT events, stagings and Portal saves, with any call failing, keeps the protocol invariant |
| `UpstreamWifi.VerifiedPromotion` | src/main.c:408-434 | Each successful promotion, in every interleaving, makes current exactly the credentials the STA last accepted for this attempt, after a GOT_IP event since the driver call returned and an MQTT connect since the attempt sampled the count, either perhaps of the old link; the active version rises |
| `UpstreamHistory.VerifiedOverOwnLink` | src/main.c:408-434 | For every run: at a promotion, an address and an MQTT connection have arrived over a link made with the promoted credentials after the old link was given up, exactly when s_sta_reconfigure_pending was down at a GOT_IP and at an MQTT_CONNECTED since the attempt raised it |
| `UpstreamHistory.TrialOverOwnLink` | src/main.c:326-352 | The same for every moment at which the stored candidate is on trial |
| `UpstreamTrials.ConnectOfOldLink` | src/main.c:410-434 | From any slots with both configurations, and for any higher version, some run that the firmware can meet promotes that version with an address of its own link but an MQTT connection of the old one only |
| `UpstreamTrials.CandidateUntried` | src/main.c:410-434 | The same with neither address nor MQTT connection over its own link, while the end of the old link is still pending |
| `UpstreamWifi.OnlyThreeWriters` | src/main.c:355-451 | Current credentials change only by a promotion, the recovery clear or a Portal save |
| `UpstreamWifi.GenerationComparison` | src/main.c:416-421 | The comparison of wrapped 32-bit connection counts never sees a connect that did not happen; below 2^32 connects it sees every one |
| `UpstreamWifi.CountersExact` | components/wifi_gateway/wifi_gateway.c:253-361 | In every reachable state each failure counter is the number of disconnects of its class, saturated at 3, since the last of: STA_CONNECTED, the driver call that switches to a candidate, the disconnect that this call asked for, boot; a promotion resets nothing |
| `UpstreamWifi.VerdictExact` | components/wifi_gateway/wifi_gateway.c:295-361 | In every reachable state a counted disconnect ends in RECOVERY_REQUIRED exactly when it is the third or later of the six credential-class reasons since the counts last started afresh, else in UNREACHABLE exactly when it is the third or later of the others |
| `UpstreamWifi.ThriceCounted` | components/wifi_gateway/wifi_gateway.c:32-54 | From any running state with no reconfiguration pending, three disconnects with any of the six credential-class reasons end in RECOVERY_REQUIRED, three with any other reason in UNREACHABLE unless three credential failures were counted before |
| `UpstreamTurns.BootOutcome` | src/main.c:217-304 | A boot with current credentials connects with them in slot CURRENT, one without provisions with the STA off; nothing is on trial or counted |
| `UpstreamTurns.SaveOutcome` | src/main.c:189-213 | A Portal save of valid credentials replaces all slots and ends the run, any other changes nothing |
| `UpstreamTurns.TrialFails` | src/main.c:306-324 | One undisturbed turn after a verdict in slot CANDIDATE: provisioning with all slots kept |
| `UpstreamTurns.NothingToTry` | src/main.c:355-406 | One undisturbed turn in slot CURRENT when unreachable without a candidate, or with a candidate that cannot be read: provisioning with all slots kept |
| `UpstreamTurns.RejectedIsCleared` | src/main.c:374-386 | One undisturbed turn after a rejection in slot CURRENT without a candidate: credentials and active version erased and the run over, or nothing changed when the erase fails |
| `UpstreamTurns.CandidateTried` | src/main.c:326-352 | One undisturbed turn after a verdict in slot CURRENT with a candidate: it is on trial, counters zero, with the MQTT count of this turn; if a call fails, provisioning with slot CURRENT and all slots kept |
| `UpstreamTurns.NothingToDo` | src/main.c:854-888 | Without a verdict or a ready candidate a turn changes nothing |
| `UpstreamTurns.VerifiedIsPromoted` | src/main.c:408-434 | One undisturbed turn with a ready candidate that is still the stored one: promoted, or on trial still when storage fails |
| `UpstreamTurns.SupersededIsReplaced` | src/main.c:435-451 | One undisturbed turn with a ready candidate that was superseded: not promoted, and the stored version is on trial in its place |
| `UpstreamWifi.ClearsOnlyRejected` | src/main.c:355-387 | Runtime recovery clears only credentials that the STA was running with when the verdict fell; the verdict fell in slot CURRENT exactly when no promotion switched slots while it was already in |
| `UpstreamHistory.ClearsWithoutCandidate` | src/main.c:355-387 | For every run: the load before a clear found no candidate; one is stored at the clear, and left behind without current credentials, exactly when a command stored it between the load and the clear |
| `UpstreamTrials.CandidateLeftBehind` | src/main.c:363-375 | From any slots with current credentials and no candidate, and for any configuration that can be staged, some run that the firmware can meet clears slot CURRENT with that candidate stored by then |
| `UpstreamHistory.ClearsOnCurrentFailures` | src/main.c:355-387 | For every run: the three failures behind a clear were all counted in slot CURRENT exactly when the credential counter was 0 at the last promotion's slot switch, or was reset between that switch and the verdict |
| `UpstreamWifi.UnreachableNeverClears` | src/main.c:389-406 | Before any runtime clear at least three credential-class disconnects occurred: losing the access point, however often, never clears |
| `UpstreamTrials.ClearWithoutCurrentFailures` | src/main.c:423-434 | From any slots with both configurations some run that the firmware can meet clears slot CURRENT on a verdict reached in slot CANDIDATE |
| `UpstreamTrials.ClearAfterOneFailure` | src/main.c:423-434 | From any slots with both configurations some run that the firmware can meet clears slot CURRENT on a verdict with one failure counted there and two carried over from slot CANDIDATE |
| `UpstreamLoop.Upstream.constructor` | src/main.c:217-304 | The firmware boots from legal slots in the protocol's initial state: the STA runs with the current credentials if there are any; a candidate that boot cannot read is zeroed in the globals and stays stored |
| `UpstreamLoop.Upstream.OnConnected` | components/wifi_gateway/wifi_gateway.c:253-261 | The globals after STA_CONNECTED are those of the protocol step |
| `UpstreamLoop.Upstream.OnAddress` | components/wifi_gateway/wifi_gateway.c:263-270 | The globals after GOT_IP are those of the protocol step |
| `UpstreamLoop.Upstream.OnDisconnected` | components/wifi_gateway/wifi_gateway.c:272-361 | The globals after STA_DISCONNECTED, pending reconfiguration or not, are those of the protocol step |
| `UpstreamLoop.Upstream.OldLinkClosed` | components/wifi_gateway/wifi_gateway.c:276-293 | With a reconfiguration pending the event consumes the flag, forgets both counts and reconnects |
| `UpstreamLoop.Upstream.LinkFailed` | components/wifi_gateway/wifi_gateway.c:295-361 | Without one it is counted by class and the status is the verdict at the limit, or the outcome of the reconnect |
| `UpstreamLoop.Upstream.CountFailure` | components/wifi_gateway/wifi_gateway.c:298-317 | Exactly one saturating counter moves, chosen by the reason class |
| `UpstreamLoop.Upstream.SetConnectionState` | components/app_mqtt/app_mqtt.c:31-40 | A connect raises the 32-bit generation, a disconnect does not, as the protocol step says |
| `UpstreamLoop.Upstream.ConnectSta` | components/wifi_gateway/wifi_gateway.c:616-645 | With any events between its accesses the call is a run of protocol steps: on success the STA has accepted exactly these credentials |
| `UpstreamLoop.Upstream.Configure` | components/wifi_gateway/wifi_gateway.c:471-501 | The driver takes the credentials or the attempt ends in retained recovery |
| `UpstreamLoop.Upstream.RequestLink` | components/wifi_gateway/wifi_gateway.c:628-644 | The old link is asked to close, or a new one requested when there was none, or the attempt ends in retained recovery |
| `UpstreamLoop.Upstream.EnterRetainedRecovery` | src/main.c:306-324 | A run of protocol steps back to the top of the loop with the slots kept |
| `UpstreamLoop.Upstream.StartCandidate` | src/main.c:326-352 | A run of protocol steps: the stored candidate is on trial in slot CANDIDATE with the generation sampled before the driver call, or there is none, or the attempt could not start and the slot is unchanged |
| `UpstreamLoop.Upstream.HandleRecovery` | src/main.c:355-387 | A run of protocol steps to the top of the loop, or to a restart after a clear |
| `UpstreamLoop.Upstream.ClearCurrentSlot` | src/main.c:374-386 | A clear that succeeds is preceded by at least three credential-class disconnects, all counted in slot CURRENT exactly under the guard of ClearsOnCurrentFailures; its load found no candidate, and the slots left hold at most one staged since that load |
| `UpstreamLoop.Upstream.HandleUnreachable` | src/main.c:389-406 | A run of protocol steps to the top of the loop |
| `UpstreamLoop.Upstream.ReadyToPromote` | src/main.c:410-421 | The slot, status and generation tests, each on the globals as they are when read |
| `UpstreamLoop.Upstream.PromoteStoredCandidate` | src/main.c:423-434 | On success the slots hold the credentials last accepted by the driver, after a GOT_IP event and a connect newer than the sample, and an address and a connect were of the candidate's own link exactly when the pending flag was down at both since the attempt raised it |
| `UpstreamLoop.Upstream.PromoteIfReady` | src/main.c:408-451 | A run of protocol steps to the top of the loop, supersession and retry included |
| `UpstreamLoop.Upstream.Turn` | src/main.c:854-888 | One turn of the main loop, under any interference, is a run of the protocol, so every law of the protocol holds of the firmware's globals |
| `UpstreamLoop.Upstream.Provision` | src/main.c:189-213 | A Portal save of valid credentials replaces both slots and ends the run, any other changes nothing |
| `UpstreamLoop.Upstream.AppMain` | src/main.c:854-925 | Any number of turns with Portal saves between them, up to the restart, is a run of the protocol |
| `ClientTables.TableInvariant` | components/client_access/client_access.c:84-836 | In every reachable table in-use MACs are distinct and a session number is stored exactly with authorized entries |
| `ClientDepartures.DeparturesInOrder` | components/client_access/client_access.c:236-280 | Over any run of table events and deliveries: delivered then waiting events are the removals in order, less exactly those that met a full queue; there is one removal per tracked client that leaves, with its MAC and, if it still was authorized, AUTHORIZED and the session of its last command, else UNAUTHORIZED and 0 |
| `ClientTables.AuthorizeOutcome` | components/client_access/client_access.c:707-744 | A positive session for a tracked MAC authorizes that client alone; each other case has its own error and changes nothing |
| `ClientTables.RevokeOutcome` | components/client_access/client_access.c:747-800 | A revoke ends exactly the authorization of that MAC and session; each other case has its own error and changes nothing |
| `ClientTables.ConnectOutcome` | components/client_access/client_access.c:84-138 | A connect makes its MAC a client without access in its own slot or else in a free one, and is refused exactly when the MAC is new and every slot is taken |
| `ClientTables.AddressAndLeave` | components/client_access/client_access.c:143-280 | A leased address is noted for the client of that MAC alone, a disconnect frees its slot alone |
| `ClientTables.ClientTable.FindClient` | components/client_access/client_access.c:70-81 | The first in-use entry with the MAC, if any |
| `ClientTables.ClientTable.TrackConnected` | components/client_access/client_access.c:84-138 | The entry is the known or first free slot, unauthorized and without address; a full table is NO_MEM |
| `ClientTables.ClientTable.TrackIp` | components/client_access/client_access.c:143-170 | The address of a known client changes, nothing else |
| `ClientTables.ClientTable.RemoveDisconnected` | components/client_access/client_access.c:236-292 | The entry is cleared and its snapshot queued if there is room |
| `ClientTables.ClientTable.NextDeparture` | components/client_access/client_access.c:874-891 | The oldest waiting event is delivered |
| `ClientTables.ClientTable.Authorize` | components/client_access/client_access.c:707-744 | A positive session authorizes a connected MAC from the current tick |
| `ClientTables.ClientTable.RevokeAuthorization` | components/client_access/client_access.c:747-800 | Only the exact authorized session is revoked; each other case has its own error |
| `ClientTables.ClientTable.CanForwardIpv4` | components/client_access/client_access.c:589-651 | The first entry with the address decides and is downgraded when its wrapped time is over |
| `ClientTables.ClientTable.ExpireAll` | components/client_access/client_access.c:803-836 | Exactly the entries whose wrapped time is over at the sampled tick are downgraded |
| `ClientTime.NeverTooLong` | components/client_access/client_access.c:589-651 | With checks at most 2^32 minus the longest time to live apart, no packet passes at or after the true end of its grant, whatever the tick samples and wraps |
| `ClientTime.TtlExact` | components/client_access/client_access.c:803-836 | If moreover no check's sample is older than a timed grant it scans, every packet is answered exactly as grants on an unbounded clock dictate |
| `ClientTime.SampleDecides` | components/client_access/client_access.c:805-824 | A check keeps an authorization made at T0 exactly when its sample lies in [T0, T0 + ttl); an older sample ends it at once |
| `ClientStale.RefusedWithinGrant` | components/client_access/client_access.c:589-836 | In every run with punctual checks, a packet inside a holding grant is refused exactly when the grant is a timed one and some check since its command had a tick sample older than it |
| `ClientTime.ForwardingHasASource` | components/client_access/client_access.c:589-836 | A forwarded packet belongs to a client that a command authorized after its latest connect, for the stored session, with no disconnect, revoke, newer command or expiry since |
| `MqttCommands.CallsAreRuns` | components/app_mqtt/app_mqtt.c:63-118 | In any event sequence the handler is called exactly when the fragments so far end in a contiguous run from offset 0, with topic of 1 to 127 bytes and announced total of 1 to 2047, that reaches its total with the last fragment, and then with the join of that run |
| `MqttCommands.RunAssembles` | components/app_mqtt/app_mqtt.c:63-118 | From whatever state, a run that is not whole yet is what is in assembly |
| `MqttCommands.DeliveredIntact` | components/app_mqtt/app_mqtt.c:63-118 | From any state a payload of 1 to 2047 bytes on a NUL-free topic of 1 to 127 bytes, cut into any consecutive non-empty fragments, is delivered exactly once and intact |
| `MqttCommands.CommandBuffer.Reset` | components/app_mqtt/app_mqtt.c:55-61 | No command is being assembled |
| `MqttCommands.CommandBuffer.HandleData` | components/app_mqtt/app_mqtt.c:63-118 | The static buffers and the handler call after any fragment are those of the reassembly step |
| `MqttCommands.CommandBuffer.Append` | components/app_mqtt/app_mqtt.c:97-117 | A fitting fragment extends the payload in place; the last one is delivered and resets the buffers |
| `PortalDns.QuestionRoundTrip` | components/captive_portal/portal_dns.c:93-197 | Encoding any label list that fits, behind a header with QR and OPCODE zero and one question, and parsing it gives the dotted name, the exact question end, the type and the class, whatever follows |
| `PortalDns.QuestionSound` | components/captive_portal/portal_dns.c:93-197 | An accepted question has such a header and is the encoding of labels that spell the name returned, which fits its buffer |
| `PortalDns.ResponseShape` | components/captive_portal/portal_dns.c:240-357 | Every response fits its capacity, keeps the id and the question bytes, is marked as a response with one question and the right code, and an answer's owner name resolves through its compression pointer to the name asked for |
| `PortalAnswers.WithoutAccess` | components/captive_portal/portal_dns.c:284-323 | A client without access: the response does not depend on the block rules or the resolver; an address query ends in the external Portal address for its domain and in the Portal address for any other, any other query in an empty answer |
| `PortalAnswers.WithAccess` | components/captive_portal/portal_dns.c:284-323 | A client with access: the response does not depend on the Portal address; it is REFUSED exactly for class IN, a name other than the external domain and one that the rules name; any other address query ends in the resolved address or SERVFAIL |
| `PortalAnswers.AnsweredAtAll` | components/captive_portal/portal_dns.c:240-357 | There is a response exactly when the question is read and it and the answer, if any, fit |
| `PortalAnswers.HeaderSays` | components/captive_portal/portal_dns.c:266-331 | Every response header: id and RD of the query, QR, AA or RA by access, one question, no authority and no additional records |
| `PortalDns.ExternalSameForAll` | components/captive_portal/portal_dns.c:284-294 | An A/IN query for the external Portal domain gets the same address before and after authorization; the responses differ in the flag bytes at most |
| `PortalDnsServer.ReadLabels` | components/captive_portal/portal_dns.c:120-169 | The in-place label loop ends with the error, or with the dotted name in the buffer, that the definition gives |
| `PortalDnsServer.ParseDnsQuestion` | components/captive_portal/portal_dns.c:93-197 | Name, question end, type, class or error, with the name terminated in its buffer |
| `PortalDnsServer.Choose` | components/captive_portal/portal_dns.c:280-323 | External Portal first, then the block rules for authorized clients, then Portal, upstream or failure |
| `PortalDnsServer.CopyQuestion` | components/captive_portal/portal_dns.c:259-331 | Header patched in place: id and question kept, flags and counts set |
| `PortalDnsServer.WriteResponse` | components/captive_portal/portal_dns.c:325-356 | The patched question and, when there is room, the answer record; -1 when there is none |
| `PortalDnsServer.BuildDnsResponse` | components/captive_portal/portal_dns.c:240-357 | The bytes in the response buffer and their length are the response of ResponseShape, or -1 |

## Left out

- IPv4 and TCP decoding, pbuf chains and checksums: a segment starts as 4-tuple, sequence number, flags and payload of fewer than 65536 bytes; copying bytes of a decoded payload cannot fail. The early-exit ladder of the packet hook would add one-branch facts.
- Flash internals: a namespace is its last committed map and a working copy, a commit is atomic, closing without one discards, and a driver fault is never reported as a missing key. The configuration mutex exists and is always obtained; the recovery flag and counter, which the code updates without it, are updated atomically. A namespace that does not exist yet is an empty one.
- FreeRTOS, drivers, sockets, HTTP and DHCP: their calls and events become nondeterministic results and steps. One WiFi or MQTT event handler runs as one step; the main loop interleaves with them at each shared access, except that its two writes that zero the failure counters (components/wifi_gateway/wifi_gateway.c:624-625) are one step. An address or MQTT event counts for the link that is up when it is handled. Reason codes are an enumeration of the six credential classes and the rest; the driver never answers NOT_FOUND.
- UpstreamLoop.Upstream.Interfere: a Portal save is left out of the events that may fall inside a turn of the main loop, since the restart that follows it ends the run; UpstreamLoop.Upstream.AppMain has it between turns, UpstreamWifi anywhere.
- UpstreamLoop.Upstream.constructor: a flash fault while boot reads the credentials aborts the boot and has no counterpart; the recovery flag, which boot clears before it tries the old credentials, lies outside the two slots and does not change how the STA is started.
- UpstreamTrials.CandidateUntried: its run, like those of the other lemmas of UpstreamTrials, has events only in the order in which links and MQTT connections come about (`UpstreamTrials.Possible`); the laws over all runs allow any order.
- UpstreamHistory.VerifiedOverOwnLink: a link that comes up with the candidate's configuration after the driver took it but before the old link is asked to close counts as old, since that request closes it too.
- AccessRules.RuleTable.IsHostnameBlocked: the callers in TlsFlows and PortalDnsServer decide one segment or query under one rule table; IsHostnameBlockedMeanwhile covers installs between its critical sections.
- FlowRuns.SegmentationIndependence: streams whose retransmissions disagree, FIN, RST, a SYN after data and time-outs end or replace a flow; what comes after is a new flow and a new stream.
- FlowRuns.Containment: a blocked flow that FIN or a time-out has cleared is forgotten by the code, and later data opens a new flow, so the statement ends there.
- FlowRuns.NonInterference: needs a table that never runs out of slots, since a full table drops the segment that opens a flow; FlowRuns.ExhaustedMeansFull says exactly when that is.
- ClientTime.NeverTooLong: checks must be at most 2^32 minus the longest time to live apart; the code calls them every ten seconds while the uplink has an address.
- AccessRules.RuleTable.BlockTraffic: what the address parser and the reserved-address tests make of the destination text comes in as a value or its absence.
- MAC and address texts, RSSI, snapshots, ARP lookups and the uncalled client_access_set_state; times to live arrive as ticks, MACs as byte strings.
- Null pointers, and signed overflow of offset plus length for MQTT fragments near 2^31 bytes. A command handler is registered; without one a complete command is dropped.
- PortalDns: upstream resolution is a result handed in; what the resolver does with a name is not modelled.
- app_command.c, device_status.c, Portal pages and redirects, JSON, logging and the status query of app_storage.c: plumbing that would add easy members.
- The tests after the loops of parse_client_hello (components/tls_sni_parser/tls_sni_parser.c:178-190) cannot fail once the loops end and have no counterpart.
