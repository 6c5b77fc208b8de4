# PiWatch core, modelled in Dafny

PiWatch monitors a fleet of nodes. Each node runs an agent that registers
itself with a central server, sends heartbeats and reports changes of its
IPv4 address. The server keeps a registry of nodes with derived liveness and
mirrors addresses into a Pi-hole DNS server's host records.

This project models the sequential logic of that system and proves
properties of it:

- **Address watcher** (`address_watch.dfy`, with `ipv4_text.dfy`). This is
  the agent-side listener. Kernel notifications are a sequence of
  datatypes. `IpChangeListener.Run` is the filter-and-deduplicate loop over
  the `lastIp` field. It is proved against `Reports` and `LastAfter`, which
  compose a filter (`Candidates`) with a deduplication (`Dedup`).
  `ExtractIpv4`, `InitialIpv4` and `ResolveLink` cover the first-IPv4
  search and interface resolution. Addresses are compared as
  dotted-decimal text, as in the source, and `Ipv4Text.DottedInjective`
  shows that this is the same as comparing addresses.
- **Node registry** (`node_registry.dfy`). `Registry` is a class whose
  `agents` map the register, address-update and heartbeat handlers change.
  Each method is tied to a pure function (`Registered`, `IpUpdated`,
  `Touched`) whose properties are proved.
- **Liveness views** (`liveness.dfy`). This file holds the agent list,
  the counts and one tick of the staleness sweep. They are pure functions
  over the map at an instant `now`.
- **DNS client** (`pihole_client.dfy`, with `form_urlencoded.dfy`).
  `PiholeClient` holds the session id. `PutIp` is proved against the
  specification function `PutIpExchange`. The upstream's answers are
  inputs, and the requests sent are returned, so lemmas can say which
  requests a call makes. The host-record URL uses the
  application/x-www-form-urlencoded byte serializer of section 5.2 of the
  WHATWG URL Standard. It is proved injective through the standard's parser.
- **Log level codec** (`log_level.dfy`). This maps the six level names to
  levels and back, with case-insensitive decoding.

Time is one natural-number clock in nanoseconds. `elapsed()` is
`now - last_seen`, or 0 when `last_seen` is later than `now`. `as_secs()`
is division by 10^9.

Two details of the code shape the contracts:

- Session creation fails only on a transport error or an undecodable body.
  The code never checks the HTTP status of `POST /api/auth`.
- The sweep compares the full-precision elapsed time with 300 s. The list
  and the counts use truncated whole seconds. So 300.5 s is flagged by the
  sweep even though it reads as 300 seconds.

## Model

| member | source | states |
|---|---|---|
| `LogLevel.Serialize` | crates/core/src/config/log.rs:12-19 | each level is written as one of the six lower-case names |
| `LogLevel.Deserialize` | crates/core/src/config/log.rs:26-35 | accepted exactly when the lower-cased input is one of the six names; then serializing the result gives the lower-cased input; otherwise the error is "Invalid log level" |
| `LogLevel.SerializeInjective` | crates/core/src/config/log.rs:13-18 | distinct levels get distinct names |
| `LogLevel.RoundTrip` | crates/core/src/config/log.rs:12-33 | decoding the name of a level gives that level back |
| `LogLevel.CaseInsensitive` | crates/core/src/config/log.rs:27 | two inputs with the same lower-case form decode alike |
| `LogLevel.DeserializeLowered` | crates/core/src/config/log.rs:27 | decoding an input equals decoding its lower-case form |
| `LogLevel.WarnInAnyCase` | crates/core/src/config/log.rs:27-30 | "WARN", "Warn" and "warn" all decode to WARN |
| `Ipv4Text.DecimalRoundTrip` | crates/agent/src/network.rs:97 | the decimal text of an address octet reads back as the octet |
| `Ipv4Text.DottedInjective` | crates/agent/src/network.rs:97 | two addresses have the same dotted-decimal text exactly when they are equal |
| `AddressWatch.ResolveLink` | crates/agent/src/network.rs:35-40 | the interface resolves to the index of the first link found; no link gives "interface not found"; a lookup error is passed on |
| `AddressWatch.IpChangeListener.constructor` | crates/agent/src/network.rs:42-48 | a new listener watches the given index and has reported nothing yet |
| `AddressWatch.ExtractIpv4` | crates/agent/src/network.rs:120-129 | gives the first `Address` attribute holding an IPv4 address, skipping IPv6 and other attributes; None exactly when there is none |
| `AddressWatch.InitialIpv4` | crates/agent/src/network.rs:65-79 | finds an address exactly when some dump answer yields one and every earlier answer was read without error and yields none; the address is that answer's |
| `AddressWatch.EventName` | crates/agent/src/network.rs:88-89 | new-address events are named "add" and delete events "del" |
| `AddressWatch.Candidate` | crates/agent/src/network.rs:83-99 | a notification counts only if it is an add or delete message for the watched index with an IPv4 `Address`; its change carries that address's text and the event's kind |
| `AddressWatch.Undelivered` | crates/agent/src/network.rs:108-113 | the count is exactly the number of the first n reports whose delivery failed (one logged line each), so never more than were sent |
| `AddressWatch.IpChangeListener.Run` | crates/agent/src/network.rs:81-117 | the reports sent and the final `lastIp` are the deduplicated candidates of the whole stream and the last candidate's address; failed deliveries are only counted and change neither; ends with "IP changes subscription ended" |
| `AddressWatch.IgnoredNotification` | crates/agent/src/network.rs:83-99 | a notification that is not an add/delete, is for another index or has no IPv4 address changes neither the reports nor `lastIp` |
| `AddressWatch.CandidateStep` | crates/agent/src/network.rs:101-110 | a candidate equal to `lastIp` is suppressed whatever its kind; otherwise it becomes `lastIp` and exactly one report carrying it is added |
| `AddressWatch.NoRepeatedReports` | crates/agent/src/network.rs:101-105 | no report repeats the address of the report before it, and the first differs from the starting `lastIp` |
| `AddressWatch.CursorIsLastReport` | crates/agent/src/network.rs:101-105 | `lastIp` is always the address of the last report sent, or its starting value if none was sent |
| `AddressWatch.ReportsAreCandidates` | crates/agent/src/network.rs:93-105 | every report is a candidate, and there are no more reports than candidates |
| `AddressWatch.SameAddressReportedOnce` | crates/agent/src/network.rs:101-103 | a run of candidates with one address gives at most one report, and none exactly when the run is empty or the address is already `lastIp` |
| `AddressWatch.FirstCandidateReported` | crates/agent/src/network.rs:43 | starting from no address, the first candidate is always reported |
| `AddressWatch.AddThenDelete` | crates/agent/src/network.rs:87-103 | an add followed by a delete of the same new address reports only the add |
| `NodeRegistry.NewRecord` | crates/server/src/handler/agent.rs:19-25 | the record copies the payload's fields, with registration and last contact both set to now |
| `NodeRegistry.Registered` | crates/server/src/handler/agent.rs:17-26 | the key maps to the new record, replacing any earlier one; other keys are untouched; the size grows by one exactly when the key was absent |
| `NodeRegistry.IpUpdated` | crates/server/src/handler/agent.rs:33-43 | a present key gets the new address and last contact now, with host name, version and registration unchanged; an absent key changes nothing; keys and size are preserved |
| `NodeRegistry.Touched` | crates/server/src/handler/heart_beat.rs:14-18 | a present key gets last contact now and nothing else changes; an absent key changes nothing; keys and size are preserved |
| `NodeRegistry.Registry.constructor` | crates/server/src/main.rs:35 | the registry starts empty |
| `NodeRegistry.Registry.Register` | crates/server/src/handler/agent.rs:11-27 | the map becomes the registered map |
| `NodeRegistry.Registry.UpdateIp` | crates/server/src/handler/agent.rs:29-44 | reports whether the node was known (unknown is only logged); the map becomes the updated map |
| `NodeRegistry.Registry.Heartbeat` | crates/server/src/handler/heart_beat.rs:10-19 | reports whether the node was known (unknown is only logged); the map becomes the touched map |
| `NodeRegistry.EventIgnored` | crates/server/src/handler/agent.rs:33-40 | the event name plays no part: "add" and "del" updates with the same address have the same effect |
| `NodeRegistry.HeartbeatIdempotent` | crates/server/src/handler/heart_beat.rs:15 | two heartbeats at the same instant have the effect of one |
| `NodeRegistry.RegisterThenUpdate` | crates/server/src/handler/agent.rs:17-35 | registering and then updating a node at a later instant leaves the new address, the payload's host name and version, and last contact no earlier than registration |
| `NodeRegistry.RegisterKeepsTime` | crates/server/src/handler/agent.rs:23-24 | with time not going back, registration keeps registration <= last contact <= now and moves no last contact back |
| `NodeRegistry.UpdateKeepsTime` | crates/server/src/handler/agent.rs:34 | the same for an address update |
| `NodeRegistry.HeartbeatKeepsTime` | crates/server/src/handler/heart_beat.rs:15 | the same for a heartbeat |
| `Liveness.Elapsed` | crates/server/src/handler/metric.rs:15 | elapsed time is the difference to now, or 0 when last contact lies ahead |
| `Liveness.ElapsedSecs` | crates/server/src/handler/metric.rs:15 | whole seconds are the elapsed time truncated to seconds |
| `Liveness.ListAgents` | crates/server/src/handler/metric.rs:8-29 | one summary per record, with `nodeId` the key; fields copied; `lastSeenSec` the truncated seconds since last contact; online exactly when that is below 120 |
| `Liveness.SummaryCount` | crates/server/src/handler/metric.rs:11-26 | distinct keys give distinct summaries, so there are as many summaries as records |
| `Liveness.OnlineKeys` | crates/server/src/handler/metric.rs:33-37 | the records counted online are exactly those under 120 whole seconds |
| `Liveness.Stats` | crates/server/src/handler/metric.rs:31-44 | total is the number of records; online equals the number of online summaries in the list; online <= total, so offline = total - online does not underflow |
| `Liveness.OnlineSummaries` | crates/server/src/handler/metric.rs:33-37 | the online summaries are exactly the summaries of the online records, and as many |
| `Liveness.OnlineBoundary` | crates/server/src/handler/metric.rs:21 | a node is online exactly when less than 120 s have passed; at exactly 120 s it is offline |
| `Liveness.StaleNodes` | crates/server/src/main.rs:43-48 | one sweep tick flags exactly the records whose elapsed time exceeds 300 s; it only reads |
| `Liveness.StaleNodesAreOffline` | crates/server/src/main.rs:45 | every flagged node appears in the list as offline |
| `Liveness.StaleBoundary` | crates/server/src/main.rs:45 | exactly 300 s is not flagged; 300 s and one tick is, though it reads as 300 whole seconds |
| `FormUrlEncoded.Utf8Char` | crates/server/src/pihole/client.rs:41 | the bytes are the UTF-8 encoding of the character: the length class follows the scalar value, the lead byte marks the length, later bytes are continuation bytes, and the payload bits rebuild the scalar value |
| `FormUrlEncoded.Utf8CharPrefix` | crates/server/src/pihole/client.rs:41 | the first character of an encoded string is fixed by its bytes, and so is the remainder |
| `FormUrlEncoded.Utf8Injective` | crates/server/src/pihole/client.rs:41 | two strings have equal UTF-8 bytes iff they are equal |
| `FormUrlEncoded.ByteSerialize` | crates/server/src/pihole/client.rs:41 | the output holds only letters, digits, `*-._`, `+` and `%` |
| `FormUrlEncoded.FormEncode` | crates/server/src/pihole/client.rs:41 | the encoded text is ASCII from the same alphabet |
| `FormUrlEncoded.DecodeByteSerialize` | crates/server/src/pihole/client.rs:41 | the standard's parser gives back exactly the serialized bytes |
| `FormUrlEncoded.ByteSerializeInjective` | crates/server/src/pihole/client.rs:41 | distinct byte strings never share an encoding |
| `FormUrlEncoded.FormEncodeInjective` | crates/server/src/pihole/client.rs:41 | two strings serialize alike iff they are equal, so the record path names one "ip hostname" text |
| `FormUrlEncoded.FormEncodeSpace` | crates/server/src/pihole/client.rs:41 | "a b" is encoded as the encoding of a, then `+`, then the encoding of b |
| `FormUrlEncoded.FormEncodeUnreserved` | crates/server/src/pihole/client.rs:41 | text of letters, digits and `*-._` is left unchanged |
| `PiholeSync.PiholeClient.constructor` | crates/server/src/pihole/client.rs:19-26 | the API root is the base followed by "/api", and no session is held |
| `PiholeSync.PiholeClient.GetCurrentSid` | crates/server/src/pihole/client.rs:98-104 | returns the held session id |
| `PiholeSync.PiholeClient.SetCurrentSid` | crates/server/src/pihole/client.rs:106-109 | the held session id becomes the given one |
| `PiholeSync.PiholeClient.IsAuthValid` | crates/server/src/pihole/client.rs:65-78 | without a session: false and no request; with one: one probe carrying it, true exactly on a 2xx status, or the transport error |
| `PiholeSync.PiholeClient.PutIp` | crates/server/src/pihole/client.rs:28-63 | the new session, the requests sent and the result are those of `PutIpExchange` |
| `PiholeSync.RequestsWellOrdered` | crates/server/src/pihole/client.rs:28-63 | requests go out as probe, then session creation, then PUT, with at most one session creation and at most three requests |
| `PiholeSync.NoSessionCreatesOne` | crates/server/src/pihole/client.rs:66-69 | with no session the probe is skipped and the first request creates a session |
| `PiholeSync.AcceptedSessionKept` | crates/server/src/pihole/client.rs:29-31 | when the probe succeeds no session is created, the session is unchanged and the PUT carries it |
| `PiholeSync.RejectedSessionRecreatedOnce` | crates/server/src/pihole/client.rs:31-32 | when the probe fails exactly one session creation follows it, before the PUT |
| `PiholeSync.ProbeFailureAborts` | crates/server/src/pihole/client.rs:71-75 | a probe transport error fails the call with no session creation, no PUT and the session unchanged |
| `PiholeSync.InvalidSessionAnswerFails` | crates/server/src/pihole/client.rs:34-36 | an answer marked invalid or without an id fails with "Authentication failed", sends no PUT and keeps the session |
| `PiholeSync.NewSessionReplaces` | crates/server/src/pihole/client.rs:38-46 | a successful session creation replaces the session wholesale and the PUT carries the new id |
| `PiholeSync.SessionChangesOnlyOnNewSession` | crates/server/src/pihole/client.rs:106-109 | the session changes only to the id of a successful session creation |
| `PiholeSync.SucceedsIffPutSucceeds` | crates/server/src/pihole/client.rs:54-61 | the call succeeds exactly when the PUT is sent and answered with a 2xx status |
| `PiholeSync.PutOnlyLast` | crates/server/src/pihole/client.rs:49-62 | a PUT is always the last request and its answer decides the result; with no PUT the call fails |
| `PiholeSync.NeverUnexpectedFailure` | crates/server/src/pihole/client.rs:46 | with no concurrent callers, the session is never missing right before the PUT |
| `PiholeSync.PutGoesToHostsUrl` | crates/server/src/pihole/client.rs:41-53 | every PUT goes to the host-record URL of the address and host name |
| `PiholeSync.ApiPathShape` | crates/server/src/pihole/client.rs:94-96 | with the API root built as in `new` (client.rs:22), every API path is `<base>/api/` followed by the path, for the probe, session and host-record paths alike |
| `PiholeSync.HostsUrlShape` | crates/server/src/pihole/client.rs:41-42 | that URL is `<base>/api/config/dns/hosts/` followed by the encoded address, `+` and the encoded host name |

## Left out

- Netlink connection setup, the spawned connection task, the `start` wrapper and the socket plumbing are not modelled (crates/agent/src/network.rs:24-63). The first answer of the link lookup and the address dump are inputs. The address lookup filters the dump by index (crates/agent/src/network.rs:69), so the dump is taken as already filtered.
- The notification stream is finite in the model. `Run` stops at its end with "IP changes subscription ended". Nothing models an endless stream or restarting.
- Delivering a report is the outbound HTTP call in crates/agent/src/api_client.rs, which is not part of this model. Whether each delivery succeeded is an input, and only the count of logged failures depends on it.
- The agent's main task, its 30-second heartbeat timer, the server's router and TCP bind, and the endless 60-second loop around the sweep are timers and wiring. Only one sweep tick is modelled.
- Concurrency is left out. The registry's sharded locking and the lock around the session id become a plain `map` field and a plain `Option` field. The race between `len()` and `iter()` in `stats` exists only under concurrency.
- The registry key is an abstract type `K`. This revision reads `node_id` from payloads that have no such field, and keys heartbeats by `hostname`. So the key each handler uses is a parameter. `AgentState.ipv4` is declared `String` but assigned an `Option`; the model uses `Option<string>`.
- Real clocks are left out. `SystemTime` (registration) and `Instant` (last contact) share the one `now` parameter. That is why `RegisterThenUpdate` can compare them.
- The agent list is modelled as a set of summaries. The `Vec` order is the map's unspecified iteration order.
- Configuration loading, logger setup (`logging::init`), JSON serialization of responses and node-identity persistence are I/O and are not modelled.
- `Lower` lower-cases ASCII letters only, while `to_lowercase` is Unicode-wide. The set of accepted names is the same: no non-ASCII character lower-cases to one of the single ASCII letters in the six names. (The Kelvin sign gives `k`, which none of them uses.)
- `Url::parse` is not modelled. Whether the host-record URL parses is an input (`Upstream.urlParses`). In this revision `SERVER_URL` is empty and `new` takes only the HTTP client. The model's constructor takes the base address and password, as the call in crates/server/src/main.rs:36 passes them.
- The HTTP transport, JSON encoding of the password body and decoding of the session answer are not modelled. Their outcomes are the `Upstream` inputs.
- How the DNS server treats an existing identical host record is upstream behaviour and is not modelled.
