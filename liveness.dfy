/**
 * Read-only views of the node registry: the agent list and the counts served
 * over HTTP, and one tick of the background staleness sweep.
 *
 * Online-ness is derived, never stored: a node is online while fewer than
 * 120 whole seconds have passed since its last contact. The sweep flags a
 * node once more than 300 seconds (at full clock precision) have passed.
 */
module Liveness {
  import opened Common
  import opened NodeRegistry

  /** Clock ticks per second: the clock counts nanoseconds. */
  const NanosPerSec: nat := 1_000_000_000

  /** Whole seconds below which a node is online. */
  const OnlineSecs: nat := 120

  /** Seconds a node must exceed to be flagged by the sweep. */
  const StaleSecs: nat := 300

  /** Time since the last contact; a last contact in the future counts as no time at all. */
  function Elapsed(lastSeen: nat, now: nat): (d: nat)
    ensures lastSeen <= now ==> lastSeen + d == now
    ensures now < lastSeen ==> d == 0
  {
    if lastSeen <= now then now - lastSeen else 0
  }

  /** Elapsed time truncated to whole seconds. */
  function ElapsedSecs(lastSeen: nat, now: nat): (s: nat)
    ensures s * NanosPerSec <= Elapsed(lastSeen, now) < (s + 1) * NanosPerSec
  {
    Elapsed(lastSeen, now) / NanosPerSec
  }

  predicate IsOnline(record: AgentState, now: nat) {
    ElapsedSecs(record.lastSeen, now) < OnlineSecs
  }

  /** One entry of the agent list. */
  datatype AgentSummary<K> = AgentSummary(
    nodeId: K,
    hostname: string,
    agentVersion: string,
    ipv4: Option<string>,
    online: bool,
    registeredAt: nat,
    lastSeenSec: nat)

  function Summarize<K>(key: K, record: AgentState, now: nat): AgentSummary<K> {
    var secs := ElapsedSecs(record.lastSeen, now);
    AgentSummary(key, record.hostname, record.agentVersion, record.ipv4, secs < OnlineSecs, record.registeredAt, secs)
  }

  /** The summaries of the records whose keys are in `keys`. */
  function SummariesOf<K(!new)>(agents: map<K, AgentState>, keys: set<K>, now: nat): set<AgentSummary<K>>
    requires keys <= agents.Keys
  {
    set k | k in keys :: Summarize(k, agents[k], now)
  }

  /**
   * GET /agents: one summary per record, keyed by its node id, with the
   * derived online flag and whole seconds since last contact. The order of
   * the list is the map's iteration order and is not modelled.
   */
  function ListAgents<K(!new)>(agents: map<K, AgentState>, now: nat): (r: set<AgentSummary<K>>)
    ensures |r| == |agents|
    ensures forall s :: s in r <==> s.nodeId in agents && s == Summarize(s.nodeId, agents[s.nodeId], now)
    ensures forall s :: s in r ==>
              var record := agents[s.nodeId];
              s.hostname == record.hostname && s.agentVersion == record.agentVersion &&
              s.ipv4 == record.ipv4 && s.registeredAt == record.registeredAt &&
              s.lastSeenSec * NanosPerSec <= Elapsed(record.lastSeen, now) < (s.lastSeenSec + 1) * NanosPerSec &&
              (s.online <==> s.lastSeenSec < OnlineSecs)
  {
    SummaryCount(agents, agents.Keys, now);
    SummariesOf(agents, agents.Keys, now)
  }

  /** Distinct keys give distinct summaries, so there are as many summaries as keys. */
  lemma {:induction false} SummaryCount<K(!new)>(agents: map<K, AgentState>, keys: set<K>, now: nat)
    requires keys <= agents.Keys
    ensures |SummariesOf(agents, keys, now)| == |keys|
    decreases |keys|
  {
    if keys != {} {
      var k :| k in keys;
      var rest := keys - {k};
      SummaryCount(agents, rest, now);
      assert SummariesOf(agents, keys, now) == SummariesOf(agents, rest, now) + {Summarize(k, agents[k], now)};
      assert Summarize(k, agents[k], now) !in SummariesOf(agents, rest, now);
    }
  }

  /** The keys of the records that are online at `now`. */
  function OnlineKeys<K(!new)>(agents: map<K, AgentState>, now: nat): (keys: set<K>)
    ensures keys <= agents.Keys
    ensures forall k :: k in keys <==> k in agents && IsOnline(agents[k], now)
  {
    set k | k in agents && IsOnline(agents[k], now)
  }

  /** The counts served by GET /stats. */
  datatype AgentStats = AgentStats(total: nat, online: nat, offline: nat)

  /**
   * GET /stats: the number of records, how many are online under the same
   * rule the list uses, and the rest. The subtraction cannot underflow.
   */
  function Stats<K(!new)>(agents: map<K, AgentState>, now: nat): (r: AgentStats)
    ensures r.total == |agents|
    ensures r.online == |set s | s in ListAgents(agents, now) && s.online|
    ensures r.online <= r.total && r.online + r.offline == r.total
  {
    var total := |agents|;
    var online := |OnlineKeys(agents, now)|;
    OnlineSummaries(agents, now);
    SubsetCard(OnlineKeys(agents, now), agents.Keys);
    AgentStats(total, online, total - online)
  }

  /** The online summaries are exactly the summaries of the online keys. */
  lemma OnlineSummaries<K(!new)>(agents: map<K, AgentState>, now: nat)
    ensures (set s | s in ListAgents(agents, now) && s.online) == SummariesOf(agents, OnlineKeys(agents, now), now)
    ensures |set s | s in ListAgents(agents, now) && s.online| == |OnlineKeys(agents, now)|
  {
    SummaryCount(agents, OnlineKeys(agents, now), now);
  }

  /** A subset is no larger than its superset. */
  lemma {:induction false} SubsetCard<K>(a: set<K>, b: set<K>)
    requires a <= b
    ensures |a| <= |b|
    decreases |b|
  {
    if a != {} {
      var x :| x in a;
      SubsetCard(a - {x}, b - {x});
    }
  }

  /** One tick of the background sweep: the keys it warns about. Nothing is changed or removed. */
  function StaleNodes<K(!new)>(agents: map<K, AgentState>, now: nat): (stale: set<K>)
    ensures stale <= agents.Keys
    ensures forall k :: k in stale <==> k in agents && Elapsed(agents[k].lastSeen, now) > StaleSecs * NanosPerSec
  {
    set k | k in agents && Elapsed(agents[k].lastSeen, now) > StaleSecs * NanosPerSec
  }

  // ---------------------------------------------------------------------
  // Boundary cases and the relation between the views.

  /** Every node the sweep flags is listed as offline. */
  lemma StaleNodesAreOffline<K(!new)>(agents: map<K, AgentState>, now: nat)
    ensures forall k :: k in StaleNodes(agents, now) ==>
              Summarize(k, agents[k], now) in ListAgents(agents, now) && !Summarize(k, agents[k], now).online
  {
    forall k | k in StaleNodes(agents, now)
      ensures !Summarize(k, agents[k], now).online
    {
      var secs := ElapsedSecs(agents[k].lastSeen, now);
      assert secs >= StaleSecs;
    }
  }

  /** A node is online just before 120 seconds and offline from exactly 120 seconds on. */
  lemma OnlineBoundary(record: AgentState, now: nat)
    requires record.lastSeen <= now
    ensures IsOnline(record, now) <==> now - record.lastSeen < OnlineSecs * NanosPerSec
  {
  }

  /** Exactly 300 seconds is not flagged; 300 seconds and one tick is, though it still reads as 300 whole seconds. */
  lemma StaleBoundary(record: AgentState)
    ensures var agents := map[0 := record];
            StaleNodes(agents, record.lastSeen + StaleSecs * NanosPerSec) == {} &&
            StaleNodes(agents, record.lastSeen + StaleSecs * NanosPerSec + 1) == {0} &&
            ElapsedSecs(record.lastSeen, record.lastSeen + StaleSecs * NanosPerSec + 1) == StaleSecs
  {
  }
}
