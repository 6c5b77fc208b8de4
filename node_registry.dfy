/**
 * The server's node registry: a map from node key to node record, changed by
 * the register, address-update and heartbeat handlers.
 *
 * Time is one natural-number clock in nanoseconds; `now` is the instant at
 * which a handler runs. Registration inserts or replaces a whole record; an
 * address update and a heartbeat change only a record that already exists.
 */
module NodeRegistry {
  import opened Common

  /** What the server remembers about one node. */
  datatype AgentState = AgentState(
    hostname: string,
    agentVersion: string,
    ipv4: Option<string>,
    registeredAt: nat,
    lastSeen: nat)

  /** Body of a registration request. */
  datatype RegisterPayload = RegisterPayload(hostname: string, agentVersion: string, ipv4: Option<string>)

  /** Body of an address-update request; `event` is "add" or "del". */
  datatype IpUpdatePayload = IpUpdatePayload(hostname: string, ipv4: Option<string>, event: string)

  /** The record a registration creates. */
  function NewRecord(p: RegisterPayload, now: nat): (r: AgentState)
    ensures r.hostname == p.hostname && r.agentVersion == p.agentVersion && r.ipv4 == p.ipv4
    ensures r.registeredAt == now && r.lastSeen == now
  {
    AgentState(p.hostname, p.agentVersion, p.ipv4, now, now)
  }

  /** The registry after registering `key`: the key maps to a fresh record, replacing any earlier one. */
  function Registered<K>(agents: map<K, AgentState>, key: K, p: RegisterPayload, now: nat): (m: map<K, AgentState>)
    ensures key in m && m[key] == NewRecord(p, now)
    ensures m.Keys == agents.Keys + {key}
    ensures forall k :: k in agents && k != key ==> m[k] == agents[k]
    ensures |m| == if key in agents then |agents| else |agents| + 1
  {
    agents[key := NewRecord(p, now)]
  }

  /** The registry after an address update: only an existing record changes. */
  function IpUpdated<K>(agents: map<K, AgentState>, key: K, p: IpUpdatePayload, now: nat): (m: map<K, AgentState>)
    ensures m.Keys == agents.Keys && |m| == |agents|
    ensures forall k :: k in agents && k != key ==> m[k] == agents[k]
    ensures key !in agents ==> m == agents
    ensures key in agents ==>
              m[key].ipv4 == p.ipv4 && m[key].lastSeen == now &&
              m[key].hostname == agents[key].hostname &&
              m[key].agentVersion == agents[key].agentVersion &&
              m[key].registeredAt == agents[key].registeredAt
  {
    if key in agents then agents[key := agents[key].(ipv4 := p.ipv4, lastSeen := now)] else agents
  }

  /** The registry after a heartbeat: only an existing record's last contact changes. */
  function Touched<K>(agents: map<K, AgentState>, key: K, now: nat): (m: map<K, AgentState>)
    ensures m.Keys == agents.Keys && |m| == |agents|
    ensures forall k :: k in agents && k != key ==> m[k] == agents[k]
    ensures key !in agents ==> m == agents
    ensures key in agents ==> m[key] == agents[key].(lastSeen := now)
  {
    if key in agents then agents[key := agents[key].(lastSeen := now)] else agents
  }

  /** The registry as the server holds it; concurrent access is not modelled. */
  class Registry<K(==)> {
    var agents: map<K, AgentState>

    constructor ()
      ensures agents == map[]
    {
      agents := map[];
    }

    /** POST /register: insert or replace the record for `key`. */
    method Register(key: K, p: RegisterPayload, now: nat)
      modifies this
      ensures agents == Registered(old(agents), key, p, now)
    {
      agents := agents[key := NewRecord(p, now)];
    }

    /**
     * POST /update: refresh the address and last contact of a known node.
     * `known` is false when the node is unknown, which is only logged.
     */
    method UpdateIp(key: K, p: IpUpdatePayload, now: nat) returns (known: bool)
      modifies this
      ensures known == (key in old(agents))
      ensures agents == IpUpdated(old(agents), key, p, now)
    {
      known := key in agents;
      if known {
        var agent := agents[key];
        agent := agent.(lastSeen := now);
        agent := agent.(ipv4 := p.ipv4);
        agents := agents[key := agent];
      }
    }

    /**
     * POST /heartbeat: refresh the last contact of a known node.
     * `known` is false when the node is unknown, which is only logged.
     */
    method Heartbeat(key: K, now: nat) returns (known: bool)
      modifies this
      ensures known == (key in old(agents))
      ensures agents == Touched(old(agents), key, now)
    {
      known := key in agents;
      if known {
        agents := agents[key := agents[key].(lastSeen := now)];
      }
    }
  }

  // ---------------------------------------------------------------------
  // Properties of the registry operations.

  /** The update's event name plays no part: "add" and "del" change the registry identically. */
  lemma EventIgnored<K>(agents: map<K, AgentState>, key: K, p1: IpUpdatePayload, p2: IpUpdatePayload, now: nat)
    requires p1.ipv4 == p2.ipv4
    ensures IpUpdated(agents, key, p1, now) == IpUpdated(agents, key, p2, now)
  {
  }

  /** Two heartbeats at the same instant have the effect of one. */
  lemma HeartbeatIdempotent<K>(agents: map<K, AgentState>, key: K, now: nat)
    ensures Touched(Touched(agents, key, now), key, now) == Touched(agents, key, now)
  {
  }

  /** Registration followed by an address update of the same node, at a later or equal instant. */
  lemma RegisterThenUpdate<K>(agents: map<K, AgentState>, key: K, p: RegisterPayload, t1: nat,
                              u: IpUpdatePayload, t2: nat)
    requires t1 <= t2
    ensures var m := IpUpdated(Registered(agents, key, p, t1), key, u, t2);
            key in m && m[key].ipv4 == u.ipv4 && m[key].lastSeen >= m[key].registeredAt &&
            m[key].hostname == p.hostname && m[key].agentVersion == p.agentVersion
  {
  }

  /** Every record was registered no later than its last contact, and neither is in the future. */
  ghost predicate TimesConsistent<K>(agents: map<K, AgentState>, now: nat) {
    forall k :: k in agents ==> agents[k].registeredAt <= agents[k].lastSeen <= now
  }

  /** For each known node, the later registry has seen it no earlier. */
  ghost predicate NoLaterThan<K>(before: map<K, AgentState>, after: map<K, AgentState>) {
    forall k :: k in before ==> k in after && before[k].lastSeen <= after[k].lastSeen
  }

  /** Registration keeps the time invariant and never moves a last contact back, when time does not go back. */
  lemma RegisterKeepsTime<K>(agents: map<K, AgentState>, key: K, p: RegisterPayload, before: nat, now: nat)
    requires TimesConsistent(agents, before) && before <= now
    ensures TimesConsistent(Registered(agents, key, p, now), now)
    ensures NoLaterThan(agents, Registered(agents, key, p, now))
  {
    var m := Registered(agents, key, p, now);
    forall k | k in agents ensures k in m && agents[k].lastSeen <= m[k].lastSeen {
      if k != key { assert m[k] == agents[k]; }
    }
  }

  /** An address update keeps the time invariant and never moves a last contact back, when time does not go back. */
  lemma UpdateKeepsTime<K>(agents: map<K, AgentState>, key: K, u: IpUpdatePayload, before: nat, now: nat)
    requires TimesConsistent(agents, before) && before <= now
    ensures TimesConsistent(IpUpdated(agents, key, u, now), now)
    ensures NoLaterThan(agents, IpUpdated(agents, key, u, now))
  {
    var m := IpUpdated(agents, key, u, now);
    forall k | k in agents ensures k in m && agents[k].lastSeen <= m[k].lastSeen {
      if k != key { assert m[k] == agents[k]; }
    }
  }

  /** A heartbeat keeps the time invariant and never moves a last contact back, when time does not go back. */
  lemma HeartbeatKeepsTime<K>(agents: map<K, AgentState>, key: K, before: nat, now: nat)
    requires TimesConsistent(agents, before) && before <= now
    ensures TimesConsistent(Touched(agents, key, now), now)
    ensures NoLaterThan(agents, Touched(agents, key, now))
  {
    var m := Touched(agents, key, now);
    forall k | k in agents ensures k in m && agents[k].lastSeen <= m[k].lastSeen {
      if k != key { assert m[k] == agents[k]; }
    }
  }
}
