/** The inputs `GlobalStats::apply` drives: the simulation record (read only)
    and the registered analysis units, whose calls are recorded as a trace. */
module Analysis {

  /** One agent's recorded data; its contents are opaque to the aggregator. */
  datatype AgentRecord = AgentRecord(id: string)

  /** The agents of one type, in the record's iteration order. */
  datatype AgentGroup = AgentGroup(agentType: string, agents: seq<AgentRecord>)

  /** The simulation record: its length in steps, its output resolution and
      its agents grouped by type, groups in the record's iteration order. */
  datatype SimRecord = SimRecord(numSteps: nat, finalResolution: nat, types: seq<AgentGroup>)

  /** An analysis unit as the aggregator sees it: `getName()` and `writeResults()`. */
  datatype AnalysisUnit = AnalysisUnit(name: string, writeResults: bool)

  /** A call the aggregator makes on the unit at position `unit` of its list. */
  datatype Event =
    | SetNumTimeSteps(unit: nat, n: nat)
    | PreProcess(unit: nat)
    | ComputeAgent(unit: nat, agent: AgentRecord)
    | PostProcess(unit: nat)

  /** The record's type names are keys of a map, so they are distinct. */
  predicate DistinctTypes(groups: seq<AgentGroup>)
  {
    forall i, j :: 0 <= i < j < |groups| ==> groups[i].agentType != groups[j].agentType
  }

  /** Size of every unit's result buffer: `1 + numSteps / finalResolution`. */
  function Buckets(rec: SimRecord): (n: nat)
    requires rec.finalResolution > 0
    ensures n >= 1
  {
    1 + rec.numSteps / rec.finalResolution
  }

  /** The buckets cover the run: the last one starts at or before step N and
      one more would start after it. */
  lemma BucketsCover(rec: SimRecord)
    requires rec.finalResolution > 0
    ensures (Buckets(rec) - 1) * rec.finalResolution <= rec.numSteps < Buckets(rec) * rec.finalResolution
  {
    var q := rec.numSteps / rec.finalResolution;
    assert q * rec.finalResolution <= rec.numSteps;
    assert rec.numSteps < (q + 1) * rec.finalResolution;
  }

  /** All agents of all the groups, group after group. */
  function AllAgents(groups: seq<AgentGroup>): seq<AgentRecord>
  {
    if |groups| == 0 then [] else AllAgents(groups[..|groups| - 1]) + groups[|groups| - 1].agents
  }

  /** The agents of the named type (from the first group of that type). */
  function AgentsOf(groups: seq<AgentGroup>, agentType: string): seq<AgentRecord>
  {
    if |groups| == 0 then []
    else if groups[0].agentType == agentType then groups[0].agents
    else AgentsOf(groups[1..], agentType)
  }

  /** The agents a unit is computed over: every agent for the filter "all",
      otherwise the agents of the named type. */
  function SelectAgents(rec: SimRecord, filter: string): seq<AgentRecord>
  {
    if filter == "all" then AllAgents(rec.types) else AgentsOf(rec.types, filter)
  }

  /** Filter "all": an agent is visited exactly when some type holds it. */
  lemma {:induction false} AllAgentsMembers(groups: seq<AgentGroup>, a: AgentRecord)
    ensures a in AllAgents(groups) <==> exists g :: 0 <= g < |groups| && a in groups[g].agents
  {
    if |groups| > 0 {
      var pre := groups[..|groups| - 1];
      AllAgentsMembers(pre, a);
      assert forall g :: 0 <= g < |pre| ==> pre[g] == groups[g];
    }
  }

  /** A named filter visits exactly the agents of the type of that name. */
  lemma {:induction false} AgentsOfNamed(groups: seq<AgentGroup>, agentType: string, g: nat)
    requires g < |groups| && groups[g].agentType == agentType
    requires DistinctTypes(groups)
    ensures AgentsOf(groups, agentType) == groups[g].agents
  {
    if g > 0 {
      assert groups[0].agentType != agentType;
      AgentsOfNamed(groups[1..], agentType, g - 1);
    }
  }

  /** A named filter that no type carries visits no agent. */
  lemma {:induction false} AgentsOfAbsent(groups: seq<AgentGroup>, agentType: string)
    requires forall i :: 0 <= i < |groups| ==> groups[i].agentType != agentType
    ensures AgentsOf(groups, agentType) == []
  {
    if |groups| > 0 {
      assert groups[0].agentType != agentType;
      AgentsOfAbsent(groups[1..], agentType);
    }
  }

  function Computes(u: nat, agents: seq<AgentRecord>): seq<Event>
  {
    seq(|agents|, j requires 0 <= j < |agents| => ComputeAgent(u, agents[j]))
  }

  /** Feeding one more agent adds one call at the end. */
  lemma ComputesSnoc(u: nat, agents: seq<AgentRecord>, a: AgentRecord)
    ensures Computes(u, agents + [a]) == Computes(u, agents) + [ComputeAgent(u, a)]
  {
  }

  /** The calls one unit receives during `apply`. */
  function UnitPass(u: nat, n: nat, agents: seq<AgentRecord>): seq<Event>
  {
    [SetNumTimeSteps(u, n), PreProcess(u)] + Computes(u, agents) + [PostProcess(u)]
  }

  /** The calls the first `count` units receive, unit after unit. */
  function Passes(count: nat, n: nat, agents: seq<AgentRecord>): seq<Event>
  {
    if count == 0 then [] else Passes(count - 1, n, agents) + UnitPass(count - 1, n, agents)
  }

  /** Position by position, the trace is one full pass per unit in list order:
      unit u's calls are SetNumTimeSteps(n), PreProcess, one ComputeAgent per
      selected agent in order, then PostProcess, at offsets u*L .. u*L+L-1. */
  lemma {:induction false} PassesAt(count: nat, n: nat, agents: seq<AgentRecord>, u: nat, j: nat)
    requires u < count && j < |agents| + 3
    ensures |Passes(count, n, agents)| == count * (|agents| + 3)
    ensures u * (|agents| + 3) + j < count * (|agents| + 3)
    ensures Passes(count, n, agents)[u * (|agents| + 3) + j] ==
              if j == 0 then SetNumTimeSteps(u, n)
              else if j == 1 then PreProcess(u)
              else if j < |agents| + 2 then ComputeAgent(u, agents[j - 2])
              else PostProcess(u)
  {
    var L := |agents| + 3;
    PassesLength(count, n, agents);
    var pass := UnitPass(u, n, agents);
    assert |pass| == L;
    if u < count - 1 {
      PassesAt(count - 1, n, agents, u, j);
      assert count * L == (count - 1) * L + L;
    } else {
      PassesLength(count - 1, n, agents);
      assert u * L == (count - 1) * L;
      assert Passes(count, n, agents)[u * L + j] == pass[j];
    }
  }

  lemma {:induction false} PassesLength(count: nat, n: nat, agents: seq<AgentRecord>)
    ensures |Passes(count, n, agents)| == count * (|agents| + 3)
  {
    if count > 0 {
      PassesLength(count - 1, n, agents);
      assert count * (|agents| + 3) == (count - 1) * (|agents| + 3) + (|agents| + 3);
    }
  }

  /** No unit receives a call before every call of the units before it:
      along the trace the unit positions never decrease, and all are below
      `count`. */
  lemma {:induction false} PassesOrdered(count: nat, n: nat, agents: seq<AgentRecord>)
    ensures forall i :: 0 <= i < |Passes(count, n, agents)| ==> Passes(count, n, agents)[i].unit < count
    ensures forall i, j :: 0 <= i < j < |Passes(count, n, agents)| ==>
              Passes(count, n, agents)[i].unit <= Passes(count, n, agents)[j].unit
  {
    if count > 0 {
      PassesOrdered(count - 1, n, agents);
      var pre := Passes(count - 1, n, agents);
      var pass := UnitPass(count - 1, n, agents);
      assert forall i :: 0 <= i < |pass| ==> pass[i].unit == count - 1;
      assert Passes(count, n, agents) == pre + pass;
    }
  }
}
