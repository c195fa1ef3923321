/** The agent provider's state: the set of registered agent ids and the map
    from id to live agent connection, with the three updaters the provider
    hands out and the lookup `useAgentById` performs. Each updater returns
    the previous object itself when it has nothing to do, so that React skips
    the re-render; the model keeps that distinction as `Unchanged`. */
module AgentRegistry {
  import opened Optional

  /** A live agent connection; only its identity matters here. */
  datatype AgentInstance = AgentInstance(handle: nat)

  /** The result of a state updater: the previous object itself, or a new one. */
  datatype Update<T> = Unchanged | Replaced(next: T)

  function Apply<T>(prev: T, u: Update<T>): T {
    if u.Unchanged? then prev else u.next
  }

  /** Add `id` to the registered ids. */
  function Register(prev: set<string>, id: string): (u: Update<set<string>>)
    ensures u.Unchanged? <==> id in prev
    ensures Apply(prev, u) == prev + {id}
  {
    if id in prev then Unchanged else Replaced(prev + {id})
  }

  /** Remove `id` from the registered ids. */
  function UnregisterId(prev: set<string>, id: string): (u: Update<set<string>>)
    ensures u.Unchanged? <==> id !in prev
    ensures Apply(prev, u) == prev - {id}
  {
    if id !in prev then Unchanged else Replaced(prev - {id})
  }

  /** Remove `id`'s connection from the agents map. */
  function UnregisterAgent(prev: map<string, AgentInstance>, id: string): (u: Update<map<string, AgentInstance>>)
    ensures u.Unchanged? <==> id !in prev
    ensures Apply(prev, u) == prev - {id}
  {
    if id !in prev then Unchanged else Replaced(prev - {id})
  }

  /** Record `agent` as `id`'s connection. */
  function SetAgent(prev: map<string, AgentInstance>, id: string, agent: AgentInstance): (u: Update<map<string, AgentInstance>>)
    ensures u.Unchanged? <==> id in prev && prev[id] == agent
    ensures Apply(prev, u) == prev[id := agent]
  {
    if id in prev && prev[id] == agent then Unchanged else Replaced(prev[id := agent])
  }

  /** The provider's two pieces of state. */
  datatype Registry = Registry(registeredIds: set<string>, agents: map<string, AgentInstance>)

  const Empty := Registry({}, map[])

  /** `register(id)`: only the registered ids change. */
  function RegisterIn(r: Registry, id: string): (r': Registry)
    ensures id in r'.registeredIds
    ensures forall x :: x != id ==> (x in r'.registeredIds <==> x in r.registeredIds)
    ensures r'.agents == r.agents
  {
    r.(registeredIds := Apply(r.registeredIds, Register(r.registeredIds, id)))
  }

  /** `unregister(id)`: both updaters run, the id and its connection go. */
  function UnregisterIn(r: Registry, id: string): (r': Registry)
    ensures id !in r'.registeredIds && id !in r'.agents
    ensures forall x :: x != id ==> (x in r'.registeredIds <==> x in r.registeredIds)
    ensures forall x :: x != id && x in r.agents ==> x in r'.agents && r'.agents[x] == r.agents[x]
    ensures forall x :: x in r'.agents ==> x in r.agents
  {
    Registry(Apply(r.registeredIds, UnregisterId(r.registeredIds, id)),
             Apply(r.agents, UnregisterAgent(r.agents, id)))
  }

  /** `setAgent(id, agent)`: only the agents map changes. */
  function SetAgentIn(r: Registry, id: string, agent: AgentInstance): (r': Registry)
    ensures id in r'.agents && r'.agents[id] == agent
    ensures forall x :: x != id ==> (x in r'.agents <==> x in r.agents)
    ensures forall x :: x != id && x in r.agents ==> r'.agents[x] == r.agents[x]
    ensures r'.registeredIds == r.registeredIds
  {
    r.(agents := Apply(r.agents, SetAgent(r.agents, id, agent)))
  }

  /** Registering twice is registering once, and the second call is a no-op. */
  lemma RegisterIdempotent(r: Registry, id: string)
    ensures Register(RegisterIn(r, id).registeredIds, id).Unchanged?
    ensures RegisterIn(RegisterIn(r, id), id) == RegisterIn(r, id)
  {
  }

  /** Unregistering twice is unregistering once, and both updaters of the
      second call are no-ops. */
  lemma UnregisterIdempotent(r: Registry, id: string)
    ensures UnregisterId(UnregisterIn(r, id).registeredIds, id).Unchanged?
    ensures UnregisterAgent(UnregisterIn(r, id).agents, id).Unchanged?
    ensures UnregisterIn(UnregisterIn(r, id), id) == UnregisterIn(r, id)
  {
  }

  /** Setting the same connection twice: the second call is a no-op. */
  lemma SetAgentIdempotent(r: Registry, id: string, agent: AgentInstance)
    ensures SetAgent(SetAgentIn(r, id, agent).agents, id, agent).Unchanged?
  {
  }

  /** Whatever happened in between, registering and then unregistering an id
      leaves it neither registered nor connected, and any other id's state
      is as the connection updates left it. */
  lemma RegisterThenUnregister(r: Registry, id: string, other: string, agent: AgentInstance)
    requires other != id
    ensures var r' := UnregisterIn(SetAgentIn(RegisterIn(r, id), id, agent), id);
      && id !in r'.registeredIds && id !in r'.agents
      && (other in r'.registeredIds <==> other in r.registeredIds)
      && (other in r'.agents <==> other in r.agents)
      && (other in r.agents ==> r'.agents[other] == r.agents[other])
  {
  }

  /** The value `useAgentById(id)` returns. */
  datatype AgentLookup = AgentLookup(agent: Option<AgentInstance>, isLoading: bool)

  /** The connection for `id`, and whether it is still loading. */
  function AgentById(agents: map<string, AgentInstance>, id: string): (l: AgentLookup)
    ensures l.isLoading <==> id !in agents
    ensures l.agent.Some? <==> id in agents
    ensures l.agent.Some? ==> l.agent.value == agents[id]
  {
    var agent := if id in agents then Some(agents[id]) else None;
    AgentLookup(agent, agent.None?)
  }

  /** A connection recorded by `setAgent` ends the loading state, and
      unregistering brings it back. */
  lemma LoadingFollowsConnection(r: Registry, id: string, agent: AgentInstance)
    ensures !AgentById(SetAgentIn(r, id, agent).agents, id).isLoading
    ensures AgentById(SetAgentIn(r, id, agent).agents, id).agent == Some(agent)
    ensures AgentById(UnregisterIn(r, id).agents, id).isLoading
  {
  }

  const OutsideProviderMessage := "useAgentById must be used within AgentProvider"

  /** `useAgentById` outside an `AgentProvider` throws; inside it looks the id up. */
  function UseAgentById(context: Option<Registry>, id: string): (r: Result<AgentLookup, string>)
    ensures context.None? <==> r.Failure?
    ensures r.Failure? ==> r.error == OutsideProviderMessage
    ensures r.Success? ==> (r.value.isLoading <==> id !in context.value.agents)
  {
    if context.None? then Failure(OutsideProviderMessage)
    else Success(AgentById(context.value.agents, id))
  }
}
