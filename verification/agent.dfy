/** AIAgent: a pair of networks with an id and the tournament counters. */
module Agents {
  import opened Network

  /** The agent's `HiveAI` is represented by its two networks, which is all the trainers read
      from it or write into it. */
  datatype Agent = Agent(policy: Net, value: Net, id: int, fitness: real, wins: nat, losses: nat, draws: nat)

  predicate Shaped(a: Agent) {
    Network.Shaped(a.policy) && Network.Shaped(a.value)
  }

  /** No game has been scored yet. */
  predicate Unscored(a: Agent) {
    a.fitness == 0.0 && a.wins == 0 && a.losses == 0 && a.draws == 0
  }

  /** The same networks and id, whatever the counters. */
  predicate SameGenome(a: Agent, b: Agent) {
    a.policy == b.policy && a.value == b.value && a.id == b.id
  }

  /** The constructor: the counters start at zero. */
  function NewAgent(policy: Net, value: Net, id: int): (a: Agent)
    ensures Unscored(a)
    ensures a.policy == policy && a.value == value && a.id == id
  {
    Agent(policy, value, id, 0.0, 0, 0, 0)
  }

  /** `clone`: copies of both networks under the same id, with fresh counters. */
  function Clone(a: Agent): (c: Agent)
    ensures SameGenome(c, a) && Unscored(c)
    ensures Shaped(a) ==> Shaped(c)
  {
    NewAgent(Network.Clone(a.policy), Network.Clone(a.value), a.id)
  }

  /** A clone depends only on what it copies: two agents that differ only in their counters
      have equal clones, and cloning a clone changes nothing. */
  lemma CloneForgetsScore(a: Agent, b: Agent)
    requires SameGenome(a, b)
    ensures Clone(a) == Clone(b)
    ensures Clone(Clone(a)) == Clone(a)
  {
  }

  /** The draws one `mutate` consumes, a uniform and a Gaussian stream per network. */
  datatype MutationDraws = MutationDraws(policyUniform: Pos -> real, policyGauss: Pos -> real,
                                         valueUniform: Pos -> real, valueGauss: Pos -> real)

  /** `mutate`: both networks with the same rate and strength; id and counters are kept. */
  function Mutate(a: Agent, rate: real, strength: real, d: MutationDraws): (m: Agent)
    requires Shaped(a)
    ensures Shaped(m)
    ensures m.id == a.id && m.fitness == a.fitness
    ensures m.wins == a.wins && m.losses == a.losses && m.draws == a.draws
    ensures m.policy == Network.Mutate(a.policy, rate, strength, d.policyUniform, d.policyGauss)
    ensures m.value == Network.Mutate(a.value, rate, strength, d.valueUniform, d.valueGauss)
  {
    a.(policy := Network.Mutate(a.policy, rate, strength, d.policyUniform, d.policyGauss),
       value := Network.Mutate(a.value, rate, strength, d.valueUniform, d.valueGauss))
  }

  /** A mutation of strength 0 leaves the agent as it is, whatever the draws. */
  lemma MutateStrengthZero(a: Agent, rate: real, d: MutationDraws)
    requires Shaped(a)
    ensures Mutate(a, rate, 0.0, d) == a
  {
    Network.MutateStrengthZero(a.policy, rate, d.policyUniform, d.policyGauss);
    Network.MutateStrengthZero(a.value, rate, d.valueUniform, d.valueGauss);
  }
}
