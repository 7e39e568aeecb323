/**
 * The boolean action encoding shared by the two reinforcement-learning
 * converters: `system_to_agent_action` turns a decision into a one-element
 * `int32` array, `agent_to_system_action` reads it back with
 * `(actions.flatten() == 1).item()`, which raises `ValueError` unless the
 * array has exactly one element.  Arrays are their flattened contents.
 */
module AgentActions {
  import opened Prelude

  /** `np.ones(1, dtype='int32') if decision else np.zeros(1, dtype='int32')`. */
  function Encode(decision: bool): (r: seq<int>)
    ensures |r| == 1 && (r[0] == 1 <==> decision) && (r[0] == 0 <==> !decision)
  {
    if decision then [1] else [0]
  }

  /** `(actions.flatten() == 1).item()`. */
  function Decode(actions: seq<int>): (r: Result<bool>)
    ensures r.Err? <==> |actions| != 1
    ensures r.Err? ==> r.error == ValueError
    ensures r.Ok? ==> (r.value <==> actions[0] == 1)
  {
    if |actions| == 1 then Ok(actions[0] == 1) else Err(ValueError)
  }

  /** Round trip: decoding an encoded decision gives it back. */
  lemma DecodeEncode(decision: bool)
    ensures Decode(Encode(decision)) == Ok(decision)
  {
  }

  /** Round trip the other way, on the two arrays `Encode` produces. */
  lemma EncodeDecode(actions: seq<int>)
    requires actions == [0] || actions == [1]
    ensures Decode(actions).Ok? && Encode(Decode(actions).value) == actions
  {
  }
}

/**
 * `rlcache/strategies/eviction_strategies/rl_eviction_state_converter.py`:
 * the reward of an eviction decision once the key's fate is observed, and the
 * label its performance log line carries (the log itself is left out).
 */
module EvictionConverter {
  import opened Prelude
  import opened Observation
  import AgentActions

  datatype Label = TrueEvict | TrueMiss | MissEvict | FalseEvict

  /** A reward and the label its log line carries, if any. */
  datatype Reward = Reward(value: int, logged: Option<Label>)

  /** The fields of `EvictionAgentIncompleteExperienceEntry` the reward reads. */
  datatype Experience = Experience(agentAction: seq<int>, hitCount: int, startingHitCount: int)

  /** `system_to_agent_reward(stored_experience, observation_type)`. */
  function SystemToAgentReward(e: Experience, kind: ObservationType): (r: Result<Reward>)
    ensures AgentActions.Decode(e.agentAction).Err? ==> r == Err(ValueError)
    ensures r.Ok? ==> AgentActions.Decode(e.agentAction).Ok?
  {
    match AgentActions.Decode(e.agentAction)
    case Err(err) => Err(err)
    case Ok(shouldEvict) =>
      if kind == Expiration then
        if shouldEvict then Ok(Reward(1, Some(TrueEvict)))
        else
          var gain := e.hitCount - e.startingHitCount;
          Ok(Reward(gain, Some(if gain > 0 then TrueMiss else MissEvict)))
      else if kind == Invalidate then
        if shouldEvict then Ok(Reward(1, Some(TrueEvict))) else Ok(Reward(-1, Some(MissEvict)))
      else if kind == Miss then
        if shouldEvict then Ok(Reward(-1, Some(FalseEvict))) else Err(AssertionError)
      else Ok(Reward(1, None))
  }

  /** An expiry after an eviction decision earns 1, labelled a true eviction. */
  lemma ExpiredAfterEvict(e: Experience)
    requires e.agentAction == AgentActions.Encode(true)
    ensures SystemToAgentReward(e, Expiration) == Ok(Reward(1, Some(TrueEvict)))
  {
  }

  /** An expiry of a kept key earns the hits gained since the decision; positive gains are true misses. */
  lemma ExpiredAfterKeep(e: Experience)
    requires e.agentAction == AgentActions.Encode(false)
    ensures var gain := e.hitCount - e.startingHitCount;
            SystemToAgentReward(e, Expiration) == Ok(Reward(gain, Some(if gain > 0 then TrueMiss else MissEvict)))
  {
  }

  /** An invalidation earns 1 after an eviction and -1 after keeping the key. */
  lemma InvalidatedReward(e: Experience, shouldEvict: bool)
    requires e.agentAction == AgentActions.Encode(shouldEvict)
    ensures SystemToAgentReward(e, Invalidate) ==
            if shouldEvict then Ok(Reward(1, Some(TrueEvict))) else Ok(Reward(-1, Some(MissEvict)))
  {
  }

  /** A miss must follow an eviction decision, and is punished with -1; after keeping the key it is an assertion failure. */
  lemma MissReward(e: Experience, shouldEvict: bool)
    requires e.agentAction == AgentActions.Encode(shouldEvict)
    ensures SystemToAgentReward(e, Miss) ==
            if shouldEvict then Ok(Reward(-1, Some(FalseEvict))) else Err(AssertionError)
  {
  }

  /** Every other kind of observation earns 1, unlogged. */
  lemma OtherKindsReward(e: Experience, kind: ObservationType, shouldEvict: bool)
    requires e.agentAction == AgentActions.Encode(shouldEvict)
    requires kind in {Hit, EvictionPolicy, Write}
    ensures SystemToAgentReward(e, kind) == Ok(Reward(1, None))
  {
  }

  /** Rewards stay in `{-1, 1}` except for an expiry after keeping the key, which earns the hit gain. */
  lemma RewardRange(e: Experience, kind: ObservationType)
    requires SystemToAgentReward(e, kind).Ok?
    requires !(kind == Expiration && AgentActions.Decode(e.agentAction) == Ok(false))
    ensures SystemToAgentReward(e, kind).value.value in {-1, 1}
  {
  }
}

/**
 * `rlcache/strategies/caching_strategies/rl_caching_state_converter.py`: the
 * reward of an admission decision.  The state's `step_code` is an `int`
 * (`rlcache/strategies/caching_strategies/rl_caching_state.py`), and the code
 * compares it with members of the `ObservationType` enum, which an `int`
 * never equals: as written a decision not to cache always earns 1 and the
 * assertion cannot fail (`SystemToAgentRewardAsWritten`).  The intended
 * reading, `SystemToAgentReward`, compares with the members' values.
 */
module CachingConverter {
  import opened Prelude
  import opened Observation
  import AgentActions

  /** The fields of `CachingAgentIncompleteExperienceEntry` the reward reads. */
  datatype Experience = Experience(agentAction: seq<int>, hitCount: int, stepCode: int)

  /** `step_code == member` in Python: an `int` is never equal to a plain `Enum` member. */
  predicate IntEqualsMember(code: int, member: ObservationType)
  {
    false
  }

  /** `system_to_agent_reward(experience)` as written. */
  function SystemToAgentRewardAsWritten(e: Experience): (r: Result<int>)
    ensures AgentActions.Decode(e.agentAction).Err? ==> r == Err(ValueError)
  {
    match AgentActions.Decode(e.agentAction)
    case Err(err) => Err(err)
    case Ok(shouldCache) =>
      if shouldCache then Ok(e.hitCount)
      else if IntEqualsMember(e.stepCode, Hit) then Err(AssertionError)
      else if IntEqualsMember(e.stepCode, Miss) then Ok(-1)
      else Ok(1)
  }

  /** `system_to_agent_reward(experience)` with `step_code` read as an `ObservationType` value. */
  function SystemToAgentReward(e: Experience): (r: Result<int>)
    ensures AgentActions.Decode(e.agentAction).Err? ==> r == Err(ValueError)
  {
    match AgentActions.Decode(e.agentAction)
    case Err(err) => Err(err)
    case Ok(shouldCache) =>
      if shouldCache then Ok(e.hitCount)
      else if e.stepCode == Hit.Value() then Err(AssertionError)
      else if e.stepCode == Miss.Value() then Ok(-1)
      else Ok(1)
  }

  /** A decision to cache earns the hits the key received, in both readings. */
  lemma CachedEarnsHits(e: Experience)
    requires e.agentAction == AgentActions.Encode(true)
    ensures SystemToAgentReward(e) == Ok(e.hitCount)
    ensures SystemToAgentRewardAsWritten(e) == Ok(e.hitCount)
  {
  }

  /** As written, a decision not to cache earns 1 whatever the step code. */
  lemma AsWrittenNotCachedAlwaysOne(e: Experience)
    requires e.agentAction == AgentActions.Encode(false)
    ensures SystemToAgentRewardAsWritten(e) == Ok(1)
  {
  }

  /** As intended, not caching a key that then missed is punished, a hit is a contradiction, anything else earns 1. */
  lemma NotCachedReward(e: Experience)
    requires e.agentAction == AgentActions.Encode(false)
    ensures e.stepCode == Miss.Value() ==> SystemToAgentReward(e) == Ok(-1)
    ensures e.stepCode == Hit.Value() ==> SystemToAgentReward(e) == Err(AssertionError)
    ensures e.stepCode != Miss.Value() && e.stepCode != Hit.Value() ==> SystemToAgentReward(e) == Ok(1)
  {
  }

  /** The two readings part on a missed key that was not cached. */
  lemma ReadingsDifferOnMiss(hits: int)
    ensures var e := Experience(AgentActions.Encode(false), hits, Miss.Value());
            SystemToAgentRewardAsWritten(e) == Ok(1) && SystemToAgentReward(e) == Ok(-1)
  {
  }
}
