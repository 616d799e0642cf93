/**
  The progression engine: two append-only listener lists and a store.
  Each mutator rejects a non-positive amount before touching the store,
  fetches the record (the store's own object), captures its level, rewrites
  its experience and level in place, saves, and dispatches the rewards of
  the new level when the level changed.  Listener invocations are recorded
  in `calls` in the order they happen.
 */
module Engine {
  import opened Wrappers
  import opened Leveling
  import opened Repository
  import opened Progression

  /** An opaque handle on a registered callback. */
  type Listener = nat

  class ShoyoXp {
    const repository: FileRepository
    var rewardListeners: seq<Listener>
    var levelListeners: seq<Listener>
    var calls: seq<Call>

    ghost predicate Valid()
      reads this, repository
    {
      repository.Valid()
    }

    constructor (repository: FileRepository)
      ensures this.repository == repository
      ensures rewardListeners == [] && levelListeners == [] && calls == []
      ensures repository.Valid() ==> Valid()
    {
      this.repository := repository;
      rewardListeners := [];
      levelListeners := [];
      calls := [];
    }

    method AddRewardListener(listener: Listener)
      modifies this`rewardListeners
      ensures rewardListeners == old(rewardListeners) + [listener]
    {
      rewardListeners := rewardListeners + [listener];
    }

    method AddLevelListener(listener: Listener)
      modifies this`levelListeners
      ensures levelListeners == old(levelListeners) + [listener]
    {
      levelListeners := levelListeners + [listener];
    }

    /** Removes, through the store, every reward matching the guild, the level or the reward. */
    method RemoveRoleReward(guildId: string, level: int, reward: string)
      modifies repository`rewards
      ensures repository.rewards == KeptRewards(old(repository.rewards), guildId, level, reward)
      ensures reward !in repository.GetReward(guildId, level)
    {
      repository.RemoveReward(guildId, level, reward);
    }

    /** Registers, through the store, a reward at the end of the reward list. */
    method CreateRoleReward(guildId: string, level: int, reward: string)
      modifies repository`rewards
      ensures repository.rewards == old(repository.rewards) + [Reward(guildId, level, reward)]
      ensures repository.GetReward(guildId, level) == old(repository.GetReward(guildId, level)) + [reward]
      ensures repository.GetRewards(guildId) == old(repository.GetRewards(guildId)) + [Reward(guildId, level, reward)]
    {
      repository.AddReward(guildId, level, reward);
      QueriesAfterAdd(old(repository.rewards), Reward(guildId, level, reward), guildId, level);
    }

    /** For each reward of (guildId, level), every reward listener in registration order. */
    method HandleRewards(userId: string, guildId: string, level: int)
      modifies this`calls
      ensures calls == old(calls) + RewardCalls(old(repository.GetReward(guildId, level)), |rewardListeners|, userId, guildId)
      ensures repository.Records() == old(repository.Records())
    {
      var rewards := repository.GetReward(guildId, level);
      var n := |rewardListeners|;
      var i := 0;
      while i < |rewards|
        invariant 0 <= i <= |rewards|
        invariant calls == old(calls) + RewardCalls(rewards[..i], n, userId, guildId)
      {
        var j := 0;
        while j < |rewardListeners|
          invariant 0 <= j <= n
          invariant calls == old(calls) + RewardCalls(rewards[..i], n, userId, guildId)
                                        + FanOut(j, userId, guildId, rewards[i])
        {
          calls := calls + [RewardCall(j, userId, guildId, rewards[i])];
          assert FanOut(j, userId, guildId, rewards[i]) + [RewardCall(j, userId, guildId, rewards[i])]
              == FanOut(j + 1, userId, guildId, rewards[i]);
          j := j + 1;
        }
        assert rewards[..i + 1][..i] == rewards[..i];
        i := i + 1;
      }
      assert rewards[..|rewards|] == rewards;
    }

    /** Every level listener in registration order (no mutator calls this). */
    method HandleLevel(userId: string, guildId: string, level: int)
      modifies this`calls
      ensures calls == old(calls) + LevelCalls(|levelListeners|, userId, guildId, level)
    {
      var j := 0;
      while j < |levelListeners|
        invariant 0 <= j <= |levelListeners|
        invariant calls == old(calls) + LevelCalls(j, userId, guildId, level)
      {
        calls := calls + [LevelCall(j, userId, guildId, level)];
        assert LevelCalls(j, userId, guildId, level) + [LevelCall(j, userId, guildId, level)]
            == LevelCalls(j + 1, userId, guildId, level);
        j := j + 1;
      }
    }

    /**
      The step every mutator shares, once the fetched record has been
      rewritten in place: the store now holds the record Progress computes.
     */
    twostate lemma Stored(new records: seq<UserRecord>, new rewards: seq<Reward>, new listeners: nat, new m: Mutation,
                          new userId: string, new guildId: string, new amount: int, new now: Time,
                          user: User, new userLevel: nat)
      requires amount > 0
      requires old(repository.Valid()) && unchanged(repository) && repository.rewards == rewards
      requires var (fetched, k) := FetchUser(records, userId, guildId, now);
               old(repository.Records()) == fetched && k < |repository.users| && user == repository.users[k]
      requires forall o :: o in repository.users && o != user ==> unchanged(o)
      requires userLevel == old(user.level)
      requires user.View() == Updated(m, old(user.View()), amount, now)
      ensures repository.Valid()
      ensures var e := Progress(records, rewards, listeners, m, userId, guildId, amount, now);
              && e.outcome == Pass
              && repository.Records() == e.users
              && e.calls == if user.level != userLevel
                            then RewardCalls(repository.GetReward(guildId, user.level), listeners, userId, guildId)
                            else []
    {
      var (fetched, k) := FetchUser(records, userId, guildId, now);
      repository.WriteOneRecord(k);
      ProgressPass(records, rewards, listeners, m, userId, guildId, amount, now, fetched, k, user.View());
    }

    /** Adds `xp` experience points and derives the level from the total. */
    method AppendXp(userId: string, guildId: string, xp: int, now: Time) returns (outcome: Outcome)
      requires Valid()
      modifies repository, repository.users, this`calls
      ensures Valid()
      ensures repository.rewards == old(repository.rewards)
      ensures xp <= 0 ==> unchanged(repository) && calls == old(calls)
      ensures |old(repository.users)| <= |repository.users| <= |old(repository.users)| + 1
      ensures repository.users[..|old(repository.users)|] == old(repository.users)
      ensures |repository.users| > |old(repository.users)| ==> fresh(repository.users[|old(repository.users)|])
      ensures var e := Progress(old(repository.Records()), old(repository.rewards), |rewardListeners|,
                                Mutation.AppendXp, userId, guildId, xp, now);
              outcome == e.outcome && repository.Records() == e.users && calls == old(calls) + e.calls
    {
      if xp <= 0 {
        return Fail(TypeError("An amount of xp must be greater than 0"));
      }
      ghost var records := repository.Records();
      var user := repository.GetUser(userId, guildId, now);
      label Fetched:
      user.xp := user.xp + xp;
      var userLevel := user.level;
      user.level := LevelOf(user.xp);
      user.lastUpdated := now;
      var isLevelChange := user.level != userLevel;
      repository.SaveUser(user);
      Stored@Fetched(records, old(repository.rewards), |rewardListeners|, Mutation.AppendXp, userId, guildId, xp, now, user, userLevel);
      if isLevelChange {
        HandleRewards(userId, guildId, user.level);
      }
      outcome := Pass;
    }

    /** Raises the level by `level` and sets the experience to that of the new level. */
    method AppendLevel(userId: string, guildId: string, level: int, now: Time) returns (outcome: Outcome)
      requires Valid()
      modifies repository, repository.users, this`calls
      ensures Valid()
      ensures repository.rewards == old(repository.rewards)
      ensures level <= 0 ==> unchanged(repository) && calls == old(calls)
      ensures |old(repository.users)| <= |repository.users| <= |old(repository.users)| + 1
      ensures repository.users[..|old(repository.users)|] == old(repository.users)
      ensures |repository.users| > |old(repository.users)| ==> fresh(repository.users[|old(repository.users)|])
      ensures var e := Progress(old(repository.Records()), old(repository.rewards), |rewardListeners|,
                                Mutation.AppendLevel, userId, guildId, level, now);
              outcome == e.outcome && repository.Records() == e.users && calls == old(calls) + e.calls
    {
      if level <= 0 {
        return Fail(TypeError("A level must be greater than 0"));
      }
      ghost var records := repository.Records();
      var user := repository.GetUser(userId, guildId, now);
      label Fetched:
      var userLevel := user.level;
      user.level := user.level + level;
      LevelXpSquare(user.level);
      user.xp := user.level * user.level * 100;
      user.lastUpdated := now;
      var isLevelChange := user.level != userLevel;
      repository.SaveUser(user);
      Stored@Fetched(records, old(repository.rewards), |rewardListeners|, Mutation.AppendLevel, userId, guildId, level, now, user, userLevel);
      if isLevelChange {
        HandleRewards(userId, guildId, user.level);
      }
      outcome := Pass;
    }

    /** Sets the experience to `xp` and derives the level from it. */
    method SetXp(userId: string, guildId: string, xp: int, now: Time) returns (outcome: Outcome)
      requires Valid()
      modifies repository, repository.users, this`calls
      ensures Valid()
      ensures repository.rewards == old(repository.rewards)
      ensures xp <= 0 ==> unchanged(repository) && calls == old(calls)
      ensures |old(repository.users)| <= |repository.users| <= |old(repository.users)| + 1
      ensures repository.users[..|old(repository.users)|] == old(repository.users)
      ensures |repository.users| > |old(repository.users)| ==> fresh(repository.users[|old(repository.users)|])
      ensures var e := Progress(old(repository.Records()), old(repository.rewards), |rewardListeners|,
                                Mutation.SetXp, userId, guildId, xp, now);
              outcome == e.outcome && repository.Records() == e.users && calls == old(calls) + e.calls
    {
      if xp <= 0 {
        return Fail(TypeError("An amount of xp must be greater than 0"));
      }
      ghost var records := repository.Records();
      var user := repository.GetUser(userId, guildId, now);
      label Fetched:
      user.xp := xp;
      var userLevel := user.level;
      user.level := LevelOf(user.xp);
      user.lastUpdated := now;
      var isLevelChange := user.level != userLevel;
      repository.SaveUser(user);
      Stored@Fetched(records, old(repository.rewards), |rewardListeners|, Mutation.SetXp, userId, guildId, xp, now, user, userLevel);
      if isLevelChange {
        HandleRewards(userId, guildId, user.level);
      }
      outcome := Pass;
    }

    /** Sets the level to `level` and the experience to that of the level. */
    method SetLevel(userId: string, guildId: string, level: int, now: Time) returns (outcome: Outcome)
      requires Valid()
      modifies repository, repository.users, this`calls
      ensures Valid()
      ensures repository.rewards == old(repository.rewards)
      ensures level <= 0 ==> unchanged(repository) && calls == old(calls)
      ensures |old(repository.users)| <= |repository.users| <= |old(repository.users)| + 1
      ensures repository.users[..|old(repository.users)|] == old(repository.users)
      ensures |repository.users| > |old(repository.users)| ==> fresh(repository.users[|old(repository.users)|])
      ensures var e := Progress(old(repository.Records()), old(repository.rewards), |rewardListeners|,
                                Mutation.SetLevel, userId, guildId, level, now);
              outcome == e.outcome && repository.Records() == e.users && calls == old(calls) + e.calls
    {
      if level <= 0 {
        return Fail(TypeError("A level must be greater than 0"));
      }
      ghost var records := repository.Records();
      var user := repository.GetUser(userId, guildId, now);
      label Fetched:
      var userLevel := user.level;
      user.level := level;
      LevelXpSquare(user.level);
      user.xp := user.level * user.level * 100;
      user.lastUpdated := now;
      var isLevelChange := user.level != userLevel;
      repository.SaveUser(user);
      Stored@Fetched(records, old(repository.rewards), |rewardListeners|, Mutation.SetLevel, userId, guildId, level, now, user, userLevel);
      if isLevelChange {
        HandleRewards(userId, guildId, user.level);
      }
      outcome := Pass;
    }

    /** The experience needed for a level (the static helper). */
    static method XpForLevelOf(level: int) returns (r: Result<nat>)
      ensures r == XpForLevel(level)
    {
      return XpForLevel(level);
    }
  }
}
