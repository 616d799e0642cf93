/**
  What one progression operation (appendXp, appendLevel, setXp, setLevel)
  does, stated on record values: the outcome, the records afterwards, the
  level whose rewards are dispatched, and the listener calls made.
  The engine's methods are proved to have exactly this effect.
 */
module Progression {
  import opened Wrappers
  import opened Leveling
  import opened Repository

  /** The four progression operations. */
  datatype Mutation = AppendXp | AppendLevel | SetXp | SetLevel

  /** One listener invocation; `listener` is the listener's position in registration order. */
  datatype Call =
    | RewardCall(listener: nat, userId: string, guildId: string, reward: string)
    | LevelCall(listener: nat, userId: string, guildId: string, level: int)

  /** Everything one operation produces. */
  datatype Effect = Effect(outcome: Outcome, users: seq<UserRecord>, dispatched: Option<nat>, calls: seq<Call>)

  /** The exception an operation throws for an amount that is not positive. */
  function Rejection(m: Mutation): Error {
    match m
    case AppendXp => TypeError("An amount of xp must be greater than 0")
    case SetXp => TypeError("An amount of xp must be greater than 0")
    case AppendLevel => TypeError("A level must be greater than 0")
    case SetLevel => TypeError("A level must be greater than 0")
  }

  /** The level of a record is the one its experience gives. */
  predicate Consistent(r: UserRecord) {
    r.level == LevelOf(r.xp)
  }

  ghost predicate AllConsistent(users: seq<UserRecord>) {
    forall i :: 0 <= i < |users| ==> Consistent(users[i])
  }

  /** The record getUser hands out: the first one of the identity, or a fresh zero record. */
  function Lookup(users: seq<UserRecord>, userId: string, guildId: string, now: Time): UserRecord {
    var (after, k) := FetchUser(users, userId, guildId, now);
    after[k]
  }

  /** The record after operation `m` with a positive `amount`. */
  function Updated(m: Mutation, r: UserRecord, amount: nat, now: Time): UserRecord {
    match m
    case AppendXp => r.(xp := r.xp + amount, level := LevelOf(r.xp + amount), lastUpdated := now)
    case SetXp => r.(xp := amount, level := LevelOf(amount), lastUpdated := now)
    case AppendLevel => r.(level := r.level + amount, xp := LevelXp(r.level + amount), lastUpdated := now)
    case SetLevel => r.(level := amount, xp := LevelXp(amount), lastUpdated := now)
  }

  /**
    Every update keeps the identity, stamps the time, and leaves a record
    whose level is the one its experience gives.
   */
  lemma UpdatedRules(m: Mutation, r: UserRecord, amount: nat, now: Time)
    ensures var u := Updated(m, r, amount, now);
            && u.userId == r.userId && u.guildId == r.guildId && u.lastUpdated == now
            && Consistent(u)
  {
    match m
    case AppendXp =>
    case SetXp =>
    case AppendLevel => LevelOfLevelXp(r.level + amount);
    case SetLevel => LevelOfLevelXp(amount);
  }

  /** Adding experience to a consistent record never lowers its level. */
  lemma AppendXpKeepsLevel(r: UserRecord, amount: nat, now: Time)
    requires Consistent(r)
    ensures Updated(AppendXp, r, amount, now).level >= r.level
  {
    LevelOfMonotone(r.xp, r.xp + amount);
  }

  /** Every reward listener called once for `reward`, in registration order. */
  function FanOut(listeners: nat, userId: string, guildId: string, reward: string): seq<Call> {
    seq(listeners, j requires 0 <= j < listeners => RewardCall(j, userId, guildId, reward))
  }

  /** handleRewards: for each reward in turn, every reward listener in turn. */
  function RewardCalls(rewards: seq<string>, listeners: nat, userId: string, guildId: string): seq<Call> {
    if rewards == [] then []
    else RewardCalls(rewards[..|rewards| - 1], listeners, userId, guildId)
         + FanOut(listeners, userId, guildId, rewards[|rewards| - 1])
  }

  /** handleLevel: every level listener in turn, with the level. */
  function LevelCalls(listeners: nat, userId: string, guildId: string, level: int): seq<Call> {
    seq(listeners, j requires 0 <= j < listeners => LevelCall(j, userId, guildId, level))
  }

  /** The position of the call for reward number q and listener number j among n listeners. */
  function Position(q: nat, j: nat, n: nat): nat {
    q * n + j
  }

  /** A position inside block q of n lies below the end of block m when q < m. */
  lemma PositionBelow(q: nat, j: nat, n: nat, m: nat)
    requires q < m && j < n
    ensures Position(q, j, n) < m * n
  {
    assert (q + 1) * n <= m * n;
  }

  /**
    handleRewards makes |rewards| * listeners calls, one block of calls per
    reward in storage order; within a block, one call per listener in
    registration order.
   */
  lemma {:induction false} RewardCallsOrder(rewards: seq<string>, listeners: nat, userId: string, guildId: string)
    ensures |RewardCalls(rewards, listeners, userId, guildId)| == |rewards| * listeners
    ensures forall q, j :: 0 <= q < |rewards| && 0 <= j < listeners ==>
              Position(q, j, listeners) < |RewardCalls(rewards, listeners, userId, guildId)| &&
              RewardCalls(rewards, listeners, userId, guildId)[Position(q, j, listeners)]
              == RewardCall(j, userId, guildId, rewards[q])
  {
    if rewards != [] {
      var n := listeners;
      var m := |rewards| - 1;
      var front := rewards[..m];
      RewardCallsOrder(front, n, userId, guildId);
      var head := RewardCalls(front, n, userId, guildId);
      var tail := FanOut(n, userId, guildId, rewards[m]);
      var calls := RewardCalls(rewards, n, userId, guildId);
      assert calls == head + tail;
      assert |calls| == m * n + n == |rewards| * n;
      forall q, j | 0 <= q < |rewards| && 0 <= j < n
        ensures Position(q, j, n) < |calls| && calls[Position(q, j, n)] == RewardCall(j, userId, guildId, rewards[q])
      {
        if q < m {
          PositionBelow(q, j, n, m);
          assert calls[Position(q, j, n)] == head[Position(q, j, n)];
          assert front[q] == rewards[q];
        } else {
          assert calls[Position(q, j, n)] == tail[j];
        }
      }
    }
  }

  /** Every call handleRewards makes goes to a reward listener, for this user and guild. */
  lemma {:induction false} RewardCallsAreRewardCalls(rewards: seq<string>, listeners: nat, userId: string, guildId: string)
    ensures forall c :: c in RewardCalls(rewards, listeners, userId, guildId) ==>
              c.RewardCall? && c.userId == userId && c.guildId == guildId && c.listener < listeners && c.reward in rewards
  {
    if rewards != [] {
      var front := rewards[..|rewards| - 1];
      RewardCallsAreRewardCalls(front, listeners, userId, guildId);
      assert forall r :: r in front ==> r in rewards;
      var tail := FanOut(listeners, userId, guildId, rewards[|rewards| - 1]);
      assert forall c :: c in tail ==> exists j :: 0 <= j < |tail| && tail[j] == c;
    }
  }

  /** One progression operation on the store's records, with `listeners` reward listeners registered. */
  function Progress(users: seq<UserRecord>, rewards: seq<Reward>, listeners: nat, m: Mutation,
                    userId: string, guildId: string, amount: int, now: Time): (e: Effect)
    ensures e.outcome.Pass? <==> amount > 0
    ensures amount <= 0 ==> e == Effect(Fail(Rejection(m)), users, None, [])
  {
    if amount <= 0 then Effect(Fail(Rejection(m)), users, None, [])
    else
      var (fetched, k) := FetchUser(users, userId, guildId, now);
      var before := fetched[k];
      var after := Updated(m, before, amount, now);
      if after.level != before.level then
        Effect(Pass, fetched[k := after], Some(after.level),
               RewardCalls(RewardsAt(rewards, guildId, after.level), listeners, userId, guildId))
      else
        Effect(Pass, fetched[k := after], None, [])
  }

  /** Progress with a positive amount, one step at a time. */
  lemma ProgressPass(users: seq<UserRecord>, rewards: seq<Reward>, listeners: nat, m: Mutation,
                     userId: string, guildId: string, amount: int, now: Time,
                     fetched: seq<UserRecord>, k: nat, after: UserRecord)
    requires amount > 0
    requires (fetched, k) == FetchUser(users, userId, guildId, now)
    requires after == Updated(m, fetched[k], amount, now)
    ensures var e := Progress(users, rewards, listeners, m, userId, guildId, amount, now);
            && e.outcome == Pass
            && e.users == fetched[k := after]
            && e.calls == if after.level != fetched[k].level
                          then RewardCalls(RewardsAt(rewards, guildId, after.level), listeners, userId, guildId)
                          else []
  {
  }

  /** Replacing the first record of an identity by another of the same identity keeps it first. */
  lemma FindUserAfterUpdate(users: seq<UserRecord>, k: nat, r: UserRecord, userId: string, guildId: string)
    requires k < |users| && IsRecordOf(users[k], userId, guildId) && IsRecordOf(r, userId, guildId)
    requires forall j :: 0 <= j < k ==> !IsRecordOf(users[j], userId, guildId)
    ensures FindUser(users[k := r], userId, guildId) == Some(k)
  {
    var s := users[k := r];
    var f := FindUser(s, userId, guildId);
    assert IsRecordOf(s[k], userId, guildId);
    assert forall j :: 0 <= j < k ==> s[j] == users[j];
  }

  /**
    After the operation, getUser hands out the updated form of the record it
    handed out before; the listeners are reached iff the level changed, and
    then only with the landing level's rewards.
   */
  lemma ProgressLookup(users: seq<UserRecord>, rewards: seq<Reward>, listeners: nat, m: Mutation,
                       userId: string, guildId: string, amount: int, now: Time)
    requires amount > 0
    ensures var e := Progress(users, rewards, listeners, m, userId, guildId, amount, now);
            var before := Lookup(users, userId, guildId, now);
            var after := Lookup(e.users, userId, guildId, now);
            && after == Updated(m, before, amount, now)
            && e.dispatched == (if after.level != before.level then Some(after.level) else None)
            && e.calls == if after.level != before.level
                          then RewardCalls(RewardsAt(rewards, guildId, after.level), listeners, userId, guildId)
                          else []
  {
    var (fetched, k) := FetchUser(users, userId, guildId, now);
    var after := Updated(m, fetched[k], amount, now);
    FindUserAfterUpdate(fetched, k, after, userId, guildId);
    FetchUserTwice(users, userId, guildId, now, now);
  }

  /**
    The update rules of the four operations, on the record getUser hands out
    before and after.
   */
  lemma ProgressUpdateRule(users: seq<UserRecord>, rewards: seq<Reward>, listeners: nat, m: Mutation,
                           userId: string, guildId: string, amount: int, now: Time)
    requires amount > 0
    ensures var e := Progress(users, rewards, listeners, m, userId, guildId, amount, now);
            var before := Lookup(users, userId, guildId, now);
            var after := Lookup(e.users, userId, guildId, now);
            && (m == AppendXp ==> after.xp == before.xp + amount && after.level == LevelOf(after.xp))
            && (m == SetXp ==> after.xp == amount && after.level == LevelOf(amount))
            && (m == AppendLevel ==> after.level == before.level + amount && after.xp == LevelXp(after.level))
            && (m == SetLevel ==> after.level == amount && after.xp == LevelXp(amount))
            && after.userId == userId && after.guildId == guildId && after.lastUpdated == now
  {
    ProgressLookup(users, rewards, listeners, m, userId, guildId, amount, now);
  }

  /** Only the first record of the identity changes; at most one record is added. */
  lemma ProgressTouchesOneRecord(users: seq<UserRecord>, rewards: seq<Reward>, listeners: nat, m: Mutation,
                                 userId: string, guildId: string, amount: int, now: Time)
    ensures var e := Progress(users, rewards, listeners, m, userId, guildId, amount, now);
            && |users| <= |e.users| <= |users| + 1
            && (|e.users| > |users| ==> forall j :: 0 <= j < |users| ==> !IsRecordOf(users[j], userId, guildId))
            && forall i :: 0 <= i < |users| && e.users[i] != users[i] ==>
                 IsRecordOf(users[i], userId, guildId) && forall j :: 0 <= j < i ==> !IsRecordOf(users[j], userId, guildId)
  {
    if amount > 0 {
      var (fetched, k) := FetchUser(users, userId, guildId, now);
      assert forall i :: 0 <= i < |users| ==> fetched[i] == users[i];
    }
  }

  /** Every operation keeps every record's level equal to the level its experience gives. */
  lemma ProgressPreservesConsistency(users: seq<UserRecord>, rewards: seq<Reward>, listeners: nat, m: Mutation,
                                     userId: string, guildId: string, amount: int, now: Time)
    requires AllConsistent(users)
    ensures AllConsistent(Progress(users, rewards, listeners, m, userId, guildId, amount, now).users)
  {
    if amount > 0 {
      var (fetched, k) := FetchUser(users, userId, guildId, now);
      assert LevelOf(0) == 0;
      assert forall i :: 0 <= i < |users| ==> fetched[i] == users[i];
      assert AllConsistent(fetched);
      UpdatedRules(m, fetched[k], amount, now);
    }
  }

  /** On consistent records, appendXp never lowers a level. */
  lemma AppendXpNeverLowersLevel(users: seq<UserRecord>, rewards: seq<Reward>, listeners: nat,
                                 userId: string, guildId: string, amount: int, now: Time)
    requires AllConsistent(users)
    ensures var e := Progress(users, rewards, listeners, AppendXp, userId, guildId, amount, now);
            Lookup(e.users, userId, guildId, now).level >= Lookup(users, userId, guildId, now).level
  {
    if amount > 0 {
      var (fetched, k) := FetchUser(users, userId, guildId, now);
      assert LevelOf(0) == 0;
      assert Consistent(fetched[k]);
      AppendXpKeepsLevel(fetched[k], amount, now);
      ProgressLookup(users, rewards, listeners, AppendXp, userId, guildId, amount, now);
    }
  }

  /** appendLevel always changes the level, so it always dispatches the landing level. */
  lemma AppendLevelAlwaysDispatches(users: seq<UserRecord>, rewards: seq<Reward>, listeners: nat,
                                    userId: string, guildId: string, amount: int, now: Time)
    requires amount > 0
    ensures Progress(users, rewards, listeners, AppendLevel, userId, guildId, amount, now).dispatched
            == Some(Lookup(users, userId, guildId, now).level + amount)
  {
  }

  /** No operation ever reaches a level listener. */
  lemma ProgressNeverCallsLevelListeners(users: seq<UserRecord>, rewards: seq<Reward>, listeners: nat, m: Mutation,
                                         userId: string, guildId: string, amount: int, now: Time)
    ensures forall c :: c in Progress(users, rewards, listeners, m, userId, guildId, amount, now).calls ==>
              c.RewardCall? && c.listener < listeners
  {
    if amount > 0 {
      var (fetched, k) := FetchUser(users, userId, guildId, now);
      var after := Updated(m, fetched[k], amount, now);
      RewardCallsAreRewardCalls(RewardsAt(rewards, guildId, after.level), listeners, userId, guildId);
    }
  }

  /** appendXp(u, g, 100) on an unseen identity gives xp 100 and level 1, and dispatches level 1. */
  lemma FirstHundredXp(users: seq<UserRecord>, rewards: seq<Reward>, listeners: nat,
                       userId: string, guildId: string, now: Time)
    requires FindUser(users, userId, guildId) == None
    ensures var e := Progress(users, rewards, listeners, AppendXp, userId, guildId, 100, now);
            e.users == users + [UserRecord(userId, guildId, 100, 1, now)] && e.dispatched == Some(1)
  {
    LevelOfUnique(100, 1);
    var created := NewRecord(userId, guildId, now);
    assert FetchUser(users, userId, guildId, now) == (users + [created], |users|);
    assert Updated(AppendXp, created, 100, now) == UserRecord(userId, guildId, 100, 1, now);
    assert (users + [created])[|users| := UserRecord(userId, guildId, 100, 1, now)]
        == users + [UserRecord(userId, guildId, 100, 1, now)];
  }

  /** setLevel(u, g, 5) leaves the identity's record at xp 2500 and level 5. */
  lemma SetLevelFive(users: seq<UserRecord>, rewards: seq<Reward>, listeners: nat,
                     userId: string, guildId: string, now: Time)
    ensures var e := Progress(users, rewards, listeners, SetLevel, userId, guildId, 5, now);
            var after := Lookup(e.users, userId, guildId, now);
            after.xp == 2500 && after.level == 5
  {
    ProgressUpdateRule(users, rewards, listeners, SetLevel, userId, guildId, 5, now);
  }

  /**
    A 1 -> 2 transition with a single reward at level 2 calls every reward
    listener exactly once with that reward, in registration order.
   */
  lemma LevelOneToTwo(users: seq<UserRecord>, rewards: seq<Reward>, listeners: nat,
                      userId: string, guildId: string, reward: string, now: Time)
    requires Lookup(users, userId, guildId, now).level == 1
    requires RewardsAt(rewards, guildId, 2) == [reward]
    ensures Progress(users, rewards, listeners, AppendLevel, userId, guildId, 1, now).calls
            == seq(listeners, j requires 0 <= j < listeners => RewardCall(j, userId, guildId, reward))
  {
    var (fetched, k) := FetchUser(users, userId, guildId, now);
    var after := Updated(AppendLevel, fetched[k], 1, now);
    assert after.level == 2;
    assert [reward][..0] == [];
    assert RewardCalls([reward], listeners, userId, guildId) == FanOut(listeners, userId, guildId, reward);
  }
}
