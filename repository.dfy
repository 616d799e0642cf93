/**
  The in-memory behaviour of the file-backed store: a list of user records,
  handed out by reference so that the engine updates them in place, and a
  list of reward definitions.  Reading and writing the JSON files is not
  modelled: each write-back is a no-op on the in-memory state.
 */
module Repository {
  import opened Wrappers

  /** A point in time, as read from the clock by the caller. */
  type Time = int

  /** The value of a user record at one moment. */
  datatype UserRecord = UserRecord(userId: string, guildId: string, xp: nat, level: nat, lastUpdated: Time)

  /** A reward unlocked in `guildId` at `level`. */
  datatype Reward = Reward(guildId: string, level: int, reward: string)

  /** Does `r` belong to user `userId` in guild `guildId`? */
  predicate IsRecordOf(r: UserRecord, userId: string, guildId: string) {
    r.userId == userId && r.guildId == guildId
  }

  /** A fresh record for an identity seen for the first time. */
  function NewRecord(userId: string, guildId: string, now: Time): UserRecord {
    UserRecord(userId, guildId, 0, 0, now)
  }

  /** The elements of `s` that `keep` accepts, in their original order. */
  function Filter<T>(s: seq<T>, keep: T -> bool): (r: seq<T>)
    ensures |r| <= |s|
  {
    if s == [] then []
    else (if keep(s[0]) then [s[0]] else []) + Filter(s[1..], keep)
  }

  /** Filter keeps exactly the elements `keep` accepts: nothing else, and none of those is lost. */
  lemma {:induction false} FilterMembers<T>(s: seq<T>, keep: T -> bool)
    ensures forall i :: 0 <= i < |Filter(s, keep)| ==> Filter(s, keep)[i] in s && keep(Filter(s, keep)[i])
    ensures forall i :: 0 <= i < |s| && keep(s[i]) ==> s[i] in Filter(s, keep)
  {
    if s != [] {
      var tail := s[1..];
      FilterMembers(tail, keep);
      var head := if keep(s[0]) then [s[0]] else [];
      var r := Filter(s, keep);
      assert r == head + Filter(tail, keep);
      forall i | 0 <= i < |r|
        ensures r[i] in s && keep(r[i])
      {
        if i >= |head| {
          assert r[i] == Filter(tail, keep)[i - |head|];
          assert r[i] in tail;
        }
      }
      forall i | 0 <= i < |s| && keep(s[i])
        ensures s[i] in r
      {
        if i > 0 {
          assert s[i] == tail[i - 1];
        }
      }
    }
  }

  /** Filtering a concatenation filters each part: the order of what is kept is the original one. */
  lemma {:induction false} FilterConcat<T>(a: seq<T>, b: seq<T>, keep: T -> bool)
    ensures Filter(a + b, keep) == Filter(a, keep) + Filter(b, keep)
  {
    if a == [] {
      assert a + b == b;
    } else {
      var head := if keep(a[0]) then [a[0]] else [];
      assert (a + b)[0] == a[0];
      assert (a + b)[1..] == a[1..] + b;
      FilterConcat(a[1..], b, keep);
      assert Filter(a + b, keep) == head + (Filter(a[1..], keep) + Filter(b, keep));
      assert Filter(a, keep) == head + Filter(a[1..], keep);
      assert head + (Filter(a[1..], keep) + Filter(b, keep)) == (head + Filter(a[1..], keep)) + Filter(b, keep);
    }
  }

  /** Filtering a single element keeps it exactly when `keep` accepts it. */
  lemma FilterSingleton<T>(x: T, keep: T -> bool)
    ensures Filter([x], keep) == if keep(x) then [x] else []
  {
    assert [x][1..] == [];
  }

  /** Nothing is kept from a sequence none of whose elements `keep` accepts. */
  lemma {:induction false} FilterNone<T>(s: seq<T>, keep: T -> bool)
    requires forall i :: 0 <= i < |s| ==> !keep(s[i])
    ensures Filter(s, keep) == []
  {
    if s != [] {
      FilterNone(s[1..], keep);
    }
  }

  /** No element occurs twice in `s`: each one is absent from the rest. */
  ghost predicate Distinct<T>(s: seq<T>) {
    s == [] || (s[0] !in s[1..] && Distinct(s[1..]))
  }

  /** In a sequence without repetitions, two positions hold two different elements. */
  lemma {:induction false} DistinctApart<T>(s: seq<T>, i: nat, j: nat)
    requires Distinct(s) && i < |s| && j < |s| && i != j
    ensures s[i] != s[j]
  {
    if i == 0 {
      assert s[j] == s[1..][j - 1];
    } else if j == 0 {
      assert s[i] == s[1..][i - 1];
    } else {
      DistinctApart(s[1..], i - 1, j - 1);
    }
  }

  /** Appending an element not yet present keeps a sequence free of repetitions. */
  lemma {:induction false} DistinctAppend<T>(s: seq<T>, x: T)
    requires Distinct(s) && x !in s
    ensures Distinct(s + [x])
  {
    if s != [] {
      assert (s + [x])[1..] == s[1..] + [x];
      DistinctAppend(s[1..], x);
    }
  }

  /** Filtering never introduces a repetition. */
  lemma {:induction false} FilterDistinct<T>(s: seq<T>, keep: T -> bool)
    requires Distinct(s)
    ensures Distinct(Filter(s, keep))
  {
    if s != [] {
      var tail := s[1..];
      FilterDistinct(tail, keep);
      FilterMembers(tail, keep);
      var rest := Filter(tail, keep);
      if keep(s[0]) {
        assert Filter(s, keep) == [s[0]] + rest;
        assert ([s[0]] + rest)[1..] == rest;
        assert s[0] !in rest;
      } else {
        assert Filter(s, keep) == rest;
      }
    }
  }

  /** The index of the first record of (`userId`, `guildId`), if there is one. */
  function FindUser(users: seq<UserRecord>, userId: string, guildId: string): (r: Option<nat>)
    ensures r.Some? ==> r.value < |users| && IsRecordOf(users[r.value], userId, guildId)
    ensures r.Some? ==> forall j :: 0 <= j < r.value ==> !IsRecordOf(users[j], userId, guildId)
    ensures r.None? <==> forall j :: 0 <= j < |users| ==> !IsRecordOf(users[j], userId, guildId)
  {
    if users == [] then None
    else if IsRecordOf(users[0], userId, guildId) then Some(0)
    else match FindUser(users[1..], userId, guildId)
      case None => None
      case Some(i) => Some(i + 1)
  }

  /**
    Find-or-create on record values: the records afterwards and the index of
    the record handed out.
   */
  function FetchUser(users: seq<UserRecord>, userId: string, guildId: string, now: Time): (r: (seq<UserRecord>, nat))
    ensures r.1 < |r.0| && IsRecordOf(r.0[r.1], userId, guildId)
    ensures forall j :: 0 <= j < r.1 ==> !IsRecordOf(r.0[j], userId, guildId)
    ensures r.0 == users || r.0 == users + [NewRecord(userId, guildId, now)]
    ensures r.0 != users ==> r.1 == |users| && r.0[r.1] == NewRecord(userId, guildId, now)
  {
    match FindUser(users, userId, guildId)
    case Some(i) => (users, i)
    case None =>
      assert (users + [NewRecord(userId, guildId, now)])[..|users|] == users;
      (users + [NewRecord(userId, guildId, now)], |users|)
  }

  /** Find-or-create adds a record exactly when the identity has none. */
  lemma FetchUserCreatesIffAbsent(users: seq<UserRecord>, userId: string, guildId: string, now: Time)
    ensures var (after, k) := FetchUser(users, userId, guildId, now);
            after == users <==> exists j :: 0 <= j < |users| && IsRecordOf(users[j], userId, guildId)
  {
  }

  /**
    A second find-or-create for the same identity, with nothing in between,
    hands out the same record and adds nothing.
   */
  lemma FetchUserTwice(users: seq<UserRecord>, userId: string, guildId: string, now: Time, later: Time)
    ensures var (after, k) := FetchUser(users, userId, guildId, now);
            FetchUser(after, userId, guildId, later) == (after, k)
  {
    var (after, k) := FetchUser(users, userId, guildId, now);
    var (again, k') := FetchUser(after, userId, guildId, later);
    assert again == after;
    assert IsRecordOf(after[k], userId, guildId) && IsRecordOf(after[k'], userId, guildId);
  }

  /** A user record; the store hands out this object itself, so writes to it are writes to the store. */
  class User {
    const userId: string
    const guildId: string
    var xp: nat
    var level: nat
    var lastUpdated: Time

    constructor (userId: string, guildId: string, now: Time)
      ensures View() == NewRecord(userId, guildId, now)
    {
      this.userId := userId;
      this.guildId := guildId;
      xp := 0;
      level := 0;
      lastUpdated := now;
    }

    /** The current value of this record. */
    function View(): UserRecord
      reads this
    {
      UserRecord(userId, guildId, xp, level, lastUpdated)
    }
  }

  /** The users kept by deleteUser: those whose user id AND guild id both differ. */
  function KeptUsers(users: seq<User>, userId: string, guildId: string): (r: seq<User>)
    ensures forall i :: 0 <= i < |r| ==> r[i] in users && r[i].userId != userId && r[i].guildId != guildId
    ensures forall i :: 0 <= i < |users| && users[i].userId != userId && users[i].guildId != guildId ==> users[i] in r
  {
    var keep := (u: User) => u.userId != userId && u.guildId != guildId;
    FilterMembers(users, keep);
    Filter(users, keep)
  }

  /** The reward strings defined for (`guildId`, `level`), in storage order (getReward). */
  function RewardsAt(rewards: seq<Reward>, guildId: string, level: int): (r: seq<string>)
    ensures |r| <= |rewards|
  {
    var found := Filter(rewards, (e: Reward) => e.guildId == guildId && e.level == level);
    seq(|found|, i requires 0 <= i < |found| => found[i].reward)
  }

  /** getReward yields exactly the reward strings defined for that guild and level. */
  lemma RewardsAtMembers(rewards: seq<Reward>, guildId: string, level: int)
    ensures forall x :: x in RewardsAt(rewards, guildId, level) <==> Reward(guildId, level, x) in rewards
  {
    var keep := (e: Reward) => e.guildId == guildId && e.level == level;
    FilterMembers(rewards, keep);
    var found := Filter(rewards, keep);
    var r := RewardsAt(rewards, guildId, level);
    assert forall i :: 0 <= i < |found| ==> found[i] == Reward(guildId, level, r[i]);
    assert forall x :: Reward(guildId, level, x) in found ==> x in r by {
      forall x | Reward(guildId, level, x) in found ensures x in r {
        var i :| 0 <= i < |found| && found[i] == Reward(guildId, level, x);
        assert r[i] == x;
      }
    }
  }

  /** All reward definitions of `guildId`, in storage order (getRewards). */
  function GuildRewards(rewards: seq<Reward>, guildId: string): (r: seq<Reward>)
    ensures forall e :: e in r <==> e in rewards && e.guildId == guildId
  {
    var keep := (e: Reward) => e.guildId == guildId;
    FilterMembers(rewards, keep);
    Filter(rewards, keep)
  }

  /** The rewards kept by the three-argument removeReward: guild, level AND reward all differ. */
  function KeptRewards(rewards: seq<Reward>, guildId: string, level: int, reward: string): (r: seq<Reward>)
    ensures forall e :: e in r <==> e in rewards && e.guildId != guildId && e.level != level && e.reward != reward
  {
    var keep := (e: Reward) => e.guildId != guildId && e.level != level && e.reward != reward;
    FilterMembers(rewards, keep);
    Filter(rewards, keep)
  }

  /** The rewards kept by the two-argument removeReward: guild AND level both differ. */
  function KeptRewardsByLevel(rewards: seq<Reward>, guildId: string, level: int): (r: seq<Reward>)
    ensures forall e :: e in r <==> e in rewards && e.guildId != guildId && e.level != level
  {
    var keep := (e: Reward) => e.guildId != guildId && e.level != level;
    FilterMembers(rewards, keep);
    Filter(rewards, keep)
  }

  /** After either removal, the guild has no rewards left at all, at any level. */
  lemma RemovalClearsGuild(rewards: seq<Reward>, guildId: string, level: int, reward: string)
    ensures GuildRewards(KeptRewards(rewards, guildId, level, reward), guildId) == []
    ensures RewardsAt(KeptRewards(rewards, guildId, level, reward), guildId, level) == []
    ensures GuildRewards(KeptRewardsByLevel(rewards, guildId, level), guildId) == []
  {
    var kept := KeptRewards(rewards, guildId, level, reward);
    assert forall i :: 0 <= i < |kept| ==> kept[i] in kept;
    FilterNone(kept, (e: Reward) => e.guildId == guildId);
    FilterNone(kept, (e: Reward) => e.guildId == guildId && e.level == level);
    var keptByLevel := KeptRewardsByLevel(rewards, guildId, level);
    assert forall i :: 0 <= i < |keptByLevel| ==> keptByLevel[i] in keptByLevel;
    FilterNone(keptByLevel, (e: Reward) => e.guildId == guildId);
  }

  /** Adding a reward appends it to the end of every query that matches it, and to no other. */
  lemma {:induction false} QueriesAfterAdd(rewards: seq<Reward>, e: Reward, guildId: string, level: int)
    ensures RewardsAt(rewards + [e], guildId, level)
         == RewardsAt(rewards, guildId, level) + (if e.guildId == guildId && e.level == level then [e.reward] else [])
    ensures GuildRewards(rewards + [e], guildId)
         == GuildRewards(rewards, guildId) + (if e.guildId == guildId then [e] else [])
  {
    var atLevel := (x: Reward) => x.guildId == guildId && x.level == level;
    FilterConcat(rewards, [e], atLevel);
    FilterSingleton(e, atLevel);
    var inGuild := (x: Reward) => x.guildId == guildId;
    FilterConcat(rewards, [e], inGuild);
    FilterSingleton(e, inGuild);
  }

  /** The in-memory state of the file-backed store. */
  class FileRepository {
    var users: seq<User>
    var rewards: seq<Reward>

    /** Every record object is held once, so a write to one record changes one entry. */
    ghost predicate Valid()
      reads this
    {
      Distinct(users)
    }

    /** The values of the stored records, in storage order. */
    ghost function Records(): (r: seq<UserRecord>)
      reads this, users
      ensures |r| == |users|
      ensures forall i :: 0 <= i < |users| ==> r[i] == users[i].View()
    {
      var us := users;
      seq(|us|, i reads us requires 0 <= i < |us| => us[i].View())
    }

    /**
      Writing the fields of the record at position k, and nothing else,
      changes the view at position k only.
     */
    twostate lemma WriteOneRecord(k: nat)
      requires old(Valid()) && unchanged(this) && k < |users|
      requires forall o :: o in users && o != users[k] ==> unchanged(o)
      ensures Valid()
      ensures Records() == old(Records())[k := users[k].View()]
    {
      forall i | 0 <= i < |users| && i != k
        ensures users[i].View() == old(users[i].View())
      {
        DistinctApart(users, i, k);
        assert users[i] in users;
      }
    }

    /** A store whose files do not exist yet: no users and no rewards. */
    constructor ()
      ensures Valid() && users == [] && rewards == []
    {
      users := [];
      rewards := [];
    }

    /** Drops every record whose user id or guild id matches (see KeptUsers). */
    method DeleteUser(userId: string, guildId: string)
      requires Valid()
      modifies this
      ensures Valid()
      ensures users == KeptUsers(old(users), userId, guildId)
      ensures rewards == old(rewards)
    {
      FilterDistinct(users, (u: User) => u.userId != userId && u.guildId != guildId);
      users := KeptUsers(users, userId, guildId);
    }

    /**
      Returns the first record of (`userId`, `guildId`) itself, or creates,
      stores and returns a fresh zero record.
     */
    method GetUser(userId: string, guildId: string, now: Time) returns (user: User)
      requires Valid()
      modifies this
      ensures Valid()
      ensures var (after, k) := FetchUser(old(Records()), userId, guildId, now);
              Records() == after && k < |users| && user == users[k]
      ensures users[..|old(users)|] == old(users)
      ensures user in old(users) || fresh(user)
      ensures users == old(users) || (fresh(user) && users == old(users) + [user])
      ensures rewards == old(rewards)
    {
      ghost var before := Records();
      var i := 0;
      while i < |users|
        invariant 0 <= i <= |users|
        invariant forall j :: 0 <= j < i ==> !IsRecordOf(before[j], userId, guildId)
      {
        if users[i].userId == userId && users[i].guildId == guildId {
          assert users[..|users|] == users;
          return users[i];
        }
        i := i + 1;
      }
      user := new User(userId, guildId, now);
      DistinctAppend(users, user);
      users := users + [user];
      assert Records() == before + [NewRecord(userId, guildId, now)];
      assert users[..|old(users)|] == old(users);
    }

    /** Writes the users file; the in-memory record was already updated through aliasing. */
    method SaveUser(user: User)
      ensures users == old(users) && rewards == old(rewards)
    {
    }

    /** Appends one reward definition; duplicates are allowed. */
    method AddReward(guildId: string, level: int, reward: string)
      modifies this`rewards
      ensures rewards == old(rewards) + [Reward(guildId, level, reward)]
    {
      rewards := rewards + [Reward(guildId, level, reward)];
    }

    /** getReward: the reward strings of (`guildId`, `level`) in storage order; changes nothing. */
    function GetReward(guildId: string, level: int): seq<string>
      reads this
    {
      RewardsAt(rewards, guildId, level)
    }

    /** getRewards: the reward definitions of `guildId` in storage order; changes nothing. */
    function GetRewards(guildId: string): seq<Reward>
      reads this
    {
      GuildRewards(rewards, guildId)
    }

    /** The three-argument removeReward, the form the engine calls. */
    method RemoveReward(guildId: string, level: int, reward: string)
      modifies this`rewards
      ensures rewards == KeptRewards(old(rewards), guildId, level, reward)
      ensures GetReward(guildId, level) == [] && GetRewards(guildId) == []
    {
      rewards := KeptRewards(rewards, guildId, level, reward);
      RemovalClearsGuild(old(rewards), guildId, level, reward);
    }

    /** The two-argument removeReward of the standalone store. */
    method RemoveRewardByLevel(guildId: string, level: int)
      modifies this`rewards
      ensures rewards == KeptRewardsByLevel(old(rewards), guildId, level)
      ensures GetRewards(guildId) == []
    {
      rewards := KeptRewardsByLevel(rewards, guildId, level);
      RemovalClearsGuild(old(rewards), guildId, level, "");
    }
  }
}
