# ShoyoXp — a verified model of the experience/level engine and its store

ShoyoXp tracks experience points (xp) and levels of users per guild.

The engine (`ShoyoXp`) holds:
- a store;
- an append-only list of reward listeners;
- an append-only list of level listeners.

Its four mutators (`appendXp`, `appendLevel`, `setXp`, `setLevel`) each do the same steps:
1. Reject a non-positive amount with a `TypeError`, before they touch the store.
2. Fetch the user's record from the store. This is find-or-create, and the caller gets the stored object itself.
3. Remember the old level.
4. Rewrite xp, level and `lastUpdated` in place.
5. Save.
6. If the level changed, call every reward listener for every reward of the landing level.

The in-memory part of the `FileRepository` store holds a list of user records and a list of reward definitions. Its operations are:
- find-or-create (`getUser`);
- append (`addReward`);
- filtering removals (`deleteUser` and both `removeReward` forms);
- filter/map queries (`getReward`, `getRewards`).

The project has five modules:

- `Wrappers`: `Option`, `Result`, the two exception kinds (`TypeError`, `RangeError`) and `Outcome` (pass, or the exception thrown).
- `Leveling`: the level formula and `xpForLevel`.
  - The formula `floor(0.1 * sqrt(xp))` is read over the reals. It is `LevelOf(xp)`, the largest `n` with `100 n² <= xp`.
  - `LevelOf` is defined band by band through `LevelXp(n) = 100 n²`, the experience at which level `n` starts.
- `Repository`:
  - the record value `UserRecord`;
  - the class `User`, the object the store hands out and the engine writes through;
  - the class `FileRepository`, whose fields `users: seq<User>` and `rewards: seq<Reward>` its methods reassign;
  - the value-level specifications of find-or-create and of the filters.
  - `Records()` is the list of record values the store currently holds.
- `Progression`: `Progress`, what one mutator does, stated on values: the outcome, the records afterwards, the level whose rewards go out, and the listener calls, in order. The properties of the operations are proved about `Progress`.
- `Engine`: the class `ShoyoXp`.
  - Its mutators are proved to have exactly the effect `Progress` gives on the store's records and on `calls`, the trace of listener invocations.
  - A listener is an opaque handle. A call is recorded as the listener's position in registration order, with its arguments.

Three things the source does are modelled as written, even where they look unintended:

- **Filters.** The removal filters test `a !== x && b !== y` (and `&& c !== z`). So `deleteUser(u, g)` drops every record of user `u` in any guild, and every record of guild `g`, not just the one record of `(u, g)`. The reward removals likewise drop every reward of the guild, every reward at that level and (three-argument form) every reward with that name.
- **Level change.** `appendLevel`/`setLevel` set `xp := level * level * 100` after changing the level. Dispatch depends only on whether the new level differs from the level captured before the update.
- **Level listeners.** Level listeners can be registered, but no mutator calls `handleLevel`, so they are never invoked.

## Model

| member | source | states |
|---|---|---|
| Leveling.LevelXpSquare | src/index.ts:66 | the band start LevelXp(n), built level by level, equals the engine's `n * n * 100` |
| Leveling.LevelXpOrder | src/index.ts:108-113 | band starts are ordered exactly as their levels (both directions) |
| Leveling.LevelOf | src/index.ts:50 | the level formula floor(0.1·sqrt(xp)), built band by band; its properties are LevelOfBand, LevelOfIsRootBand, LevelOfUnique and LevelOfMonotone |
| Leveling.LevelOfBand | src/index.ts:50 | LevelOf(xp) is the level whose band [LevelXp(n), LevelXp(n+1)) contains xp |
| Leveling.LevelOfIsRootBand | src/index.ts:50 | LevelOf(xp) = floor(0.1·sqrt(xp)) over the reals: 100·n² <= xp < 100·(n+1)² |
| Leveling.LevelOfUnique | src/index.ts:50 | any n whose band contains xp is LevelOf(xp): the formula has one answer |
| Leveling.LevelOfLevelXp | src/index.ts:66 | round trip: the level of the experience set for level n is n |
| Leveling.LevelOfMonotone | src/index.ts:48-50 | more experience never gives a lower level |
| Leveling.XpForLevel | src/index.ts:108-113 | RangeError("A level must be greater than 0") iff level <= 0; otherwise level·level·100, whose level is `level` and which is the least xp reaching it |
| Leveling.LeastXpForLevel | src/index.ts:108-113 | every xp whose level is at least `level` is at least LevelXp(level) |
| Repository.FilterMembers | src/FileRepository.ts:23 | a filter keeps only accepted elements and loses none of them |
| Repository.FilterConcat | src/FileRepository.ts:83 | filtering a concatenation filters each part in order, so filters keep storage order |
| Repository.FilterDistinct | src/FileRepository.ts:23 | filtering never duplicates a stored record object |
| Repository.FindUser | src/FileRepository.ts:28 | `find`: the index of the first record of (userId, guildId); None iff there is none |
| Repository.FetchUser | src/FileRepository.ts:27-41 | find-or-create: the first matching record and the list unchanged, or one fresh zero record appended at the end and handed out |
| Repository.FetchUserCreatesIffAbsent | src/FileRepository.ts:28-39 | a record is added exactly when the identity has none |
| Repository.FetchUserTwice | src/FileRepository.ts:28-30 | a second getUser with nothing in between hands out the same record and adds nothing |
| Repository.KeptUsers | src/FileRepository.ts:22-25 | deleteUser keeps exactly the records whose user id and guild id both differ |
| Repository.RewardsAtMembers | src/FileRepository.ts:82-84 | getReward yields exactly the reward strings defined for that guild and level |
| Repository.GuildRewards | src/FileRepository.ts:86-88 | getRewards yields exactly the rewards of the guild |
| Repository.KeptRewards | src/index.ts:238-241 | the three-argument removeReward keeps exactly the rewards whose guild, level and reward all differ |
| Repository.KeptRewardsByLevel | src/FileRepository.ts:90-92 | the two-argument removeReward keeps exactly the rewards whose guild and level both differ |
| Repository.RemovalClearsGuild | src/index.ts:238-241 | after either removal the guild has no rewards left, and getReward(g, l) is empty |
| Repository.QueriesAfterAdd | src/FileRepository.ts:73-88 | adding a reward appends it to the end of exactly the queries it matches |
| Repository.User.constructor | src/FileRepository.ts:32-38 | a new record has the ids, xp 0, level 0 and the current time |
| Repository.FileRepository.WriteOneRecord | src/FileRepository.ts:28-30 | writing the fields of the handed-out object changes that record's value in the store and no other |
| Repository.FileRepository.constructor | src/FileRepository.ts:12-13 | a store with no files yet starts with no users and no rewards |
| Repository.FileRepository.DeleteUser | src/FileRepository.ts:22-25 | users becomes KeptUsers of the old list, rewards unchanged, no record object held twice |
| Repository.FileRepository.GetUser | src/FileRepository.ts:27-41 | the store's records become FetchUser's and the stored object at FetchUser's index is returned; old entries keep their places; the result is old or fresh and appended |
| Repository.FileRepository.SaveUser | src/FileRepository.ts:69-71 | both in-memory lists are unchanged |
| Repository.FileRepository.AddReward | src/FileRepository.ts:73-80 | exactly one entry appended at the end |
| Repository.FileRepository.RemoveReward | src/index.ts:238-241 | rewards becomes KeptRewards of the old list; getReward and getRewards of that guild are then empty |
| Repository.FileRepository.RemoveRewardByLevel | src/FileRepository.ts:90-92 | rewards becomes KeptRewardsByLevel of the old list; getRewards of that guild is then empty |
| Repository.FileRepository.GetReward | src/FileRepository.ts:82-84 | RewardsAt of the stored rewards, read-only; its members are RewardsAtMembers' and its growth on add is QueriesAfterAdd's |
| Repository.FileRepository.GetRewards | src/FileRepository.ts:86-88 | GuildRewards of the stored rewards, read-only: exactly the rewards of the guild |
| Progression.UpdatedRules | src/index.ts:48-51 | every update keeps the identity, stamps the time and leaves level == LevelOf(xp) |
| Progression.AppendXpKeepsLevel | src/index.ts:48-50 | adding xp to a consistent record never lowers its level |
| Progression.Updated | src/index.ts:48-100 | the four update rules on a record value; proved in UpdatedRules and ProgressUpdateRule |
| Progression.RewardCalls | src/index.ts:27-34 | the calls of handleRewards' nested loops; closed form in RewardCallsOrder, HandleRewards proved equal to it |
| Progression.LevelCalls | src/index.ts:36-40 | the calls of handleLevel's loop; HandleLevel proved equal to it |
| Progression.RewardCallsOrder | src/index.ts:27-34 | handleRewards makes (number of rewards) × (number of listeners) calls; the call at position q·n+j is listener j with reward q |
| Progression.RewardCallsAreRewardCalls | src/index.ts:27-34 | every call goes to a registered reward listener with this user, guild and one of the rewards |
| Progression.Progress | src/index.ts:42-106 | an operation passes iff the amount is positive; a rejected one leaves the records untouched and makes no call |
| Progression.ProgressLookup | src/index.ts:47-56 | afterwards getUser hands out the updated form of the record it handed out before; rewards go out iff the level changed, and only the landing level's |
| Progression.ProgressUpdateRule | src/index.ts:42-106 | appendXp: xp+amount; setXp: amount; appendLevel: level+amount; setLevel: amount; level and xp then agree; the time is stamped |
| Progression.ProgressTouchesOneRecord | src/index.ts:47-53 | only the identity's first record changes, and at most one record is added |
| Progression.ProgressPreservesConsistency | src/index.ts:42-106 | level == LevelOf(xp) for every record is preserved by every operation |
| Progression.AppendXpNeverLowersLevel | src/index.ts:48-50 | on consistent records, appendXp never lowers the level |
| Progression.AppendLevelAlwaysDispatches | src/index.ts:64-72 | appendLevel with a positive amount always dispatches, for the landing level |
| Progression.ProgressNeverCallsLevelListeners | src/index.ts:36-56 | no operation reaches a level listener |
| Progression.FirstHundredXp | src/index.ts:42-57 | appendXp(u, g, 100) on an unseen identity appends a record with xp 100, level 1 and dispatches level 1 |
| Progression.SetLevelFive | src/index.ts:92-106 | setLevel(u, g, 5) leaves xp 2500 and level 5 |
| Progression.LevelOneToTwo | src/index.ts:27-73 | a 1 -> 2 transition with one reward calls every reward listener once with it, in registration order |
| Engine.ShoyoXp.constructor | src/index.ts:3-9 | the engine holds the store and starts with no listeners and no calls; a valid store gives a valid engine |
| Engine.ShoyoXp.AddRewardListener | src/index.ts:11-13 | the listener is appended at the end |
| Engine.ShoyoXp.AddLevelListener | src/index.ts:15-17 | the listener is appended at the end |
| Engine.ShoyoXp.RemoveRoleReward | src/index.ts:19-21 | delegates to the three-argument removeReward; the reward is then absent from getReward(g, l) |
| Engine.ShoyoXp.CreateRoleReward | src/index.ts:23-25 | delegates to addReward; getReward and getRewards gain the new entry at the end |
| Engine.ShoyoXp.HandleRewards | src/index.ts:27-34 | the calls made are RewardCalls of getReward(g, l): for each reward in order, every listener in order; the records are unchanged |
| Engine.ShoyoXp.HandleLevel | src/index.ts:36-40 | every level listener in registration order, once, with the level |
| Engine.ShoyoXp.Stored | src/index.ts:47-53 | once the handed-out record is rewritten and saved, the store holds Progress's records |
| Engine.ShoyoXp.AppendXp | src/index.ts:42-57 | rejects xp <= 0 with no change at all; otherwise store, calls and outcome are exactly Progress(AppendXp); the stored record objects stay in place (the caller's handle on a record sees its new value) and at most one fresh record is appended |
| Engine.ShoyoXp.AppendLevel | src/index.ts:59-73 | rejects level <= 0 with no change at all; otherwise store, calls and outcome are exactly Progress(AppendLevel); the stored record objects stay in place (the caller's handle on a record sees its new value) and at most one fresh record is appended |
| Engine.ShoyoXp.SetXp | src/index.ts:75-90 | rejects xp <= 0 with no change at all; otherwise store, calls and outcome are exactly Progress(SetXp); the stored record objects stay in place (the caller's handle on a record sees its new value) and at most one fresh record is appended |
| Engine.ShoyoXp.SetLevel | src/index.ts:92-106 | rejects level <= 0 with no change at all; otherwise store, calls and outcome are exactly Progress(SetLevel); the stored record objects stay in place (the caller's handle on a record sees its new value) and at most one fresh record is appended |
| Engine.ShoyoXp.XpForLevelOf | src/index.ts:108-113 | the static helper returns XpForLevel (RangeError for level <= 0, else level·level·100) |

## Left out

- File I/O: loading and writing `users.json`/`rewards.json`, `mkdirSync`, `path.join` and JSON (de)serialisation are not modelled. Each write-back is a no-op on the in-memory lists. The constructor models only the case where neither file exists yet (empty lists).
- The clock: `new Date()` becomes a `now: Time` parameter of the mutators and of `GetUser`.
- Floating point: `Math.sqrt`/`Math.floor` rounding and fractional xp are not modelled. Amounts and xp are integers, and the level is the exact-real value of the formula.
- Listener bodies and exceptions thrown by listeners are not modelled. Each invocation is appended to `calls` instead.
- `src/RepositoryInterface.ts` holds declarations only. The store class's method signatures stand in for it.
- The second copy of `FileRepository` in `src/index.ts:150-243` is not modelled twice. Apart from creating the directory in its constructor (file I/O, left out above), only its three-argument `removeReward` differs, and that is `RemoveReward`. The two-argument form of `src/FileRepository.ts` is `RemoveRewardByLevel`.
- The mutators' exceptions are returned as `Outcome.Fail` values instead of being thrown.
- The method names `deleteUser(userId, guildId)` and `removeReward(guildId, level, reward)` suggest removing the one record of the identity and the one matching reward. The code filters out every entry that matches any single key. The model follows the code (`KeptUsers`, `KeptRewards`, `KeptRewardsByLevel`).
- The engine's mutators and `DeleteUser`/`GetUser` require `FileRepository.Valid()`: no record object is held twice. Records loaded from JSON are distinct objects, and every operation keeps this.
