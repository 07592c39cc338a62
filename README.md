# Rude Race: world registry, collision arbitration and client rules in Dafny

This project models the core of a browser racing game and proves properties of that model. It covers:

- the game server's in-memory world (`server/src/server.ts`). Two dictionaries, `players` and `dynamicObjects`, are changed by the socket handlers for `connection`, `playerUpdate`, `enemyUpdate`, `collisionReport` and `disconnect`.
- the server's collision arbitration. It checks a claim's own rectangles with a strict AABB test and gives one of three outcomes: slowdown, game over, or invalid.
- the client race scene (`client/src/game/scenes/MainScene.ts`). It covers the slowdown state machine, the throttled position updates, steering, the finish test and off-screen cleanup.
- the local top-ten leaderboard (`client/src/game/scenes/RaceFinishedScene.ts`).
- the Bearer-token HTTP gate (`server/src/middlewares/authMiddleware.ts`).
- find-or-create of a user by name (`src/services/userService.ts`).

Layout, one module per file:

- `wrappers.dfy`: `Option` and `Result`.
- `geometry.dfy`: rectangles and the overlap test.
- `collision.dfy`: the claim payload, `checkAABBCollision`, the verdict, the replies, and the event vocabulary.
- `game_server.dfy`: class `Server` with the handlers, and the `enemyUpdate` loop.
- `main_scene.dfy`: the pure `Pace` state machine, and class `MainScene` whose methods are proved against it.
- `leaderboard.dfy`: the leaderboard.
- `auth_middleware.dfy`: the auth gate, with `split(' ')` and `join`.
- `user_service.dfy`: find-or-create, and class `UserRepository`.
- `interplay.dfy`: properties of the pieces together.

Handlers return what they emit as a list of `Message(target, event)` records, in order. The target is the reporting socket, every other socket, or everyone. Clock readings, the random spawn point, key states, `socket.connected` and the car's position are parameters. The token generator and verifier are function parameters.

Numbers are JavaScript numbers. The model uses exact `real` arithmetic for coordinates and times. The code compares and adds them, and subtracts them in two places: `time - this.lastUpdate` in `client/src/game/scenes/MainScene.ts:235` and `a.time - b.time` in `client/src/game/scenes/RaceFinishedScene.ts:35`. Each difference only feeds a comparison or the sign the sort uses. Floating-point rounding is left out, as stated below. It uses `int` for `Date.now()` and user ids. A coordinate or size field of a collision claim holds what the sender put there: nothing, `null`, a boolean or a number. JavaScript's `+`, `<` and `>` read `null` as 0 and a boolean as 0 or 1. An absent field reads as `NaN`, so every comparison involving it is false. The server's gate checks only that `player.x` and `object.x` are numbers, so a `null` `y`, `width` or `height` takes part in the test as 0. A `collisionReport` without a payload makes the handler throw before it replies.

The model proves three properties about the pieces working together. `Interplay.ClientUpdateKeepsPlayerSize` shows that the client's position update moves the player but never resizes it. `Interplay.IssuedTokenPassesGate` shows that a token issued at login passes the HTTP gate with that user's id. `Interplay.ClientReportsAreMalformed` shows a flaw in how client and server fit together. The `collisionReport` the client sends carries only `playerId`, `objectId` and `type`. It has no `player` or `object` rectangle, so the server's gate refuses every such report with `invalidReport`. A real client hit is therefore never confirmed by the server.

## Model

| member | source | states |
|---|---|---|
| Geometry.Overlaps | server/src/server.ts:169-174 | the four strict inequalities of the overlap test on plain numbers; its properties are the `Geometry` lemmas below (symmetric, touching edges do not overlap, equivalent to a shared interior point for positive sizes) |
| Geometry.OverlapsSymmetric | server/src/server.ts:169-174 | the four-inequality overlap test gives the same answer with its operands swapped |
| Geometry.TouchingEdgesDoNotOverlap | server/src/server.ts:169-174 | rectangles that only share an edge, or lie apart on one axis, do not collide (strict inequalities) |
| Geometry.SelfOverlap | server/src/server.ts:169-174 | a rectangle of positive width and height overlaps itself |
| Geometry.OverlapsIffCommonInteriorPoint | server/src/server.ts:169-174 | for rectangles of positive size, the test holds iff some point lies strictly inside both (both directions) |
| Geometry.ZeroWidthRectangleCanOverlap | server/src/server.ts:169-174 | without positive size that equivalence fails: a zero-width rectangle can pass the test |
| Collision.ToNumber | server/src/server.ts:169-174 | how a claimed field reads as a number inside `+`, `<` and `>`: an absent field is NaN, `null` is 0, `false` and `true` are 0 and 1, a number is itself; `NullFieldsReadAsZero` exercises the `null` case |
| Collision.Add | server/src/server.ts:169-174 | `a.x + a.width` and the like on non-string operands: the sum of the two numbers, NaN if either is NaN |
| Collision.Lt | server/src/server.ts:169-174 | `<` on two numbers: false whenever either side is NaN; `CheckAABBCollisionFailsClosed` proves an absent field makes the whole test false |
| Collision.Gt | server/src/server.ts:169-174 | `>` on two numbers: false whenever either side is NaN |
| Collision.Truthy | server/src/server.ts:121 | truthiness of `playerId` and `objectId` in the gate: present and not the empty string |
| Collision.CheckAABBCollision | server/src/server.ts:160-175 | `checkAABBCollision`: false for an absent operand, otherwise the four strict comparisons, with `null` read as 0, a boolean as 0 or 1, and an absent field as NaN |
| Collision.CheckAABBCollisionOnNumbers | server/src/server.ts:160-175 | on operands with no absent field, `checkAABBCollision` is exactly the geometric overlap of the coerced rectangles |
| Collision.CheckAABBCollisionFailsClosed | server/src/server.ts:164-174 | an absent operand, or an operand with an absent field (a NaN sum or comparison), yields false |
| Collision.CheckAABBCollisionSymmetric | server/src/server.ts:160-175 | the check is symmetric in its operands, including absent and malformed ones |
| Collision.WellFormed | server/src/server.ts:121 | the gate: a payload with truthy `playerId`, `objectId` and `type`, a `player` and an `object`, and `player.x` and `object.x` of type number |
| Collision.Arbitrate | server/src/server.ts:118-150 | a missing or `null` payload throws at the destructuring; otherwise a claim is malformed iff it lacks a truthy playerId, objectId or type, a player or object, or a numeric `player.x`/`object.x`; otherwise: slowdown iff the claim's rectangles overlap and type is "obstacle", gameOver iff they overlap and type is "npc", invalid iff they do not overlap |
| Collision.ReportReplies | server/src/server.ts:121-149 | the replies for each verdict, in emission order: `invalidReport` only, or `collisionResult` (damage 25 on slowdown) to the sender, with `objectDestroyed` to everyone only after a slowdown; none for an overlapping claim of another type, nor when the handler throws |
| Collision.AfterReport | server/src/server.ts:129-139 | only a slowdown changes the registry, and it removes exactly `objectId`; every remaining entry is unchanged |
| Collision.SlowdownRepliesThenBroadcasts | server/src/server.ts:129-149 | some reply goes to everyone iff the verdict is slowdown; a slowdown gives exactly the slowdown result (damage 25) to the sender, then one `objectDestroyed` |
| Collision.VerdictDependsOnClaimedGeometry | server/src/server.ts:129 | the verdict is a function of the claim's own rectangles and type, not of anything the server holds |
| Collision.WorkedClaims | server/src/server.ts:129-149 | a 40x80 player at (100,100) against a 50x50 obstacle at (110,120) is a slowdown; disjoint 10x10 boxes are invalid |
| Collision.NullFieldsReadAsZero | server/src/server.ts:121-174 | a `null` player y counts as 0 and the obstacle claim is a slowdown; the same claim with y left out is invalid; a `null` x is malformed |
| Collision.Bounds | server/src/server.ts:189 | the rectangle of a registered object (its x, y, width, height); `GameServer.Server.ValidateCollision` proves the check on the two registered objects is `Overlaps` of their bounds |
| Collision.AsPayload | server/src/server.ts:189 | the registered object handed to `checkAABBCollision` as a payload whose four fields are numbers, so the test reads them exactly (`CheckAABBCollisionOnNumbers`) |
| GameServer.MergeUpdate | server/src/server.ts:74-81 | each of x, y, width, height is replaced only when provided and kept otherwise; id is the socket id; lastUpdate is now |
| GameServer.ValidEnemy | server/src/server.ts:104-106 | the per-entry guard: the entry is not `null` or `undefined`, its `id` is a string and `x`, `y`, `width` and `height` are numbers (type tests, so 0 and the empty string pass) |
| GameServer.Upsert | server/src/server.ts:107 | one entry of the `forEach`: a valid entry is stored under its id with the given time stamp, replacing any earlier object; an invalid entry, or one with id "__proto__", stores nothing (`ProtoEntryIsNotStored`) |
| GameServer.UpsertEnemies | server/src/server.ts:103-111 | the `forEach` over a payload upserts each valid entry in turn, with its own clock reading; no identifier already registered is lost |
| GameServer.UpsertEnemiesAt | server/src/server.ts:103-111 | an id that no valid entry names, and the id "__proto__", is untouched; any other id that valid entries name maps to the last such entry, stamped with the clock reading taken for that entry; malformed entries are skipped |
| GameServer.UpsertEnemiesUntouched | server/src/server.ts:103-111 | an id that no valid entry names, or "__proto__", keeps its registry entry or its absence |
| GameServer.UpsertEnemiesLastWins | server/src/server.ts:103-111 | any other id that valid entries name maps to the last such entry, stamped with that entry's own clock reading |
| GameServer.ProtoEntryIsNotStored | server/src/server.ts:103-108 | an entry named "__proto__" passes the guard but is not stored; the next entry is stored with its own clock reading |
| GameServer.Server.constructor | server/src/server.ts:43-46 | the world starts with no players and no dynamic objects |
| GameServer.Server.OnConnection | server/src/server.ts:48-67 | inserts `players[id]` at the spawn point with width 40, height 80, lastUpdate now; objects unchanged; sends `gameInit` to the socket and `playerJoined` to the others |
| GameServer.Server.OnPlayerUpdate | server/src/server.ts:71-95 | for a known id, replaces only that player by the merged record and sends `playerMoved` to the others; for an unknown id nothing changes and nothing is sent |
| GameServer.Server.OnEnemyUpdate | server/src/server.ts:98-115 | a non-array payload changes nothing and sends nothing; otherwise the registry becomes the in-order upsert of the valid entries (`UpsertEnemies`, one clock reading per entry), players are untouched, and everyone gets `enemiesMoved` with the whole registry |
| GameServer.Server.OnCollisionReport | server/src/server.ts:118-150 | players unchanged; objects changed only as `AfterReport` says; emits exactly `ReportReplies` |
| GameServer.Server.OnDisconnect | server/src/server.ts:152-156 | deletes exactly `players[id]`, leaves every other player and all objects unchanged, and sends `playerDisconnected` to everyone |
| GameServer.Server.ValidateCollision | server/src/server.ts:179-190 | true iff both ids are registered and their server-held rectangles overlap |
| MainScene.ShouldSendPosition | client/src/game/scenes/MainScene.ts:235 | a frame sends its position iff more than 100 ms passed since the last sent update and the socket is connected; `SendTimesSpaced` proves sent times are more than 100 ms apart |
| MainScene.Step | client/src/game/scenes/MainScene.ts:145-242 | one callback's effect on the pace: a frame never touches the speed, and `lastUpdate` changes only to the time of a frame more than 100 ms after it |
| MainScene.StepKeepsSpeedInvariant | client/src/game/scenes/MainScene.ts:145-171 | an overlap while slowed changes nothing and reports nothing; otherwise it sets speed 50 and slowed; expiry restores speed 200 and not slowed; the invariant holds after each step |
| MainScene.RunKeepsSpeedInvariant | client/src/game/scenes/MainScene.ts:9-19 | along any sequence of overlaps, expiries and frames, speed stays in {50, 200} and `isSlowed` holds iff speed is 50 |
| MainScene.SendTimesSpaced | client/src/game/scenes/MainScene.ts:235-242 | over any run, the first update comes more than 100 ms after `lastUpdate`, consecutive updates are more than 100 ms apart, and `lastUpdate` ends as the last update's time |
| MainScene.SteeringVelocity | client/src/game/scenes/MainScene.ts:218-224 | left pressed gives -speed (left wins), only right gives +speed, neither gives 0 |
| MainScene.SteeringSpeeds | client/src/game/scenes/MainScene.ts:218-224 | under the speed invariant the sideways velocity is one of 0, ±50, ±200 |
| MainScene.ReachedFinish | client/src/game/scenes/MainScene.ts:230-232 | the race is over once the car's y is above the finish line's y plus 20 |
| MainScene.OnScreen | client/src/game/scenes/MainScene.ts:245-254 | the sprites a cleanup should keep, in order: those not below the camera; `OnScreenExactly` proves a sprite is kept iff it was there and is on screen |
| MainScene.OnScreenExactly | client/src/game/scenes/MainScene.ts:245-254 | the cleanup keeps a sprite iff it was in the group and its y is not below the camera height |
| MainScene.LiveSweep | client/src/game/scenes/MainScene.ts:246-253 | the sweep as written: walking the live children array while each destroy splices it; never longer than the group |
| MainScene.LiveSweepSkipsNeighbour | client/src/game/scenes/MainScene.ts:246-253 | as written, with two adjacent sprites below the camera, only the first is destroyed |
| MainScene.LiveSweepKeepsOnScreen | client/src/game/scenes/MainScene.ts:246-253 | as written, the sweep never destroys an on-screen sprite and adds none |
| MainScene.SweepGroup | client/src/game/scenes/MainScene.ts:247-252 | one group's sweep keeps exactly the on-screen sprites, in order |
| MainScene.MainScene.constructor | client/src/game/scenes/MainScene.ts:9-19 | speed 200, not slowed, lastUpdate 0, empty player id |
| MainScene.MainScene.OnConnect | client/src/game/scenes/MainScene.ts:29-32 | the socket's id becomes the player id |
| MainScene.MainScene.HandleObstacleOverlap | client/src/game/scenes/MainScene.ts:145-171 | the pace fields follow `Step`; one `collisionReport` of type "obstacle" with the obstacle's name is sent iff the car was not slowed and the socket is connected; it schedules one restore timer of `SlowDuration` (2000 ms) iff the car was not already slowed |
| MainScene.MainScene.OnSlowExpired | client/src/game/scenes/MainScene.ts:166-170 | the pace fields follow `Step`: normal speed, not slowed |
| MainScene.MainScene.HandleNpcCollision | client/src/game/scenes/MainScene.ts:173-186 | always pauses, whatever the speed state; reports type "npc" with the NPC's name iff connected |
| MainScene.MainScene.CleanupObjects | client/src/game/scenes/MainScene.ts:245-254 | the corrected sweep of the finding: both groups keep exactly their on-screen sprites (as written, a sprite right after a destroyed one survives the frame) |
| MainScene.MainScene.Update | client/src/game/scenes/MainScene.ts:213-243 | velocity from the keys; the corrected cleanup; finished once `carY < finishLineY + 20`; a `playerUpdate` is sent and `lastUpdate` set to `time` iff `time - lastUpdate > 100` and connected |
| Leaderboard.Stored | client/src/game/scenes/RaceFinishedScene.ts:28-29 | the saved high scores, or an empty list when nothing was saved; `RecordScore` starts from it |
| Leaderboard.Insert | client/src/game/scenes/RaceFinishedScene.ts:35 | inserting one score lengthens the list by one |
| Leaderboard.SortByTime | client/src/game/scenes/RaceFinishedScene.ts:35 | the sort keeps the length |
| Leaderboard.SortByTimeSortedPermutation | client/src/game/scenes/RaceFinishedScene.ts:35 | the sort's result is ascending by time and a permutation of its input |
| Leaderboard.SortByTimeStable | client/src/game/scenes/RaceFinishedScene.ts:35 | the sort is stable: for every time, the entries with that time keep their order |
| Leaderboard.SortByTimeKeepsCount | client/src/game/scenes/RaceFinishedScene.ts:35 | for every time, the sort keeps the number of entries at most that time |
| Leaderboard.InsertSplit | client/src/game/scenes/RaceFinishedScene.ts:32-35 | in a sorted list, a new score lands right after every entry with time at most its own |
| Leaderboard.KeptPrefixOfSorted | client/src/game/scenes/RaceFinishedScene.ts:35-38 | the cut list is sorted and a sub-multiset of the input, and no dropped entry is faster than a kept one |
| Leaderboard.NewScorePosition | client/src/game/scenes/RaceFinishedScene.ts:32-38 | the pushed score sits at the index equal to the number of stored entries with time at most its own |
| Leaderboard.RecordScore | client/src/game/scenes/RaceFinishedScene.ts:25-41 | result sorted; length min(stored + 1, 10); multiset within stored plus new; dropped times ≥ kept times; a missing list gives exactly [new]; the new score is kept, at its position, iff fewer than 10 stored entries have time ≤ its own, else the result is the stored top ten |
| AuthMiddleware.StartsWith | server/src/middlewares/authMiddleware.ts:11 | `startsWith`: the header's first characters are exactly the prefix; `PrefixIsExact` shows case and the space matter |
| AuthMiddleware.TruthyId | server/src/middlewares/authMiddleware.ts:19 | the `!decoded.userId` test: a missing id, the number 0 and the empty string are all refused; `Authenticate` rejects exactly those |
| AuthMiddleware.Split | server/src/middlewares/authMiddleware.ts:16 | `split` yields at least one part and no part holds the separator |
| AuthMiddleware.JoinSplit | server/src/middlewares/authMiddleware.ts:16 | joining the parts of a split gives the string back |
| AuthMiddleware.SplitJoin | server/src/middlewares/authMiddleware.ts:16 | splitting a join of separator-free parts gives the parts back |
| AuthMiddleware.TakeUntil | server/src/middlewares/authMiddleware.ts:16 | the text up to the first space: a prefix without a space, followed by a space or the end |
| AuthMiddleware.BearerToken | server/src/middlewares/authMiddleware.ts:16-17 | after "Bearer ", `split(' ')[1]` exists and is the text up to the next space |
| AuthMiddleware.Authenticate | server/src/middlewares/authMiddleware.ts:8-26 | missing header or no exact "Bearer " prefix gives 401; otherwise the token up to the next space goes to the verifier; null or a falsy userId gives 401; else the request proceeds with that userId. Each call gives exactly one of a 401 or proceeding |
| AuthMiddleware.PrefixIsExact | server/src/middlewares/authMiddleware.ts:11 | "bearer x" and "Bearerx" are refused: the prefix is case-sensitive and includes the space |
| UserService.IsJsWhitespace | src/services/userService.ts:15 | the characters `trim` removes: the ECMAScript white space and line terminators |
| UserService.Trim | src/services/userService.ts:15 | `name.trim()`; `TrimShape` proves the result is the name minus a leading and a trailing run of white space, with no white space left at either end |
| UserService.TrimStartShape | src/services/userService.ts:15 | trimming the start removes exactly a leading run of white space and leaves a result that does not start with white space |
| UserService.TrimEndShape | src/services/userService.ts:15 | trimming the end removes exactly a trailing run of white space and leaves a result that does not end with white space |
| UserService.TrimShape | src/services/userService.ts:15 | the trimmed name is a slice of the name, everything outside the slice is white space, and a non-empty result neither starts nor ends with white space |
| UserService.IsBlank | src/services/userService.ts:15 | the blank-name guard: the name is empty, or empty after `trim` |
| UserService.BlankIffAllWhitespace | src/services/userService.ts:15 | the blank-name guard (empty, or empty after `trim`) holds iff every character is JavaScript white space |
| UserService.FindOrCreate | src/services/userService.ts:14-30 | a failure leaves the table alone; the table gains at most the given name, and the id sequence advances exactly when it does |
| UserService.FindOrCreateCases | src/services/userService.ts:14-30 | blank name: error, table untouched; known name: that user's id and name, nothing added; new name: exactly one user added under it, with a fresh id; every success carries the token issued for its id |
| UserService.FindOrCreateIdempotent | src/services/userService.ts:19-28 | a second call with the same name, possibly later, changes nothing: the same error, or the same id and name with a token issued for that id at the second call; the table grows by at most one over both |
| UserService.UntrimmedNamesAreDistinct | src/services/userService.ts:15-19 | "bob " and "bob" are different keys: the lookup uses the untrimmed name |
| UserService.UserRepository.constructor | src/services/userService.ts:12 | an empty user table whose id sequence starts at 1 |
| UserService.UserRepository.FindOrCreateUser | src/services/userService.ts:14-30 | the new table and the result are those of `FindOrCreate`; table invariants kept |
| Interplay.ClientReportsAreMalformed | server/src/server.ts:121-125 | the client's report, which has no rectangles, is always malformed at the server: only `invalidReport`, registry unchanged |
| Interplay.ClientUpdateKeepsPlayerSize | server/src/server.ts:74-81 | the client's `{x, y, speed}` update moves the player, keeps its width and height, and drops `speed` |
| Interplay.IssuedTokenPassesGate | server/src/middlewares/authMiddleware.ts:11-25 | a token issued by find-or-create, sent as "Bearer <token>", passes the gate with that user's id, given a verifier that accepts it and a token without spaces |

## Findings

| source | as written | input that shows it | evidently intended | confidence | as-written member | corrected member |
|---|---|---|---|---|---|---|
| client/src/game/scenes/MainScene.ts:246-253 | `forEach` walks `group.getChildren()`, the group's live children array, while each `destroy()` splices that sprite out of the same array | two adjacent sprites below the camera: the second moves into the first's slot and is not visited, so it survives the frame (`LiveSweepSkipsNeighbour`) | every sprite below the camera is destroyed in the call (`OnScreenExactly`) | medium, not executed; rests on Phaser's Group removing a destroyed child from the array `getChildren` returns; the survivor is swept on a later frame | MainScene.LiveSweep | MainScene.SweepGroup |

## Left out

- Race start/finish timing and a minimum-race-time check: `server/src/server.ts` registers no such handler.
- Per-object claim deduplication: the code does not implement it.
- Socket.io transport, CORS, server start-up and logging. Emits are returned as message lists. No delivery or ordering across sockets is modelled.
- `Date.now()`, `Math.random()`, Phaser's frame time, key states, car and finish-line positions and `socket.connected` are parameters.
- Phaser rendering, physics, tweens, camera shake, alpha changes, asset loading and random spawning. The preload and game-over scenes and the leaderboard text display are also left out.
- MainScene.MainScene.CleanupObjects: the class applies the corrected sweep (`SweepGroup`), not the one as written. The as-written sweep leaves a sprite that directly follows a destroyed one for a later frame. `LiveSweep` models it, and the Findings table records the difference. `MainScene.MainScene.Update` inherits this.
- MainScene.MainScene.OnSlowExpired: Phaser's clock is not modelled. `HandleObstacleOverlap` returns the 2000 ms delay of the timer it schedules, but the model does not check when the expiry arrives; any sequence of signals is allowed. The `obstacle.setAlpha(1)` in the callback is also left out.
- MainScene.MainScene.Update: runs the corrected sweep (`SweepGroup`) at the end of every frame. The source's `update` (`client/src/game/scenes/MainScene.ts:213-243`) calls the as-written `cleanupObjects`, which can leave a sprite below the camera for a later frame, so the model's groups after a frame can hold fewer sprites than the game's.
- Phaser stops calling `update` and physics callbacks on a paused scene. The model does not enforce that.
- GameServer.Server.OnPlayerUpdate: a field sent as `null` or a non-number is stored as-is by the source. The model only has numbers and undefined. A `null` or `undefined` payload, which throws at `data.x` in the source, is not modelled. A number, string or boolean payload reads every field as undefined. The model covers that case with `PlayerUpdateData(None, None, None, None)`.
- Collision.CheckAABBCollision: JavaScript numbers are IEEE doubles, and the model computes with exact reals. In the source, sums round: `1e16 + 1 === 1e16`, so a 1-wide player at x = 1e16 against an object at x = 1e16 is invalid there but a slowdown in the model. `JSON.parse` reads an out-of-range literal such as `1e400` as `Infinity`. Neither is modelled. Leaderboard times, `Date.now()` readings and client positions are exact in the model for the same reason.
- Collision.CheckAABBCollision: a string, array or object in a coordinate or size field is not modelled. JavaScript's `+` would concatenate it, and `<` and `>` would compare strings.
- Collision.Arbitrate: a missing or `null` payload ends in a TypeError with no reply and no change. What Node and socket.io do with that uncaught exception afterwards is not modelled.
- Collision.Arbitrate: string fields are modelled as strings. Truthy non-string ids and JavaScript's coercion of numeric strings in comparisons are not modelled.
- GameServer.UpsertEnemies: storing under "__proto__" replaces the prototype of `gameState.dynamicObjects`. Later lookups then inherit that entry's fields, for example `dynamicObjects["x"]` in `validateCollision`. The model stores nothing for that id and does not model the inherited fields.
- GameServer.Server.OnEnemyUpdate: the spread `{...enemy}` keeps extra properties of an entry. The model stores only id, x, y, width, height and lastUpdate.
- Leaderboard persistence: the `localStorage` read, JSON parse and write are left out. The stored list is an input, with a missing or empty key given as `None`.
- Leaderboard.SortByTime: models JavaScript's stable sort with a numeric comparator. NaN times are not modelled.
- UserService.FindOrCreate: database ids come from a sequence modelled by `nextId`, starting at 1. Database errors from `save` are not modelled, and neither are concurrent calls racing on the unique name.
- `verifyToken` and `generateToken` (JWT signing, expiry) are opaque function parameters. `issue` stands for the generator at the moment of one call. The issue time and expiry it stamps into the token are not modelled, so two calls may get different tokens.
- React UI, Express routes and controllers, TypeORM data sources and entities, and the match service are left out. These are plumbing over HTTP and the ORM.
