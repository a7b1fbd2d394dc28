# Multiplayer cube scene managers in Dafny

This project models the client-side bookkeeping of a small browser game.
Players push cubes around a plane, and a socket server relays their positions.

The main model is `FeaturesSceneManager.SceneManager` (src/features/SceneManager). It keeps:

- the local player's physics body and mesh;
- the finish mesh;
- a winner latch;
- the `activePlayers` collection of remote players, each an `(id, body, mesh)` record;
- the physics world and the render scene.

Its handlers are the keydown listener, the per-frame `update`, and the socket events `getFinish`, `getPlayer`, `joinPlayer`, `getActivePlayers`, `getPlayers`, `getWinner` and `disconnectPlayer`.

The second model is `ModelsSceneManager.SceneManager` (src/models/SceneManager), the older scene manager. It keeps the set of held keys and moves a shared cube by one unit per held movement key on every frame.

How the state is represented:

- **Physics world and render scene.** These are sets of body and mesh handles (`world`, `scene`).
- **Body and mesh contents.** What a body or mesh is (pose, name, colour) lives in the maps `bodies` and `meshes`. Every `new Body` / `new Mesh` takes a handle never used before (`nextBody`, `nextMesh`).
- **`activePlayers`.** The source uses a JavaScript `Set` of freshly created objects, iterated in insertion order. It is modelled as a sequence of `Entry` values. Entries with the same player id are still distinct, because their handles differ.
- **Outbound messages.** These are appended to the log `emitted`.
- **`world.step`.** This is the parameter `step` of `Update`: any function from the poses of the bodies in the world to new poses. Nothing is assumed about it.
- **`socket.id`.** It is the constructor parameter `socketId`.
- **Handler contracts.** Each handler is specified against a pure function of the state snapshot `State()`: `Join`, `JoinAll`, `Disconnect`, `StepWorld`, `Teleported` with `LastPosition`, and `KeyOffset`. The properties are proved as lemmas about those functions.
- **The `Valid()` invariant.** Every handler keeps `Valid()` (`Consistent(State())`):
  - every entry's body is in the world and its mesh in the scene, both tagged with the entry's id;
  - no two entries share a handle;
  - no entry shares a handle with the local player or the finish mesh.

The winner latch `isWinnerExists` is in the `modifies` clause of `GetWinner` only. So once it is set, no handler clears it. While it is set, or before `getPlayer` has run, `HandleKeyDown` changes nothing and emits nothing.

## Model

| member | source | states |
|---|---|---|
| Keys.Lower | src/features/SceneManager/SceneManager.ts:105 | `toLowerCase` keeps the length and lowers every ASCII capital, position by position |
| Keys.LowerIdempotent | src/models/SceneManager/SceneManager.ts:37 | lowering an already lowered key name changes nothing |
| Keys.LowerIsLetter | src/features/SceneManager/SceneManager.ts:105-117 | a key lowers to a one-letter name exactly when it is that letter in either case |
| FeaturesSceneManager.KeyOffsetSpec | src/features/SceneManager/SceneManager.ts:104-118 | exactly `w`/`W` add 1 to x, `s`/`S` take 1 from x, `a`/`A` take 1 from z, `d`/`D` add 1 to z; every other key moves nothing; y never moves and no key moves both x and z |
| FeaturesSceneManager.KeyOffsetIgnoresCase | src/features/SceneManager/SceneManager.ts:105 | the move a key causes does not depend on its case |
| FeaturesSceneManager.OppositeKeysCancel | src/features/SceneManager/SceneManager.ts:106-117 | `w` then `s`, or `a` then `d`, return the body to where it was (exactly, on real coordinates) |
| FeaturesSceneManager.StepWorld | src/features/SceneManager/SceneManager.ts:91 | stepping the world keeps every body and every body's name, and leaves every body outside the world unchanged |
| FeaturesSceneManager.CopyPosesFrame | src/features/SceneManager/SceneManager.ts:94-97 | the per-entry copy adds or removes no mesh, changes no name or colour, and leaves meshes no entry owns unchanged |
| FeaturesSceneManager.CopyPosesSpec | src/features/SceneManager/SceneManager.ts:94-97 | with distinct entry meshes, every entry's mesh ends up with its body's position and quaternion and is otherwise unchanged |
| FeaturesSceneManager.SyncSpec | src/features/SceneManager/SceneManager.ts:94-100 | after the copy step, every entry mesh and the local mesh have their body's pose; names, colours and all other meshes are unchanged; consistency is kept |
| FeaturesSceneManager.JoinKeepsConsistent | src/features/SceneManager/SceneManager.ts:152-169 | a join uses fresh handles, so every entry stays placed and handles stay distinct |
| FeaturesSceneManager.SpawnKeepsConsistent | src/features/SceneManager/SceneManager.ts:135-150 | a new local player uses fresh handles, so consistency is kept even when an old local body is left behind |
| FeaturesSceneManager.PlaceFinishKeepsConsistent | src/features/SceneManager/SceneManager.ts:125-133 | a new finish mesh uses a fresh handle, so consistency is kept |
| FeaturesSceneManager.BodiesMovedKeepsConsistent | src/features/SceneManager/SceneManager.ts:107-116 | moving bodies without adding, removing or renaming any keeps consistency |
| FeaturesSceneManager.MeshesMovedKeepsConsistent | src/features/SceneManager/SceneManager.ts:94-100 | changing mesh poses without adding, removing or renaming any keeps consistency |
| FeaturesSceneManager.DisconnectKeepsConsistent | src/features/SceneManager/SceneManager.ts:221-229 | after removing the entries with an id, every remaining entry is still placed in the world and scene, and handles stay distinct |
| FeaturesSceneManager.DisconnectIdempotent | src/features/SceneManager/SceneManager.ts:221-229 | a second `disconnectPlayer` with the same id changes nothing |
| FeaturesSceneManager.JoinThenDisconnect | src/features/SceneManager/SceneManager.ts:152-169 | disconnecting a freshly joined id that no other entry carries restores the entries, the world and the scene |
| FeaturesSceneManager.JoinAllEntries | src/features/SceneManager/SceneManager.ts:171-192 | joining a list of players appends one entry per player, in order, and uses one body and one mesh handle each |
| FeaturesSceneManager.JoinAllBodies | src/features/SceneManager/SceneManager.ts:174-181 | joining a list of players creates exactly the bodies `JoinedBodies` |
| FeaturesSceneManager.JoinAllWorld | src/features/SceneManager/SceneManager.ts:182 | joining a list of players adds exactly their new bodies to the world |
| FeaturesSceneManager.JoinAllMeshes | src/features/SceneManager/SceneManager.ts:184-186 | joining a list of players creates exactly the meshes `JoinedMeshes` |
| FeaturesSceneManager.JoinAllScene | src/features/SceneManager/SceneManager.ts:187 | joining a list of players adds exactly their new meshes to the scene |
| FeaturesSceneManager.JoinedSpec | src/features/SceneManager/SceneManager.ts:171-192 | entry k of the appended ones carries player k's id; its body is at player k's position and its mesh in player k's colour; no other handle is used |
| FeaturesSceneManager.JoinedEntries | src/features/SceneManager/SceneManager.ts:189 | entry k of the appended ones carries player k's id and the k-th new body and mesh handles |
| FeaturesSceneManager.JoinedBodiesSpec | src/features/SceneManager/SceneManager.ts:174-182 | the new bodies are exactly the next handles, one per player, body k at player k's position and named by its id |
| FeaturesSceneManager.JoinedMeshesSpec | src/features/SceneManager/SceneManager.ts:184-187 | the new meshes are exactly the next handles, one per player, mesh k named by player k's id and in its colour |
| FeaturesSceneManager.JoinedSkipsOwnId | src/features/SceneManager/SceneManager.ts:173 | no appended entry carries the client's own id |
| FeaturesSceneManager.ActivePlayersAdmitted | src/features/SceneManager/SceneManager.ts:171-192 | `getActivePlayers` keeps the old entries in front, gives no new entry the client's own id, and gives every other payload player an entry |
| FeaturesSceneManager.TeleportEntriesFrame | src/features/SceneManager/SceneManager.ts:196-200 | one update adds or removes no body, renames none, and leaves bodies no entry owns unchanged |
| FeaturesSceneManager.TeleportEntriesSpec | src/features/SceneManager/SceneManager.ts:196-200 | with distinct entry bodies, one update moves exactly the entries carrying its id to its position, keeping their orientation |
| FeaturesSceneManager.ApplyUpdatesSpec | src/features/SceneManager/SceneManager.ts:194-202 | after all updates, each entry body is at the position of the last update carrying its id, or unchanged if none does; every other body is unchanged and no body is added |
| FeaturesSceneManager.SceneManager.constructor | src/features/SceneManager/SceneManager.ts:31-37 | a new manager has no entries, no local player, no finish, an empty world and scene, and no winner |
| FeaturesSceneManager.SceneManager.AddBody | src/features/SceneManager/SceneManager.ts:153-161 | a new body takes the next handle, is tagged with the name, sits at the position and is added to the world |
| FeaturesSceneManager.SceneManager.AddMesh | src/features/SceneManager/SceneManager.ts:163-166 | a new mesh takes the next handle, is tagged and coloured, and is added to the scene |
| FeaturesSceneManager.SceneManager.Update | src/features/SceneManager/SceneManager.ts:90-101 | the world is stepped once, with time step 1/60; then the meshes are `Sync` of the stepped state |
| FeaturesSceneManager.SceneManager.SyncMeshes | src/features/SceneManager/SceneManager.ts:94-100 | the meshes become `Sync` of the state, and consistency is kept |
| FeaturesSceneManager.SceneManager.CopyEntryPoses | src/features/SceneManager/SceneManager.ts:94-97 | the loop over the entries computes `CopyPoses` |
| FeaturesSceneManager.SceneManager.HandleKeyDown | src/features/SceneManager/SceneManager.ts:103-122 | with no winner and a local body, the body moves by the key's offset and exactly one `setPlayer` carrying the new position is emitted, even for unmapped keys; otherwise nothing changes |
| FeaturesSceneManager.SceneManager.GetFinish | src/features/SceneManager/SceneManager.ts:125-133 | the state becomes `PlaceFinish` of the old state: a new finish mesh at the payload position, in the payload colour, joins the scene |
| FeaturesSceneManager.SceneManager.GetPlayer | src/features/SceneManager/SceneManager.ts:135-150 | the state becomes `Spawn` of the old state: a new local body at the payload position and a new local mesh; any previous ones stay |
| FeaturesSceneManager.SceneManager.JoinPlayer | src/features/SceneManager/SceneManager.ts:152-169 | the state becomes `Join` of the old state: one more entry with the payload id, with no duplicate check |
| FeaturesSceneManager.SceneManager.GetActivePlayers | src/features/SceneManager/SceneManager.ts:171-192 | the state becomes `JoinAll` over the payload players whose id is not the client's own |
| FeaturesSceneManager.SceneManager.ActivatePlayer | src/features/SceneManager/SceneManager.ts:172-190 | one payload player joins unless it carries the client's own id |
| FeaturesSceneManager.SceneManager.GetPlayers | src/features/SceneManager/SceneManager.ts:194-202 | the bodies become `ApplyUpdates` of the payload: each entry body is at its last update's position, every other body is unchanged, and no entry is created |
| FeaturesSceneManager.SceneManager.TeleportMatching | src/features/SceneManager/SceneManager.ts:196-200 | the inner loop computes `TeleportEntries` for one update |
| FeaturesSceneManager.SceneManager.GetWinner | src/features/SceneManager/SceneManager.ts:204-205 | the winner latch is set |
| FeaturesSceneManager.SceneManager.DisconnectPlayer | src/features/SceneManager/SceneManager.ts:221-229 | the state becomes `Disconnect` of the old state, and consistency is kept |
| FeaturesSceneManager.SceneManager.RemoveEntries | src/features/SceneManager/SceneManager.ts:222-228 | every entry with the id leaves the collection, in place and in order; its body leaves the world and its mesh the scene |
| Players.WithoutIdMembers | src/features/SceneManager/SceneManager.ts:221-229 | an entry survives a disconnect exactly when it was there with another id |
| Players.WithoutIdDistinct | src/features/SceneManager/SceneManager.ts:221-229 | removing entries keeps the remaining handles distinct |
| Players.WithoutAbsentId | src/features/SceneManager/SceneManager.ts:221-229 | disconnecting an id that no entry carries removes nothing |
| Players.WithIdOwners | src/features/SceneManager/SceneManager.ts:224-225 | a body or mesh is removed exactly when an entry with the id owns it |
| Players.DisconnectTwiceIsNoOp | src/features/SceneManager/SceneManager.ts:221-229 | after a disconnect no entry has the id, so a second one keeps every entry and removes nothing |
| Players.OthersMembers | src/features/SceneManager/SceneManager.ts:173 | a payload player is admitted exactly when its id differs from the client's own |
| Players.OthersWithoutOwnId | src/features/SceneManager/SceneManager.ts:172-173 | a payload without the client's own id is admitted whole, in order |
| Players.LastPositionSpec | src/features/SceneManager/SceneManager.ts:194-202 | an id keeps its position exactly when no update carries it; otherwise it moves to the position of the last update that does |
| ModelsSceneManager.InputStepSpec | src/models/SceneManager/SceneManager.ts:44-60 | one input step moves x by (w held) − (s held) and z by (d held) − (a held), and never moves y |
| ModelsSceneManager.OpposingKeysCancel | src/models/SceneManager/SceneManager.ts:45-59 | holding `w` and `s` together leaves x alone; holding `a` and `d` together leaves z alone |
| ModelsSceneManager.NoMovementKeyNoMove | src/models/SceneManager/SceneManager.ts:44-60 | only the four movement keys matter; with none held the cube stays put |
| ModelsSceneManager.HoldingForward | src/models/SceneManager/SceneManager.ts:28-47 | n frames with only `w` held add exactly n to x and change nothing else |
| ModelsSceneManager.KeyDown | src/models/SceneManager/SceneManager.ts:37 | after a keydown the lowered key is held, every key held before still is, and nothing else was added |
| ModelsSceneManager.KeyUp | src/models/SceneManager/SceneManager.ts:41 | after a keyup the lowered key is not held, nothing else was let go, and nothing was added |
| ModelsSceneManager.PressReleaseAnyCase | src/models/SceneManager/SceneManager.ts:32-42 | pressing a key that is not held and then releasing it, in either case, restores the held set |
| ModelsSceneManager.KeySetLaws | src/models/SceneManager/SceneManager.ts:32-42 | pressing a held key again, or releasing a key that is not held, changes nothing; the stored name is lower case |
| ModelsSceneManager.ShiftedKeyMoves | src/models/SceneManager/SceneManager.ts:37 | any letter key pressed in upper case (Shift held) moves the cube exactly as the lower-case letter does |
| ModelsSceneManager.BasicCube.constructor | src/models/BasicCube/BasicCube.ts:3 | the cube mesh starts at the origin |
| ModelsSceneManager.SceneManager.constructor | src/models/SceneManager/SceneManager.ts:7-12 | a new manager holds no keys |
| ModelsSceneManager.SceneManager.Update | src/models/SceneManager/SceneManager.ts:28-30 | a frame is exactly one input step |
| ModelsSceneManager.SceneManager.HandleKeyDown | src/models/SceneManager/SceneManager.ts:32-38 | the held set becomes `KeyDown` of the old one: the lowered key is added |
| ModelsSceneManager.SceneManager.HandleKeyUp | src/models/SceneManager/SceneManager.ts:40-42 | the held set becomes `KeyUp` of the old one: the lowered key is removed |
| ModelsSceneManager.SceneManager.UpdateInput | src/models/SceneManager/SceneManager.ts:44-60 | the in-place updates of the cube's coordinates amount to `InputStep` of the held keys |

## Left out

- `init` of both managers: lights, helpers, the ground plane and its static body, the galaxy sphere, and the `document.addEventListener` wiring. This is scene decoration and I/O.
- `CannonDebugger` and its per-frame `update`. It is a debug visualiser.
- The physics solver and gravity. `world.step` is an arbitrary function passed to `Update`.
- Body mass, box shape and collision filter group and mask. They only matter to the solver.
- Mesh geometry, materials and `castShadow`. A mesh keeps only its pose, name and colour.
- The socket.io connection itself. Handlers are methods, and emits are appended to a log.
- The DOM banner of `getWinner`. It is UI only.
- GetFinish: the finish mesh's quarter-turn `rotateX(-π/2)` is not modelled, so its quaternion stays the identity. The rotation involves irrational numbers and nothing reads it.
- `socket.id` is undefined until the socket connects. The model takes it as a fixed string.
- `setPlayer` is emitted with a reference to the body's position. The log keeps the value at emit time.
- Bodies and meshes removed by `disconnectPlayer` are not garbage-collected from `bodies`/`meshes`. They only leave the world and the scene, which is what the source does.
- Keys.Lower: only ASCII capitals are lowered. The movement keys are ASCII letters, so which keys move is decided exactly. A non-ASCII key name may lower differently in a browser.
- FeaturesSceneManager.SceneManager.GetWinner: the winner id is only shown in the banner, so it is not kept.
- Positions are exact real numbers, not IEEE doubles. Two things this abstraction hides: `world.step` moves bodies to arbitrary doubles, and `+= 1` / `-= 1` on a double rounds (`0.1 + 1 - 1` is not `0.1`, and at magnitudes of 2^53 and above `x + 1 == x`).
- FeaturesSceneManager.OppositeKeysCancel: holds for the model's real coordinates; in the browser it holds exactly only for whole-number coordinates below 2^53 in magnitude, where doubles add 1 without rounding.
- FeaturesSceneManager.SceneManager.HandleKeyDown: the moved position is the exact real sum; the browser's double sum can differ from it by rounding for non-integer or very large coordinates.
- ModelsSceneManager.InputStepSpec, ModelsSceneManager.OpposingKeysCancel and ModelsSceneManager.HoldingForward: exact over reals, with the same rounding caveat for the cube's double coordinates.
- src/index.ts (the animation loop), webpack.config.ts and src/configs/*: not part of this model. They construct objects or configure the build.
- `handleKeyDown` moves without any wall-proximity check, `joinPlayer` and `getActivePlayers` add an entry even when one with that id exists, and a second `getPlayer` leaves the old local body in the world. The model follows the code in all three.
- The optional chaining (`?.`) on an entry's body and mesh in `update`, and `body?.` in `getPlayers`: every entry is created with both, so the model guards the copies with membership of the handle instead of a missing field.
