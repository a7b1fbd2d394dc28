/** The multiplayer scene manager of src/features/SceneManager: the local
    player's body, the winner latch, the `activePlayers` collection of remote
    players and the per-frame copy of body poses onto meshes. The physics
    world and the render scene are the sets of body and mesh handles they
    hold; what a body or mesh looks like is kept in the maps `bodies` and
    `meshes`; outbound socket messages are appended to `emitted`. */
module FeaturesSceneManager {
  import opened Vectors
  import opened Keys
  import opened Players

  /** The time step `update` passes to `world.step`: 1/60 of a second. */
  const FixedStep: real := 1.0 / 60.0

  /** A cannon-es body as the scene manager sees it: its pose and the `name`
      the handlers tag it with (the player id). */
  datatype Body = Body(pose: Pose, name: string)

  /** A three.js mesh: its pose, its `name` and the colour of its material. */
  datatype Mesh = Mesh(pose: Pose, name: string, color: string)

  /** Payload of `getFinish`. */
  datatype FinishInfo = FinishInfo(position: Vec3, color: string)

  /** An outbound socket message. */
  datatype Emit = SetPlayer(position: Vec3)

  /** `world.step(dt)` of the physics library: given the poses of the bodies
      in the world and a time step, the poses it moves them to. Nothing is
      assumed about it. */
  type Step = (map<BodyId, Pose>, real) -> map<BodyId, Pose>

  /** The offset a keydown applies to the local body: `w` +1 on x, `s` -1 on
      x, `a` -1 on z, `d` +1 on z, after lowering the key; any other key none. */
  function KeyOffset(key: string): Vec3 {
    var k := Lower(key);
    if k == "w" then Vec3(1.0, 0.0, 0.0)
    else if k == "s" then Vec3(-1.0, 0.0, 0.0)
    else if k == "a" then Vec3(0.0, 0.0, -1.0)
    else if k == "d" then Vec3(0.0, 0.0, 1.0)
    else Origin
  }

  /** Which raw key names move the local player, and how: exactly `w`/`W`
      forward on x, `s`/`S` back on x, `a`/`A` back on z, `d`/`D` forward on
      z; every other key, `Shift` or `ArrowUp` say, moves nothing. No key
      changes y or moves on both horizontal axes. */
  lemma KeyOffsetSpec(key: string)
    ensures KeyOffset(key) == Vec3(1.0, 0.0, 0.0) <==> key == "w" || key == "W"
    ensures KeyOffset(key) == Vec3(-1.0, 0.0, 0.0) <==> key == "s" || key == "S"
    ensures KeyOffset(key) == Vec3(0.0, 0.0, -1.0) <==> key == "a" || key == "A"
    ensures KeyOffset(key) == Vec3(0.0, 0.0, 1.0) <==> key == "d" || key == "D"
    ensures KeyOffset(key) == Origin <==>
      key !in {"w", "W", "s", "S", "a", "A", "d", "D"}
    ensures KeyOffset(key).y == 0.0 && (KeyOffset(key).x == 0.0 || KeyOffset(key).z == 0.0)
  {
    LowerIsLetter(key, 'w');
    LowerIsLetter(key, 's');
    LowerIsLetter(key, 'a');
    LowerIsLetter(key, 'd');
  }

  /** The mapping does not depend on the case of the key. */
  lemma KeyOffsetIgnoresCase(key: string)
    ensures KeyOffset(key) == KeyOffset(Lower(key))
  {
    LowerIdempotent(key);
  }

  /** Opposite keys undo each other, exactly so on the model's real
      coordinates (doubles agree for whole numbers below 2^53). */
  lemma OppositeKeysCancel(p: Vec3)
    ensures Add(Add(p, KeyOffset("w")), KeyOffset("s")) == p
    ensures Add(Add(p, KeyOffset("a")), KeyOffset("d")) == p
  {
    assert Lower("w") == "w" && Lower("s") == "s";
    assert Lower("a") == "a" && Lower("d") == "d";
  }

  /** The bodies after `world.step(1 / 60)`: a body in the world takes the
      pose `step` gives it; a body not in the world, and every name, is left
      as it was. */
  function StepWorld(bodies: map<BodyId, Body>, world: set<BodyId>, step: Step): (r: map<BodyId, Body>)
    ensures r.Keys == bodies.Keys
    ensures forall b :: b in r ==> r[b].name == bodies[b].name
    ensures forall b :: b in bodies && b !in world ==> r[b] == bodies[b]
  {
    var next := step(map b | b in world && b in bodies :: bodies[b].pose, FixedStep);
    map b | b in bodies :: if b in world && b in next then bodies[b].(pose := next[b]) else bodies[b]
  }

  /** The scene manager's bookkeeping: the entries, bodies, meshes, world,
      scene, the next free handles, the local player's body and mesh and the
      finish mesh. */
  datatype WorldState = WorldState(
    activePlayers: seq<Entry>,
    bodies: map<BodyId, Body>,
    meshes: map<MeshId, Mesh>,
    world: set<BodyId>,
    scene: set<MeshId>,
    nextBody: nat,
    nextMesh: nat,
    playerBody: Option<BodyId>,
    playerGeometry: Option<MeshId>,
    finish: Option<MeshId>)

  /** Entry `e`'s body is in the world and its mesh in the scene, both
      tagged with the entry's id. */
  ghost predicate EntryPlaced(s: WorldState, e: Entry) {
    && e.body in s.world && e.body in s.bodies && s.bodies[e.body].name == e.id
    && e.mesh in s.scene && e.mesh in s.meshes && s.meshes[e.mesh].name == e.id
  }

  /** Every handle in use was handed out before; the world and the scene
      hold only known bodies and meshes; the local body and mesh exist
      together, in the world and the scene; the finish mesh is in the scene;
      every entry is placed; no two entries, and no entry and the local
      player or the finish, share a body or a mesh. */
  ghost predicate Consistent(s: WorldState) {
    && (forall b :: b in s.bodies ==> b < s.nextBody)
    && (forall m :: m in s.meshes ==> m < s.nextMesh)
    && s.world <= s.bodies.Keys
    && s.scene <= s.meshes.Keys
    && (s.playerBody.Some? <==> s.playerGeometry.Some?)
    && (s.playerBody.Some? ==> s.playerBody.value in s.world)
    && (s.playerGeometry.Some? ==> s.playerGeometry.value in s.scene)
    && (s.finish.Some? ==> s.finish.value in s.scene)
    && (forall k :: 0 <= k < |s.activePlayers| ==> EntryPlaced(s, s.activePlayers[k]))
    && DistinctHandles(s.activePlayers)
    && (forall k :: 0 <= k < |s.activePlayers| ==>
          && Some(s.activePlayers[k].body) != s.playerBody
          && Some(s.activePlayers[k].mesh) != s.playerGeometry
          && Some(s.activePlayers[k].mesh) != s.finish)
  }

  /** `joinPlayer(p)`: a new body at `p`'s position tagged with its id goes
      into the world, a new mesh in its colour into the scene, and an entry
      owning both is appended, with no check for an entry with the same id. */
  function Join(s: WorldState, p: PlayerInfo): WorldState {
    s.(activePlayers := s.activePlayers + [Entry(p.id, s.nextBody, s.nextMesh)],
       bodies := s.bodies[s.nextBody := Body(PlacedAt(p.position), p.id)],
       meshes := s.meshes[s.nextMesh := Mesh(PlacedAt(Origin), p.id, p.color)],
       world := s.world + {s.nextBody},
       scene := s.scene + {s.nextMesh},
       nextBody := s.nextBody + 1,
       nextMesh := s.nextMesh + 1)
  }

  /** `disconnectPlayer(id)`: every entry with the id goes, its body leaving
      the world and its mesh the scene; the other entries stay, in order.
      The bodies and meshes themselves are not destroyed. */
  function Disconnect(s: WorldState, id: string): WorldState {
    s.(activePlayers := WithoutId(s.activePlayers, id),
       world := s.world - BodiesWithId(s.activePlayers, id),
       scene := s.scene - MeshesWithId(s.activePlayers, id))
  }

  /** `getPlayer(p)`: a new local body at `p`'s position goes into the world
      and a new local mesh in its colour into the scene; the previous local
      body and mesh, if any, are not removed. */
  function Spawn(s: WorldState, p: PlayerInfo): WorldState {
    s.(bodies := s.bodies[s.nextBody := Body(PlacedAt(p.position), p.id)],
       meshes := s.meshes[s.nextMesh := Mesh(PlacedAt(Origin), p.id, p.color)],
       world := s.world + {s.nextBody},
       scene := s.scene + {s.nextMesh},
       nextBody := s.nextBody + 1,
       nextMesh := s.nextMesh + 1,
       playerBody := Some(s.nextBody),
       playerGeometry := Some(s.nextMesh))
  }

  /** `getFinish(f)`: a new finish mesh at `f`'s position, in its colour,
      goes into the scene; a previous finish mesh stays there. */
  function PlaceFinish(s: WorldState, f: FinishInfo): WorldState {
    s.(meshes := s.meshes[s.nextMesh := Mesh(PlacedAt(f.position), "", f.color)],
       scene := s.scene + {s.nextMesh},
       nextMesh := s.nextMesh + 1,
       finish := Some(s.nextMesh))
  }

  /** A joining player's handles are fresh, so joining keeps the
      bookkeeping consistent. */
  lemma JoinKeepsConsistent(s: WorldState, p: PlayerInfo)
    requires Consistent(s)
    ensures Consistent(Join(s, p))
  {
    var r := Join(s, p);
    forall k | 0 <= k < |r.activePlayers|
      ensures EntryPlaced(r, r.activePlayers[k])
    {
      if k < |s.activePlayers| {
        assert r.activePlayers[k] == s.activePlayers[k];
        assert EntryPlaced(s, s.activePlayers[k]);
      }
    }
    forall j, k | 0 <= j < k < |r.activePlayers|
      ensures r.activePlayers[j].body != r.activePlayers[k].body
      ensures r.activePlayers[j].mesh != r.activePlayers[k].mesh
    {
      assert EntryPlaced(s, s.activePlayers[j]);
    }
  }

  /** The new local body and mesh are fresh, so `getPlayer` keeps the
      bookkeeping consistent, whatever local player there was before. */
  lemma SpawnKeepsConsistent(s: WorldState, p: PlayerInfo)
    requires Consistent(s)
    ensures Consistent(Spawn(s, p))
  {
    var r := Spawn(s, p);
    forall k | 0 <= k < |r.activePlayers|
      ensures EntryPlaced(r, r.activePlayers[k])
      ensures Some(r.activePlayers[k].body) != r.playerBody
      ensures Some(r.activePlayers[k].mesh) != r.playerGeometry
    {
      assert EntryPlaced(s, s.activePlayers[k]);
    }
  }

  /** The finish mesh is fresh, so `getFinish` keeps the bookkeeping
      consistent. */
  lemma PlaceFinishKeepsConsistent(s: WorldState, f: FinishInfo)
    requires Consistent(s)
    ensures Consistent(PlaceFinish(s, f))
  {
    var r := PlaceFinish(s, f);
    forall k | 0 <= k < |r.activePlayers|
      ensures EntryPlaced(r, r.activePlayers[k])
      ensures Some(r.activePlayers[k].mesh) != r.finish
    {
      assert EntryPlaced(s, s.activePlayers[k]);
    }
  }

  /** Changing what bodies look like, but not which bodies exist or their
      names, keeps the bookkeeping consistent: this covers a keydown move,
      a physics step and a `getPlayers` teleport. */
  lemma BodiesMovedKeepsConsistent(s: WorldState, bodies: map<BodyId, Body>)
    requires Consistent(s)
    requires bodies.Keys == s.bodies.Keys
    requires forall b :: b in bodies ==> bodies[b].name == s.bodies[b].name
    ensures Consistent(s.(bodies := bodies))
  {
    var r := s.(bodies := bodies);
    forall k | 0 <= k < |r.activePlayers|
      ensures EntryPlaced(r, r.activePlayers[k])
    {
      assert EntryPlaced(s, s.activePlayers[k]);
    }
  }

  /** Changing mesh poses, but not which meshes exist or their names, keeps
      the bookkeeping consistent: this covers the copy step of `update`. */
  lemma MeshesMovedKeepsConsistent(s: WorldState, meshes: map<MeshId, Mesh>)
    requires Consistent(s)
    requires meshes.Keys == s.meshes.Keys
    requires forall m :: m in meshes ==> meshes[m].name == s.meshes[m].name
    ensures Consistent(s.(meshes := meshes))
  {
    var r := s.(meshes := meshes);
    forall k | 0 <= k < |r.activePlayers|
      ensures EntryPlaced(r, r.activePlayers[k])
    {
      assert EntryPlaced(s, s.activePlayers[k]);
    }
  }

  /** Disconnecting keeps the bookkeeping consistent: what stays was placed
      before and shares no handle with what went. */
  lemma DisconnectKeepsConsistent(s: WorldState, id: string)
    requires Consistent(s)
    ensures Consistent(Disconnect(s, id))
  {
    var r := Disconnect(s, id);
    var entries := s.activePlayers;
    WithoutIdMembers(entries, id);
    WithIdOwners(entries, id);
    WithoutIdDistinct(entries, id);
    forall k | 0 <= k < |r.activePlayers|
      ensures EntryPlaced(r, r.activePlayers[k])
    {
      var e := r.activePlayers[k];
      assert e in r.activePlayers;
      var j :| 0 <= j < |entries| && entries[j] == e;
      assert EntryPlaced(s, entries[j]);
      forall j' | 0 <= j' < |entries| && entries[j'].id == id
        ensures entries[j'].body != e.body && entries[j'].mesh != e.mesh
      {
        assert j' != j;
      }
    }
    forall k | 0 <= k < |r.activePlayers|
      ensures && Some(r.activePlayers[k].body) != r.playerBody
              && Some(r.activePlayers[k].mesh) != r.playerGeometry
              && Some(r.activePlayers[k].mesh) != r.finish
    {
      assert r.activePlayers[k] in r.activePlayers;
    }
    if s.playerBody.Some? {
      assert s.playerBody.value !in BodiesWithId(entries, id);
      assert s.playerGeometry.value !in MeshesWithId(entries, id);
    }
    if s.finish.Some? {
      assert s.finish.value !in MeshesWithId(entries, id);
    }
  }

  /** Disconnecting an id twice is disconnecting it once. */
  lemma DisconnectIdempotent(s: WorldState, id: string)
    ensures Disconnect(Disconnect(s, id), id) == Disconnect(s, id)
  {
    DisconnectTwiceIsNoOp(s.activePlayers, id);
  }

  /** Disconnecting a player that had just joined, under an id no earlier
      entry carries, restores the entries, the world and the scene. */
  lemma JoinThenDisconnect(s: WorldState, p: PlayerInfo)
    requires Consistent(s)
    requires forall k :: 0 <= k < |s.activePlayers| ==> s.activePlayers[k].id != p.id
    ensures Disconnect(Join(s, p), p.id).activePlayers == s.activePlayers
    ensures Disconnect(Join(s, p), p.id).world == s.world
    ensures Disconnect(Join(s, p), p.id).scene == s.scene
  {
    var t := Join(s, p).activePlayers;
    WithoutAbsentId(s.activePlayers, p.id);
    assert t[..|t| - 1] == s.activePlayers;
    assert s.nextBody !in s.world;
    assert s.nextMesh !in s.scene;
  }

  /** `Join` for each player of `ps` in turn. */
  function JoinAll(s: WorldState, ps: seq<PlayerInfo>): WorldState {
    if ps == [] then s else Join(JoinAll(s, ps[..|ps| - 1]), ps[|ps| - 1])
  }

  lemma JoinAllSnoc(s: WorldState, ps: seq<PlayerInfo>, p: PlayerInfo)
    ensures JoinAll(s, ps + [p]) == Join(JoinAll(s, ps), p)
  {
    assert (ps + [p])[..|ps|] == ps;
  }

  /** Joining the players `ps` one by one appends the entries `Joined` and
      uses one body and one mesh handle per player. */
  lemma {:induction false} JoinAllEntries(s: WorldState, ps: seq<PlayerInfo>)
    ensures JoinAll(s, ps).activePlayers == s.activePlayers + Joined(ps, s.nextBody, s.nextMesh)
    ensures JoinAll(s, ps).nextBody == s.nextBody + |ps|
    ensures JoinAll(s, ps).nextMesh == s.nextMesh + |ps|
  {
    if ps != [] {
      var n := |ps| - 1;
      JoinAllEntries(s, ps[..n]);
      assert Joined(ps, s.nextBody, s.nextMesh) ==
        Joined(ps[..n], s.nextBody, s.nextMesh) + [Entry(ps[n].id, s.nextBody + n, s.nextMesh + n)];
    }
  }

  /** Joining the players `ps` one by one creates the bodies
      `JoinedBodies`. */
  lemma {:induction false} JoinAllBodies(s: WorldState, ps: seq<PlayerInfo>)
    ensures JoinAll(s, ps).bodies == s.bodies + JoinedBodies(ps, s.nextBody)
  {
    if ps != [] {
      var n := |ps| - 1;
      var body := Body(PlacedAt(ps[n].position), ps[n].id);
      JoinAllBodies(s, ps[..n]);
      JoinAllEntries(s, ps[..n]);
      UnionUpdate(s.bodies, JoinedBodies(ps[..n], s.nextBody), s.nextBody + n, body);
    }
  }

  /** Joining the players `ps` one by one adds exactly their new bodies to
      the world. */
  lemma {:induction false} JoinAllWorld(s: WorldState, ps: seq<PlayerInfo>)
    ensures JoinAll(s, ps).world == s.world + JoinedBodies(ps, s.nextBody).Keys
  {
    if ps != [] {
      var n := |ps| - 1;
      JoinAllWorld(s, ps[..n]);
      JoinAllEntries(s, ps[..n]);
    }
  }

  /** Joining the players `ps` one by one creates the meshes
      `JoinedMeshes`. */
  lemma {:induction false} JoinAllMeshes(s: WorldState, ps: seq<PlayerInfo>)
    ensures JoinAll(s, ps).meshes == s.meshes + JoinedMeshes(ps, s.nextMesh)
  {
    if ps != [] {
      var n := |ps| - 1;
      var mesh := Mesh(PlacedAt(Origin), ps[n].id, ps[n].color);
      JoinAllMeshes(s, ps[..n]);
      JoinAllEntries(s, ps[..n]);
      UnionUpdate(s.meshes, JoinedMeshes(ps[..n], s.nextMesh), s.nextMesh + n, mesh);
    }
  }

  /** Joining the players `ps` one by one adds exactly their new meshes to
      the scene. */
  lemma {:induction false} JoinAllScene(s: WorldState, ps: seq<PlayerInfo>)
    ensures JoinAll(s, ps).scene == s.scene + JoinedMeshes(ps, s.nextMesh).Keys
  {
    if ps != [] {
      var n := |ps| - 1;
      JoinAllScene(s, ps[..n]);
      JoinAllEntries(s, ps[..n]);
    }
  }

  /** The entries `getActivePlayers` appends for the admitted players `ps`
      when the next free handles are `b0` and `m0`: one per player, in order,
      with consecutive handles. */
  function Joined(ps: seq<PlayerInfo>, b0: nat, m0: nat): seq<Entry> {
    if ps == [] then []
    else
      var n := |ps| - 1;
      Joined(ps[..n], b0, m0) + [Entry(ps[n].id, b0 + n, m0 + n)]
  }

  /** The bodies created for the admitted players `ps`, from handle `b0` on. */
  function JoinedBodies(ps: seq<PlayerInfo>, b0: nat): map<BodyId, Body> {
    if ps == [] then map[]
    else
      var n := |ps| - 1;
      JoinedBodies(ps[..n], b0)[b0 + n := Body(PlacedAt(ps[n].position), ps[n].id)]
  }

  /** The meshes created for the admitted players `ps`, from handle `m0` on. */
  function JoinedMeshes(ps: seq<PlayerInfo>, m0: nat): map<MeshId, Mesh> {
    if ps == [] then map[]
    else
      var n := |ps| - 1;
      JoinedMeshes(ps[..n], m0)[m0 + n := Mesh(PlacedAt(Origin), ps[n].id, ps[n].color)]
  }

  /** What the appended entries are: entry `k` carries the id of admitted
      player `k` and owns body `b0 + k`, placed at that player's position,
      and mesh `m0 + k`, in that player's colour; no other handle is used. */
  lemma JoinedSpec(ps: seq<PlayerInfo>, b0: nat, m0: nat)
    ensures |Joined(ps, b0, m0)| == |ps|
    ensures forall k :: 0 <= k < |ps| ==> Joined(ps, b0, m0)[k] == Entry(ps[k].id, b0 + k, m0 + k)
    ensures forall b :: b in JoinedBodies(ps, b0) <==> b0 <= b < b0 + |ps|
    ensures forall m :: m in JoinedMeshes(ps, m0) <==> m0 <= m < m0 + |ps|
    ensures forall k :: 0 <= k < |ps| ==>
      JoinedBodies(ps, b0)[b0 + k] == Body(PlacedAt(ps[k].position), ps[k].id) &&
      JoinedMeshes(ps, m0)[m0 + k] == Mesh(PlacedAt(Origin), ps[k].id, ps[k].color)
  {
    JoinedEntries(ps, b0, m0);
    JoinedBodiesSpec(ps, b0);
    JoinedMeshesSpec(ps, m0);
  }

  /** The new bodies are exactly handles `b0` to `b0 + |ps| - 1`, body
      `b0 + k` placed at player `k`'s position and named by its id. */
  lemma {:induction false} JoinedBodiesSpec(ps: seq<PlayerInfo>, b0: nat)
    ensures forall b :: b in JoinedBodies(ps, b0) <==> b0 <= b < b0 + |ps|
    ensures forall k :: 0 <= k < |ps| ==>
      JoinedBodies(ps, b0)[b0 + k] == Body(PlacedAt(ps[k].position), ps[k].id)
  {
    if ps != [] {
      JoinedBodiesSpec(ps[..|ps| - 1], b0);
    }
  }

  /** The new meshes are exactly handles `m0` to `m0 + |ps| - 1`, mesh
      `m0 + k` at the origin, named by player `k`'s id and in its colour. */
  lemma {:induction false} JoinedMeshesSpec(ps: seq<PlayerInfo>, m0: nat)
    ensures forall m :: m in JoinedMeshes(ps, m0) <==> m0 <= m < m0 + |ps|
    ensures forall k :: 0 <= k < |ps| ==>
      JoinedMeshes(ps, m0)[m0 + k] == Mesh(PlacedAt(Origin), ps[k].id, ps[k].color)
  {
    if ps != [] {
      JoinedMeshesSpec(ps[..|ps| - 1], m0);
    }
  }

  /** Entry `k` of the appended ones carries the id of admitted player `k`
      and handles `b0 + k` and `m0 + k`. */
  lemma {:induction false} JoinedEntries(ps: seq<PlayerInfo>, b0: nat, m0: nat)
    ensures |Joined(ps, b0, m0)| == |ps|
    ensures forall k :: 0 <= k < |ps| ==> Joined(ps, b0, m0)[k] == Entry(ps[k].id, b0 + k, m0 + k)
  {
    if ps != [] {
      var n := |ps| - 1;
      JoinedEntries(ps[..n], b0, m0);
    }
  }

  /** What `getActivePlayers` does to the entries: the old ones are kept in
      front; each new one carries the id of a payload player other than the
      client itself; and every such payload player got one. */
  lemma ActivePlayersAdmitted(s: WorldState, players: seq<PlayerInfo>, ownId: string)
    ensures var r := JoinAll(s, Others(players, ownId)).activePlayers;
      && |s.activePlayers| <= |r|
      && r[..|s.activePlayers|] == s.activePlayers
      && (forall k :: |s.activePlayers| <= k < |r| ==> r[k].id != ownId)
      && (forall p :: p in players && p.id != ownId ==>
            exists k :: |s.activePlayers| <= k < |r| && r[k].id == p.id)
  {
    var added := Joined(Others(players, ownId), s.nextBody, s.nextMesh);
    var r := JoinAll(s, Others(players, ownId)).activePlayers;
    var n := |s.activePlayers|;
    JoinAllEntries(s, Others(players, ownId));
    assert r == s.activePlayers + added;
    assert r[..n] == s.activePlayers;
    JoinedSkipsOwnId(players, ownId, s.nextBody, s.nextMesh);
    forall k | n <= k < |r|
      ensures r[k].id != ownId
    {
      assert r[k] == added[k - n];
    }
    JoinedEntries(Others(players, ownId), s.nextBody, s.nextMesh);
    AppendedIds(s.activePlayers, added, Others(players, ownId));
    OthersMembers(players, ownId);
  }

  /** No entry `getActivePlayers` appends carries this client's own id. */
  lemma JoinedSkipsOwnId(players: seq<PlayerInfo>, ownId: string, b0: nat, m0: nat)
    ensures forall j :: 0 <= j < |Joined(Others(players, ownId), b0, m0)| ==>
      Joined(Others(players, ownId), b0, m0)[j].id != ownId
  {
    var others := Others(players, ownId);
    JoinedEntries(others, b0, m0);
    OthersMembers(players, ownId);
    forall j | 0 <= j < |others|
      ensures others[j].id != ownId
    {
      assert others[j] in others;
    }
  }

  /** Entries appended one per player, each with that player's id, cover
      every player's id. */
  lemma AppendedIds(front: seq<Entry>, added: seq<Entry>, ps: seq<PlayerInfo>)
    requires |added| == |ps|
    requires forall k :: 0 <= k < |ps| ==> added[k].id == ps[k].id
    ensures forall p :: p in ps ==>
      exists k :: |front| <= k < |front + added| && (front + added)[k].id == p.id
  {
    forall p | p in ps
      ensures exists k :: |front| <= k < |front + added| && (front + added)[k].id == p.id
    {
      var j :| 0 <= j < |ps| && ps[j] == p;
      assert (front + added)[|front| + j] == added[j];
    }
  }

  lemma UnionUpdate<K, V>(m: map<K, V>, n: map<K, V>, k: K, v: V)
    ensures (m + n)[k := v] == m + n[k := v]
    ensures (m + n)[k := v].Keys == m.Keys + n[k := v].Keys
  {
  }

  /** A body teleported to `target`, if there is one: its position is
      overwritten, its orientation kept. */
  function Teleported(body: Body, target: Option<Vec3>): Body {
    match target
    case None => body
    case Some(p) => body.(pose := body.pose.(position := p))
  }

  /** No entry of `entries` owns mesh `m`. */
  ghost predicate NoEntryOwns(entries: seq<Entry>, m: MeshId) {
    forall k :: 0 <= k < |entries| ==> entries[k].mesh != m
  }

  /** The meshes after the `forEach` of `update`: the entries are visited in
      order and each one's mesh takes its body's pose. */
  function CopyPoses(meshes: map<MeshId, Mesh>, bodies: map<BodyId, Body>, entries: seq<Entry>): map<MeshId, Mesh> {
    if entries == [] then meshes
    else
      var e := entries[|entries| - 1];
      var r := CopyPoses(meshes, bodies, entries[..|entries| - 1]);
      if e.mesh in r && e.body in bodies then r[e.mesh := r[e.mesh].(pose := bodies[e.body].pose)] else r
  }

  /** The meshes after the copy half of `update`: `CopyPoses` for the
      entries, then the local mesh takes the local body's pose. */
  function Sync(s: WorldState): map<MeshId, Mesh> {
    var r := CopyPoses(s.meshes, s.bodies, s.activePlayers);
    match (s.playerGeometry, s.playerBody)
    case (Some(m), Some(b)) =>
      if m in r && b in s.bodies then r[m := r[m].(pose := s.bodies[b].pose)] else r
    case _ => r
  }

  lemma CopyPosesSnoc(meshes: map<MeshId, Mesh>, bodies: map<BodyId, Body>, entries: seq<Entry>, i: nat)
    requires i < |entries|
    ensures CopyPoses(meshes, bodies, entries[..i + 1]) ==
      var r := CopyPoses(meshes, bodies, entries[..i]);
      if entries[i].mesh in r && entries[i].body in bodies
      then r[entries[i].mesh := r[entries[i].mesh].(pose := bodies[entries[i].body].pose)] else r
  {
    assert entries[..i + 1][..i] == entries[..i];
  }

  /** Copying poses adds or removes no mesh, changes no name or colour, and
      leaves every mesh that no entry owns as it was. */
  lemma {:induction false} CopyPosesFrame(meshes: map<MeshId, Mesh>, bodies: map<BodyId, Body>, entries: seq<Entry>)
    ensures CopyPoses(meshes, bodies, entries).Keys == meshes.Keys
    ensures forall m :: m in meshes ==>
      CopyPoses(meshes, bodies, entries)[m].name == meshes[m].name &&
      CopyPoses(meshes, bodies, entries)[m].color == meshes[m].color
    ensures forall m :: m in meshes && (forall k :: 0 <= k < |entries| ==> entries[k].mesh != m) ==>
      CopyPoses(meshes, bodies, entries)[m] == meshes[m]
  {
    if entries != [] {
      var n := |entries| - 1;
      var prefix := entries[..n];
      CopyPosesFrame(meshes, bodies, prefix);
      forall m | m in meshes && (forall k :: 0 <= k < |entries| ==> entries[k].mesh != m)
        ensures CopyPoses(meshes, bodies, entries)[m] == meshes[m]
      {
        assert entries[n].mesh != m;
        assert forall k :: 0 <= k < |prefix| ==> prefix[k].mesh != m by {
          forall k | 0 <= k < |prefix| ensures prefix[k].mesh != m {
            assert prefix[k] == entries[k];
          }
        }
      }
    }
  }

  /** Copying poses gives every entry's mesh its body's pose, the rest of
      the mesh unchanged. Entry meshes must be distinct: two entries sharing
      a mesh would overwrite each other's copy. */
  lemma {:induction false} CopyPosesSpec(meshes: map<MeshId, Mesh>, bodies: map<BodyId, Body>, entries: seq<Entry>)
    requires DistinctHandles(entries)
    requires forall k :: 0 <= k < |entries| ==> entries[k].mesh in meshes && entries[k].body in bodies
    ensures CopyPoses(meshes, bodies, entries).Keys == meshes.Keys
    ensures forall k :: 0 <= k < |entries| ==>
      CopyPoses(meshes, bodies, entries)[entries[k].mesh] ==
        meshes[entries[k].mesh].(pose := bodies[entries[k].body].pose)
  {
    CopyPosesFrame(meshes, bodies, entries);
    if entries != [] {
      var n := |entries| - 1;
      var prefix := entries[..n];
      var e := entries[n];
      DistinctHandlesLast(entries);
      CopyPosesSpec(meshes, bodies, prefix);
      CopyPosesFrame(meshes, bodies, prefix);
      forall k | 0 <= k < n
        ensures CopyPoses(meshes, bodies, entries)[entries[k].mesh] ==
          meshes[entries[k].mesh].(pose := bodies[entries[k].body].pose)
      {
        assert entries[k] == prefix[k];
      }
    }
  }

  /** After the copy half of `update`, every entry's mesh and the local
      mesh have their body's position and quaternion; no mesh is added or
      removed, no name or colour changes, every other mesh is as it was,
      and the bookkeeping stays consistent. */
  lemma SyncSpec(s: WorldState)
    requires Consistent(s)
    ensures Sync(s).Keys == s.meshes.Keys
    ensures forall k :: 0 <= k < |s.activePlayers| ==>
      Sync(s)[s.activePlayers[k].mesh].pose == s.bodies[s.activePlayers[k].body].pose
    ensures s.playerGeometry.Some? ==>
      Sync(s)[s.playerGeometry.value].pose == s.bodies[s.playerBody.value].pose
    ensures forall m :: m in s.meshes ==>
      Sync(s)[m].name == s.meshes[m].name && Sync(s)[m].color == s.meshes[m].color
    ensures forall m :: m in s.meshes && Some(m) != s.playerGeometry && NoEntryOwns(s.activePlayers, m) ==>
      Sync(s)[m] == s.meshes[m]
    ensures Consistent(s.(meshes := Sync(s)))
  {
    forall k | 0 <= k < |s.activePlayers|
      ensures s.activePlayers[k].mesh in s.meshes && s.activePlayers[k].body in s.bodies
    {
      assert EntryPlaced(s, s.activePlayers[k]);
    }
    CopyPosesFrame(s.meshes, s.bodies, s.activePlayers);
    CopyPosesSpec(s.meshes, s.bodies, s.activePlayers);
    MeshesMovedKeepsConsistent(s, Sync(s));
  }

  /** The bodies after the inner `forEach` of `getPlayers` for one update
      `u`: the entries are visited in order and the body of each one whose
      id is `u.id` is moved to `u.position`. */
  function TeleportEntries(bodies: map<BodyId, Body>, entries: seq<Entry>, u: PlayerUpdate): map<BodyId, Body> {
    if entries == [] then bodies
    else
      var e := entries[|entries| - 1];
      var r := TeleportEntries(bodies, entries[..|entries| - 1], u);
      if e.id == u.id && e.body in r then r[e.body := Teleported(r[e.body], Some(u.position))] else r
  }

  /** The bodies after `getPlayers(updates)`: `TeleportEntries` for each
      update in turn. */
  function ApplyUpdates(bodies: map<BodyId, Body>, entries: seq<Entry>, updates: seq<PlayerUpdate>): map<BodyId, Body> {
    if updates == [] then bodies
    else TeleportEntries(ApplyUpdates(bodies, entries, updates[..|updates| - 1]), entries, updates[|updates| - 1])
  }

  lemma TeleportEntriesSnoc(bodies: map<BodyId, Body>, entries: seq<Entry>, j: nat, u: PlayerUpdate)
    requires j < |entries|
    ensures TeleportEntries(bodies, entries[..j + 1], u) ==
      var r := TeleportEntries(bodies, entries[..j], u);
      if entries[j].id == u.id && entries[j].body in r then r[entries[j].body := Teleported(r[entries[j].body], Some(u.position))] else r
  {
    assert entries[..j + 1][..j] == entries[..j];
  }

  lemma ApplyUpdatesSnoc(bodies: map<BodyId, Body>, entries: seq<Entry>, updates: seq<PlayerUpdate>, i: nat)
    requires i < |updates|
    ensures ApplyUpdates(bodies, entries, updates[..i + 1]) ==
      TeleportEntries(ApplyUpdates(bodies, entries, updates[..i]), entries, updates[i])
  {
    assert updates[..i + 1][..i] == updates[..i];
  }

  /** One update adds or removes no body, renames none, and leaves every
      body that no entry owns as it was. */
  lemma {:induction false} TeleportEntriesFrame(bodies: map<BodyId, Body>, entries: seq<Entry>, u: PlayerUpdate)
    ensures TeleportEntries(bodies, entries, u).Keys == bodies.Keys
    ensures forall b :: b in bodies ==> TeleportEntries(bodies, entries, u)[b].name == bodies[b].name
    ensures forall b :: b in bodies && (forall k :: 0 <= k < |entries| ==> entries[k].body != b) ==>
      TeleportEntries(bodies, entries, u)[b] == bodies[b]
  {
    if entries != [] {
      var n := |entries| - 1;
      var prefix := entries[..n];
      TeleportEntriesFrame(bodies, prefix, u);
      forall b | b in bodies && (forall k :: 0 <= k < |entries| ==> entries[k].body != b)
        ensures TeleportEntries(bodies, entries, u)[b] == bodies[b]
      {
        assert entries[n].body != b;
        assert forall k :: 0 <= k < |prefix| ==> prefix[k].body != b by {
          forall k | 0 <= k < |prefix| ensures prefix[k].body != b {
            assert prefix[k] == entries[k];
          }
        }
      }
    }
  }

  /** One update moves the body of every entry carrying its id to the
      update's position, keeping its orientation, and leaves the other entry
      bodies alone. Entry bodies must be distinct: two entries sharing a body
      would see each other's moves. */
  lemma {:induction false} TeleportEntriesSpec(bodies: map<BodyId, Body>, entries: seq<Entry>, u: PlayerUpdate)
    requires DistinctHandles(entries)
    requires forall k :: 0 <= k < |entries| ==> entries[k].body in bodies
    ensures TeleportEntries(bodies, entries, u).Keys == bodies.Keys
    ensures forall k :: 0 <= k < |entries| ==>
      TeleportEntries(bodies, entries, u)[entries[k].body] ==
        if entries[k].id == u.id then Teleported(bodies[entries[k].body], Some(u.position))
        else bodies[entries[k].body]
  {
    TeleportEntriesFrame(bodies, entries, u);
    if entries != [] {
      var n := |entries| - 1;
      var prefix := entries[..n];
      var e := entries[n];
      DistinctHandlesLast(entries);
      TeleportEntriesSpec(bodies, prefix, u);
      TeleportEntriesFrame(bodies, prefix, u);
      forall k | 0 <= k < n
        ensures TeleportEntries(bodies, entries, u)[entries[k].body] ==
          if entries[k].id == u.id then Teleported(bodies[entries[k].body], Some(u.position))
          else bodies[entries[k].body]
      {
        assert entries[k] == prefix[k];
      }
    }
  }

  /** What `getPlayers(updates)` does to the bodies: every entry body moves
      to the position of the last update carrying the entry's id, or stays
      if there is none; every other body stays; no body is added or removed
      and no name changes. */
  lemma {:induction false} ApplyUpdatesSpec(bodies: map<BodyId, Body>, entries: seq<Entry>, updates: seq<PlayerUpdate>)
    requires DistinctHandles(entries)
    requires forall k :: 0 <= k < |entries| ==> entries[k].body in bodies
    ensures ApplyUpdates(bodies, entries, updates).Keys == bodies.Keys
    ensures forall b :: b in bodies ==> ApplyUpdates(bodies, entries, updates)[b].name == bodies[b].name
    ensures forall k :: 0 <= k < |entries| ==>
      ApplyUpdates(bodies, entries, updates)[entries[k].body] ==
        Teleported(bodies[entries[k].body], LastPosition(updates, entries[k].id))
    ensures forall b :: b in bodies && (forall k :: 0 <= k < |entries| ==> entries[k].body != b) ==>
      ApplyUpdates(bodies, entries, updates)[b] == bodies[b]
  {
    if updates != [] {
      var n := |updates| - 1;
      ApplyUpdatesSpec(bodies, entries, updates[..n]);
      TeleportEntriesFrame(ApplyUpdates(bodies, entries, updates[..n]), entries, updates[n]);
      TeleportEntriesSpec(ApplyUpdates(bodies, entries, updates[..n]), entries, updates[n]);
    }
  }

  /** One step of deleting, in place and in order, the entries with `id`:
      when the entries before `i` have been dealt with, the collection is
      what stays of them followed by the rest, and the world and the scene
      have lost their bodies and meshes. Meeting entry `i` either deletes it
      at the position the kept ones end at, together with its body and
      mesh, or keeps it. */
  lemma RemoveStep(entries: seq<Entry>, i: nat, id: string, current: seq<Entry>,
                   world0: set<BodyId>, world: set<BodyId>, scene0: set<MeshId>, scene: set<MeshId>)
    requires i < |entries|
    requires current == WithoutId(entries[..i], id) + entries[i..]
    requires world == world0 - BodiesWithId(entries[..i], id)
    requires scene == scene0 - MeshesWithId(entries[..i], id)
    ensures var kept := |WithoutId(entries[..i], id)|;
      if entries[i].id == id then
        && kept < |current|
        && current[..kept] + current[kept + 1..] == WithoutId(entries[..i + 1], id) + entries[i + 1..]
        && |WithoutId(entries[..i + 1], id)| == kept
        && world - {entries[i].body} == world0 - BodiesWithId(entries[..i + 1], id)
        && scene - {entries[i].mesh} == scene0 - MeshesWithId(entries[..i + 1], id)
      else
        && current == WithoutId(entries[..i + 1], id) + entries[i + 1..]
        && |WithoutId(entries[..i + 1], id)| == kept + 1
        && world == world0 - BodiesWithId(entries[..i + 1], id)
        && scene == scene0 - MeshesWithId(entries[..i + 1], id)
  {
    WithoutIdSnoc(entries, i, id);
    var done := WithoutId(entries[..i], id);
    var rest := entries[i + 1..];
    assert entries[i..] == [entries[i]] + rest;
    if entries[i].id == id {
      assert current[..|done|] == done;
      assert current[|done| + 1..] == rest;
    } else {
      assert BodiesWithId(entries[..i + 1], id) == BodiesWithId(entries[..i], id);
      assert MeshesWithId(entries[..i + 1], id) == MeshesWithId(entries[..i], id);
    }
  }

  class SceneManager {
    /** `socket.id`: the id the server knows this client by. */
    const socketId: string

    var world: set<BodyId>
    var scene: set<MeshId>
    var bodies: map<BodyId, Body>
    var meshes: map<MeshId, Mesh>
    var nextBody: nat
    var nextMesh: nat

    var activePlayers: seq<Entry>
    var playerBody: Option<BodyId>
    var playerGeometry: Option<MeshId>
    var finish: Option<MeshId>
    var isWinnerExists: bool

    /** Everything passed to `socket.emit`, oldest first. */
    var emitted: seq<Emit>

    /** The handlers keep the bookkeeping consistent. */
    ghost predicate Valid()
      reads this
    {
      Consistent(State())
    }

    /** Key input moves the local player: a local body exists and no winner
        has been announced. */
    ghost predicate Active()
      reads this
    {
      !isWinnerExists && playerBody.Some?
    }

    /** The bookkeeping the player handlers change. */
    ghost function State(): WorldState
      reads this
    {
      WorldState(activePlayers, bodies, meshes, world, scene, nextBody, nextMesh,
        playerBody, playerGeometry, finish)
    }

    constructor (socketId: string)
      ensures Valid()
      ensures this.socketId == socketId
      ensures world == {} && scene == {} && bodies == map[] && meshes == map[]
      ensures activePlayers == [] && playerBody == None && playerGeometry == None
      ensures finish == None && !isWinnerExists && emitted == []
    {
      this.socketId := socketId;
      world, scene := {}, {};
      bodies, meshes := map[], map[];
      nextBody, nextMesh := 0, 0;
      activePlayers := [];
      playerBody, playerGeometry, finish := None, None, None;
      isWinnerExists := false;
      emitted := [];
    }

    /** `new Body(...)` at `position`, tagged `name`, then `world.addBody`. */
    method AddBody(position: Vec3, name: string) returns (b: BodyId)
      modifies this`bodies, this`world, this`nextBody
      ensures b == old(nextBody) && nextBody == b + 1
      ensures bodies == old(bodies)[b := Body(PlacedAt(position), name)]
      ensures world == old(world) + {b}
    {
      b := nextBody;
      nextBody := nextBody + 1;
      bodies := bodies[b := Body(PlacedAt(position), name)];
      world := world + {b};
    }

    /** `new Mesh(...)` at `position`, tagged `name`, in `color`, then `scene.add`. */
    method AddMesh(position: Vec3, name: string, color: string) returns (m: MeshId)
      modifies this`meshes, this`scene, this`nextMesh
      ensures m == old(nextMesh) && nextMesh == m + 1
      ensures meshes == old(meshes)[m := Mesh(PlacedAt(position), name, color)]
      ensures scene == old(scene) + {m}
    {
      m := nextMesh;
      nextMesh := nextMesh + 1;
      meshes := meshes[m := Mesh(PlacedAt(position), name, color)];
      scene := scene + {m};
    }

    /** `update`: one physics step of exactly 1/60 s, then the copy of every
        entry's body pose, and the local body's, onto its mesh. */
    method Update(step: Step)
      requires Valid()
      modifies this`bodies, this`meshes
      ensures Valid()
      ensures bodies == StepWorld(old(bodies), world, step)
      ensures meshes == Sync(old(State()).(bodies := bodies))
    {
      bodies := StepWorld(bodies, world, step);
      BodiesMovedKeepsConsistent(old(State()), bodies);
      SyncMeshes();
    }

    /** The copy half of `update`: each entry's mesh, then the local mesh,
        takes its body's pose. */
    method SyncMeshes()
      requires Valid()
      modifies this`meshes
      ensures Valid()
      ensures meshes == Sync(old(State()))
    {
      CopyEntryPoses();
      if playerGeometry.Some? && playerBody.Some? {
        var m := playerGeometry.value;
        var b := playerBody.value;
        if m in meshes && b in bodies {
          meshes := meshes[m := meshes[m].(pose := bodies[b].pose)];
        }
      }
      SyncSpec(old(State()));
    }

    /** The `forEach` of `update`: each entry's mesh takes its body's
        position and quaternion, one entry at a time. */
    method CopyEntryPoses()
      modifies this`meshes
      ensures meshes == CopyPoses(old(meshes), bodies, activePlayers)
    {
      var i := 0;
      while i < |activePlayers|
        invariant 0 <= i <= |activePlayers|
        invariant meshes == CopyPoses(old(meshes), bodies, activePlayers[..i])
      {
        CopyPosesSnoc(old(meshes), bodies, activePlayers, i);
        var e := activePlayers[i];
        if e.mesh in meshes && e.body in bodies {
          meshes := meshes[e.mesh := meshes[e.mesh].(pose := bodies[e.body].pose)];
        }
        i := i + 1;
      }
      assert activePlayers[..i] == activePlayers;
    }

    /** The keydown listener. While active, the key's offset is added to the
        local body's position and the new position is emitted as `setPlayer`,
        for every key, mapped or not; otherwise nothing happens. */
    method HandleKeyDown(key: string)
      requires Valid()
      modifies this`bodies, this`emitted
      ensures Valid()
      ensures old(Active()) ==>
        var b := playerBody.value;
        var moved := Add(old(bodies)[b].pose.position, KeyOffset(key));
        && bodies == old(bodies)[b := old(bodies)[b].(pose := old(bodies)[b].pose.(position := moved))]
        && emitted == old(emitted) + [SetPlayer(moved)]
      ensures !old(Active()) ==> bodies == old(bodies) && emitted == old(emitted)
    {
      if !isWinnerExists && playerBody.Some? {
        var b := playerBody.value;
        var p := bodies[b].pose.position;
        var k := Lower(key);
        if k == "w" {
          p := p.(x := p.x + 1.0);
        } else if k == "a" {
          p := p.(z := p.z - 1.0);
        } else if k == "s" {
          p := p.(x := p.x - 1.0);
        } else if k == "d" {
          p := p.(z := p.z + 1.0);
        }
        bodies := bodies[b := bodies[b].(pose := bodies[b].pose.(position := p))];
        BodiesMovedKeepsConsistent(old(State()), bodies);
        emitted := emitted + [SetPlayer(p)];
      }
    }

    /** `getFinish`: a new finish mesh at the payload position; the previous
        one, if any, stays in the scene. */
    method GetFinish(f: FinishInfo)
      requires Valid()
      modifies this`meshes, this`scene, this`nextMesh, this`finish
      ensures Valid()
      ensures State() == PlaceFinish(old(State()), f)
    {
      var m := AddMesh(f.position, "", f.color);
      finish := Some(m);
      PlaceFinishKeepsConsistent(old(State()), f);
    }

    /** `getPlayer`: a new local body at the payload position in the world and
        a new local mesh in the scene; a previous local body and mesh are not
        removed. */
    method GetPlayer(p: PlayerInfo)
      requires Valid()
      modifies this`bodies, this`world, this`nextBody, this`meshes, this`scene, this`nextMesh,
        this`playerBody, this`playerGeometry
      ensures Valid()
      ensures State() == Spawn(old(State()), p)
    {
      var b := AddBody(p.position, p.id);
      var m := AddMesh(Origin, p.id, p.color);
      playerBody, playerGeometry := Some(b), Some(m);
      SpawnKeepsConsistent(old(State()), p);
    }

    /** `joinPlayer`: one more entry with the payload id, whose new body is in
        the world at the payload position and whose new mesh is in the scene.
        Existing entries are kept, whatever their ids. */
    method JoinPlayer(p: PlayerInfo)
      requires Valid()
      modifies this`bodies, this`world, this`nextBody, this`meshes, this`scene, this`nextMesh,
        this`activePlayers
      ensures Valid()
      ensures State() == Join(old(State()), p)
    {
      var b := AddBody(p.position, p.id);
      var m := AddMesh(Origin, p.id, p.color);
      activePlayers := activePlayers + [Entry(p.id, b, m)];
      JoinKeepsConsistent(old(State()), p);
    }

    /** `getActivePlayers`: one new entry, in payload order, for each player
        whose id is not `socketId`, each set up as `joinPlayer` would. */
    method GetActivePlayers(players: seq<PlayerInfo>)
      requires Valid()
      modifies this`bodies, this`world, this`nextBody, this`meshes, this`scene, this`nextMesh,
        this`activePlayers
      ensures Valid()
      ensures State() == JoinAll(old(State()), Others(players, socketId))
    {
      var i := 0;
      ghost var admitted: seq<PlayerInfo> := [];
      while i < |players|
        invariant 0 <= i <= |players|
        invariant Valid()
        invariant admitted == Others(players[..i], socketId)
        invariant State() == JoinAll(old(State()), admitted)
      {
        OthersSnoc(players, i, socketId);
        JoinAllSnoc(old(State()), admitted, players[i]);
        ActivatePlayer(players[i]);
        if players[i].id != socketId {
          admitted := admitted + [players[i]];
        }
        i := i + 1;
      }
      assert players[..i] == players;
    }

    /** The callback `getActivePlayers` runs on each payload player: a player
        other than this client joins, this client's own record is skipped. */
    method ActivatePlayer(p: PlayerInfo)
      requires Valid()
      modifies this`bodies, this`world, this`nextBody, this`meshes, this`scene, this`nextMesh,
        this`activePlayers
      ensures Valid()
      ensures State() == if p.id != socketId then Join(old(State()), p) else old(State())
    {
      if p.id != socketId {
        JoinPlayer(p);
      }
    }

    /** `getPlayers`: every entry whose id has an update is teleported to the
        last such update's position; every other body is left alone, and no
        entry is created, whatever ids the updates carry. */
    method GetPlayers(updates: seq<PlayerUpdate>)
      requires Valid()
      modifies this`bodies
      ensures Valid()
      ensures bodies == ApplyUpdates(old(bodies), activePlayers, updates)
      ensures bodies.Keys == old(bodies).Keys
      ensures forall k :: 0 <= k < |activePlayers| ==>
        bodies[activePlayers[k].body] ==
          Teleported(old(bodies)[activePlayers[k].body], LastPosition(updates, activePlayers[k].id))
      ensures forall b :: b in old(bodies) && (forall k :: 0 <= k < |activePlayers| ==> activePlayers[k].body != b) ==>
        bodies[b] == old(bodies)[b]
    {
      forall k | 0 <= k < |activePlayers|
        ensures activePlayers[k].body in bodies
      {
        assert EntryPlaced(State(), activePlayers[k]);
      }
      ApplyUpdatesSpec(bodies, activePlayers, updates);
      var i := 0;
      while i < |updates|
        invariant 0 <= i <= |updates|
        invariant bodies == ApplyUpdates(old(bodies), activePlayers, updates[..i])
      {
        ApplyUpdatesSnoc(old(bodies), activePlayers, updates, i);
        TeleportMatching(updates[i]);
        i := i + 1;
      }
      assert updates[..i] == updates;
      BodiesMovedKeepsConsistent(old(State()), bodies);
    }

    /** The inner `forEach` of `getPlayers`: the body of every entry whose id
        is the update's is moved to the update's position. */
    method TeleportMatching(u: PlayerUpdate)
      modifies this`bodies
      ensures bodies == TeleportEntries(old(bodies), activePlayers, u)
    {
      var j := 0;
      while j < |activePlayers|
        invariant 0 <= j <= |activePlayers|
        invariant bodies == TeleportEntries(old(bodies), activePlayers[..j], u)
      {
        TeleportEntriesSnoc(old(bodies), activePlayers, j, u);
        var e := activePlayers[j];
        if u.id == e.id && e.body in bodies {
          bodies := bodies[e.body := bodies[e.body].(pose := bodies[e.body].pose.(position := u.position))];
        }
        j := j + 1;
      }
      assert activePlayers[..j] == activePlayers;
    }

    /** `getWinner`: the latch is set; nothing ever clears it. */
    method GetWinner(id: string)
      requires Valid()
      modifies this`isWinnerExists
      ensures Valid()
      ensures isWinnerExists
    {
      isWinnerExists := true;
    }

    /** `disconnectPlayer`: every entry with the id goes, its body leaving the
        world and its mesh the scene; all other entries stay, in order. */
    method DisconnectPlayer(id: string)
      requires Valid()
      modifies this`activePlayers, this`world, this`scene
      ensures Valid()
      ensures State() == Disconnect(old(State()), id)
    {
      RemoveEntries(id);
      DisconnectKeepsConsistent(old(State()), id);
    }

    /** The `forEach` of `disconnectPlayer`: each entry with the id is
        deleted from the collection as it is met, after its body has left the
        world and its mesh the scene. */
    method RemoveEntries(id: string)
      modifies this`activePlayers, this`world, this`scene
      ensures activePlayers == WithoutId(old(activePlayers), id)
      ensures world == old(world) - BodiesWithId(old(activePlayers), id)
      ensures scene == old(scene) - MeshesWithId(old(activePlayers), id)
    {
      var entries := activePlayers;
      var kept := 0;
      for i := 0 to |entries|
        invariant activePlayers == WithoutId(entries[..i], id) + entries[i..]
        invariant kept == |WithoutId(entries[..i], id)|
        invariant world == old(world) - BodiesWithId(entries[..i], id)
        invariant scene == old(scene) - MeshesWithId(entries[..i], id)
      {
        RemoveStep(entries, i, id, activePlayers, old(world), world, old(scene), scene);
        var e := entries[i];
        if e.id == id {
          world := world - {e.body};
          scene := scene - {e.mesh};
          activePlayers := activePlayers[..kept] + activePlayers[kept + 1..];
        } else {
          kept := kept + 1;
        }
      }
      assert entries[..|entries|] == entries;
    }
  }
}
