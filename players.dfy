/** The player records the scene manager of src/features receives and keeps,
    and pure definitions of what its socket handlers do to the
    `activePlayers` collection. The handlers themselves (class
    `FeaturesSceneManager.SceneManager`) are proved against these. */
module Players {
  import opened Vectors

  datatype Option<T> = None | Some(value: T)

  /** Handles of physics bodies and of meshes; each `new Body` / `new Mesh`
      gets one that was never used before. */
  type BodyId = nat
  type MeshId = nat

  /** Payload of `getPlayer`, `joinPlayer` and of each item of `getActivePlayers`. */
  datatype PlayerInfo = PlayerInfo(id: string, position: Vec3, color: string)

  /** One item of the `getPlayers` payload. */
  datatype PlayerUpdate = PlayerUpdate(id: string, position: Vec3)

  /** One element of `activePlayers`: `{ id, body, geometry }`. */
  datatype Entry = Entry(id: string, body: BodyId, mesh: MeshId)

  /** No two entries share a body or a mesh. */
  ghost predicate DistinctHandles(s: seq<Entry>) {
    forall j, k :: 0 <= j < k < |s| ==> s[j].body != s[k].body && s[j].mesh != s[k].mesh
  }

  /** The entries `disconnectPlayer(id)` keeps: those whose id differs, in order. */
  function WithoutId(s: seq<Entry>, id: string): seq<Entry> {
    if s == [] then []
    else WithoutId(s[..|s| - 1], id) + (if s[|s| - 1].id == id then [] else [s[|s| - 1]])
  }

  /** The bodies of the entries with the given id. */
  function BodiesWithId(s: seq<Entry>, id: string): set<BodyId> {
    if s == [] then {}
    else BodiesWithId(s[..|s| - 1], id) + (if s[|s| - 1].id == id then {s[|s| - 1].body} else {})
  }

  /** The meshes of the entries with the given id. */
  function MeshesWithId(s: seq<Entry>, id: string): set<MeshId> {
    if s == [] then {}
    else MeshesWithId(s[..|s| - 1], id) + (if s[|s| - 1].id == id then {s[|s| - 1].mesh} else {})
  }

  /** The players of a `getActivePlayers` payload that get an entry: all but
      the one carrying the client's own socket id. */
  function Others(players: seq<PlayerInfo>, ownId: string): seq<PlayerInfo> {
    if players == [] then []
    else
      var last := players[|players| - 1];
      Others(players[..|players| - 1], ownId) + (if last.id != ownId then [last] else [])
  }

  /** The position the last update for `id` in a `getPlayers` payload carries;
      since the updates are applied in order, that is the one that sticks. */
  function LastPosition(updates: seq<PlayerUpdate>, id: string): Option<Vec3> {
    if updates == [] then None
    else if updates[|updates| - 1].id == id then Some(updates[|updates| - 1].position)
    else LastPosition(updates[..|updates| - 1], id)
  }

  // ----- Unfolding the definitions one element at a time, as the handlers' loops do -----

  lemma WithoutIdSnoc(s: seq<Entry>, i: nat, id: string)
    requires i < |s|
    ensures WithoutId(s[..i + 1], id) == WithoutId(s[..i], id) + (if s[i].id == id then [] else [s[i]])
    ensures BodiesWithId(s[..i + 1], id) == BodiesWithId(s[..i], id) + (if s[i].id == id then {s[i].body} else {})
    ensures MeshesWithId(s[..i + 1], id) == MeshesWithId(s[..i], id) + (if s[i].id == id then {s[i].mesh} else {})
  {
    assert s[..i + 1][..i] == s[..i];
  }

  lemma OthersSnoc(players: seq<PlayerInfo>, i: nat, ownId: string)
    requires i < |players|
    ensures Others(players[..i + 1], ownId) ==
      Others(players[..i], ownId) + (if players[i].id != ownId then [players[i]] else [])
  {
    assert players[..i + 1][..i] == players[..i];
  }

  lemma LastPositionSnoc(updates: seq<PlayerUpdate>, i: nat, id: string)
    requires i < |updates|
    ensures LastPosition(updates[..i + 1], id) ==
      if updates[i].id == id then Some(updates[i].position) else LastPosition(updates[..i], id)
  {
    assert updates[..i + 1][..i] == updates[..i];
  }

  // ----- What disconnectPlayer does to the collection -----

  /** An entry survives `WithoutId(s, id)` exactly when it was in `s` with
      another id. */
  lemma {:induction false} WithoutIdMembers(s: seq<Entry>, id: string)
    ensures forall e :: e in WithoutId(s, id) <==> e in s && e.id != id
  {
    if s != [] {
      var prefix := s[..|s| - 1];
      WithoutIdMembers(prefix, id);
      assert s == prefix + [s[|s| - 1]];
    }
  }

  /** Removing entries keeps the remaining handles distinct. */
  lemma {:induction false} WithoutIdDistinct(s: seq<Entry>, id: string)
    requires DistinctHandles(s)
    ensures DistinctHandles(WithoutId(s, id))
  {
    if s != [] {
      var prefix := s[..|s| - 1];
      WithoutIdDistinct(prefix, id);
      WithoutIdMembers(prefix, id);
      var kept := WithoutId(prefix, id);
      var last := s[|s| - 1];
      forall j | 0 <= j < |kept|
        ensures kept[j].body != last.body && kept[j].mesh != last.mesh
      {
        assert kept[j] in prefix;
        var i :| 0 <= i < |prefix| && prefix[i] == kept[j];
        assert s[i] == prefix[i];
      }
    }
  }

  /** Dropping the last entry keeps the handles distinct, and the last
      entry's handles differ from all the others'. */
  lemma DistinctHandlesLast(s: seq<Entry>)
    requires DistinctHandles(s) && s != []
    ensures DistinctHandles(s[..|s| - 1])
    ensures forall k :: 0 <= k < |s| - 1 ==> s[k].body != s[|s| - 1].body && s[k].mesh != s[|s| - 1].mesh
  {
    var prefix := s[..|s| - 1];
    forall j, k | 0 <= j < k < |prefix|
      ensures prefix[j].body != prefix[k].body && prefix[j].mesh != prefix[k].mesh
    {
      assert prefix[j] == s[j] && prefix[k] == s[k];
    }
  }

  /** Removing an id that no entry carries changes nothing. */
  lemma {:induction false} WithoutAbsentId(s: seq<Entry>, id: string)
    requires forall k :: 0 <= k < |s| ==> s[k].id != id
    ensures WithoutId(s, id) == s
    ensures BodiesWithId(s, id) == {} && MeshesWithId(s, id) == {}
  {
    if s != [] {
      var prefix := s[..|s| - 1];
      WithoutAbsentId(prefix, id);
      assert s == prefix + [s[|s| - 1]];
    }
  }

  /** A body is removed from the world exactly when some entry with the id
      owns it; likewise for meshes and the scene. */
  lemma {:induction false} WithIdOwners(s: seq<Entry>, id: string)
    ensures forall b :: b in BodiesWithId(s, id) <==>
      exists k :: 0 <= k < |s| && s[k].id == id && s[k].body == b
    ensures forall m :: m in MeshesWithId(s, id) <==>
      exists k :: 0 <= k < |s| && s[k].id == id && s[k].mesh == m
  {
    if s != [] {
      var prefix := s[..|s| - 1];
      WithIdOwners(prefix, id);
      forall b | b in BodiesWithId(s, id)
        ensures exists k :: 0 <= k < |s| && s[k].id == id && s[k].body == b
      {
        if b !in BodiesWithId(prefix, id) {
          assert s[|s| - 1].id == id && s[|s| - 1].body == b;
        } else {
          var k :| 0 <= k < |prefix| && prefix[k].id == id && prefix[k].body == b;
          assert s[k] == prefix[k];
        }
      }
      forall b, k | 0 <= k < |s| && s[k].id == id && s[k].body == b
        ensures b in BodiesWithId(s, id)
      {
        if k < |prefix| { assert prefix[k] == s[k]; }
      }
      forall m | m in MeshesWithId(s, id)
        ensures exists k :: 0 <= k < |s| && s[k].id == id && s[k].mesh == m
      {
        if m !in MeshesWithId(prefix, id) {
          assert s[|s| - 1].id == id && s[|s| - 1].mesh == m;
        } else {
          var k :| 0 <= k < |prefix| && prefix[k].id == id && prefix[k].mesh == m;
          assert s[k] == prefix[k];
        }
      }
      forall m, k | 0 <= k < |s| && s[k].id == id && s[k].mesh == m
        ensures m in MeshesWithId(s, id)
      {
        if k < |prefix| { assert prefix[k] == s[k]; }
      }
    }
  }

  /** A second `disconnectPlayer` with the same id finds nothing to remove:
      the entries are kept and no body or mesh is removed. */
  lemma DisconnectTwiceIsNoOp(s: seq<Entry>, id: string)
    ensures WithoutId(WithoutId(s, id), id) == WithoutId(s, id)
    ensures BodiesWithId(WithoutId(s, id), id) == {}
    ensures MeshesWithId(WithoutId(s, id), id) == {}
  {
    var kept := WithoutId(s, id);
    WithoutIdMembers(s, id);
    assert forall k :: 0 <= k < |kept| ==> kept[k] in kept;
    WithoutAbsentId(kept, id);
  }

  // ----- What getActivePlayers admits -----

  /** A payload player gets an entry exactly when its id is not the client's
      own; so the client's own id never gets one. */
  lemma {:induction false} OthersMembers(players: seq<PlayerInfo>, ownId: string)
    ensures forall p :: p in Others(players, ownId) <==> p in players && p.id != ownId
  {
    if players != [] {
      var prefix := players[..|players| - 1];
      OthersMembers(prefix, ownId);
      assert players == prefix + [players[|players| - 1]];
    }
  }

  /** A payload without the client's own id is admitted whole, in order. */
  lemma {:induction false} OthersWithoutOwnId(players: seq<PlayerInfo>, ownId: string)
    requires forall k :: 0 <= k < |players| ==> players[k].id != ownId
    ensures Others(players, ownId) == players
  {
    if players != [] {
      var prefix := players[..|players| - 1];
      OthersWithoutOwnId(prefix, ownId);
      assert players == prefix + [players[|players| - 1]];
    }
  }

  // ----- What getPlayers moves to -----

  /** `getPlayers` leaves an id alone exactly when no update carries it, and
      otherwise moves it to the position of the last update that does. */
  lemma {:induction false} LastPositionSpec(updates: seq<PlayerUpdate>, id: string)
    ensures LastPosition(updates, id).None? <==> forall k :: 0 <= k < |updates| ==> updates[k].id != id
    ensures LastPosition(updates, id).Some? ==>
      exists k :: 0 <= k < |updates| && updates[k].id == id &&
        updates[k].position == LastPosition(updates, id).value &&
        forall j :: k < j < |updates| ==> updates[j].id != id
  {
    if updates != [] {
      var prefix := updates[..|updates| - 1];
      LastPositionSpec(prefix, id);
      if updates[|updates| - 1].id != id {
        if LastPosition(updates, id).Some? {
          var k :| 0 <= k < |prefix| && prefix[k].id == id &&
            prefix[k].position == LastPosition(prefix, id).value &&
            forall j :: k < j < |prefix| ==> prefix[j].id != id;
          assert updates[k] == prefix[k];
          assert forall j :: k < j < |updates| ==> updates[j].id != id by {
            forall j | k < j < |updates| ensures updates[j].id != id {
              if j < |prefix| { assert updates[j] == prefix[j]; }
            }
          }
        }
      }
    }
  }
}
