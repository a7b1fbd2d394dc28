/** The older scene manager of src/models/SceneManager: the set of keys
    currently held, kept up to date by the keydown and keyup listeners, and
    the per-frame input step that moves the shared cube one unit per held
    movement key. */
module ModelsSceneManager {
  import opened Vectors
  import opened Keys

  /** 1 when `held` is true, 0 otherwise. */
  function Unit(held: bool): real {
    if held then 1.0 else 0.0
  }

  /** The cube position after one `updateInput` with the keys `held`:
      `w` adds 1 to x, then `s` takes 1 from x, then `a` takes 1 from z,
      then `d` adds 1 to z, each only when held. */
  function InputStep(held: set<string>, p: Vec3): Vec3 {
    var x1 := if "w" in held then p.x + 1.0 else p.x;
    var x2 := if "s" in held then x1 - 1.0 else x1;
    var z1 := if "a" in held then p.z - 1.0 else p.z;
    var z2 := if "d" in held then z1 + 1.0 else z1;
    Vec3(x2, p.y, z2)
  }

  /** The cube position after `n` frames with the keys `held` throughout. */
  function Frames(held: set<string>, p: Vec3, n: nat): Vec3 {
    if n == 0 then p else InputStep(held, Frames(held, p, n - 1))
  }

  /** One input step moves x by the `w` key minus the `s` key and z by the
      `d` key minus the `a` key, and never moves y. */
  lemma InputStepSpec(held: set<string>, p: Vec3)
    ensures InputStep(held, p).x == p.x + Unit("w" in held) - Unit("s" in held)
    ensures InputStep(held, p).z == p.z - Unit("a" in held) + Unit("d" in held)
    ensures InputStep(held, p).y == p.y
  {
  }

  /** Holding `w` and `s` together leaves x alone; holding `a` and `d`
      together leaves z alone. */
  lemma OpposingKeysCancel(held: set<string>, p: Vec3)
    ensures "w" in held && "s" in held ==> InputStep(held, p).x == p.x
    ensures "a" in held && "d" in held ==> InputStep(held, p).z == p.z
  {
  }

  /** Without a movement key held, the input step leaves the cube where it is;
      other held keys make no difference. */
  lemma NoMovementKeyNoMove(held: set<string>, p: Vec3)
    ensures InputStep(held, p) == InputStep(held * {"w", "s", "a", "d"}, p)
    ensures "w" !in held && "s" !in held && "a" !in held && "d" !in held ==> InputStep(held, p) == p
  {
  }

  /** `n` frames with `w` held and no other movement key add exactly `n` to
      x and change nothing else. */
  lemma {:induction false} HoldingForward(held: set<string>, p: Vec3, n: nat)
    requires "w" in held && "s" !in held && "a" !in held && "d" !in held
    ensures Frames(held, p, n) == Vec3(p.x + n as real, p.y, p.z)
  {
    if n > 0 {
      HoldingForward(held, p, n - 1);
    }
  }

  /** The held keys after a keydown of `key`: its lower-cased name is held. */
  function KeyDown(held: set<string>, key: string): (r: set<string>)
    ensures Lower(key) in r && held <= r && r - held <= {Lower(key)}
  {
    held + {Lower(key)}
  }

  /** The held keys after a keyup of `key`: its lower-cased name is let go. */
  function KeyUp(held: set<string>, key: string): (r: set<string>)
    ensures Lower(key) !in r && r <= held && held - r <= {Lower(key)}
  {
    held - {Lower(key)}
  }

  /** Pressing a key in either case holds the same lower-case name, so
      releasing it in either case lets it go: `W` pressed and `w` released,
      or the other way round, restores a set that held neither. */
  lemma PressReleaseAnyCase(held: set<string>, pressed: string, released: string)
    requires Lower(pressed) == Lower(released)
    requires Lower(pressed) !in held
    ensures KeyUp(KeyDown(held, pressed), released) == held
  {
  }

  /** Pressing an already held key, or releasing a key that is not held,
      leaves the set as it is; the name stored is always lower case. */
  lemma KeySetLaws(held: set<string>, key: string)
    ensures KeyDown(KeyDown(held, key), key) == KeyDown(held, key)
    ensures Lower(key) !in held ==> KeyUp(held, key) == held
    ensures Lower(Lower(key)) == Lower(key)
  {
    LowerIdempotent(key);
  }

  /** A letter key pressed in either case moves the cube exactly as the
      lower-case letter does: holding `W` (Shift held) is holding `w`. */
  lemma ShiftedKeyMoves(held: set<string>, p: Vec3, key: string, c: char)
    requires 'a' <= c <= 'z'
    requires key == [c] || key == [Upper(c)]
    ensures InputStep(KeyDown(held, key), p) == InputStep(held + {[c]}, p)
  {
    LowerIsLetter(key, c);
  }

  /** `BasicCube`: the mesh the input step moves; only its position is
      modelled. A new mesh sits at the origin. */
  class BasicCube {
    var position: Vec3

    constructor ()
      ensures position == Origin
    {
      position := Origin;
    }
  }

  class SceneManager {
    /** The keys currently held, lower-cased. */
    var keyDown: set<string>

    /** The module-level cube the input step moves. */
    const cube: BasicCube

    constructor (cube: BasicCube)
      ensures keyDown == {} && this.cube == cube
    {
      keyDown := {};
      this.cube := cube;
    }

    /** `update`: one input step. */
    method Update()
      modifies cube`position
      ensures cube.position == InputStep(keyDown, old(cube.position))
    {
      UpdateInput();
    }

    /** The keydown listener: the lower-cased key is held from now on. */
    method HandleKeyDown(key: string)
      modifies this`keyDown
      ensures keyDown == KeyDown(old(keyDown), key)
    {
      keyDown := keyDown + {Lower(key)};
    }

    /** The keyup listener: the lower-cased key is no longer held. */
    method HandleKeyUp(key: string)
      modifies this`keyDown
      ensures keyDown == KeyUp(old(keyDown), key)
    {
      keyDown := keyDown - {Lower(key)};
    }

    /** `updateInput`: the cube's coordinates are bumped in place, one test
        per movement key. */
    method UpdateInput()
      modifies cube`position
      ensures cube.position == InputStep(keyDown, old(cube.position))
    {
      if "w" in keyDown {
        cube.position := cube.position.(x := cube.position.x + 1.0);
      }
      if "s" in keyDown {
        cube.position := cube.position.(x := cube.position.x - 1.0);
      }
      if "a" in keyDown {
        cube.position := cube.position.(z := cube.position.z - 1.0);
      }
      if "d" in keyDown {
        cube.position := cube.position.(z := cube.position.z + 1.0);
      }
    }
  }
}
