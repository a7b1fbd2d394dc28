/** Keyboard-event key names and `String.prototype.toLowerCase`, as both
    scene managers apply it to `event.key` before looking at it. */
module Keys {

  function LowerChar(c: char): char {
    if 'A' <= c <= 'Z' then (c as int + 32) as char else c
  }

  /** `key.toLowerCase()` on the ASCII letters; every other character is kept. */
  function Lower(s: string): (r: string)
    ensures |r| == |s|
    ensures forall i :: 0 <= i < |s| ==> r[i] == LowerChar(s[i])
  {
    if s == [] then [] else [LowerChar(s[0])] + Lower(s[1..])
  }

  /** Lowering twice is lowering once, so a key that is already lower case is
      kept as it is. */
  lemma {:induction false} LowerIdempotent(s: string)
    ensures Lower(Lower(s)) == Lower(s)
  {
    if s != [] {
      LowerIdempotent(s[1..]);
      assert Lower(s)[1..] == Lower(s[1..]);
    }
  }

  /** The upper-case partner of a lower-case ASCII letter. */
  function Upper(c: char): char
    requires 'a' <= c <= 'z'
  {
    (c as int - 32) as char
  }

  /** A key lowers to the one-letter name `[c]` exactly when it is that letter
      in either case: `W` and `w` both select `w`, nothing else does. */
  lemma LowerIsLetter(key: string, c: char)
    requires 'a' <= c <= 'z'
    ensures Lower(key) == [c] <==> key == [c] || key == [Upper(c)]
  {
    if Lower(key) == [c] {
      assert |key| == 1 && LowerChar(key[0]) == c;
      assert key == [key[0]];
    }
  }
}
