/** Keyboard input: which key names a direction, and the velocity a key press leaves. */
module Direction {

  /** `(dx, dy)` is one of the four unit moves. */
  predicate IsDirection(dx: int, dy: int)
  {
    (dx == 1 && dy == 0) || (dx == -1 && dy == 0) || (dx == 0 && dy == 1) || (dx == 0 && dy == -1)
  }

  /** `toLowerCase` on one character, for the ASCII letters. */
  function LowerChar(c: char): (l: char)
    ensures !('A' <= l <= 'Z')
    ensures 'a' <= l <= 'z' ==> c == l || c as int == l as int - 32
    ensures !('a' <= l <= 'z') ==> c == l
  {
    if 'A' <= c <= 'Z' then (c as int + 32) as char else c
  }

  /** `toLowerCase` on a key name, character by character. */
  function LowerAscii(s: string): (r: string)
    ensures |r| == |s|
    ensures forall i :: 0 <= i < |s| ==> r[i] == LowerChar(s[i])
  {
    if s == [] then [] else [LowerChar(s[0])] + LowerAscii(s[1..])
  }

  /** A single letter key matches case-insensitively exactly when it is that
      letter or its capital: the lower-casing adds no other spelling. */
  lemma LowerIsLetter(key: string, letter: char)
    requires 'a' <= letter <= 'z'
    ensures LowerAscii(key) == [letter] <==> key == [letter] || key == [(letter as int - 32) as char]
  {
  }

  /** The key is the arrow key `arrow` or the letter `letter` in either case
      (`key === arrow || key.toLowerCase() === letter`). */
  predicate Pressed(key: string, arrow: string, letter: char)
  {
    key == arrow || LowerAscii(key) == [letter]
  }

  /** The key is one of the eight keys that steer the snake. */
  predicate IsSteeringKey(key: string)
  {
    Pressed(key, "ArrowLeft", 'a') || Pressed(key, "ArrowUp", 'w')
    || Pressed(key, "ArrowRight", 'd') || Pressed(key, "ArrowDown", 's')
  }

  /** The velocity after pressing `key` while moving with `(dx, dy)`. A turn
      is taken only if the snake is not moving in the opposite direction;
      the guard compares with the velocity at the moment of the key press. */
  function Turn(key: string, dx: int, dy: int): (d: (int, int))
    ensures d == (dx, dy) || IsDirection(d.0, d.1)
    ensures IsDirection(dx, dy) ==> IsDirection(d.0, d.1)
    ensures IsDirection(dx, dy) ==> d != (-dx, -dy)
    ensures !IsSteeringKey(key) ==> d == (dx, dy)
  {
    if Pressed(key, "ArrowLeft", 'a') && dx != 1 then (-1, 0)
    else if Pressed(key, "ArrowUp", 'w') && dy != 1 then (0, -1)
    else if Pressed(key, "ArrowRight", 'd') && dx != -1 then (1, 0)
    else if Pressed(key, "ArrowDown", 's') && dy != -1 then (0, 1)
    else (dx, dy)
  }

  /** A key name that is not exactly one character long never reads as a letter key. */
  lemma LongKeyIsNoLetter(key: string, letter: char)
    requires |key| != 1
    ensures LowerAscii(key) != [letter]
  {
  }

  /** Each arrow key steers only in its own direction. */
  lemma ArrowKeys()
    ensures Pressed("ArrowLeft", "ArrowLeft", 'a') && !Pressed("ArrowLeft", "ArrowUp", 'w')
    ensures !Pressed("ArrowLeft", "ArrowRight", 'd') && !Pressed("ArrowLeft", "ArrowDown", 's')
    ensures Pressed("ArrowUp", "ArrowUp", 'w') && !Pressed("ArrowUp", "ArrowLeft", 'a')
    ensures !Pressed("ArrowUp", "ArrowRight", 'd') && !Pressed("ArrowUp", "ArrowDown", 's')
    ensures Pressed("ArrowRight", "ArrowRight", 'd') && !Pressed("ArrowRight", "ArrowLeft", 'a')
    ensures !Pressed("ArrowRight", "ArrowUp", 'w') && !Pressed("ArrowRight", "ArrowDown", 's')
    ensures Pressed("ArrowDown", "ArrowDown", 's') && !Pressed("ArrowDown", "ArrowLeft", 'a')
    ensures !Pressed("ArrowDown", "ArrowUp", 'w') && !Pressed("ArrowDown", "ArrowRight", 'd')
  {
    LongKeyIsNoLetter("ArrowLeft", 'w');
    LongKeyIsNoLetter("ArrowLeft", 'd');
    LongKeyIsNoLetter("ArrowLeft", 's');
    LongKeyIsNoLetter("ArrowUp", 'a');
    LongKeyIsNoLetter("ArrowUp", 'd');
    LongKeyIsNoLetter("ArrowUp", 's');
    LongKeyIsNoLetter("ArrowRight", 'a');
    LongKeyIsNoLetter("ArrowRight", 'w');
    LongKeyIsNoLetter("ArrowRight", 's');
    LongKeyIsNoLetter("ArrowDown", 'a');
    LongKeyIsNoLetter("ArrowDown", 'w');
    LongKeyIsNoLetter("ArrowDown", 'd');
  }

  /** A key that names the current direction or its reverse is ignored; a
      key naming one of the two perpendicular directions is obeyed. */
  lemma TurnPerpendicular(dx: int, dy: int)
    requires IsDirection(dx, dy)
    ensures Turn("ArrowLeft", dx, dy) == (if dx == 0 then (-1, 0) else (dx, dy))
    ensures Turn("ArrowRight", dx, dy) == (if dx == 0 then (1, 0) else (dx, dy))
    ensures Turn("ArrowUp", dx, dy) == (if dy == 0 then (0, -1) else (dx, dy))
    ensures Turn("ArrowDown", dx, dy) == (if dy == 0 then (0, 1) else (dx, dy))
  {
    ArrowKeys();
  }

  /** A key that lower-cases to one of the four letters matches that
      letter's branch and no other. */
  lemma OnlyBranch(key: string, letter: char)
    requires letter in {'a', 'w', 'd', 's'}
    requires LowerAscii(key) == [letter]
    ensures Pressed(key, "ArrowLeft", 'a') <==> letter == 'a'
    ensures Pressed(key, "ArrowUp", 'w') <==> letter == 'w'
    ensures Pressed(key, "ArrowRight", 'd') <==> letter == 'd'
    ensures Pressed(key, "ArrowDown", 's') <==> letter == 's'
  {
  }

  /** `a` and `A` steer exactly as the left arrow does. */
  lemma LeftKeysTurn(key: string, dx: int, dy: int)
    requires key == "a" || key == "A"
    ensures Turn(key, dx, dy) == Turn("ArrowLeft", dx, dy)
  {
    LowerIsLetter(key, 'a');
    OnlyBranch(key, 'a');
    ArrowKeys();
  }

  /** `w` and `W` steer exactly as the up arrow does. */
  lemma UpKeysTurn(key: string, dx: int, dy: int)
    requires key == "w" || key == "W"
    ensures Turn(key, dx, dy) == Turn("ArrowUp", dx, dy)
  {
  }

  /** `d` and `D` steer exactly as the right arrow does. */
  lemma RightKeysTurn(key: string, dx: int, dy: int)
    requires key == "d" || key == "D"
    ensures Turn(key, dx, dy) == Turn("ArrowRight", dx, dy)
  {
  }

  /** `s` and `S` steer exactly as the down arrow does. */
  lemma DownKeysTurn(key: string, dx: int, dy: int)
    requires key == "s" || key == "S"
    ensures Turn(key, dx, dy) == Turn("ArrowDown", dx, dy)
  {
  }

  /** Because the guard looks only at the current velocity, two key presses
      before the next tick can reverse the snake: moving right, "up" then
      "left" leaves it moving left. */
  lemma TwoKeysReverse()
    ensures var d := Turn("ArrowUp", 1, 0); Turn("ArrowLeft", d.0, d.1) == (-1, 0)
  {
    ArrowKeys();
  }
}
