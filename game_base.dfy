/** The base object every game extends (game.py): the current state, the
    rules text and the two running scores, with `reset` and the plain
    three-per-row text rendering of the state. */
module GameBase {
  import opened Builtins

  /** The separator written after element `i`: a newline closes every row
      of three, a space follows every other element. */
  function Separator(i: nat): string
  {
    if i % 3 == 2 then "\n" else " "
  }

  /** The text `__str__` builds for `s`: each element's `str`, each followed
      by its separator, so at least two characters per element. */
  function Render(s: seq<int>): (r: string)
    ensures |r| >= 2 * |s|
  {
    if s == [] then "" else Render(s[..|s| - 1]) + IntText(s[|s| - 1]) + Separator(|s| - 1)
  }

  /** One more element adds a row exactly when it closes one. */
  lemma ThirdsStep(n: nat)
    ensures (n + 1) / 3 == n / 3 + (if n % 3 == 2 then 1 else 0)
  {
    var q, r := n / 3, n % 3;
    assert n == 3 * q + r && 0 <= r < 3;
    if r == 2 {
      assert n + 1 == 3 * (q + 1);
    } else {
      assert n + 1 == 3 * q + (r + 1) && r + 1 < 3;
    }
  }

  /** The last element adds its text, which holds no separator, and its
      own separator. */
  lemma RenderLast(s: seq<int>, c: char)
    requires s != [] && (c == '\n' || c == ' ')
    ensures Count(Render(s), c) == Count(Render(s[..|s| - 1]), c) + Count(Separator(|s| - 1), c)
  {
    var n := |s| - 1;
    IntTextNoBlanks(s[n]);
    CountConcat(Render(s[..n]), IntText(s[n]), c);
    CountConcat(Render(s[..n]) + IntText(s[n]), Separator(n), c);
  }

  /** Every element is followed by exactly one separator, and every third
      of them, counting from the first, is a newline. */
  lemma {:induction false} RenderSeparators(s: seq<int>)
    ensures Count(Render(s), '\n') == |s| / 3
    ensures Count(Render(s), ' ') == |s| - |s| / 3
    decreases |s|
  {
    if s != [] {
      var n := |s| - 1;
      RenderSeparators(s[..n]);
      RenderLast(s, '\n');
      RenderLast(s, ' ');
      var closes := if n % 3 == 2 then 1 else 0;
      assert Count(Separator(n), '\n') == closes;
      assert Count(Separator(n), ' ') == 1 - closes;
      ThirdsStep(n);
    }
  }

  class GameLogic {
    var state: seq<int>
    var rules: string
    var playerScore: int
    var computerScore: int

    /** A fresh game: no state, no rules text, both scores 0. */
    constructor ()
      ensures state == [] && rules == ""
      ensures playerScore == 0 && computerScore == 0
    {
      state := [];
      rules := "";
      playerScore := 0;
      computerScore := 0;
    }

    /** Clears the state and both scores; the rules text stays. */
    method Reset()
      modifies this
      ensures state == [] && playerScore == 0 && computerScore == 0
      ensures rules == old(rules)
    {
      state := [];
      playerScore := 0;
      computerScore := 0;
    }

    /** `__str__`: the state rendered element by element. */
    method ToText() returns (ret: string)
      ensures ret == Render(state)
      ensures Count(ret, '\n') == |state| / 3
      ensures Count(ret, ' ') == |state| - |state| / 3
    {
      ret := "";
      for i := 0 to |state|
        invariant ret == Render(state[..i])
      {
        assert state[..i + 1][..i] == state[..i];
        ret := ret + IntText(state[i]);
        ret := ret + Separator(i);
      }
      assert state[..|state|] == state;
      RenderSeparators(state);
    }
  }
}
