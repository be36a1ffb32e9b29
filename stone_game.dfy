/** The rules of the stone game (game_stone_game.py): a pile of stone
    values, from whose front the mover takes one, two or three stones and
    scores their total; the game object built on the base game, with its
    rules text, its reset pile and the winner read off the two scores. */
module StoneGame {
  import opened Builtins
  import GameBase

  const Rules: string := "The game starts with a pile of stones. Players take turns taking 1, 2, or 3 stones from the pile. The player who takes the last stone loses."

  /** The number of stones a move may take from `s`: three, or the whole
      pile when it is shorter. */
  function MaxTake(s: seq<int>): nat
  {
    if |s| < 3 then |s| else 3
  }

  /** `actions`: the counts 1 up to `MaxTake(s)`, in ascending order. */
  function Actions(s: seq<int>): (r: seq<int>)
    ensures |r| == MaxTake(s)
    ensures forall i :: 0 <= i < |r| ==> r[i] == i + 1
    ensures r == [] <==> s == []
  {
    seq(MaxTake(s), i => i + 1)
  }

  /** The actions are exactly the takes from 1 to 3 the pile can supply,
      each once. */
  lemma ActionsAreTakes(s: seq<int>)
    ensures forall a :: a in Actions(s) <==> 1 <= a <= 3 && a <= |s|
    ensures forall i, j :: 0 <= i < j < |Actions(s)| ==> Actions(s)[i] < Actions(s)[j]
  {
    forall a | 1 <= a <= 3 && a <= |s| ensures a in Actions(s) {
      assert Actions(s)[a - 1] == a;
    }
  }

  /** `result`: the pile left after taking `action` stones from the front,
      and the total those stones score.  A count outside the pile is
      clamped the way a Python slice clamps it. */
  function Result(s: seq<int>, action: int): (r: (seq<int>, int))
    ensures 0 <= action <= |s| ==> |r.0| == |s| - action
  {
    (Suffix(s, action), Sum(Prefix(s, action)))
  }

  /** The taken stones and the pile left make up the old pile again, and
      no value is lost: the score plus what is left sums to the old pile. */
  lemma ResultSplits(s: seq<int>, action: int)
    ensures Prefix(s, action) + Result(s, action).0 == s
    ensures Result(s, action).1 + Sum(Result(s, action).0) == Sum(s)
    ensures 0 <= action <= |s| ==>
      Result(s, action).0 == s[action..] && Result(s, action).1 == Sum(s[..action])
  {
    SplitAt(s, action);
  }

  /** `utility`: unfinished in the code, it scores every pile as a tie. */
  function Utility(s: seq<int>, player: int): int
  {
    0
  }

  /** The pile `reset` lays out: the values 0 to 14 in order. */
  function StartPile(): (r: seq<int>)
    ensures |r| == 15 && forall i :: 0 <= i < 15 ==> r[i] == i
  {
    seq(15, i => i)
  }

  class StoneGame {
    const base: GameBase.GameLogic

    /** A new game on `pile`, the random draw of 14 to 17 values from 0 to
        10 made by the caller; scores start at 0. */
    constructor (pile: seq<int>)
      requires 14 <= |pile| <= 17
      requires forall i :: 0 <= i < |pile| ==> 0 <= pile[i] <= 10
      ensures fresh(base)
      ensures base.state == pile && base.rules == Rules
      ensures base.playerScore == 0 && base.computerScore == 0
    {
      var b := new GameBase.GameLogic();
      b.rules := Rules;
      b.state := pile;
      base := b;
    }

    /** `reset`: the base reset clears the scores, then the pile becomes
        0 to 14. */
    method Reset()
      modifies base
      ensures base.state == StartPile()
      ensures base.playerScore == 0 && base.computerScore == 0
      ensures base.rules == old(base.rules)
    {
      base.Reset();
      base.state := StartPile();
    }

    /** `check_winner`: nobody has won while stones remain; on an empty
        pile the higher score wins, equal scores tie. */
    function CheckWinner(state: seq<int>): (r: string)
      reads base
      ensures r == "No winner yet" <==> state != []
      ensures r == "Player" <==> state == [] && base.playerScore > base.computerScore
      ensures r == "Computer" <==> state == [] && base.playerScore < base.computerScore
      ensures r == "Tie" <==> state == [] && base.playerScore == base.computerScore
    {
      if |state| == 0 then
        if base.playerScore > base.computerScore then "Player"
        else if base.playerScore < base.computerScore then "Computer"
        else "Tie"
      else "No winner yet"
    }
  }
}
