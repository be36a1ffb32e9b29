/** The stone-game search of minigame.py: a MAX and a MIN search with
    alpha-beta pruning that carry the running score difference `dif` (MAX's
    takings added, MIN's subtracted) and record every node they visit in a
    graph keyed by tree level, pile and difference.

    The functions here say what the searches compute: `MaxGameValue` and
    `MinGameValue` are the plain, unpruned value of a pile; `AbMax` and
    `AbMin` are what the pruned search returns.  The main theorem is that
    the pruned value is a fail-soft bound of the plain value inside any
    window, and equals it in the window (-inf, inf) used at the root. */
module StoneSearch {
  import opened Builtins
  import opened SearchValues
  import StoneGame

  function IntMax(x: int, y: int): int
  {
    if x < y then y else x
  }

  function IntMin(x: int, y: int): int
  {
    if y < x then y else x
  }

  // ---------------------------------------------------------------------
  // The plain value of a pile.

  /** The value left to MIN after MAX takes `a` stones from `s`. */
  function MinChild(s: seq<int>, dif: int, a: int): int
    requires 1 <= a <= StoneGame.MaxTake(s)
    decreases |s|, 0, 0
  {
    var step := StoneGame.Result(s, a);
    MinGameValue(step.0, dif + step.1)
  }

  /** The value left to MAX after MIN takes `a` stones from `s`. */
  function MaxChild(s: seq<int>, dif: int, a: int): int
    requires 1 <= a <= StoneGame.MaxTake(s)
    decreases |s|, 0, 0
  {
    var step := StoneGame.Result(s, a);
    MaxGameValue(step.0, dif - step.1)
  }

  /** The best of MAX's first `k` moves. */
  function MaxUpTo(s: seq<int>, dif: int, k: nat): int
    requires 1 <= k <= StoneGame.MaxTake(s)
    decreases |s|, 0, k
  {
    if k == 1 then MinChild(s, dif, 1) else IntMax(MaxUpTo(s, dif, k - 1), MinChild(s, dif, k))
  }

  /** The best of MIN's first `k` moves. */
  function MinUpTo(s: seq<int>, dif: int, k: nat): int
    requires 1 <= k <= StoneGame.MaxTake(s)
    decreases |s|, 0, k
  {
    if k == 1 then MaxChild(s, dif, 1) else IntMin(MinUpTo(s, dif, k - 1), MaxChild(s, dif, k))
  }

  /** The final difference both sides playing best reach when MAX is to
      move on `s` with difference `dif` so far. */
  function MaxGameValue(s: seq<int>, dif: int): int
    decreases |s|, 1
  {
    if s == [] then dif else MaxUpTo(s, dif, StoneGame.MaxTake(s))
  }

  /** The same with MIN to move. */
  function MinGameValue(s: seq<int>, dif: int): int
    decreases |s|, 1
  {
    if s == [] then dif else MinUpTo(s, dif, StoneGame.MaxTake(s))
  }

  // ---------------------------------------------------------------------
  // The pruned search.

  /** Which move a node reports.  `ChildMove` is the code as written: the
      child's reported move when it is not 0, else the node's own action.
      `OwnAction` reports the node's own action, the evident intent. */
  datatype Rule = ChildMove | OwnAction

  function Reported(rule: Rule, childMove: int, a: int): int
  {
    if rule == ChildMove && childMove != 0 then childMove else a
  }

  /** A node's loop state after some actions: its value `v`, its move, its
      moving bound (alpha for MAX, beta for MIN) and, once the loop has
      broken off, the index of the action whose child was pruned. */
  datatype Scan = Scan(v: ExtInt, move: int, bound: ExtInt, cut: Option<nat>)

  /** MAX's loop after the first `k` actions of `s`: a child strictly
      better than `v` replaces it, alpha rises to the child's value, and
      the loop stops for good once `beta <= v`. */
  function AbMaxScan(s: seq<int>, alpha: ExtInt, beta: ExtInt, dif: int, rule: Rule, k: nat): (r: Scan)
    requires k <= StoneGame.MaxTake(s)
    ensures k > 0 ==> r.v.Fin?
    ensures k > 0 ==> 1 <= r.move <= StoneGame.MaxTake(s)
    decreases |s|, 0, k
  {
    if k == 0 then Scan(NegInf, 0, alpha, None)
    else
      var prev := AbMaxScan(s, alpha, beta, dif, rule, k - 1);
      if prev.cut.Some? then prev
      else
        var a := StoneGame.Actions(s)[k - 1];
        var step := StoneGame.Result(s, a);
        var child := AbMin(step.0, prev.bound, beta, dif + step.1, rule);
        var better := prev.v.Lt(Fin(child.0));
        var v := if better then Fin(child.0) else prev.v;
        Scan(v, if better then Reported(rule, child.1, a) else prev.move,
             Max(prev.bound, Fin(child.0)), if beta.Le(v) then Some(k - 1) else None)
  }

  /** MIN's loop after the first `k` actions of `s`: a child strictly
      better (smaller) than `v` replaces it, beta falls to the child's
      value, and the loop stops for good once `v <= alpha`. */
  function AbMinScan(s: seq<int>, alpha: ExtInt, beta: ExtInt, dif: int, rule: Rule, k: nat): (r: Scan)
    requires k <= StoneGame.MaxTake(s)
    ensures k > 0 ==> r.v.Fin?
    ensures k > 0 ==> 1 <= r.move <= StoneGame.MaxTake(s)
    decreases |s|, 0, k
  {
    if k == 0 then Scan(PosInf, 0, beta, None)
    else
      var prev := AbMinScan(s, alpha, beta, dif, rule, k - 1);
      if prev.cut.Some? then prev
      else
        var a := StoneGame.Actions(s)[k - 1];
        var step := StoneGame.Result(s, a);
        var child := AbMax(step.0, alpha, prev.bound, dif - step.1, rule);
        var better := Fin(child.0).Lt(prev.v);
        var v := if better then Fin(child.0) else prev.v;
        Scan(v, if better then Reported(rule, child.1, a) else prev.move,
             Min(prev.bound, Fin(child.0)), if v.Le(alpha) then Some(k - 1) else None)
  }

  /** What `max_value` returns: `dif` and move 0 on an empty pile, else the
      loop's value and move once every action is done or it broke off.
      The move is 0 exactly on an empty pile and otherwise a take the pile
      can supply, under either move rule: a child's move was made on a
      smaller pile, and the first child always beats -inf. */
  function AbMax(s: seq<int>, alpha: ExtInt, beta: ExtInt, dif: int, rule: Rule): (r: (int, int))
    ensures s == [] ==> r == (dif, 0)
    ensures s != [] ==> 1 <= r.1 <= StoneGame.MaxTake(s)
    decreases |s|, 1, 0
  {
    if s == [] then (dif, 0)
    else
      var sc := AbMaxScan(s, alpha, beta, dif, rule, StoneGame.MaxTake(s));
      (sc.v.n, sc.move)
  }

  /** What `min_value` returns, with the same move range. */
  function AbMin(s: seq<int>, alpha: ExtInt, beta: ExtInt, dif: int, rule: Rule): (r: (int, int))
    ensures s == [] ==> r == (dif, 0)
    ensures s != [] ==> 1 <= r.1 <= StoneGame.MaxTake(s)
    decreases |s|, 1, 0
  {
    if s == [] then (dif, 0)
    else
      var sc := AbMinScan(s, alpha, beta, dif, rule, StoneGame.MaxTake(s));
      (sc.v.n, sc.move)
  }

  // ---------------------------------------------------------------------
  // Soundness of the pruning.

  /** The fail-soft contract of a search returning `r` in the window
      (alpha, beta) on a node of plain value `value`: a result at or below
      alpha bounds the value from above, one at or above beta bounds it
      from below, and one strictly inside is the value. */
  predicate Soft(r: int, value: int, alpha: ExtInt, beta: ExtInt)
  {
    (Fin(r).Le(alpha) ==> value <= r) &&
    (beta.Le(Fin(r)) ==> r <= value) &&
    (alpha.Lt(Fin(r)) && Fin(r).Lt(beta) ==> r == value)
  }

  /** One turn of MAX's loop, on values alone: `m` is the plain best of the
      children seen, `r` and `c` the new child's returned and plain values. */
  lemma MaxStep(alpha: ExtInt, beta: ExtInt, v: ExtInt, bound: ExtInt, started: bool, m: int, r: int, c: int)
    requires alpha.Lt(beta) && bound == Max(alpha, v) && v.Lt(beta)
    requires !started ==> v == NegInf
    requires started ==> Fin(m).Le(v)
    requires alpha.Lt(v) ==> started && v.Le(Fin(m))
    requires Soft(r, c, bound, beta)
    ensures var v' := if v.Lt(Fin(r)) then Fin(r) else v;
            var m' := if started then IntMax(m, c) else c;
            Max(bound, Fin(r)) == Max(alpha, v') &&
            (v'.Lt(beta) ==> Fin(m').Le(v') && (alpha.Lt(v') ==> v'.Le(Fin(m')))) &&
            (beta.Le(v') ==> v'.Le(Fin(c))) &&
            (v.Lt(Fin(r)) && alpha.Lt(Fin(r)) && Fin(r).Lt(beta) ==> r == c)
  {
  }

  /** One turn of MIN's loop, on values alone. */
  lemma MinStep(alpha: ExtInt, beta: ExtInt, v: ExtInt, bound: ExtInt, started: bool, m: int, r: int, c: int)
    requires alpha.Lt(beta) && bound == Min(beta, v) && alpha.Lt(v)
    requires !started ==> v == PosInf
    requires started ==> v.Le(Fin(m))
    requires v.Lt(beta) ==> started && Fin(m).Le(v)
    requires Soft(r, c, alpha, bound)
    ensures var v' := if Fin(r).Lt(v) then Fin(r) else v;
            var m' := if started then IntMin(m, c) else c;
            Min(bound, Fin(r)) == Min(beta, v') &&
            (alpha.Lt(v') ==> v'.Le(Fin(m')) && (v'.Lt(beta) ==> Fin(m').Le(v'))) &&
            (v'.Le(alpha) ==> Fin(c).Le(v'))
  {
  }

  lemma {:induction false} MaxUpToGrows(s: seq<int>, dif: int, j: nat, k: nat)
    requires 1 <= j <= k <= StoneGame.MaxTake(s)
    ensures MaxUpTo(s, dif, j) <= MaxUpTo(s, dif, k)
    decreases k
  {
    if j < k {
      MaxUpToGrows(s, dif, j, k - 1);
    }
  }

  lemma {:induction false} MinUpToFalls(s: seq<int>, dif: int, j: nat, k: nat)
    requires 1 <= j <= k <= StoneGame.MaxTake(s)
    ensures MinUpTo(s, dif, k) <= MinUpTo(s, dif, j)
    decreases k
  {
    if j < k {
      MinUpToFalls(s, dif, j, k - 1);
    }
  }

  /** The invariant of MAX's loop after `k` actions: alpha is the larger
      of its start and `v`; while the loop runs, `v` is below beta, bounds
      the plain best of the children seen from above, and equals it once
      above the starting alpha; once it breaks off, `v` is at least beta and
      at most the plain value of the pruned child.  Reporting its own
      action, MAX's move names a child whose plain value is `v` whenever `v`
      is above alpha. */
  predicate MaxInv(s: seq<int>, alpha: ExtInt, beta: ExtInt, dif: int, rule: Rule, k: nat, sc: Scan)
    requires k <= StoneGame.MaxTake(s)
  {
    sc.bound == Max(alpha, sc.v) &&
    (k == 0 ==> sc.v == NegInf) &&
    (sc.cut.None? ==>
      sc.v.Lt(beta) &&
      (k > 0 ==> Fin(MaxUpTo(s, dif, k)).Le(sc.v)) &&
      (alpha.Lt(sc.v) ==> k > 0 && sc.v.Le(Fin(MaxUpTo(s, dif, k))))) &&
    (sc.cut.Some? ==>
      sc.cut.value < k && beta.Le(sc.v) && sc.v.Le(Fin(MaxUpTo(s, dif, sc.cut.value + 1)))) &&
    (rule == OwnAction && sc.cut.None? && alpha.Lt(sc.v) ==>
      1 <= sc.move <= k && Fin(MinChild(s, dif, sc.move)) == sc.v)
  }

  /** The invariant of MIN's loop, the mirror image of MAX's. */
  predicate MinInv(s: seq<int>, alpha: ExtInt, beta: ExtInt, dif: int, k: nat, sc: Scan)
    requires k <= StoneGame.MaxTake(s)
  {
    sc.bound == Min(beta, sc.v) &&
    (k == 0 ==> sc.v == PosInf) &&
    (sc.cut.None? ==>
      alpha.Lt(sc.v) &&
      (k > 0 ==> sc.v.Le(Fin(MinUpTo(s, dif, k)))) &&
      (sc.v.Lt(beta) ==> k > 0 && Fin(MinUpTo(s, dif, k)).Le(sc.v))) &&
    (sc.cut.Some? ==>
      sc.cut.value < k && sc.v.Le(alpha) && Fin(MinUpTo(s, dif, sc.cut.value + 1)).Le(sc.v))
  }

  /** One turn of MAX's loop keeps the invariant: `prev` is the state
      after `k - 1` actions, `r` what the `k`-th child returned and `c` its
      plain value. */
  lemma MaxInvStep(s: seq<int>, alpha: ExtInt, beta: ExtInt, dif: int, rule: Rule, k: nat,
                   prev: Scan, childMove: int, r: int, c: int)
    requires 1 <= k <= StoneGame.MaxTake(s) && alpha.Lt(beta)
    requires MaxInv(s, alpha, beta, dif, rule, k - 1, prev) && prev.cut.None?
    requires c == MinChild(s, dif, k)
    requires Soft(r, c, prev.bound, beta)
    ensures var better := prev.v.Lt(Fin(r));
            var v := if better then Fin(r) else prev.v;
            MaxInv(s, alpha, beta, dif, rule, k,
                   Scan(v, if better then Reported(rule, childMove, k) else prev.move,
                        Max(prev.bound, Fin(r)), if beta.Le(v) then Some(k - 1) else None))
  {
    var m := if k > 1 then MaxUpTo(s, dif, k - 1) else 0;
    assert MaxUpTo(s, dif, k) == if k > 1 then IntMax(m, c) else c;
    MaxStep(alpha, beta, prev.v, prev.bound, k > 1, m, r, c);
  }

  /** One turn of MIN's loop keeps the invariant. */
  lemma MinInvStep(s: seq<int>, alpha: ExtInt, beta: ExtInt, dif: int, k: nat,
                   prev: Scan, move: int, r: int, c: int)
    requires 1 <= k <= StoneGame.MaxTake(s) && alpha.Lt(beta)
    requires MinInv(s, alpha, beta, dif, k - 1, prev) && prev.cut.None?
    requires c == MaxChild(s, dif, k)
    requires Soft(r, c, alpha, prev.bound)
    ensures var better := Fin(r).Lt(prev.v);
            var v := if better then Fin(r) else prev.v;
            MinInv(s, alpha, beta, dif, k,
                   Scan(v, move, Min(prev.bound, Fin(r)), if v.Le(alpha) then Some(k - 1) else None))
  {
    var m := if k > 1 then MinUpTo(s, dif, k - 1) else 0;
    assert MinUpTo(s, dif, k) == if k > 1 then IntMin(m, c) else c;
    MinStep(alpha, beta, prev.v, prev.bound, k > 1, m, r, c);
  }

  /** MAX's loop keeps its invariant: each turn is one `MaxInvStep`, with
      the child's soundness supplied by induction. */
  lemma {:induction false} AbMaxScanInv(s: seq<int>, alpha: ExtInt, beta: ExtInt, dif: int, rule: Rule, k: nat)
    requires k <= StoneGame.MaxTake(s) && alpha.Lt(beta)
    ensures MaxInv(s, alpha, beta, dif, rule, k, AbMaxScan(s, alpha, beta, dif, rule, k))
    decreases |s|, 0, k
  {
    if k > 0 {
      var prev := AbMaxScan(s, alpha, beta, dif, rule, k - 1);
      AbMaxScanInv(s, alpha, beta, dif, rule, k - 1);
      if prev.cut.None? {
        assert StoneGame.Actions(s)[k - 1] == k;
        var step := StoneGame.Result(s, k);
        assert prev.bound.Lt(beta);
        var child := AbMin(step.0, prev.bound, beta, dif + step.1, rule);
        AbMinSound(step.0, prev.bound, beta, dif + step.1, rule);
        MaxInvStep(s, alpha, beta, dif, rule, k, prev, child.1, child.0, MinChild(s, dif, k));
      }
    }
  }

  /** MIN's loop keeps its invariant. */
  lemma {:induction false} AbMinScanInv(s: seq<int>, alpha: ExtInt, beta: ExtInt, dif: int, rule: Rule, k: nat)
    requires k <= StoneGame.MaxTake(s) && alpha.Lt(beta)
    ensures MinInv(s, alpha, beta, dif, k, AbMinScan(s, alpha, beta, dif, rule, k))
    decreases |s|, 0, k
  {
    if k > 0 {
      var prev := AbMinScan(s, alpha, beta, dif, rule, k - 1);
      AbMinScanInv(s, alpha, beta, dif, rule, k - 1);
      if prev.cut.None? {
        assert StoneGame.Actions(s)[k - 1] == k;
        var step := StoneGame.Result(s, k);
        assert alpha.Lt(prev.bound);
        var child := AbMax(step.0, alpha, prev.bound, dif - step.1, rule);
        AbMaxSound(step.0, alpha, prev.bound, dif - step.1, rule);
        var better := Fin(child.0).Lt(prev.v);
        MinInvStep(s, alpha, beta, dif, k, prev, if better then Reported(rule, child.1, k) else prev.move,
                   child.0, MaxChild(s, dif, k));
      }
    }
  }

  /** MAX's pruned search is fail-soft sound in every non-empty window;
      reporting its own action, the move it returns from inside the window
      reaches the plain value. */
  lemma {:induction false} AbMaxSound(s: seq<int>, alpha: ExtInt, beta: ExtInt, dif: int, rule: Rule)
    requires alpha.Lt(beta)
    ensures Soft(AbMax(s, alpha, beta, dif, rule).0, MaxGameValue(s, dif), alpha, beta)
    ensures (rule == OwnAction && s != [] &&
             alpha.Lt(Fin(AbMax(s, alpha, beta, dif, rule).0)) && Fin(AbMax(s, alpha, beta, dif, rule).0).Lt(beta)) ==>
      1 <= AbMax(s, alpha, beta, dif, rule).1 <= StoneGame.MaxTake(s) &&
      MinChild(s, dif, AbMax(s, alpha, beta, dif, rule).1) == MaxGameValue(s, dif)
    decreases |s|, 1
  {
    if s != [] {
      var n := StoneGame.MaxTake(s);
      var sc := AbMaxScan(s, alpha, beta, dif, rule, n);
      AbMaxScanInv(s, alpha, beta, dif, rule, n);
      if sc.cut.Some? {
        MaxUpToGrows(s, dif, sc.cut.value + 1, n);
      }
    }
  }

  /** MIN's pruned search is fail-soft sound in every non-empty window. */
  lemma {:induction false} AbMinSound(s: seq<int>, alpha: ExtInt, beta: ExtInt, dif: int, rule: Rule)
    requires alpha.Lt(beta)
    ensures Soft(AbMin(s, alpha, beta, dif, rule).0, MinGameValue(s, dif), alpha, beta)
    decreases |s|, 1
  {
    if s != [] {
      var n := StoneGame.MaxTake(s);
      var sc := AbMinScan(s, alpha, beta, dif, rule, n);
      AbMinScanInv(s, alpha, beta, dif, rule, n);
      if sc.cut.Some? {
        MinUpToFalls(s, dif, sc.cut.value + 1, n);
      }
    }
  }

  /** In the window (-inf, inf) pruning changes nothing: the root value is
      the plain value, whichever move rule is used. */
  lemma RootValue(s: seq<int>, dif: int, rule: Rule)
    ensures AbMax(s, NegInf, PosInf, dif, rule).0 == MaxGameValue(s, dif)
    ensures AbMin(s, NegInf, PosInf, dif, rule).0 == MinGameValue(s, dif)
  {
    AbMaxSound(s, NegInf, PosInf, dif, rule);
    AbMinSound(s, NegInf, PosInf, dif, rule);
  }

  /** Reporting its own action, the root's move on a non-empty pile is a
      legal take that reaches the plain value. */
  lemma OwnActionOptimal(s: seq<int>, dif: int)
    requires s != []
    ensures 1 <= AbMax(s, NegInf, PosInf, dif, OwnAction).1 <= StoneGame.MaxTake(s)
    ensures MinChild(s, dif, AbMax(s, NegInf, PosInf, dif, OwnAction).1) == MaxGameValue(s, dif)
  {
    AbMaxSound(s, NegInf, PosInf, dif, OwnAction);
  }

  // ---------------------------------------------------------------------
  // Moves and tie-breaks.

  /** The number of actions a loop that has reached `k` actually ran. */
  function Explored(sc: Scan, k: nat): nat
  {
    if sc.cut.Some? then sc.cut.value + 1 else k
  }

  /** What MAX's `j`-th child returned, called with the alpha of the loop
      after `j - 1` actions. */
  function MaxChildResult(s: seq<int>, alpha: ExtInt, beta: ExtInt, dif: int, rule: Rule, j: nat): (int, int)
    requires 1 <= j <= StoneGame.MaxTake(s)
  {
    var step := StoneGame.Result(s, j);
    AbMin(step.0, AbMaxScan(s, alpha, beta, dif, rule, j - 1).bound, beta, dif + step.1, rule)
  }

  /** What MIN's `j`-th child returned, called with the beta of the loop
      after `j - 1` actions. */
  function MinChildResult(s: seq<int>, alpha: ExtInt, beta: ExtInt, dif: int, rule: Rule, j: nat): (int, int)
    requires 1 <= j <= StoneGame.MaxTake(s)
  {
    var step := StoneGame.Result(s, j);
    AbMax(step.0, alpha, AbMinScan(s, alpha, beta, dif, rule, j - 1).bound, dif - step.1, rule)
  }

  /** MAX's loop state `sc` after `k` actions picked child `best`: the
      first child returning the greatest value.  Its value is `v`, the move
      is what that child's action reports, every earlier child returned
      less and no later child explored returned more. */
  predicate MaxFirstBest(s: seq<int>, alpha: ExtInt, beta: ExtInt, dif: int, rule: Rule, k: nat, sc: Scan, best: nat)
    requires k <= StoneGame.MaxTake(s)
  {
    1 <= best <= Explored(sc, k) <= k &&
    sc.v == Fin(MaxChildResult(s, alpha, beta, dif, rule, best).0) &&
    sc.move == Reported(rule, MaxChildResult(s, alpha, beta, dif, rule, best).1, best) &&
    (forall j :: 1 <= j < best ==> MaxChildResult(s, alpha, beta, dif, rule, j).0 < sc.v.n) &&
    (forall j :: best < j <= Explored(sc, k) ==> MaxChildResult(s, alpha, beta, dif, rule, j).0 <= sc.v.n)
  }

  /** The same for MIN: the first child returning the least value. */
  predicate MinFirstBest(s: seq<int>, alpha: ExtInt, beta: ExtInt, dif: int, rule: Rule, k: nat, sc: Scan, best: nat)
    requires k <= StoneGame.MaxTake(s)
  {
    1 <= best <= Explored(sc, k) <= k &&
    sc.v == Fin(MinChildResult(s, alpha, beta, dif, rule, best).0) &&
    sc.move == Reported(rule, MinChildResult(s, alpha, beta, dif, rule, best).1, best) &&
    (forall j :: 1 <= j < best ==> sc.v.n < MinChildResult(s, alpha, beta, dif, rule, j).0) &&
    (forall j :: best < j <= Explored(sc, k) ==> sc.v.n <= MinChildResult(s, alpha, beta, dif, rule, j).0)
  }

  lemma MaxFirstBestUpdate(s: seq<int>, alpha: ExtInt, beta: ExtInt, dif: int, rule: Rule, k: nat,
                         prev: Scan, b: nat, child: (int, int)) returns (best: nat)
    requires 2 <= k <= StoneGame.MaxTake(s)
    requires MaxFirstBest(s, alpha, beta, dif, rule, k - 1, prev, b) && prev.cut.None?
    requires child == MaxChildResult(s, alpha, beta, dif, rule, k)
    ensures var better := prev.v.Lt(Fin(child.0));
            var v := if better then Fin(child.0) else prev.v;
            MaxFirstBest(s, alpha, beta, dif, rule, k,
                         Scan(v, if better then Reported(rule, child.1, k) else prev.move,
                              Max(prev.bound, Fin(child.0)), if beta.Le(v) then Some(k - 1) else None), best)
  {
    LeTotal(prev.v, Fin(child.0));
    best := if prev.v.Lt(Fin(child.0)) then k else b;
  }

  lemma MinFirstBestUpdate(s: seq<int>, alpha: ExtInt, beta: ExtInt, dif: int, rule: Rule, k: nat,
                         prev: Scan, b: nat, child: (int, int)) returns (best: nat)
    requires 2 <= k <= StoneGame.MaxTake(s)
    requires MinFirstBest(s, alpha, beta, dif, rule, k - 1, prev, b) && prev.cut.None?
    requires child == MinChildResult(s, alpha, beta, dif, rule, k)
    ensures var better := Fin(child.0).Lt(prev.v);
            var v := if better then Fin(child.0) else prev.v;
            MinFirstBest(s, alpha, beta, dif, rule, k,
                         Scan(v, if better then Reported(rule, child.1, k) else prev.move,
                              Min(prev.bound, Fin(child.0)), if v.Le(alpha) then Some(k - 1) else None), best)
  {
    LeTotal(prev.v, Fin(child.0));
    best := if Fin(child.0).Lt(prev.v) then k else b;
  }

  lemma MaxFirstBestLimit(s: seq<int>, alpha: ExtInt, beta: ExtInt, dif: int, rule: Rule, k: nat, sc: Scan, best: nat)
    requires 1 <= k <= StoneGame.MaxTake(s)
    requires MaxFirstBest(s, alpha, beta, dif, rule, k - 1, sc, best) && sc.cut.Some?
    ensures MaxFirstBest(s, alpha, beta, dif, rule, k, sc, best)
  {
  }

  /** Once the loop has broken off, a further action leaves the pick. */
  lemma MaxFirstBestCut(s: seq<int>, alpha: ExtInt, beta: ExtInt, dif: int, rule: Rule, k: nat, best: nat)
    requires 2 <= k <= StoneGame.MaxTake(s)
    requires MaxFirstBest(s, alpha, beta, dif, rule, k - 1, AbMaxScan(s, alpha, beta, dif, rule, k - 1), best)
    requires AbMaxScan(s, alpha, beta, dif, rule, k - 1).cut.Some?
    ensures MaxFirstBest(s, alpha, beta, dif, rule, k, AbMaxScan(s, alpha, beta, dif, rule, k), best)
  {
    var prev := AbMaxScan(s, alpha, beta, dif, rule, k - 1);
    assert AbMaxScan(s, alpha, beta, dif, rule, k) == prev;
    MaxFirstBestLimit(s, alpha, beta, dif, rule, k, prev, best);
  }

  /** A further action explored moves the pick only to a child strictly
      better than every one before. */
  lemma MaxFirstBestStep(s: seq<int>, alpha: ExtInt, beta: ExtInt, dif: int, rule: Rule, k: nat, b: nat)
    returns (best: nat)
    requires 2 <= k <= StoneGame.MaxTake(s)
    requires MaxFirstBest(s, alpha, beta, dif, rule, k - 1, AbMaxScan(s, alpha, beta, dif, rule, k - 1), b)
    requires AbMaxScan(s, alpha, beta, dif, rule, k - 1).cut.None?
    ensures MaxFirstBest(s, alpha, beta, dif, rule, k, AbMaxScan(s, alpha, beta, dif, rule, k), best)
  {
    var prev := AbMaxScan(s, alpha, beta, dif, rule, k - 1);
    var child := MaxChildResult(s, alpha, beta, dif, rule, k);
    MaxScanStep(s, alpha, beta, dif, rule, k - 1, child);
    best := MaxFirstBestUpdate(s, alpha, beta, dif, rule, k, prev, b, child);
  }

  lemma MaxFirstBestBase(s: seq<int>, alpha: ExtInt, beta: ExtInt, dif: int, rule: Rule)
    requires s != []
    ensures MaxFirstBest(s, alpha, beta, dif, rule, 1, AbMaxScan(s, alpha, beta, dif, rule, 1), 1)
  {
    assert StoneGame.Actions(s)[0] == 1;
  }

  lemma MinFirstBestLimit(s: seq<int>, alpha: ExtInt, beta: ExtInt, dif: int, rule: Rule, k: nat, sc: Scan, best: nat)
    requires 1 <= k <= StoneGame.MaxTake(s)
    requires MinFirstBest(s, alpha, beta, dif, rule, k - 1, sc, best) && sc.cut.Some?
    ensures MinFirstBest(s, alpha, beta, dif, rule, k, sc, best)
  {
  }

  /** Once the loop has broken off, a further action leaves the pick. */
  lemma MinFirstBestCut(s: seq<int>, alpha: ExtInt, beta: ExtInt, dif: int, rule: Rule, k: nat, best: nat)
    requires 2 <= k <= StoneGame.MaxTake(s)
    requires MinFirstBest(s, alpha, beta, dif, rule, k - 1, AbMinScan(s, alpha, beta, dif, rule, k - 1), best)
    requires AbMinScan(s, alpha, beta, dif, rule, k - 1).cut.Some?
    ensures MinFirstBest(s, alpha, beta, dif, rule, k, AbMinScan(s, alpha, beta, dif, rule, k), best)
  {
    var prev := AbMinScan(s, alpha, beta, dif, rule, k - 1);
    assert AbMinScan(s, alpha, beta, dif, rule, k) == prev;
    MinFirstBestLimit(s, alpha, beta, dif, rule, k, prev, best);
  }

  /** A further action explored moves the pick only to a child strictly
      better than every one before. */
  lemma MinFirstBestStep(s: seq<int>, alpha: ExtInt, beta: ExtInt, dif: int, rule: Rule, k: nat, b: nat)
    returns (best: nat)
    requires 2 <= k <= StoneGame.MaxTake(s)
    requires MinFirstBest(s, alpha, beta, dif, rule, k - 1, AbMinScan(s, alpha, beta, dif, rule, k - 1), b)
    requires AbMinScan(s, alpha, beta, dif, rule, k - 1).cut.None?
    ensures MinFirstBest(s, alpha, beta, dif, rule, k, AbMinScan(s, alpha, beta, dif, rule, k), best)
  {
    var prev := AbMinScan(s, alpha, beta, dif, rule, k - 1);
    var child := MinChildResult(s, alpha, beta, dif, rule, k);
    MinScanStep(s, alpha, beta, dif, rule, k - 1, child);
    best := MinFirstBestUpdate(s, alpha, beta, dif, rule, k, prev, b, child);
  }

  lemma MinFirstBestBase(s: seq<int>, alpha: ExtInt, beta: ExtInt, dif: int, rule: Rule)
    requires s != []
    ensures MinFirstBest(s, alpha, beta, dif, rule, 1, AbMinScan(s, alpha, beta, dif, rule, 1), 1)
  {
    assert StoneGame.Actions(s)[0] == 1;
  }

  /** MAX's strict `v < v2` keeps the FIRST child returning the greatest
      value; later equal values never replace it. */
  lemma {:induction false} AbMaxScanFirstBest(s: seq<int>, alpha: ExtInt, beta: ExtInt, dif: int, rule: Rule, k: nat)
    returns (best: nat)
    requires 1 <= k <= StoneGame.MaxTake(s)
    ensures MaxFirstBest(s, alpha, beta, dif, rule, k, AbMaxScan(s, alpha, beta, dif, rule, k), best)
    decreases k
  {
    if k == 1 {
      MaxFirstBestBase(s, alpha, beta, dif, rule);
      best := 1;
    } else {
      assert StoneGame.Actions(s)[k - 1] == k;
      var prev := AbMaxScan(s, alpha, beta, dif, rule, k - 1);
      var b := AbMaxScanFirstBest(s, alpha, beta, dif, rule, k - 1);
      if prev.cut.Some? {
        MaxFirstBestCut(s, alpha, beta, dif, rule, k, b);
        best := b;
      } else {
        best := MaxFirstBestStep(s, alpha, beta, dif, rule, k, b);
      }
    }
  }

  /** MIN's strict `v > v2` keeps the FIRST child returning the least
      value, symmetrically. */
  lemma {:induction false} AbMinScanFirstBest(s: seq<int>, alpha: ExtInt, beta: ExtInt, dif: int, rule: Rule, k: nat)
    returns (best: nat)
    requires 1 <= k <= StoneGame.MaxTake(s)
    ensures MinFirstBest(s, alpha, beta, dif, rule, k, AbMinScan(s, alpha, beta, dif, rule, k), best)
    decreases k
  {
    if k == 1 {
      MinFirstBestBase(s, alpha, beta, dif, rule);
      best := 1;
    } else {
      assert StoneGame.Actions(s)[k - 1] == k;
      var prev := AbMinScan(s, alpha, beta, dif, rule, k - 1);
      var b := AbMinScanFirstBest(s, alpha, beta, dif, rule, k - 1);
      if prev.cut.Some? {
        MinFirstBestCut(s, alpha, beta, dif, rule, k, b);
        best := b;
      } else {
        best := MinFirstBestStep(s, alpha, beta, dif, rule, k, b);
      }
    }
  }

  // ---------------------------------------------------------------------
  // The move the code reports.

  /** The search below the first take on the pile 0, -5, 1: MIN answers
      it by taking two stones. */
  lemma CounterexampleFirstSon()
    ensures AbMin([-5, 1], NegInf, PosInf, 0, ChildMove) == (4, 2)
  {
    StoneGame.ResultSplits([-5, 1], 1);
    StoneGame.ResultSplits([-5, 1], 2);
    StoneGame.ResultSplits([1], 1);
    assert StoneGame.Result([-5, 1], 1) == ([1], -5);
    assert StoneGame.Result([-5, 1], 2) == ([], -4);
    assert StoneGame.Result([1], 1) == ([], 1);
    assert AbMax([1], NegInf, PosInf, 5, ChildMove) == (6, 1);
    assert AbMinScan([-5, 1], NegInf, PosInf, 0, ChildMove, 1) == Scan(Fin(6), 1, Fin(6), None);
  }

  /** The plain values on the pile 0, -5, 1. */
  lemma CounterexampleValues()
    ensures MaxGameValue([0, -5, 1], 0) == 4
    ensures MinChild([0, -5, 1], 0, 1) == 4
    ensures MinChild([0, -5, 1], 0, 2) == -6
  {
    var s := [0, -5, 1];
    StoneGame.ResultSplits(s, 1);
    StoneGame.ResultSplits(s, 2);
    StoneGame.ResultSplits(s, 3);
    StoneGame.ResultSplits([-5, 1], 1);
    StoneGame.ResultSplits([-5, 1], 2);
    StoneGame.ResultSplits([1], 1);
    assert StoneGame.Result(s, 1) == ([-5, 1], 0);
    assert StoneGame.Result(s, 2) == ([1], -5);
    assert StoneGame.Result(s, 3) == ([], -4);
    assert StoneGame.Result([-5, 1], 1) == ([1], -5);
    assert StoneGame.Result([-5, 1], 2) == ([], -4);
    assert StoneGame.Result([1], 1) == ([], 1);
    assert MinGameValue([1], -5) == -6;
    assert MaxGameValue([1], 5) == 6;
    assert MinGameValue([-5, 1], 0) == 4;
  }

  /** As written, a node reports its child's move, so the root reports
      the last move of the line it expects rather than its own take: on
      the pile 0, -5, 1 the root value is 4, reached by taking one stone,
      but the reported move is 2, and taking two stones is worth -6.  The
      first take already reaches the root value, so it is the child the
      loop keeps, and its answer's move is what the root reports. */
  lemma ChildMoveCounterexample()
    ensures AbMax([0, -5, 1], NegInf, PosInf, 0, ChildMove) == (4, 2)
    ensures MaxGameValue([0, -5, 1], 0) == 4
    ensures MinChild([0, -5, 1], 0, 1) == 4
    ensures MinChild([0, -5, 1], 0, 2) == -6
  {
    var s := [0, -5, 1];
    CounterexampleValues();
    RootValue(s, 0, ChildMove);
    StoneGame.ResultSplits(s, 1);
    assert StoneGame.Result(s, 1) == ([-5, 1], 0);
    CounterexampleFirstSon();
    assert MaxChildResult(s, NegInf, PosInf, 0, ChildMove, 1) == (4, 2);
    var best := AbMaxScanFirstBest(s, NegInf, PosInf, 0, ChildMove, 3);
  }

  // ---------------------------------------------------------------------
  // The plain value.

  /** The starting difference only shifts the value. */
  lemma {:induction false} ValueShift(s: seq<int>, dif: int, e: int)
    ensures MaxGameValue(s, dif + e) == MaxGameValue(s, dif) + e
    ensures MinGameValue(s, dif + e) == MinGameValue(s, dif) + e
    decreases |s|, 1
  {
    if s != [] {
      UpToShift(s, dif, e, StoneGame.MaxTake(s));
    }
  }

  lemma {:induction false} UpToShift(s: seq<int>, dif: int, e: int, k: nat)
    requires 1 <= k <= StoneGame.MaxTake(s)
    ensures MaxUpTo(s, dif + e, k) == MaxUpTo(s, dif, k) + e
    ensures MinUpTo(s, dif + e, k) == MinUpTo(s, dif, k) + e
    decreases |s|, 0, k
  {
    var step := StoneGame.Result(s, k);
    ValueShift(step.0, dif + step.1, e);
    ValueShift(step.0, dif - step.1, e);
    assert dif + e + step.1 == dif + step.1 + e;
    assert dif + e - step.1 == dif - step.1 + e;
    if k > 1 {
      UpToShift(s, dif, e, k - 1);
    }
  }

  /** Whoever moves, the final difference is off the starting one by at
      most the total size of the stone values. */
  lemma {:induction false} ValueWithinStones(s: seq<int>, dif: int)
    ensures dif - AbsSum(s) <= MaxGameValue(s, dif) <= dif + AbsSum(s)
    ensures dif - AbsSum(s) <= MinGameValue(s, dif) <= dif + AbsSum(s)
    decreases |s|, 1
  {
    if s != [] {
      UpToWithinStones(s, dif, StoneGame.MaxTake(s));
    }
  }

  lemma {:induction false} UpToWithinStones(s: seq<int>, dif: int, k: nat)
    requires 1 <= k <= StoneGame.MaxTake(s)
    ensures dif - AbsSum(s) <= MaxUpTo(s, dif, k) <= dif + AbsSum(s)
    ensures dif - AbsSum(s) <= MinUpTo(s, dif, k) <= dif + AbsSum(s)
    decreases |s|, 0, k
  {
    var step := StoneGame.Result(s, k);
    SplitAt(s, k);
    SumWithinAbsSum(Prefix(s, k));
    ValueWithinStones(step.0, dif + step.1);
    ValueWithinStones(step.0, dif - step.1);
    if k > 1 {
      UpToWithinStones(s, dif, k - 1);
    }
  }

  // ---------------------------------------------------------------------
  // The recorded search.

  lemma {:induction false} MaxCutPersists(s: seq<int>, alpha: ExtInt, beta: ExtInt, dif: int, rule: Rule, k: nat, n: nat)
    requires k <= n <= StoneGame.MaxTake(s)
    requires AbMaxScan(s, alpha, beta, dif, rule, k).cut.Some?
    ensures AbMaxScan(s, alpha, beta, dif, rule, n) == AbMaxScan(s, alpha, beta, dif, rule, k)
    decreases n
  {
    if k < n {
      MaxCutPersists(s, alpha, beta, dif, rule, k, n - 1);
    }
  }

  lemma {:induction false} MinCutPersists(s: seq<int>, alpha: ExtInt, beta: ExtInt, dif: int, rule: Rule, k: nat, n: nat)
    requires k <= n <= StoneGame.MaxTake(s)
    requires AbMinScan(s, alpha, beta, dif, rule, k).cut.Some?
    ensures AbMinScan(s, alpha, beta, dif, rule, n) == AbMinScan(s, alpha, beta, dif, rule, k)
    decreases n
  {
    if k < n {
      MinCutPersists(s, alpha, beta, dif, rule, k, n - 1);
    }
  }

  /** One turn of MAX's loop as the code takes it: the `i + 1`-th action
      takes `i + 1` stones. */
  lemma MaxScanStep(s: seq<int>, alpha: ExtInt, beta: ExtInt, dif: int, rule: Rule, i: nat, child: (int, int))
    requires i < StoneGame.MaxTake(s)
    requires AbMaxScan(s, alpha, beta, dif, rule, i).cut.None?
    requires child == AbMin(StoneGame.Result(s, i + 1).0, AbMaxScan(s, alpha, beta, dif, rule, i).bound, beta,
                            dif + StoneGame.Result(s, i + 1).1, rule)
    ensures var prev := AbMaxScan(s, alpha, beta, dif, rule, i);
            var better := prev.v.Lt(Fin(child.0));
            var v := if better then Fin(child.0) else prev.v;
            AbMaxScan(s, alpha, beta, dif, rule, i + 1) ==
              Scan(v, if better then Reported(rule, child.1, i + 1) else prev.move,
                   Max(prev.bound, Fin(child.0)), if beta.Le(v) then Some(i) else None)
  {
    assert StoneGame.Actions(s)[i] == i + 1;
  }

  /** One turn of MIN's loop as the code takes it. */
  lemma MinScanStep(s: seq<int>, alpha: ExtInt, beta: ExtInt, dif: int, rule: Rule, i: nat, child: (int, int))
    requires i < StoneGame.MaxTake(s)
    requires AbMinScan(s, alpha, beta, dif, rule, i).cut.None?
    requires child == AbMax(StoneGame.Result(s, i + 1).0, alpha, AbMinScan(s, alpha, beta, dif, rule, i).bound,
                            dif - StoneGame.Result(s, i + 1).1, rule)
    ensures var prev := AbMinScan(s, alpha, beta, dif, rule, i);
            var better := Fin(child.0).Lt(prev.v);
            var v := if better then Fin(child.0) else prev.v;
            AbMinScan(s, alpha, beta, dif, rule, i + 1) ==
              Scan(v, if better then Reported(rule, child.1, i + 1) else prev.move,
                   Min(prev.bound, Fin(child.0)), if v.Le(alpha) then Some(i) else None)
  {
    assert StoneGame.Actions(s)[i] == i + 1;
  }

  /** A node of the recorded graph.  Its id in the code is the text of the
      level, of the pile as a tuple and of the difference, one after the
      other; the tuple's brackets keep the three apart, so the id and this
      key determine each other. */
  datatype NodeKey = NodeKey(level: int, state: seq<int>, dif: int)

  /** A node's attributes: its level and, once written, its value. */
  datatype NodeData = NodeData(level: int, value: Option<ExtInt>)

  /** The son MAX records for taking `a` stones: MAX adds the take. */
  function MaxSon(level: int, s: seq<int>, dif: int, a: int): NodeKey
  {
    var step := StoneGame.Result(s, a);
    NodeKey(level + 1, step.0, dif + step.1)
  }

  /** The son MIN records for taking `a` stones: MIN subtracts the take. */
  function MinSon(level: int, s: seq<int>, dif: int, a: int): NodeKey
  {
    var step := StoneGame.Result(s, a);
    NodeKey(level + 1, step.0, dif - step.1)
  }

  /** From `before` to `after` the graph only gained nodes, and no node
      above `level` in the tree changed. */
  predicate Keeps(before: map<NodeKey, NodeData>, after: map<NodeKey, NodeData>, level: int)
  {
    before.Keys <= after.Keys &&
    forall k :: k in before && k.level < level ==> after[k] == before[k]
  }

  lemma KeepsTrans(a: map<NodeKey, NodeData>, b: map<NodeKey, NodeData>, c: map<NodeKey, NodeData>,
                   level: int, level': int)
    requires Keeps(a, b, level) && Keeps(b, c, level') && level <= level'
    ensures Keeps(a, c, level)
  {
  }

  /** The part of the graph a MAX search at `key` leaves behind: an edge
      to the son of every take from 1 to `upTo`, and when it cut at the
      `cut.value + 1`-th take, that son marked +inf. */
  predicate MaxRecorded(nodes: map<NodeKey, NodeData>, edges: set<(NodeKey, NodeKey)>, key: NodeKey,
                        upTo: nat, cut: Option<nat>)
  {
    (forall a :: 1 <= a <= upTo ==> (key, MaxSon(key.level, key.state, key.dif, a)) in edges) &&
    (cut.Some? ==>
      var son := MaxSon(key.level, key.state, key.dif, cut.value + 1);
      son in nodes && nodes[son].value == Some(PosInf))
  }

  /** The mirror image for a MIN search: a cut son is marked -inf. */
  predicate MinRecorded(nodes: map<NodeKey, NodeData>, edges: set<(NodeKey, NodeKey)>, key: NodeKey,
                        upTo: nat, cut: Option<nat>)
  {
    (forall a :: 1 <= a <= upTo ==> (key, MinSon(key.level, key.state, key.dif, a)) in edges) &&
    (cut.Some? ==>
      var son := MinSon(key.level, key.state, key.dif, cut.value + 1);
      son in nodes && nodes[son].value == Some(NegInf))
  }

  /** A turn that adds the edge to the next son extends what the loop has
      recorded by one take. */
  lemma MaxRecordedStep(n: map<NodeKey, NodeData>, e: set<(NodeKey, NodeKey)>,
                        n': map<NodeKey, NodeData>, e': set<(NodeKey, NodeKey)>, key: NodeKey, i: nat, cut: Option<nat>)
    requires MaxRecorded(n, e, key, i, None) && e <= e'
    requires (key, MaxSon(key.level, key.state, key.dif, i + 1)) in e'
    requires cut.Some? ==>
               cut.value == i && MaxSon(key.level, key.state, key.dif, i + 1) in n' &&
               n'[MaxSon(key.level, key.state, key.dif, i + 1)].value == Some(PosInf)
    ensures MaxRecorded(n', e', key, i + 1, cut)
  {
  }

  lemma MinRecordedStep(n: map<NodeKey, NodeData>, e: set<(NodeKey, NodeKey)>,
                        n': map<NodeKey, NodeData>, e': set<(NodeKey, NodeKey)>, key: NodeKey, i: nat, cut: Option<nat>)
    requires MinRecorded(n, e, key, i, None) && e <= e'
    requires (key, MinSon(key.level, key.state, key.dif, i + 1)) in e'
    requires cut.Some? ==>
               cut.value == i && MinSon(key.level, key.state, key.dif, i + 1) in n' &&
               n'[MinSon(key.level, key.state, key.dif, i + 1)].value == Some(NegInf)
    ensures MinRecorded(n', e', key, i + 1, cut)
  {
  }

  /** Writing the node's own value leaves the record of its sons intact. */
  lemma RecordedSet(n: map<NodeKey, NodeData>, e: set<(NodeKey, NodeKey)>, key: NodeKey, upTo: nat, cut: Option<nat>,
                    d: NodeData)
    ensures MaxRecorded(n, e, key, upTo, cut) ==> MaxRecorded(n[key := d], e, key, upTo, cut)
    ensures MinRecorded(n, e, key, upTo, cut) ==> MinRecorded(n[key := d], e, key, upTo, cut)
  {
  }

  /** What a root search of `s` leaves in the graph: the root node, holding
      the plain value of `s`, and the record of every son it explored. */
  predicate RootRecorded(nodes: map<NodeKey, NodeData>, edges: set<(NodeKey, NodeKey)>, s: seq<int>, rule: Rule)
  {
    var root := NodeKey(0, s, 0);
    root in nodes && nodes[root].value == Some(Fin(MaxGameValue(s, 0))) &&
    (s != [] ==>
      var sc := AbMaxScan(s, NegInf, PosInf, 0, rule, StoneGame.MaxTake(s));
      MaxRecorded(nodes, edges, root, Explored(sc, StoneGame.MaxTake(s)), sc.cut))
  }

  /** Where MAX's loop at `key` stands after `i` takes: in the loop state
      `AbMaxScan` gives, with nothing above the node changed since `start`
      and every son explored so far recorded. */
  predicate MaxLoop(start: map<NodeKey, NodeData>, nodes: map<NodeKey, NodeData>, edges: set<(NodeKey, NodeKey)>,
                    key: NodeKey, alpha: ExtInt, beta: ExtInt, rule: Rule, i: nat, sc: Scan)
    requires i <= StoneGame.MaxTake(key.state)
  {
    AbMaxScan(key.state, alpha, beta, key.dif, rule, i) == sc &&
    Keeps(start, nodes, key.level) && MaxRecorded(nodes, edges, key, i, sc.cut)
  }

  /** The same for MIN's loop. */
  predicate MinLoop(start: map<NodeKey, NodeData>, nodes: map<NodeKey, NodeData>, edges: set<(NodeKey, NodeKey)>,
                    key: NodeKey, alpha: ExtInt, beta: ExtInt, rule: Rule, i: nat, sc: Scan)
    requires i <= StoneGame.MaxTake(key.state)
  {
    AbMinScan(key.state, alpha, beta, key.dif, rule, i) == sc &&
    Keeps(start, nodes, key.level) && MinRecorded(nodes, edges, key, i, sc.cut)
  }

  class Minimax {
    var nodes: map<NodeKey, NodeData>
    var edges: set<(NodeKey, NodeKey)>
    var stoneValue: seq<int>

    /** Every node carries the level of its key, and every edge joins two
        recorded nodes, the second one level below the first. */
    predicate Valid()
      reads this
    {
      (forall k :: k in nodes ==> nodes[k].level == k.level) &&
      (forall e :: e in edges ==> e.0 in nodes && e.1 in nodes && e.1.level == e.0.level + 1)
    }

    /** An empty graph and no stones. */
    constructor ()
      ensures nodes == map[] && edges == {} && stoneValue == []
      ensures Valid()
    {
      nodes := map[];
      edges := {};
      stoneValue := [];
    }

    /** `add_node` and `add_edge` for a son: records `son` at its level,
        keeping the value it already has, and the edge from `key` to it. */
    method AddSon(key: NodeKey, son: NodeKey)
      requires Valid() && key in nodes && son.level == key.level + 1
      modifies this
      ensures nodes == old(nodes)[son := NodeData(son.level, if son in old(nodes) then old(nodes)[son].value else None)]
      ensures edges == old(edges) + {(key, son)} && stoneValue == old(stoneValue)
      ensures Valid() && Keeps(old(nodes), nodes, son.level)
    {
      nodes := nodes[son := NodeData(son.level, if son in nodes then nodes[son].value else None)];
      edges := edges + {(key, son)};
    }

    /** Writes `value` into the recorded node `k`, keeping its level. */
    method SetValue(k: NodeKey, value: ExtInt)
      requires Valid() && k in nodes
      modifies this
      ensures nodes == old(nodes)[k := NodeData(old(nodes)[k].level, Some(value))]
      ensures edges == old(edges) && stoneValue == old(stoneValue)
      ensures Valid() && Keeps(old(nodes), nodes, k.level)
    {
      nodes := nodes[k := NodeData(nodes[k].level, Some(value))];
    }

    /** The start of a turn of `max_value`'s loop: records the son
        reached by taking `a` stones (adding their total) and the edge to
        it, and searches the son with the MIN side to move in the window
        (`bound`, `beta`). */
    method MaxExplore(key: NodeKey, state: seq<int>, alpha: ExtInt, beta: ExtInt, dif: int, treeLevel: int, rule: Rule, a: int)
      returns (v2: int, a2: int)
      requires Valid() && key == NodeKey(treeLevel, state, dif) && key in nodes
      requires 1 <= a <= StoneGame.MaxTake(state)
      modifies this
      ensures var step := StoneGame.Result(state, a); (v2, a2) == AbMin(step.0, alpha, beta, dif + step.1, rule)
      ensures Valid() && stoneValue == old(stoneValue) && old(edges) <= edges
      ensures Keeps(old(nodes), nodes, treeLevel + 1)
      ensures (key, MaxSon(treeLevel, state, dif, a)) in edges && MaxSon(treeLevel, state, dif, a) in nodes
      decreases |state|, 0
    {
      var step := StoneGame.Result(state, a);
      AddSon(key, MaxSon(treeLevel, state, dif, a));
      ghost var afterAdd := nodes;
      var v, m := MinValue(step.0, alpha, beta, dif + step.1, treeLevel + 1, rule);
      KeepsTrans(old(nodes), afterAdd, nodes, treeLevel + 1, treeLevel + 1);
      v2, a2 := v, m;
    }

    /** One turn of `max_value`'s loop, for its `i + 1`-th action:
        records the son reached by taking `i + 1` stones (adding their
        total) and the edge to it, searches the son with the MIN side to
        move, takes its value if strictly better, moves the bound, and on a
        cut marks the son +inf.  The loop state goes from the one
        `AbMaxScan` gives after `i` actions to the one it gives after `i + 1`. */
    method MaxTurn(key: NodeKey, state: seq<int>, alpha: ExtInt, beta: ExtInt, dif: int, treeLevel: int, rule: Rule,
                   i: nat, cur: ExtInt, move: int, bound: ExtInt, ghost start: map<NodeKey, NodeData>)
      returns (cur': ExtInt, move': int, bound': ExtInt, pruned: bool)
      requires Valid() && key == NodeKey(treeLevel, state, dif) && key in nodes
      requires i < StoneGame.MaxTake(state)
      requires MaxLoop(start, nodes, edges, key, alpha, beta, rule, i, Scan(cur, move, bound, None))
      modifies this
      ensures MaxLoop(start, nodes, edges, key, alpha, beta, rule, i + 1, Scan(cur', move', bound', if pruned then Some(i) else None))
      ensures Valid() && key in nodes && stoneValue == old(stoneValue) && old(edges) <= edges
      decreases |state|, 1
    {
      var a := StoneGame.Actions(state)[i];
      assert a == i + 1;
      ghost var nodes0, edges0 := nodes, edges;
      var son := MaxSon(treeLevel, state, dif, a);
      var v2, a2 := MaxExplore(key, state, bound, beta, dif, treeLevel, rule, a);
      MaxScanStep(state, alpha, beta, dif, rule, i, (v2, a2));
      cur', move' := cur, move;
      if cur.Lt(Fin(v2)) {
        cur' := Fin(v2);
        move' := Reported(rule, a2, a);
      }
      bound' := Max(bound, Fin(v2));
      pruned := false;
      if beta.Le(cur') {
        ghost var beforeMark := nodes;
        SetValue(son, PosInf);
        KeepsTrans(old(nodes), beforeMark, nodes, treeLevel + 1, treeLevel + 1);
        pruned := true;
      }
      KeepsTrans(start, old(nodes), nodes, treeLevel, treeLevel + 1);
      MaxRecordedStep(nodes0, edges0, nodes, edges, key, i, if pruned then Some(i) else None);
    }

    /** `max_value`: returns what `AbMax` says.  On an empty pile it writes
        `dif` into the node its parent recorded; otherwise it records the
        node, then for each take records the son and the edge to it and
        searches it, and finally writes the backed-up value.  When it prunes
        it marks the last son +inf.  Nothing above the node changes. */
    method MaxValue(state: seq<int>, alpha: ExtInt, beta: ExtInt, dif: int, treeLevel: int, rule: Rule)
      returns (v: int, move: int)
      requires Valid()
      requires state == [] ==> NodeKey(treeLevel, state, dif) in nodes
      modifies this
      ensures Valid()
      ensures (v, move) == AbMax(state, alpha, beta, dif, rule)
      ensures stoneValue == old(stoneValue) && old(edges) <= edges
      ensures Keeps(old(nodes), nodes, treeLevel)
      ensures NodeKey(treeLevel, state, dif) in nodes
      ensures nodes[NodeKey(treeLevel, state, dif)].value == Some(Fin(v))
      ensures state != [] ==>
        var sc := AbMaxScan(state, alpha, beta, dif, rule, StoneGame.MaxTake(state));
        MaxRecorded(nodes, edges, NodeKey(treeLevel, state, dif), Explored(sc, StoneGame.MaxTake(state)), sc.cut)
      decreases |state|, 3
    {
      var key := NodeKey(treeLevel, state, dif);
      if |state| == 0 {
        SetValue(key, Fin(dif));
        return dif, 0;
      }
      if key !in nodes {
        nodes := nodes[key := NodeData(treeLevel, None)];
      }
      var cur;
      cur, move := MaxSons(key, state, alpha, beta, dif, treeLevel, rule);
      ghost var sc := AbMaxScan(state, alpha, beta, dif, rule, StoneGame.MaxTake(state));
      RecordedSet(nodes, edges, key, Explored(sc, StoneGame.MaxTake(state)), sc.cut, NodeData(nodes[key].level, Some(cur)));
      SetValue(key, cur);
      v := cur.n;
    }

    /** The loop of `max_value` over the takes, with the code's `break` as
        the flag `pruned`: what it leaves is the loop state `AbMaxScan`
        gives after all takes, and every son it explored is recorded. */
    method MaxSons(key: NodeKey, state: seq<int>, alpha: ExtInt, beta: ExtInt, dif: int, treeLevel: int, rule: Rule)
      returns (cur: ExtInt, move: int)
      requires Valid() && key == NodeKey(treeLevel, state, dif) && key in nodes && state != []
      modifies this
      ensures var sc := AbMaxScan(state, alpha, beta, dif, rule, StoneGame.MaxTake(state));
        cur == sc.v && move == sc.move &&
        MaxRecorded(nodes, edges, key, Explored(sc, StoneGame.MaxTake(state)), sc.cut)
      ensures Valid() && key in nodes && stoneValue == old(stoneValue) && old(edges) <= edges
      ensures Keeps(old(nodes), nodes, treeLevel)
      decreases |state|, 2
    {
      move := 0;
      cur := NegInf;
      var bound := alpha;
      var acts := StoneGame.Actions(state);
      var i := 0;
      var pruned := false;  // the code's `break`
      ghost var cut: Option<nat> := None;
      while i < |acts| && !pruned
        invariant 0 <= i <= |acts|
        invariant Valid() && key in nodes
        invariant stoneValue == old(stoneValue) && old(edges) <= edges
        invariant pruned <==> cut.Some?
        invariant cut.Some? ==> cut.value + 1 == i
        invariant MaxLoop(old(nodes), nodes, edges, key, alpha, beta, rule, i, Scan(cur, move, bound, cut))
        decreases |acts| - i
      {
        cur, move, bound, pruned := MaxTurn(key, state, alpha, beta, dif, treeLevel, rule, i, cur, move, bound, old(nodes));
        cut := if pruned then Some(i) else None;
        i := i + 1;
      }
      if pruned {
        MaxCutPersists(state, alpha, beta, dif, rule, i, |acts|);
      }
      assert i == Explored(Scan(cur, move, bound, cut), |acts|);
    }

    /** The start of a turn of `min_value`'s loop: records the son
        reached by taking `a` stones (subtracting their total) and the edge
        to it, and searches the son with the MAX side to move in the window
        (`alpha`, `bound`). */
    method MinExplore(key: NodeKey, state: seq<int>, alpha: ExtInt, beta: ExtInt, dif: int, treeLevel: int, rule: Rule, a: int)
      returns (v2: int, a2: int)
      requires Valid() && key == NodeKey(treeLevel, state, dif) && key in nodes
      requires 1 <= a <= StoneGame.MaxTake(state)
      modifies this
      ensures var step := StoneGame.Result(state, a); (v2, a2) == AbMax(step.0, alpha, beta, dif - step.1, rule)
      ensures Valid() && stoneValue == old(stoneValue) && old(edges) <= edges
      ensures Keeps(old(nodes), nodes, treeLevel + 1)
      ensures (key, MinSon(treeLevel, state, dif, a)) in edges && MinSon(treeLevel, state, dif, a) in nodes
      decreases |state|, 0
    {
      var step := StoneGame.Result(state, a);
      AddSon(key, MinSon(treeLevel, state, dif, a));
      ghost var afterAdd := nodes;
      var v, m := MaxValue(step.0, alpha, beta, dif - step.1, treeLevel + 1, rule);
      KeepsTrans(old(nodes), afterAdd, nodes, treeLevel + 1, treeLevel + 1);
      v2, a2 := v, m;
    }

    /** One turn of `min_value`'s loop, for its `i + 1`-th action:
        records the son reached by taking `i + 1` stones (subtracting their
        total) and the edge to it, searches the son with the MAX side to
        move, takes its value if strictly better, moves the bound, and on a
        cut marks the son -inf.  The loop state goes from the one
        `AbMinScan` gives after `i` actions to the one it gives after `i + 1`. */
    method MinTurn(key: NodeKey, state: seq<int>, alpha: ExtInt, beta: ExtInt, dif: int, treeLevel: int, rule: Rule,
                   i: nat, cur: ExtInt, move: int, bound: ExtInt, ghost start: map<NodeKey, NodeData>)
      returns (cur': ExtInt, move': int, bound': ExtInt, pruned: bool)
      requires Valid() && key == NodeKey(treeLevel, state, dif) && key in nodes
      requires i < StoneGame.MaxTake(state)
      requires MinLoop(start, nodes, edges, key, alpha, beta, rule, i, Scan(cur, move, bound, None))
      modifies this
      ensures MinLoop(start, nodes, edges, key, alpha, beta, rule, i + 1, Scan(cur', move', bound', if pruned then Some(i) else None))
      ensures Valid() && key in nodes && stoneValue == old(stoneValue) && old(edges) <= edges
      decreases |state|, 1
    {
      var a := StoneGame.Actions(state)[i];
      assert a == i + 1;
      ghost var nodes0, edges0 := nodes, edges;
      var son := MinSon(treeLevel, state, dif, a);
      var v2, a2 := MinExplore(key, state, alpha, bound, dif, treeLevel, rule, a);
      MinScanStep(state, alpha, beta, dif, rule, i, (v2, a2));
      cur', move' := cur, move;
      if Fin(v2).Lt(cur) {
        move' := Reported(rule, a2, a);
        cur' := Fin(v2);
      }
      bound' := Min(bound, Fin(v2));
      pruned := false;
      if cur'.Le(alpha) {
        ghost var beforeMark := nodes;
        SetValue(son, NegInf);
        KeepsTrans(old(nodes), beforeMark, nodes, treeLevel + 1, treeLevel + 1);
        pruned := true;
      }
      KeepsTrans(start, old(nodes), nodes, treeLevel, treeLevel + 1);
      MinRecordedStep(nodes0, edges0, nodes, edges, key, i, if pruned then Some(i) else None);
    }

    /** `min_value`: the mirror image of `MaxValue`; a pruned son is
        marked -inf. */
    method MinValue(state: seq<int>, alpha: ExtInt, beta: ExtInt, dif: int, treeLevel: int, rule: Rule)
      returns (v: int, move: int)
      requires Valid()
      requires state == [] ==> NodeKey(treeLevel, state, dif) in nodes
      modifies this
      ensures Valid()
      ensures (v, move) == AbMin(state, alpha, beta, dif, rule)
      ensures stoneValue == old(stoneValue) && old(edges) <= edges
      ensures Keeps(old(nodes), nodes, treeLevel)
      ensures NodeKey(treeLevel, state, dif) in nodes
      ensures nodes[NodeKey(treeLevel, state, dif)].value == Some(Fin(v))
      ensures state != [] ==>
        var sc := AbMinScan(state, alpha, beta, dif, rule, StoneGame.MaxTake(state));
        MinRecorded(nodes, edges, NodeKey(treeLevel, state, dif), Explored(sc, StoneGame.MaxTake(state)), sc.cut)
      decreases |state|, 3
    {
      var key := NodeKey(treeLevel, state, dif);
      if |state| == 0 {
        SetValue(key, Fin(dif));
        return dif, 0;
      }
      if key !in nodes {
        nodes := nodes[key := NodeData(treeLevel, None)];
      }
      var cur;
      cur, move := MinSons(key, state, alpha, beta, dif, treeLevel, rule);
      ghost var sc := AbMinScan(state, alpha, beta, dif, rule, StoneGame.MaxTake(state));
      RecordedSet(nodes, edges, key, Explored(sc, StoneGame.MaxTake(state)), sc.cut, NodeData(nodes[key].level, Some(cur)));
      SetValue(key, cur);
      v := cur.n;
    }

    /** The loop of `min_value` over the takes, with the code's `break` as
        the flag `pruned`: what it leaves is the loop state `AbMinScan`
        gives after all takes, and every son it explored is recorded. */
    method MinSons(key: NodeKey, state: seq<int>, alpha: ExtInt, beta: ExtInt, dif: int, treeLevel: int, rule: Rule)
      returns (cur: ExtInt, move: int)
      requires Valid() && key == NodeKey(treeLevel, state, dif) && key in nodes && state != []
      modifies this
      ensures var sc := AbMinScan(state, alpha, beta, dif, rule, StoneGame.MaxTake(state));
        cur == sc.v && move == sc.move &&
        MinRecorded(nodes, edges, key, Explored(sc, StoneGame.MaxTake(state)), sc.cut)
      ensures Valid() && key in nodes && stoneValue == old(stoneValue) && old(edges) <= edges
      ensures Keeps(old(nodes), nodes, treeLevel)
      decreases |state|, 2
    {
      cur := PosInf;
      move := 0;
      var bound := beta;
      var acts := StoneGame.Actions(state);
      var i := 0;
      var pruned := false;  // the code's `break`
      ghost var cut: Option<nat> := None;
      while i < |acts| && !pruned
        invariant 0 <= i <= |acts|
        invariant Valid() && key in nodes
        invariant stoneValue == old(stoneValue) && old(edges) <= edges
        invariant pruned <==> cut.Some?
        invariant cut.Some? ==> cut.value + 1 == i
        invariant MinLoop(old(nodes), nodes, edges, key, alpha, beta, rule, i, Scan(cur, move, bound, cut))
        decreases |acts| - i
      {
        cur, move, bound, pruned := MinTurn(key, state, alpha, beta, dif, treeLevel, rule, i, cur, move, bound, old(nodes));
        cut := if pruned then Some(i) else None;
        i := i + 1;
      }
      if pruned {
        MinCutPersists(state, alpha, beta, dif, rule, i, |acts|);
      }
      assert i == Explored(Scan(cur, move, bound, cut), |acts|);
    }

    /** `ply`: searches the first `maxDepth` stones (the code's default is
        20) from the window (-inf, inf) with the code's move rule, and
        returns the plain value of that pile and the move the search
        reports, a take from 1 to 3 the pile can supply.  The code fails
        looking up the root node when the cropped pile is empty and the
        graph does not hold it yet. */
    method Ply(state: seq<int>, maxDepth: int) returns (v: int, move: int)
      requires Valid()
      requires Prefix(state, maxDepth) == [] ==> NodeKey(0, [], 0) in nodes
      modifies this
      ensures Valid() && stoneValue == old(stoneValue)
      ensures v == MaxGameValue(Prefix(state, maxDepth), 0)
      ensures move == AbMax(Prefix(state, maxDepth), NegInf, PosInf, 0, ChildMove).1
      ensures Prefix(state, maxDepth) == [] ==> move == 0
      ensures Prefix(state, maxDepth) != [] ==> 1 <= move <= StoneGame.MaxTake(Prefix(state, maxDepth))
      ensures old(edges) <= edges && Keeps(old(nodes), nodes, 0)
      ensures RootRecorded(nodes, edges, Prefix(state, maxDepth), ChildMove)
    {
      var cropped := Prefix(state, maxDepth);
      v, move := MaxValue(cropped, NegInf, PosInf, 0, 0, ChildMove);
      RootValue(cropped, 0, ChildMove);
    }

    /** `ply` with the corrected move rule: the node reports its own take,
        which then reaches the plain value of the cropped pile. */
    method OptimalPly(state: seq<int>, maxDepth: int) returns (v: int, move: int)
      requires Valid()
      requires Prefix(state, maxDepth) == [] ==> NodeKey(0, [], 0) in nodes
      modifies this
      ensures Valid() && stoneValue == old(stoneValue)
      ensures v == MaxGameValue(Prefix(state, maxDepth), 0)
      ensures Prefix(state, maxDepth) == [] ==> move == 0
      ensures Prefix(state, maxDepth) != [] ==>
        1 <= move <= StoneGame.MaxTake(Prefix(state, maxDepth)) &&
        MinChild(Prefix(state, maxDepth), 0, move) == v
      ensures old(edges) <= edges && Keeps(old(nodes), nodes, 0)
      ensures RootRecorded(nodes, edges, Prefix(state, maxDepth), OwnAction)
    {
      var cropped := Prefix(state, maxDepth);
      v, move := MaxValue(cropped, NegInf, PosInf, 0, 0, OwnAction);
      RootValue(cropped, 0, OwnAction);
      if cropped != [] {
        OwnActionOptimal(cropped, 0);
      }
    }

    /** `stoneGameIII`: keeps the stones and names the side the plain value
        of the whole pile favours. */
    method StoneGameIII(stones: seq<int>) returns (winner: string)
      requires Valid()
      requires stones == [] ==> NodeKey(0, [], 0) in nodes
      modifies this
      ensures Valid() && stoneValue == stones
      ensures winner == Verdict(Fin(MaxGameValue(stones, 0)))
      ensures winner == "Max" <==> MaxGameValue(stones, 0) > 0
      ensures winner == "Min" <==> MaxGameValue(stones, 0) < 0
      ensures winner == "Tie" <==> MaxGameValue(stones, 0) == 0
      ensures old(edges) <= edges && Keeps(old(nodes), nodes, 0)
      ensures RootRecorded(nodes, edges, stones, ChildMove)
    {
      stoneValue := stones;
      var dif, m := MaxValue(stones, NegInf, PosInf, 0, 0, ChildMove);
      RootValue(stones, 0, ChildMove);
      if dif > 0 {
        winner := "Max";
      } else if dif < 0 {
        winner := "Min";
      } else {
        winner := "Tie";
      }
    }
  }
}
