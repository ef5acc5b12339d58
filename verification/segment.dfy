/**
 * `inverterSegmentation` of main.cpp: on the edge of length `l` above a node, keep putting an
 * inverter at the solver's distance from the current chain top while the stage delay exceeds
 * its budget.
 */
module Segmentation {
  import opened RcTree
  import opened Solver
  import opened Nodes

  /** The load one stage sees: the node's Elmore capacitance less the half wire lumped on it. */
  function Load(cfg: Config, t: Tree, len: real): real
    requires t.Tree?
  {
    t.elmore - cfg.HalfWire(len)
  }

  /** `(A*(l*l)) + (B*l) + C`: the delay of the stage driving `t` through a wire of length `len`. */
  function StageDelay(cfg: Config, t: Tree, len: real): real
    requires t.Tree?
  {
    var load := Load(cfg, t, len);
    Poly(cfg.StageA(), cfg.StageB(load), cfg.StageC(load), len)
  }

  /** Why the loop stopped: budget met, solver failure (`new_l == -1`), or the fuel bound. */
  datatype Stop = Met | NoRoot | OutOfFuel

  /** The loop's final `temp`, `temp_l`, `stage_delay` and `temp_time_constraint`. */
  datatype Segmented = Segmented(top: Tree, len: real, stage: real, budget: real, stop: Stop)

  /**
   * The `while` loop from the state (`temp`, `temp_l`, `temp_time_constraint`, `stage_delay`),
   * with at most `fuel` more iterations.
   */
  function Chain(cfg: Config, sqrt: real -> real, temp: Tree, len: real, budget: real, stage: real,
                 fuel: nat): (r: Segmented)
    requires temp.Tree? && cfg.StageA() != 0.0
    ensures r.top.Tree?
    decreases fuel
  {
    if !(stage > budget) then Segmented(temp, len, stage, budget, Met)
    else if fuel == 0 then Segmented(temp, len, stage, budget, OutOfFuel)
    else
      var load := Load(cfg, temp, len);
      var newL := SolveQuadratic(sqrt, cfg.StageA(), cfg.StageB(load), cfg.StageC(load) - budget);
      if newL == -1.0 then Segmented(temp, len, stage, budget, NoRoot)
      else
        var inv := InverterTree(cfg, temp, len - newL, newL);
        var rest := len - newL;
        Chain(cfg, sqrt, inv, rest, cfg.timeConstraint, StageDelay(cfg, inv, rest), fuel - 1)
  }

  /**
   * `inverterSegmentation(node, l, branch_time_constraint)`: the first budget is what the
   * constraint leaves after the branch below; every later stage gets the whole constraint.
   */
  function Segment(cfg: Config, sqrt: real -> real, t: Tree, l: real, branch: real, fuel: nat): (r: Segmented)
    requires t.Tree? && cfg.StageA() != 0.0
    ensures StageDelay(cfg, t, l) <= cfg.timeConstraint - branch ==> r.top == t && r.stop == Met
  {
    Chain(cfg, sqrt, t, l, cfg.timeConstraint - branch, StageDelay(cfg, t, l), fuel)
  }

  /**
   * One turn of the loop from a state whose run ends in `goal`: a solver failure ends it here,
   * otherwise the run continues from the new inverter, one turn shorter, to the same end.
   */
  lemma ChainTurn(cfg: Config, sqrt: real -> real, goal: Segmented, temp: Tree, len: real, budget: real,
                  stage: real, fuel: nat, newL: real)
    requires temp.Tree? && cfg.StageA() != 0.0 && stage > budget && fuel > 0
    requires Chain(cfg, sqrt, temp, len, budget, stage, fuel) == goal
    requires var load := Load(cfg, temp, len);
             newL == SolveQuadratic(sqrt, cfg.StageA(), cfg.StageB(load), cfg.StageC(load) - budget)
    ensures newL == -1.0 ==> goal.top == temp
    ensures newL != -1.0 ==>
              var inv := InverterTree(cfg, temp, len - newL, newL);
              Chain(cfg, sqrt, inv, len - newL, cfg.timeConstraint, StageDelay(cfg, inv, len - newL), fuel - 1) == goal
  {
  }

  /** The loop's exit: the budget is met or the fuel is spent, and `temp` is the final top. */
  lemma ChainExit(cfg: Config, sqrt: real -> real, temp: Tree, len: real, budget: real, stage: real, fuel: nat)
    requires temp.Tree? && cfg.StageA() != 0.0 && !(stage > budget && fuel > 0)
    ensures Chain(cfg, sqrt, temp, len, budget, stage, fuel).top == temp
  {
  }

  // ---------------------------------------------------------------------------------------
  // Inverter chains.

  /** Follow the inverters down from `t` to the first node that is not one. */
  function Bottom(t: Tree): (b: Tree)
    ensures b.Null? || b.kind != Inv
  {
    if t.Tree? && t.kind == Inv then Bottom(t.left) else t
  }

  /** Σ `leftWire` over the inverters from `t` down to `Bottom(t)`. */
  function ChainSpan(t: Tree): real
  {
    if t.Tree? && t.kind == Inv then t.leftWire + ChainSpan(t.left) else 0.0
  }

  /** The fields of an inverter as both insertion sites set them, relative to its child. */
  predicate InverterOk(cfg: Config, t: Tree)
    requires t.Tree? && t.kind == Inv
  {
    t.left.Tree? && t.right.Null? && t.rightWire == -1.0 && t.capacitance == cfg.invInputCap &&
    t.total == cfg.invInputCap + cfg.HalfWire(t.cutWire) && t.elmore == t.total &&
    t.polarity == 1 - t.left.polarity
  }

  /** Every inverter on the chain from `t` down to `Bottom(t)` is well formed. */
  predicate ChainOk(cfg: Config, t: Tree)
  {
    t.Tree? && t.kind == Inv ==> InverterOk(cfg, t) && ChainOk(cfg, t.left)
  }

  /**
   * What the loop builds: a chain of well-formed inverters above the node it started from,
   * whose wires together with the length still above the top make up the starting length; the
   * top inverter's cut wire is that remaining length.
   */
  lemma {:induction false} ChainShape(cfg: Config, sqrt: real -> real, temp: Tree, len: real,
                                      budget: real, stage: real, fuel: nat)
    requires temp.Tree? && cfg.StageA() != 0.0 && ChainOk(cfg, temp)
    ensures var r := Chain(cfg, sqrt, temp, len, budget, stage, fuel);
            ChainOk(cfg, r.top) && Bottom(r.top) == Bottom(temp) &&
            r.len + ChainSpan(r.top) == len + ChainSpan(temp) &&
            ((r.top == temp && r.len == len && r.budget == budget) ||
             (r.top.kind == Inv && r.top.cutWire == r.len && r.budget == cfg.timeConstraint))
    decreases fuel
  {
    if stage > budget && fuel > 0 {
      var load := Load(cfg, temp, len);
      var newL := SolveQuadratic(sqrt, cfg.StageA(), cfg.StageB(load), cfg.StageC(load) - budget);
      if newL != -1.0 {
        var inv := InverterTree(cfg, temp, len - newL, newL);
        var rest := len - newL;
        assert InverterOk(cfg, inv);
        ChainShape(cfg, sqrt, inv, rest, cfg.timeConstraint, StageDelay(cfg, inv, rest), fuel - 1);
      }
    }
  }

  /**
   * When the loop ends because the budget is met, the final stage — from the chain top down the
   * remaining wire — meets its budget.
   */
  lemma {:induction false} ChainMeets(cfg: Config, sqrt: real -> real, temp: Tree, len: real,
                                      budget: real, fuel: nat)
    requires temp.Tree? && cfg.StageA() != 0.0
    ensures var r := Chain(cfg, sqrt, temp, len, budget, StageDelay(cfg, temp, len), fuel);
            r.stage == StageDelay(cfg, r.top, r.len) &&
            (r.stop == Met ==> r.stage <= r.budget)
    decreases fuel
  {
    var stage := StageDelay(cfg, temp, len);
    if stage > budget && fuel > 0 {
      var load := Load(cfg, temp, len);
      var newL := SolveQuadratic(sqrt, cfg.StageA(), cfg.StageB(load), cfg.StageC(load) - budget);
      if newL != -1.0 {
        var inv := InverterTree(cfg, temp, len - newL, newL);
        ChainMeets(cfg, sqrt, inv, len - newL, cfg.timeConstraint, fuel - 1);
      }
    }
  }

  /**
   * `inverterSegmentation` on a node that is not itself an inverter: the result is the node or
   * a chain of well-formed inverters whose bottom is the node; the chain's wires plus the top's
   * cut wire add up to `l`; a budget-met exit leaves the last stage within the budget, which is
   * the whole time constraint once an inverter was put in.
   */
  lemma SegmentShape(cfg: Config, sqrt: real -> real, t: Tree, l: real, branch: real, fuel: nat)
    requires t.Tree? && t.kind != Inv && cfg.StageA() != 0.0
    ensures var r := Segment(cfg, sqrt, t, l, branch, fuel);
            ChainOk(cfg, r.top) && Bottom(r.top) == t &&
            ((r.top == t && r.len == l && r.budget == cfg.timeConstraint - branch) ||
             (r.top.kind == Inv && r.top.cutWire == r.len && r.len + ChainSpan(r.top) == l &&
              r.budget == cfg.timeConstraint)) &&
            r.stage == StageDelay(cfg, r.top, r.len) &&
            (r.stop == Met ==> r.stage <= r.budget)
  {
    ChainShape(cfg, sqrt, t, l, cfg.timeConstraint - branch, StageDelay(cfg, t, l), fuel);
    ChainMeets(cfg, sqrt, t, l, cfg.timeConstraint - branch, fuel);
  }

  // ---------------------------------------------------------------------------------------
  // The loop on the heap.

  /**
   * The three statements main.cpp repeats for each stage: the load `temp_elmore_c`, the
   * coefficients `A`, `B`, `C`, and `stage_delay` at the stage's wire length.
   */
  function StageOf(cfg: Config, node: Node, len: real): (stage: real)
    reads node, node.Repr
    requires node.Valid()
    ensures stage == StageDelay(cfg, node.Model(), len)
  {
    var load := node.elmoreCapacitance - cfg.HalfWire(len);
    var a, b, c := cfg.StageA(), cfg.StageB(load), cfg.StageC(load);
    Poly(a, b, c, len)
  }

  /** The loop's solver call: the length at which this stage would meet `budget` exactly. */
  function NextLength(cfg: Config, sqrt: real -> real, node: Node, len: real, budget: real): (newL: real)
    reads node, node.Repr
    requires node.Valid() && cfg.StageA() != 0.0
    ensures var load := Load(cfg, node.Model(), len);
            newL == SolveQuadratic(sqrt, cfg.StageA(), cfg.StageB(load), cfg.StageC(load) - budget)
  {
    var load := node.elmoreCapacitance - cfg.HalfWire(len);
    var a, b, c := cfg.StageA(), cfg.StageB(load), cfg.StageC(load) - budget;
    SolveQuadratic(sqrt, a, b, c)
  }

  /**
   * One inverter put `newL` above the chain top `temp`, cutting the wire there, and the delay of
   * the stage that now drives it over the rest of the wire.
   */
  method PutInverter(cfg: Config, temp: Node, tempL: real, newL: real) returns (inv: Node, stage: real)
    requires temp.Valid()
    ensures inv.Valid() && fresh(inv) && inv.Repr == {inv} + temp.Repr
    ensures inv.Model() == InverterTree(cfg, old(temp.Model()), tempL - newL, newL)
    ensures stage == StageDelay(cfg, inv.Model(), tempL - newL)
  {
    inv := new Node.Inverter(cfg, temp, tempL - newL, newL);
    stage := StageOf(cfg, inv, tempL - newL);
  }

  /**
   * One turn of the loop from a state whose remaining run ends in `goal`: either the solver
   * fails and `temp` is the final top, or an inverter goes in and the rest of the run, one turn
   * shorter, still ends in `goal`.
   */
  method Advance(cfg: Config, sqrt: real -> real, temp: Node, tempL: real, budget: real, stage: real,
                 fuel: nat, ghost goal: Segmented)
    returns (done: bool, next: Node, nextL: real, nextStage: real)
    requires temp.Valid() && cfg.StageA() != 0.0 && stage > budget && fuel > 0
    requires Chain(cfg, sqrt, temp.Model(), tempL, budget, stage, fuel) == goal
    ensures next.Valid() && temp.Repr <= next.Repr && fresh(next.Repr - temp.Repr)
    ensures done ==> next == temp && goal.top == temp.Model()
    ensures !done ==> Chain(cfg, sqrt, next.Model(), nextL, cfg.timeConstraint, nextStage, fuel - 1) == goal
  {
    ghost var m := temp.Model();
    var newL := NextLength(cfg, sqrt, temp, tempL, budget);
    ChainTurn(cfg, sqrt, goal, m, tempL, budget, stage, fuel, newL);
    if newL == -1.0 {
      return true, temp, tempL, stage;
    }
    next, nextStage := PutInverter(cfg, temp, tempL, newL);
    nextL := tempL - newL;
    done := false;
  }

  /**
   * `inverterSegmentation`: allocates the chain and changes no existing node. `fuel` bounds the
   * number of iterations, which the source leaves unbounded.
   */
  method InverterSegmentation(cfg: Config, sqrt: real -> real, node: Node, l: real, branch: real, fuel: nat)
    returns (top: Node)
    requires node.Valid() && cfg.StageA() != 0.0
    ensures top.Valid() && node.Repr <= top.Repr && fresh(top.Repr - node.Repr)
    ensures top.Model() == Segment(cfg, sqrt, old(node.Model()), l, branch, fuel).top
  {
    ghost var goal := Segment(cfg, sqrt, node.Model(), l, branch, fuel);
    var temp := node;
    var tempL := l;
    var budget := cfg.timeConstraint - branch;
    var stage := StageOf(cfg, temp, tempL);
    var left := fuel;
    while stage > budget && left > 0
      invariant temp.Valid() && node.Repr <= temp.Repr && fresh(temp.Repr - node.Repr)
      invariant Chain(cfg, sqrt, temp.Model(), tempL, budget, stage, left) == goal
      decreases left
    {
      ghost var prev := temp.Repr;
      var done;
      done, temp, tempL, stage := Advance(cfg, sqrt, temp, tempL, budget, stage, left, goal);
      if done {
        return temp;
      }
      assert temp.Repr - node.Repr <= (prev - node.Repr) + (temp.Repr - prev);
      budget := cfg.timeConstraint;
      left := left - 1;
    }
    ChainExit(cfg, sqrt, temp.Model(), tempL, budget, stage, left);
    return temp;
  }
}
