/**
 * A three-leaf net on which `insertionPostOrder` as written leaves a junction's Elmore
 * capacitance stale: the post-order lines `1(1)`, `2(1)`, `(4 1)`, `3(1)`, `(0 1)` with unit
 * wire resistance 1, unit wire capacitance 2, inverter input capacitance 1, inverter output
 * capacitance and resistance 0, and time constraint 6, after the capacitance fold.
 */
module StaleNet {
  import opened RcTree

  /**
   * The electrical behaviour of unit wire resistance 1, unit wire capacitance 2, inverter input
   * capacitance 1, inverter output capacitance and resistance 0 and time constraint 6, stated
   * through the derived quantities: every stage delay is `l^2 + load l`, half a wire's
   * capacitance and its resistance are both its length.
   */
  ghost predicate Stale(cfg: Config)
  {
    cfg.StageA() == 1.0 &&
    (forall load :: cfg.StageB(load) == load) &&
    (forall load :: cfg.StageC(load) == 0.0) &&
    (forall len :: cfg.HalfWire(len) == len) &&
    (forall len :: cfg.WireRes(len) == len) &&
    cfg.invInputCap == 1.0 && cfg.invOutputCap == 0.0 && cfg.timeConstraint == 6.0
  }

  /** The parameters above have that behaviour. */
  lemma StaleParameters()
    ensures Stale(Config(1.0, 2.0, 1.0, 0.0, 0.0, 6.0))
  {
    Linear(Config(1.0, 2.0, 1.0, 0.0, 0.0, 6.0));
  }

  /** With no output resistance and unit wire resistance, `B` is the load and `C` vanishes. */
  lemma Linear(cfg: Config)
    requires cfg == Config(1.0, 2.0, 1.0, 0.0, 0.0, 6.0)
    ensures forall load :: cfg.StageB(load) == load && cfg.StageC(load) == 0.0
  {
  }

  /** Leaf 1 at the end of a wire of length 4: total 1 + 4. */
  function LeafA(d: real): (t: Tree)
    ensures Built(t) && t.kind == Leaf
  {
    assert WellShaped(Null) && NoInv(Null);
    Tree(Leaf, 1, 1.0, 0.0, 0.0, Null, Null, 5.0, 5.0, d, 0.0, 0)
  }

  /** Leaf 2 at the end of a wire of length 1: total 1 + 1. */
  function LeafB(d: real): (t: Tree)
    ensures Built(t) && t.kind == Leaf
  {
    assert WellShaped(Null) && NoInv(Null);
    Tree(Leaf, 2, 1.0, 0.0, 0.0, Null, Null, 2.0, 2.0, d, 0.0, 0)
  }

  /** Leaf 3, like leaf 2. */
  function LeafD(d: real): (t: Tree)
    ensures Built(t) && t.kind == Leaf
  {
    assert WellShaped(Null) && NoInv(Null);
    Tree(Leaf, 3, 1.0, 0.0, 0.0, Null, Null, 2.0, 2.0, d, 0.0, 0)
  }

  /** The inner junction `(4 1)`: total 4 + 1, elmore 5 + 5 + 2. */
  function Inner(d: real): (t: Tree)
    ensures Built(t)
  {
    Tree(Bridge, -1, 0.0, 4.0, 1.0, LeafA(d), LeafB(d), 5.0, 12.0, d, 0.0, 0)
  }

  /** The root `(0 1)`: total 0 + 1 + inverter output capacitance 0, elmore 1 + 12 + 2. */
  function StaleRoot(d: real): (t: Tree)
    ensures Built(t)
  {
    Tree(Bridge, -1, 0.0, 0.0, 1.0, Inner(d), LeafD(d), 1.0, 15.0, d, 0.0, 0)
  }

  /** The inverter the segmentation puts 2 above leaf 1, cutting its wire of 4 at 2. */
  function InvA(cfg: Config, d: real): Tree
  {
    InverterTree(cfg, LeafA(d), 2.0, 2.0)
  }

  /** The zero-cut inverter that polarity reconciliation puts above leaf 2. */
  function InvB(cfg: Config, d: real): Tree
  {
    InverterTree(cfg, LeafB(d), 0.0, 1.0)
  }

  /** The inner junction after taking over leaf 1's inverter: total 1 + 2, elmore 1 + 3 + 2 + 2. */
  function AdoptedInner(cfg: Config, d: real): Tree
  {
    Tree(Bridge, -1, 0.0, 2.0, 1.0, InvA(cfg, d), LeafB(d), 3.0, 8.0, d, 0.0, 0)
  }

  /** The inner junction after reconciliation: total 2 + 0, elmore 2 + 3 + 1. */
  function InnerDone(cfg: Config, d: real): Tree
  {
    Tree(Bridge, -1, 0.0, 2.0, 0.0, InvA(cfg, d), InvB(cfg, d), 2.0, 6.0, d, 0.0, 1)
  }
}

/** The buffering stages of the net's leaves, on their own. */
module StaleStages {
  import opened RcTree
  import opened Solver
  import opened Segmentation
  import opened StaleNet

  /** The square root the solver needs here. */
  lemma SqrtOf25(sqrt: real -> real)
    requires SqrtSpec(sqrt)
    ensures sqrt(25.0) == 5.0
  {
    var s := sqrt(25.0);
    assert s >= 0.0 && s * s == 25.0;
    assert (s - 5.0) * (s + 5.0) == s * s - 25.0;
    ZeroProduct(s - 5.0, s + 5.0);
  }

  /**
   * Leaf 1's stage at a distance of 4: load 5 - 4 = 1, so the quadratic is `l^2 + l` and its
   * value at 4 is 20.
   */
  lemma StageA20(cfg: Config, d: real)
    requires Stale(cfg)
    ensures Load(cfg, LeafA(d), 4.0) == 1.0
    ensures cfg.StageA() == 1.0 && cfg.StageB(1.0) == 1.0 && cfg.StageC(1.0) == 0.0
    ensures StageDelay(cfg, LeafA(d), 4.0) == 20.0
  {
  }

  /** `x^2 + x - 6`: the solver returns the larger root 2. */
  lemma SolveA(sqrt: real -> real)
    requires SqrtSpec(sqrt)
    ensures SolveQuadratic(sqrt, 1.0, 1.0, 0.0 - 6.0) == 2.0
  {
    SqrtOf25(sqrt);
    assert Discriminant(1.0, 1.0, 0.0 - 6.0) == 25.0;
  }

  /** The inverter's stage: load 3 - 2 = 1, and the delay over the remaining 2 is exactly 6. */
  lemma StageInvA(cfg: Config, d: real)
    requires Stale(cfg)
    ensures StageDelay(cfg, InvA(cfg, d), 2.0) == 6.0
  {
  }

  /** Leaf 1's stage delay is 20 > 6; one inverter 2 above it leaves a stage of exactly 6. */
  lemma SegmentA(cfg: Config, sqrt: real -> real, fuel: nat, d: real)
    requires Stale(cfg) && SqrtSpec(sqrt) && fuel >= 1
    ensures Segment(cfg, sqrt, LeafA(d), 4.0, 0.0, fuel).top == InvA(cfg, d)
  {
    var goal := Segment(cfg, sqrt, LeafA(d), 4.0, 0.0, fuel);
    StageA20(cfg, d);
    SolveA(sqrt);
    ChainTurn(cfg, sqrt, goal, LeafA(d), 4.0, 6.0, 20.0, fuel, 2.0);
    StageInvA(cfg, d);
    ChainExit(cfg, sqrt, InvA(cfg, d), 2.0, 6.0, 6.0, fuel - 1);
  }

  /** Leaf 2's stage delay is 2, within the budget: no inverter. */
  lemma SegmentB(cfg: Config, sqrt: real -> real, fuel: nat, d: real)
    requires Stale(cfg)
    ensures Segment(cfg, sqrt, LeafB(d), 1.0, 0.0, fuel).top == LeafB(d)
  {
    assert StageDelay(cfg, LeafB(d), 1.0) == 2.0;
  }
}

module StaleJunction {
  import opened RcTree
  import opened Solver
  import opened Segmentation
  import opened Insertion
  import opened StaleNet
  import opened StaleStages
  import Elmore

  /** Leaf 1 is lifted under one inverter. */
  lemma LiftA(cfg: Config, sqrt: real -> real, fuel: nat, d: real)
    requires Stale(cfg) && SqrtSpec(sqrt) && fuel >= 1
    ensures Lift(cfg, sqrt, fuel, LeafA(d), 4.0) == InvA(cfg, d)
  {
    assert Branch(cfg, LeafA(d)) == 0.0;
    SegmentA(cfg, sqrt, fuel, d);
  }

  /** Leaf 2 is left as it is. */
  lemma LiftB(cfg: Config, sqrt: real -> real, fuel: nat, d: real)
    requires Stale(cfg)
    ensures Lift(cfg, sqrt, fuel, LeafB(d), 1.0) == LeafB(d)
  {
    assert Branch(cfg, LeafB(d)) == 0.0;
    SegmentB(cfg, sqrt, fuel, d);
  }

  /** A leaf comes out of processing as it went in. */
  lemma ProcessLeaf(cfg: Config, sqrt: real -> real, fuel: nat, repatch: bool, t: Tree)
    requires Built(t) && t.kind == Leaf && cfg.StageA() != 0.0
    ensures Process(cfg, sqrt, fuel, repatch, t) == t
  {
  }

  /** Leaf 2 comes back without an inverter, so the inner junction keeps it. */
  lemma InnerKeep(cfg: Config, d: real)
    ensures Adopt(cfg, false, RightSide, AdoptedInner(cfg, d), LeafB(d), LeafB(d)) == AdoptedInner(cfg, d)
  {
  }

  /** Re-parenting leaf 1's inverter on the inner junction. */
  lemma InnerAdopt(cfg: Config, d: real)
    requires Stale(cfg)
    ensures Adopt(cfg, false, LeftSide, Inner(d), LeafA(d), InvA(cfg, d)) == AdoptedInner(cfg, d)
  {
  }

  /** The zero-cut inverter over leaf 2: input capacitance 1 and nothing of the wire. */
  lemma InvBValue(cfg: Config, d: real)
    requires Stale(cfg)
    ensures InvB(cfg, d) == Tree(Inv, -1, 1.0, 1.0, -1.0, LeafB(d), Null, 1.0, 1.0, 0.0, 0.0, 1)
  {
    assert cfg.HalfWire(0.0) == 0.0;
  }

  /** Re-parenting it: the half wire 1 and leaf 2's elmore 2 come off, its elmore 1 goes on. */
  lemma InnerReparent(cfg: Config, d: real)
    requires Stale(cfg)
    ensures Reparent(cfg, RightSide, AdoptedInner(cfg, d), InvB(cfg, d)) ==
            AdoptedInner(cfg, d).(right := InvB(cfg, d), rightWire := 0.0, total := 2.0, elmore := 6.0)
  {
    InvBValue(cfg, d);
    assert cfg.HalfWire(1.0) == 1.0 && cfg.HalfWire(0.0) == 0.0;
  }

  /** Leaf 2 is wrapped in a zero-cut inverter: polarities (1, 0). */
  lemma InnerReconcile(cfg: Config, d: real)
    requires Stale(cfg)
    ensures Reconcile(cfg, AdoptedInner(cfg, d)) == InnerDone(cfg, d)
  {
    InvBValue(cfg, d);
    InnerReparent(cfg, d);
  }

  /**
   * The inner junction takes over leaf 1's inverter, then wraps leaf 2 in a zero-cut inverter
   * to match polarity: its elmore drops from 12 to 6.
   */
  lemma ProcessInner(cfg: Config, sqrt: real -> real, fuel: nat, d: real)
    requires Stale(cfg) && SqrtSpec(sqrt) && fuel >= 1
    ensures Process(cfg, sqrt, fuel, false, Inner(d)) == InnerDone(cfg, d)
  {
    LiftA(cfg, sqrt, fuel, d);
    LiftB(cfg, sqrt, fuel, d);
    InnerAdopt(cfg, d);
    InnerReconcile(cfg, d);
    InnerSteps(cfg, sqrt, fuel, d);
  }

  /** How the inner junction's processing is put together from its steps. */
  lemma InnerSteps(cfg: Config, sqrt: real -> real, fuel: nat, d: real)
    requires cfg.StageA() != 0.0
    requires Lift(cfg, sqrt, fuel, LeafA(d), 4.0) == InvA(cfg, d) && Lift(cfg, sqrt, fuel, LeafB(d), 1.0) == LeafB(d)
    requires Adopt(cfg, false, LeftSide, Inner(d), LeafA(d), InvA(cfg, d)) == AdoptedInner(cfg, d)
    requires Reconcile(cfg, AdoptedInner(cfg, d)) == InnerDone(cfg, d)
    ensures Process(cfg, sqrt, fuel, false, Inner(d)) == InnerDone(cfg, d)
  {
    ProcessLeaf(cfg, sqrt, fuel, false, LeafA(d));
    ProcessLeaf(cfg, sqrt, fuel, false, LeafB(d));
    InnerKeep(cfg, d);
    BridgeSteps(cfg, sqrt, fuel, false, Inner(d), LeafA(d), LeafB(d), InvA(cfg, d), LeafB(d), AdoptedInner(cfg, d),
                AdoptedInner(cfg, d), InnerDone(cfg, d));
  }

  /** A junction's processing, given the value of each step. */
  lemma BridgeSteps(cfg: Config, sqrt: real -> real, fuel: nat, repatch: bool, t: Tree,
                    pl: Tree, pr: Tree, topL: Tree, topR: Tree, n1: Tree, n2: Tree, r: Tree)
    requires Built(t) && t.kind == Bridge && cfg.StageA() != 0.0
    requires Process(cfg, sqrt, fuel, repatch, t.left) == pl && Process(cfg, sqrt, fuel, repatch, t.right) == pr
    requires Lift(cfg, sqrt, fuel, pl, t.leftWire) == topL && Lift(cfg, sqrt, fuel, pr, t.rightWire) == topR
    requires Adopt(cfg, repatch, LeftSide, t, pl, topL) == n1
    requires Adopt(cfg, repatch, RightSide, n1, pr, topR) == n2
    requires Reconcile(cfg, n2) == r
    ensures Process(cfg, sqrt, fuel, repatch, t) == r
  {
    ProcessBridge(cfg, sqrt, fuel, repatch, t);
  }

  /** The net as built satisfies the Elmore invariant everywhere. */
  lemma StaleRootConsistent(d: real)
    ensures Built(StaleRoot(d)) && Elmore.ElmoreConsistent(StaleRoot(d)) && Drift(StaleRoot(d)) == 0.0
  {
    assert Elmore.ElmoreConsistent(Null);
    assert Elmore.ElmoreConsistent(LeafA(d));
    assert Elmore.ElmoreConsistent(LeafB(d));
    assert Elmore.ElmoreConsistent(LeafD(d));
    assert Elmore.ElmoreConsistent(Inner(d));
  }

  /**
   * Processed as written, the root's elmore exceeds its total plus its children's by 6, the
   * amount the inner junction's elmore fell by.
   */
  lemma StaleRootDrift(cfg: Config, sqrt: real -> real, fuel: nat, d: real)
    requires Stale(cfg) && SqrtSpec(sqrt) && fuel >= 1
    ensures Drift(Process(cfg, sqrt, fuel, false, StaleRoot(d))) == 6.0
  {
    StaleRootConsistent(d);
    ProcessInner(cfg, sqrt, fuel, d);
    ProcessLeaf(cfg, sqrt, fuel, false, LeafD(d));
    ProcessDriftAsWritten(cfg, sqrt, fuel, StaleRoot(d));
  }

  /** With the repatch the same input is processed into a consistent root. */
  lemma StaleRootRepatched(cfg: Config, sqrt: real -> real, fuel: nat, d: real)
    requires Stale(cfg)
    ensures Drift(Process(cfg, sqrt, fuel, true, StaleRoot(d))) == 0.0
  {
    StaleRootConsistent(d);
    ProcessDecoupled(cfg, sqrt, fuel, StaleRoot(d));
  }
}
