/**
 * `insertionPostOrder` and `inverterInsertion` of main.cpp on values: every edge of the tree
 * is segmented bottom-up by `inverterSegmentation`, a junction takes over the chain put above a
 * child (re-parenting, with its capacitance fields patched incrementally), and a junction whose
 * children disagree in polarity gets one more inverter on the polarity-0 side.
 *
 * `repatch` selects how a junction's Elmore capacitance follows a changed child: `false` is
 * main.cpp as written (patched only when an inverter is put directly above the child), `true`
 * also carries over the change of a child that was rewritten below without a new inverter.
 */
module Insertion {
  import opened RcTree
  import opened Solver
  import opened Segmentation
  import Elmore

  datatype Side = LeftSide | RightSide

  function Other(side: Side): Side
  {
    if side == LeftSide then RightSide else LeftSide
  }

  function Child(t: Tree, side: Side): Tree
    requires t.Tree?
  {
    if side == LeftSide then t.left else t.right
  }

  function Wire(t: Tree, side: Side): real
    requires t.Tree?
  {
    if side == LeftSide then t.leftWire else t.rightWire
  }

  /** `t` with the child pointer on `side` replaced. */
  function SetChild(t: Tree, side: Side, c: Tree): (r: Tree)
    requires t.Tree?
    ensures r.Tree? && Child(r, side) == c && Child(r, Other(side)) == Child(t, Other(side))
  {
    if side == LeftSide then t.(left := c) else t.(right := c)
  }

  /**
   * How far a node's Elmore capacitance is from its own total plus its children's: zero exactly
   * where the invariant of `capacitancePostOrder` holds locally.
   */
  function Drift(t: Tree): real
    requires t.Tree?
  {
    t.elmore - (t.total + ElmOf(t.left) + ElmOf(t.right))
  }

  /**
   * Re-parenting `child` (an inverter) on `side` of junction `t`: the half wire and the old
   * child's elmore come off, the wire becomes the inverter's cut wire, and the new half wire and
   * the inverter's elmore go on (left side: elmore before half wire; right side: the reverse).
   */
  function Reparent(cfg: Config, side: Side, t: Tree, child: Tree): (r: Tree)
    requires t.Tree? && Child(t, side).Tree? && child.Tree?
    ensures r.Tree? && Child(r, side) == child && Wire(r, side) == child.cutWire
    ensures Child(r, Other(side)) == Child(t, Other(side)) && Wire(r, Other(side)) == Wire(t, Other(side))
    ensures r.kind == t.kind && r.leafLabel == t.leafLabel && r.capacitance == t.capacitance &&
            r.delay == t.delay && r.cutWire == t.cutWire && r.polarity == t.polarity
    ensures r.total + cfg.HalfWire(Wire(t, side)) == t.total + cfg.HalfWire(child.cutWire)
    ensures Drift(r) == Drift(t)
  {
    var before := Child(t, side).elmore;
    var wire := Wire(t, side);
    var total := t.total - cfg.HalfWire(wire);
    var elmore := (t.elmore - cfg.HalfWire(wire)) - before;
    var cut := child.cutWire;
    if side == LeftSide then
      t.(left := child, leftWire := cut, total := total + cfg.HalfWire(cut),
         elmore := (elmore + child.elmore) + cfg.HalfWire(cut))
    else
      t.(right := child, rightWire := cut, total := total + cfg.HalfWire(cut),
         elmore := (elmore + cfg.HalfWire(cut)) + child.elmore)
  }

  /** `t1`/`t2` of the junction case: the edge's wire resistance times the child's elmore. */
  function EdgeDelay(cfg: Config, wire: real, cap: real): real
  {
    cfg.WireRes(wire) * cap
  }

  /**
   * `branch_time_constraint` for a processed node: 0 at a leaf, otherwise the larger of the
   * two edge delays (`t1 > t2 ? t1 : t2`).
   */
  function Branch(cfg: Config, p: Tree): (b: real)
    requires p.Tree? && (p.left.Tree? <==> p.right.Tree?)
    ensures p.left.Null? ==> b == 0.0
    ensures p.left.Tree? ==>
              var t1, t2 := EdgeDelay(cfg, p.leftWire, p.left.elmore), EdgeDelay(cfg, p.rightWire, p.right.elmore);
              b >= t1 && b >= t2 && (b == t1 || b == t2)
  {
    if p.left.Null? then 0.0
    else
      var t1 := EdgeDelay(cfg, p.leftWire, p.left.elmore);
      var t2 := EdgeDelay(cfg, p.rightWire, p.right.elmore);
      if t1 > t2 then t1 else t2
  }

  /** The node `insertionPostOrder` returns for a processed node `p` on an edge of length `l`. */
  function Lift(cfg: Config, sqrt: real -> real, fuel: nat, p: Tree, l: real): Tree
    requires p.Tree? && (p.left.Tree? <==> p.right.Tree?) && cfg.StageA() != 0.0
  {
    Segment(cfg, sqrt, p, l, Branch(cfg, p), fuel).top
  }

  /**
   * Taking over a processed child `pc` on `side` of `t`, whose edge returned `top`: the child
   * pointer now leads to `pc` (the same object, rewritten in place), and when `top` is an
   * inverter it is re-parented. With `repatch`, the elmore first moves by the child's change.
   */
  function Adopt(cfg: Config, repatch: bool, side: Side, t: Tree, pc: Tree, top: Tree): (r: Tree)
    requires t.Tree? && Child(t, side).Tree? && pc.Tree? && top.Tree?
    ensures r.Tree? && Child(r, side) == (if top.kind == Inv then top else pc)
    ensures Wire(r, side) == (if top.kind == Inv then top.cutWire else Wire(t, side))
    ensures Child(r, Other(side)) == Child(t, Other(side)) && Wire(r, Other(side)) == Wire(t, Other(side))
    ensures r.kind == t.kind && r.leafLabel == t.leafLabel && r.capacitance == t.capacitance &&
            r.polarity == t.polarity
    ensures repatch ==> Drift(r) == Drift(t)
    ensures !repatch ==> Drift(r) == Drift(t) + (Child(t, side).elmore - pc.elmore)
  {
    var n := SetChild(t, side, pc);
    var patched := if repatch then n.(elmore := (t.elmore - Child(t, side).elmore) + pc.elmore) else n;
    if top.kind == Inv then Reparent(cfg, side, patched, top) else patched
  }

  /**
   * Polarity reconciliation at a node with two children: a (0, 1) pair gets an inverter with a
   * zero cut wire above the left child, a (1, 0) pair above the right one, and the node takes
   * the inverter's polarity; otherwise the node takes the left child's polarity.
   */
  function Reconcile(cfg: Config, t: Tree): (r: Tree)
    requires t.Tree?
    ensures r.Tree? && r.kind == t.kind && r.leafLabel == t.leafLabel && r.capacitance == t.capacitance
    ensures (r.left.Tree? <==> t.left.Tree?) && (r.right.Tree? <==> t.right.Tree?)
    ensures t.left.Tree? && t.right.Tree? ==> r.left.polarity == r.polarity && r.right.polarity == r.polarity
    ensures t.left.Tree? ==>
              (r.left == t.left && r.leftWire == t.leftWire) ||
              (r.left == InverterTree(cfg, t.left, 0.0, t.leftWire) && r.leftWire == 0.0)
    ensures t.right.Tree? ==>
              (r.right == t.right && r.rightWire == t.rightWire) ||
              (r.right == InverterTree(cfg, t.right, 0.0, t.rightWire) && r.rightWire == 0.0)
    ensures Drift(r) == Drift(t)
  {
    if t.left.Tree? && t.right.Tree? then
      if t.left.polarity == 0 && t.right.polarity == 1 then
        var inv := InverterTree(cfg, t.left, 0.0, t.leftWire);
        Reparent(cfg, LeftSide, t, inv).(polarity := inv.polarity)
      else if t.left.polarity == 1 && t.right.polarity == 0 then
        var inv := InverterTree(cfg, t.right, 0.0, t.rightWire);
        Reparent(cfg, RightSide, t, inv).(polarity := inv.polarity)
      else
        t.(polarity := t.left.polarity)
    else
      t
  }

  /**
   * `insertionPostOrder` on a non-null node, up to (and excluding) the final segmentation of
   * its own edge: both children are processed and adopted, then polarity is reconciled.
   */
  function Process(cfg: Config, sqrt: real -> real, fuel: nat, repatch: bool, t: Tree): (r: Tree)
    requires t.Tree? && WellShaped(t) && NoInv(t) && cfg.StageA() != 0.0
    ensures r.Tree? && r.kind == t.kind && (r.left.Tree? <==> t.left.Tree?) && (r.right.Tree? <==> t.right.Tree?)
  {
    var n1 :=
      if t.left.Null? then t
      else
        var pl := Process(cfg, sqrt, fuel, repatch, t.left);
        Adopt(cfg, repatch, LeftSide, t, pl, Lift(cfg, sqrt, fuel, pl, t.leftWire));
    var n2 :=
      if t.right.Null? then n1
      else
        var pr := Process(cfg, sqrt, fuel, repatch, t.right);
        Adopt(cfg, repatch, RightSide, n1, pr, Lift(cfg, sqrt, fuel, pr, t.rightWire));
    Reconcile(cfg, n2)
  }

  /** `insertionPostOrder(node, l)`: null for null, otherwise the processed node lifted on `l`. */
  function Insert(cfg: Config, sqrt: real -> real, fuel: nat, repatch: bool, t: Tree, l: real): Tree
    requires WellShaped(t) && NoInv(t) && cfg.StageA() != 0.0
  {
    if t.Null? then Null else Lift(cfg, sqrt, fuel, Process(cfg, sqrt, fuel, repatch, t), l)
  }

  /** `inverterInsertion(root)`: the root's edge has length 0. */
  function InverterInsertion(cfg: Config, sqrt: real -> real, fuel: nat, root: Tree): Tree
    requires WellShaped(root) && NoInv(root) && cfg.StageA() != 0.0
  {
    Insert(cfg, sqrt, fuel, false, root, 0.0)
  }

  // ---------------------------------------------------------------------------------------
  // What the pass keeps: the net, its edge lengths, polarity, well-formed inverters.

  /**
   * The net a tree drives once its inverters are taken out: leaves with their labels and
   * capacitances, junctions whose edges are the wire to the first non-inverter below them plus
   * every inverter wire on the way. (A null pointer, which never occurs under a well-shaped
   * node, is mapped to a leaf labelled -1.)
   */
  function Erase(t: Tree): Shape
  {
    if t.Null? then SLeaf(-1, 0.0)
    else if t.kind == Inv then Erase(t.left)
    else if t.kind == Leaf then SLeaf(t.leafLabel, t.capacitance)
    else SJoin(t.leftWire + ChainSpan(t.left), t.rightWire + ChainSpan(t.right), Erase(t.left), Erase(t.right))
  }

  /** On an inverter-free tree the erased net is the tree's shape. */
  lemma {:induction false} EraseBuilt(t: Tree)
    requires Built(t)
    ensures Erase(t) == ShapeOf(t)
  {
    if t.kind == Bridge {
      EraseBuilt(t.left);
      EraseBuilt(t.right);
    }
  }

  /** An inverter chain erases to what its bottom erases to. */
  lemma {:induction false} EraseChain(t: Tree)
    ensures Erase(t) == Erase(Bottom(t))
  {
    if t.Tree? && t.kind == Inv {
      EraseChain(t.left);
    }
  }

  /**
   * What `Lift` returns: the processed node itself, or a chain of well-formed inverters above
   * it whose wires together with the top's cut wire make up the edge length `l`.
   */
  lemma LiftShape(cfg: Config, sqrt: real -> real, fuel: nat, p: Tree, l: real)
    requires p.Tree? && p.kind != Inv && (p.left.Tree? <==> p.right.Tree?) && cfg.StageA() != 0.0
    ensures var top := Lift(cfg, sqrt, fuel, p, l);
            top.Tree? && ChainOk(cfg, top) && Bottom(top) == p &&
            (top == p || (top.kind == Inv && top.cutWire + ChainSpan(top) == l))
  {
    SegmentShape(cfg, sqrt, p, l, Branch(cfg, p), fuel);
  }

  /** A junction unfolds into its two adoptions and the reconciliation. */
  lemma ProcessBridge(cfg: Config, sqrt: real -> real, fuel: nat, repatch: bool, t: Tree)
    requires Built(t) && t.kind == Bridge && cfg.StageA() != 0.0
    ensures var pl := Process(cfg, sqrt, fuel, repatch, t.left);
            var pr := Process(cfg, sqrt, fuel, repatch, t.right);
            var n1 := Adopt(cfg, repatch, LeftSide, t, pl, Lift(cfg, sqrt, fuel, pl, t.leftWire));
            Process(cfg, sqrt, fuel, repatch, t) ==
            Reconcile(cfg, Adopt(cfg, repatch, RightSide, n1, pr, Lift(cfg, sqrt, fuel, pr, t.rightWire)))
  {
  }

  /**
   * After adopting the lifted child on `side`, that side holds a chain of well-formed inverters
   * over the processed child, and its wire plus the chain's wires is the original wire.
   */
  lemma AdoptEdge(cfg: Config, sqrt: real -> real, fuel: nat, repatch: bool, side: Side, t: Tree, pc: Tree)
    requires t.Tree? && Child(t, side).Tree? && cfg.StageA() != 0.0
    requires pc.Tree? && pc.kind != Inv && (pc.left.Tree? <==> pc.right.Tree?)
    ensures var r := Adopt(cfg, repatch, side, t, pc, Lift(cfg, sqrt, fuel, pc, Wire(t, side)));
            ChainOk(cfg, Child(r, side)) && Bottom(Child(r, side)) == pc &&
            Wire(r, side) + ChainSpan(Child(r, side)) == Wire(t, side)
  {
    LiftShape(cfg, sqrt, fuel, pc, Wire(t, side));
  }

  /** Whether `c`, reached through a wire `w`, is a chain of well-formed inverters over `p`, spanning `l`. */
  predicate Edge(cfg: Config, c: Tree, w: real, p: Tree, l: real)
  {
    ChainOk(cfg, c) && Bottom(c) == p && w + ChainSpan(c) == l
  }

  /** The polarity fix keeps each side an `Edge` over the same node with the same span. */
  lemma ReconcileEdges(cfg: Config, t: Tree, pl: Tree, ll: real, pr: Tree, lr: real)
    requires t.Tree? && t.left.Tree? && t.right.Tree?
    requires Edge(cfg, t.left, t.leftWire, pl, ll) && Edge(cfg, t.right, t.rightWire, pr, lr)
    ensures var r := Reconcile(cfg, t);
            Edge(cfg, r.left, r.leftWire, pl, ll) && Edge(cfg, r.right, r.rightWire, pr, lr)
  {
    FixInverterOk(cfg, t.left, t.leftWire);
    FixInverterOk(cfg, t.right, t.rightWire);
  }

  /**
   * A processed junction: each side is an `Edge` over the processed child spanning the original
   * wire, both children share the junction's polarity, and the drift moved as the mode says.
   */
  lemma ProcessChildren(cfg: Config, sqrt: real -> real, fuel: nat, repatch: bool, t: Tree)
    requires Built(t) && t.kind == Bridge && cfg.StageA() != 0.0
    ensures var r := Process(cfg, sqrt, fuel, repatch, t);
            var pl := Process(cfg, sqrt, fuel, repatch, t.left);
            var pr := Process(cfg, sqrt, fuel, repatch, t.right);
            r.left.Tree? && r.right.Tree? &&
            Edge(cfg, r.left, r.leftWire, pl, t.leftWire) && Edge(cfg, r.right, r.rightWire, pr, t.rightWire) &&
            r.left.polarity == r.polarity && r.right.polarity == r.polarity &&
            Drift(r) == Drift(t) + (if repatch then 0.0 else (t.left.elmore - pl.elmore) + (t.right.elmore - pr.elmore))
  {
    var pl := Process(cfg, sqrt, fuel, repatch, t.left);
    var pr := Process(cfg, sqrt, fuel, repatch, t.right);
    ProcessBridge(cfg, sqrt, fuel, repatch, t);
    var n1 := Adopt(cfg, repatch, LeftSide, t, pl, Lift(cfg, sqrt, fuel, pl, t.leftWire));
    AdoptEdge(cfg, sqrt, fuel, repatch, LeftSide, t, pl);
    var n2 := Adopt(cfg, repatch, RightSide, n1, pr, Lift(cfg, sqrt, fuel, pr, t.rightWire));
    AdoptEdge(cfg, sqrt, fuel, repatch, RightSide, n1, pr);
    assert Edge(cfg, n2.left, n2.leftWire, pl, t.leftWire);
    ReconcileEdges(cfg, n2, pl, t.leftWire, pr, t.rightWire);
  }

  /**
   * Processing a node keeps the net below it: the same leaves, labels and capacitances, and at
   * a junction each side's new wire plus the inverter wires put on that side add up to the
   * original wire.
   */
  lemma {:induction false} ProcessShape(cfg: Config, sqrt: real -> real, fuel: nat, repatch: bool, t: Tree)
    requires Built(t) && cfg.StageA() != 0.0
    ensures var r := Process(cfg, sqrt, fuel, repatch, t);
            Erase(r) == ShapeOf(t) &&
            (t.kind == Bridge ==>
               r.leftWire + ChainSpan(r.left) == t.leftWire && r.rightWire + ChainSpan(r.right) == t.rightWire)
    decreases t
  {
    if t.kind == Bridge {
      var r := Process(cfg, sqrt, fuel, repatch, t);
      ProcessShape(cfg, sqrt, fuel, repatch, t.left);
      ProcessShape(cfg, sqrt, fuel, repatch, t.right);
      ProcessChildren(cfg, sqrt, fuel, repatch, t);
      EraseChain(r.left);
      EraseChain(r.right);
    }
  }

  /** The whole pass keeps the net: the tree it returns erases to the input's shape. */
  lemma InsertShape(cfg: Config, sqrt: real -> real, fuel: nat, repatch: bool, t: Tree, l: real)
    requires Built(t) && cfg.StageA() != 0.0
    ensures Erase(Insert(cfg, sqrt, fuel, repatch, t, l)) == ShapeOf(t)
  {
    var p := Process(cfg, sqrt, fuel, repatch, t);
    ProcessShape(cfg, sqrt, fuel, repatch, t);
    LiftShape(cfg, sqrt, fuel, p, l);
    EraseChain(Lift(cfg, sqrt, fuel, p, l));
  }

  /** Every junction's children and the junction itself have one polarity. */
  predicate PolarityOk(t: Tree)
  {
    t.Null? ||
    ((t.kind == Bridge ==> t.left.Tree? && t.right.Tree? &&
                           t.left.polarity == t.polarity && t.right.polarity == t.polarity) &&
     PolarityOk(t.left) && PolarityOk(t.right))
  }

  /** Every inverter is well formed (`InverterOk`). */
  predicate InvertersOk(cfg: Config, t: Tree)
  {
    t.Null? ||
    ((t.kind == Inv ==> InverterOk(cfg, t)) && InvertersOk(cfg, t.left) && InvertersOk(cfg, t.right))
  }

  /**
   * The Elmore-capacitance invariant with inverters as stage boundaries: an inverter's elmore
   * is its own total (it isolates what it drives), every other node's is its own total plus
   * its children's.
   */
  predicate Decoupled(t: Tree)
  {
    t.Null? ||
    ((if t.kind == Inv then t.elmore == t.total else Drift(t) == 0.0) &&
     Decoupled(t.left) && Decoupled(t.right))
  }

  /** A chain of well-formed inverters keeps whatever of these its bottom has. */
  lemma {:induction false} ChainKeeps(cfg: Config, t: Tree)
    requires ChainOk(cfg, t)
    ensures PolarityOk(Bottom(t)) ==> PolarityOk(t)
    ensures InvertersOk(cfg, Bottom(t)) ==> InvertersOk(cfg, t)
    ensures Decoupled(Bottom(t)) ==> Decoupled(t)
  {
    if t.Tree? && t.kind == Inv {
      ChainKeeps(cfg, t.left);
    }
  }

  /** The zero-cut inverter of the polarity fix is well formed. */
  lemma FixInverterOk(cfg: Config, c: Tree, lw: real)
    requires c.Tree?
    ensures InverterOk(cfg, InverterTree(cfg, c, 0.0, lw))
  {
  }

  /**
   * After processing, every junction agrees in polarity with both its children, and every
   * inverter put in is well formed.
   */
  lemma {:induction false} ProcessPolarity(cfg: Config, sqrt: real -> real, fuel: nat, repatch: bool, t: Tree)
    requires Built(t) && cfg.StageA() != 0.0
    ensures var r := Process(cfg, sqrt, fuel, repatch, t);
            PolarityOk(r) && InvertersOk(cfg, r)
    decreases t
  {
    if t.kind == Bridge {
      var r := Process(cfg, sqrt, fuel, repatch, t);
      ProcessPolarity(cfg, sqrt, fuel, repatch, t.left);
      ProcessPolarity(cfg, sqrt, fuel, repatch, t.right);
      ProcessChildren(cfg, sqrt, fuel, repatch, t);
      ChainKeeps(cfg, r.left);
      ChainKeeps(cfg, r.right);
    }
  }

  /** The tree the pass returns has consistent polarity and well-formed inverters throughout. */
  lemma InsertPolarity(cfg: Config, sqrt: real -> real, fuel: nat, repatch: bool, t: Tree, l: real)
    requires Built(t) && cfg.StageA() != 0.0
    ensures PolarityOk(Insert(cfg, sqrt, fuel, repatch, t, l))
    ensures InvertersOk(cfg, Insert(cfg, sqrt, fuel, repatch, t, l))
  {
    var p := Process(cfg, sqrt, fuel, repatch, t);
    ProcessPolarity(cfg, sqrt, fuel, repatch, t);
    LiftShape(cfg, sqrt, fuel, p, l);
    ChainKeeps(cfg, Lift(cfg, sqrt, fuel, p, l));
  }

  // ---------------------------------------------------------------------------------------
  // Elmore capacitance after the pass.

  /**
   * As written, a junction's drift grows by how much each child's elmore changed while the
   * child was processed: the patch on re-parenting subtracts the child's new elmore, never its
   * old one, and nothing is patched when no inverter went directly above the child.
   */
  lemma ProcessDriftAsWritten(cfg: Config, sqrt: real -> real, fuel: nat, t: Tree)
    requires Built(t) && t.kind == Bridge && cfg.StageA() != 0.0
    ensures var pl := Process(cfg, sqrt, fuel, false, t.left);
            var pr := Process(cfg, sqrt, fuel, false, t.right);
            Drift(Process(cfg, sqrt, fuel, false, t)) ==
            Drift(t) + (t.left.elmore - pl.elmore) + (t.right.elmore - pr.elmore)
  {
    ProcessChildren(cfg, sqrt, fuel, false, t);
  }

  /**
   * With the repatch, processing from a tree where the Elmore invariant holds gives a tree
   * where it holds with every inverter as a stage boundary.
   */
  lemma {:induction false} ProcessDecoupled(cfg: Config, sqrt: real -> real, fuel: nat, t: Tree)
    requires Built(t) && Elmore.ElmoreConsistent(t) && cfg.StageA() != 0.0
    ensures Decoupled(Process(cfg, sqrt, fuel, true, t))
    decreases t
  {
    if t.kind == Bridge {
      var r := Process(cfg, sqrt, fuel, true, t);
      ProcessDecoupled(cfg, sqrt, fuel, t.left);
      ProcessDecoupled(cfg, sqrt, fuel, t.right);
      ProcessChildren(cfg, sqrt, fuel, true, t);
      ChainKeeps(cfg, r.left);
      ChainKeeps(cfg, r.right);
    }
  }

  /** With the repatch the whole pass leaves the Elmore invariant intact. */
  lemma InsertDecoupled(cfg: Config, sqrt: real -> real, fuel: nat, t: Tree, l: real)
    requires Built(t) && Elmore.ElmoreConsistent(t) && cfg.StageA() != 0.0
    ensures Decoupled(Insert(cfg, sqrt, fuel, true, t, l))
  {
    var p := Process(cfg, sqrt, fuel, true, t);
    ProcessDecoupled(cfg, sqrt, fuel, t);
    LiftShape(cfg, sqrt, fuel, p, l);
    ChainKeeps(cfg, Lift(cfg, sqrt, fuel, p, l));
  }
}
