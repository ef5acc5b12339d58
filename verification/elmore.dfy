/**
 * The two timing folds of main.cpp: `capacitancePostOrder` (lines 218-230), which gives every
 * node the capacitance of its whole subtree, and `delayPreOrder`/`elmoreDelay` (lines 231-262),
 * which turns those into Elmore delays and emits one `(label, delay)` record per leaf.
 */
module Elmore {
  import opened RcTree
  import opened Nodes
  import Builder
  import Wrappers

  // ---------------------------------------------------------------------------------------
  // Capacitance fold.

  /** `t` after `capacitancePostOrder`: each node's elmore is its total plus its children's. */
  function CapFold(t: Tree): (r: Tree)
    ensures r.Null? <==> t.Null?
    ensures r.Tree? ==> r.kind == t.kind && r.total == t.total
  {
    if t.Null? then Null
    else
      var l := CapFold(t.left);
      var r := CapFold(t.right);
      t.(left := l, right := r, elmore := ElmOf(l) + ElmOf(r) + t.total)
  }

  /** The Elmore-capacitance invariant: everywhere, own total plus the children's elmore. */
  predicate ElmoreConsistent(t: Tree)
  {
    t.Null? ||
    (t.elmore == t.total + ElmOf(t.left) + ElmOf(t.right) &&
     ElmoreConsistent(t.left) && ElmoreConsistent(t.right))
  }

  /** `t` with every elmore capacitance zeroed: what the capacitance fold does not touch. */
  function NoElmore(t: Tree): Tree
  {
    if t.Null? then Null else t.(elmore := 0.0, left := NoElmore(t.left), right := NoElmore(t.right))
  }

  /** `t` with every elmore delay zeroed: what the delay fold does not touch. */
  function NoDelay(t: Tree): Tree
  {
    if t.Null? then Null else t.(delay := 0.0, left := NoDelay(t.left), right := NoDelay(t.right))
  }

  /** After the fold the invariant holds everywhere, and the root carries Σ total_capacitance. */
  lemma {:induction false} CapFoldConsistent(t: Tree)
    ensures ElmoreConsistent(CapFold(t))
    ensures ElmOf(CapFold(t)) == SumTotal(t)
  {
    if t.Tree? {
      CapFoldConsistent(t.left);
      CapFoldConsistent(t.right);
    }
  }

  /** The fold writes the elmore field and nothing else. */
  lemma {:induction false} CapFoldOnlyElmore(t: Tree)
    ensures NoElmore(CapFold(t)) == NoElmore(t)
  {
    if t.Tree? {
      CapFoldOnlyElmore(t.left);
      CapFoldOnlyElmore(t.right);
    }
  }

  /** A tree that already satisfies the invariant is a fixed point: the fold is idempotent. */
  lemma {:induction false} CapFoldFixesConsistent(t: Tree)
    requires ElmoreConsistent(t)
    ensures CapFold(t) == t
  {
    if t.Tree? {
      CapFoldFixesConsistent(t.left);
      CapFoldFixesConsistent(t.right);
    }
  }

  /** Every node carries a non-negative `total_capacitance`. */
  predicate TotalsNonNeg(t: Tree)
  {
    t.Null? || (t.total >= 0.0 && TotalsNonNeg(t.left) && TotalsNonNeg(t.right))
  }

  /** Every node carries a non-negative elmore capacitance. */
  predicate ElmoreNonNeg(t: Tree)
  {
    t.Null? || (t.elmore >= 0.0 && ElmoreNonNeg(t.left) && ElmoreNonNeg(t.right))
  }

  lemma {:induction false} CapFoldNonNeg(t: Tree)
    requires TotalsNonNeg(t)
    ensures ElmoreNonNeg(CapFold(t))
  {
    if t.Tree? {
      CapFoldNonNeg(t.left);
      CapFoldNonNeg(t.right);
    }
  }

  // ---------------------------------------------------------------------------------------
  // Delay fold.

  /** One binary delay record: `(int label, double elmore_delay)`. */
  datatype DelayRecord = DelayRecord(leafLabel: int, delay: real)

  /** The delay at a node reached with delay `cur` through resistance `res`, loaded by `cap`. */
  function Arrival(cur: real, res: real, cap: real): real
  {
    cur + res * cap
  }

  /**
   * `t` after `delayPreOrder(t, cur, res)`: each node's delay is the incoming delay plus the
   * driving resistance times its elmore capacitance; a child is driven through its wire.
   */
  function DelayFold(cfg: Config, t: Tree, cur: real, res: real): (r: Tree)
    ensures r.Null? <==> t.Null?
    ensures r.Tree? ==> r.kind == t.kind && r.elmore == t.elmore
  {
    if t.Null? then Null
    else
      var d := Arrival(cur, res, t.elmore);
      t.(delay := d,
         left := DelayFold(cfg, t.left, d, cfg.WireRes(t.leftWire)),
         right := DelayFold(cfg, t.right, d, cfg.WireRes(t.rightWire)))
  }

  /** One level of the delay fold, in terms of the field updates the heap pass performs. */
  lemma DelayFoldStep(cfg: Config, t: Tree, cur: real, res: real)
    requires t.Tree?
    ensures var d := Arrival(cur, res, t.elmore);
            DelayFold(cfg, t, cur, res) ==
            WithChildren(WithDelay(t, d), DelayFold(cfg, t.left, d, cfg.WireRes(t.leftWire)),
                         DelayFold(cfg, t.right, d, cfg.WireRes(t.rightWire)))
  {
  }

  /** The records `delayPreOrder(t, cur, res)` writes, in order. */
  function DelayRecords(cfg: Config, t: Tree, cur: real, res: real): seq<DelayRecord>
  {
    if t.Null? then []
    else
      var d := Arrival(cur, res, t.elmore);
      (if t.kind == Leaf then [DelayRecord(t.leafLabel, d)] else []) +
      DelayRecords(cfg, t.left, d, cfg.WireRes(t.leftWire)) +
      DelayRecords(cfg, t.right, d, cfg.WireRes(t.rightWire))
  }

  /** The leaves of a tree with their delays, in pre-order. */
  function LeafDelays(t: Tree): (r: seq<DelayRecord>)
    ensures |r| == LeafCount(t)
  {
    if t.Null? then []
    else
      (if t.kind == Leaf then [DelayRecord(t.leafLabel, t.delay)] else []) +
      LeafDelays(t.left) + LeafDelays(t.right)
  }

  /** The label column of a record sequence. */
  function Labels(recs: seq<DelayRecord>): (r: seq<int>)
    ensures |r| == |recs|
  {
    seq(|recs|, k requires 0 <= k < |recs| => recs[k].leafLabel)
  }

  lemma LabelsAppend(a: seq<DelayRecord>, b: seq<DelayRecord>)
    ensures Labels(a + b) == Labels(a) + Labels(b)
  {
    assert forall k :: 0 <= k < |a + b| ==> Labels(a + b)[k] == (Labels(a) + Labels(b))[k];
  }

  /** Every wire length is non-negative. */
  predicate WiresNonNeg(t: Tree)
  {
    t.Null? || (t.leftWire >= 0.0 && t.rightWire >= 0.0 && WiresNonNeg(t.left) && WiresNonNeg(t.right))
  }

  /** Along every edge the delay does not decrease from parent to child. */
  predicate DelayMonotone(t: Tree)
  {
    t.Null? ||
    ((t.left.Tree? ==> t.left.delay >= t.delay) &&
     (t.right.Tree? ==> t.right.delay >= t.delay) &&
     DelayMonotone(t.left) && DelayMonotone(t.right))
  }

  /** The records are the leaves of the folded tree, with the delays the fold stored there. */
  lemma {:induction false} DelayRecordsAreLeaves(cfg: Config, t: Tree, cur: real, res: real)
    ensures DelayRecords(cfg, t, cur, res) == LeafDelays(DelayFold(cfg, t, cur, res))
  {
    if t.Tree? {
      var d := Arrival(cur, res, t.elmore);
      DelayRecordsAreLeaves(cfg, t.left, d, cfg.WireRes(t.leftWire));
      DelayRecordsAreLeaves(cfg, t.right, d, cfg.WireRes(t.rightWire));
    }
  }

  /** The label column of `LeafDelays` is the pre-order leaf labels. */
  lemma {:induction false} LeafDelaysLabels(t: Tree)
    ensures Labels(LeafDelays(t)) == LeafLabels(t)
  {
    if t.Tree? {
      LeafDelaysLabels(t.left);
      LeafDelaysLabels(t.right);
      var own: seq<DelayRecord> := if t.kind == Leaf then [DelayRecord(t.leafLabel, t.delay)] else [];
      LabelsAppend(own, LeafDelays(t.left));
      LabelsAppend(own + LeafDelays(t.left), LeafDelays(t.right));
    }
  }

  /** The delay fold keeps every leaf and its label. */
  lemma {:induction false} DelayFoldKeepsLeaves(cfg: Config, t: Tree, cur: real, res: real)
    ensures LeafLabels(DelayFold(cfg, t, cur, res)) == LeafLabels(t)
    ensures LeafCount(DelayFold(cfg, t, cur, res)) == LeafCount(t)
  {
    if t.Tree? {
      var d := Arrival(cur, res, t.elmore);
      DelayFoldKeepsLeaves(cfg, t.left, d, cfg.WireRes(t.leftWire));
      DelayFoldKeepsLeaves(cfg, t.right, d, cfg.WireRes(t.rightWire));
    }
  }

  /**
   * Exactly one record per leaf, in pre-order: the delay stream is the folded tree's leaves
   * with their delays, one per leaf, labelled in pre-order.
   */
  lemma DelayStream(cfg: Config, t: Tree, cur: real, res: real)
    ensures DelayRecords(cfg, t, cur, res) == LeafDelays(DelayFold(cfg, t, cur, res))
    ensures |DelayRecords(cfg, t, cur, res)| == LeafCount(t)
    ensures Labels(DelayRecords(cfg, t, cur, res)) == LeafLabels(t)
  {
    DelayRecordsAreLeaves(cfg, t, cur, res);
    DelayFoldKeepsLeaves(cfg, t, cur, res);
    LeafDelaysLabels(DelayFold(cfg, t, cur, res));
  }

  /** The fold writes the delay field and nothing else. */
  lemma {:induction false} DelayFoldOnlyDelay(cfg: Config, t: Tree, cur: real, res: real)
    ensures NoDelay(DelayFold(cfg, t, cur, res)) == NoDelay(t)
  {
    if t.Tree? {
      var d := Arrival(cur, res, t.elmore);
      DelayFoldOnlyDelay(cfg, t.left, d, cfg.WireRes(t.leftWire));
      DelayFoldOnlyDelay(cfg, t.right, d, cfg.WireRes(t.rightWire));
    }
  }

  /**
   * Delay monotonicity: with non-negative parameters, wire lengths and elmore capacitances, the
   * delay never decreases along a root-to-leaf path, and the root is not earlier than `cur`.
   */
  lemma {:induction false} DelayFoldMonotone(cfg: Config, t: Tree, cur: real, res: real)
    requires cfg.NonNegative() && res >= 0.0 && WiresNonNeg(t) && ElmoreNonNeg(t)
    ensures DelayMonotone(DelayFold(cfg, t, cur, res))
    ensures t.Tree? ==> DelayFold(cfg, t, cur, res).delay >= cur
  {
    if t.Tree? {
      var d := Arrival(cur, res, t.elmore);
      assert d >= cur by { NonNegProduct(res, t.elmore); }
      assert cfg.WireRes(t.leftWire) >= 0.0 by { NonNegProduct(cfg.unitWireRes, t.leftWire); }
      assert cfg.WireRes(t.rightWire) >= 0.0 by { NonNegProduct(cfg.unitWireRes, t.rightWire); }
      DelayFoldMonotone(cfg, t.left, d, cfg.WireRes(t.leftWire));
      DelayFoldMonotone(cfg, t.right, d, cfg.WireRes(t.rightWire));
    }
  }

  lemma NonNegProduct(x: real, y: real)
    requires x >= 0.0 && y >= 0.0
    ensures x * y >= 0.0
  {
  }

  // ---------------------------------------------------------------------------------------
  // The whole analysis, and its specification on built trees.

  /** `elmoreDelay`: the capacitance fold, then the delay fold from the driver with delay 0. */
  function Analyse(cfg: Config, t: Tree): Tree
  {
    DelayFold(cfg, CapFold(t), 0.0, cfg.invOutputRes)
  }

  /** The delay stream `elmoreDelay` writes. */
  function AnalysisRecords(cfg: Config, t: Tree): seq<DelayRecord>
  {
    DelayRecords(cfg, CapFold(t), 0.0, cfg.invOutputRes)
  }

  /** Every total capacitance of a π-model is non-negative when capacitances and wires are. */
  lemma {:induction false} PiModelNonNeg(cfg: Config, s: Shape, up: real)
    requires cfg.NonNegative() && up >= 0.0 && ShapeNonNeg(s)
    ensures TotalsNonNeg(Builder.PiModel(cfg, s, up)) && WiresNonNeg(Builder.PiModel(cfg, s, up))
  {
    var t := Builder.PiModel(cfg, s, up);
    HalfWireNonNeg(cfg, up);
    match s
    case SLeaf(_, cap) =>
      assert t.total == cap + cfg.HalfWire(up) && t.left.Null? && t.right.Null?;
    case SJoin(lw, rw, l, r) =>
      HalfWireNonNeg(cfg, lw);
      HalfWireNonNeg(cfg, rw);
      PiModelNonNeg(cfg, l, lw);
      PiModelNonNeg(cfg, r, rw);
      assert t.total == cfg.HalfWire(lw) + cfg.HalfWire(rw) + cfg.HalfWire(up);
      assert t.left == Builder.PiModel(cfg, l, lw) && t.right == Builder.PiModel(cfg, r, rw);
  }

  /** Half a wire's capacitance is non-negative. */
  lemma HalfWireNonNeg(cfg: Config, len: real)
    requires cfg.NonNegative() && len >= 0.0
    ensures cfg.HalfWire(len) >= 0.0
  {
    NonNegProduct(len, cfg.unitWireCap);
  }

  /** Non-negative leaf capacitances and wire lengths. */
  predicate ShapeNonNeg(s: Shape)
  {
    match s
    case SLeaf(_, cap) => cap >= 0.0
    case SJoin(lw, rw, l, r) => lw >= 0.0 && rw >= 0.0 && ShapeNonNeg(l) && ShapeNonNeg(r)
  }

  /**
   * For a net the builder returns (`Builder.BuildIsFresh`: every one is `Fresh` of its shape)
   * with non-negative data: after `elmoreDelay` the Elmore capacitances are consistent, the root
   * delay is the driver resistance times the whole net's capacitance, delays never decrease
   * towards the leaves, and the stream holds one record per leaf, in pre-order.
   */
  lemma AnalysisOfFresh(cfg: Config, s: Shape)
    requires cfg.NonNegative() && ShapeNonNeg(s)
    ensures var t := Builder.Fresh(cfg, s);
            var a := Analyse(cfg, t);
            ElmoreConsistent(a) &&
            a.delay == Arrival(0.0, cfg.invOutputRes, SumTotal(t)) &&
            DelayMonotone(a) &&
            AnalysisRecords(cfg, t) == LeafDelays(a) &&
            Labels(AnalysisRecords(cfg, t)) == LeafLabels(t)
  {
    var t := Builder.Fresh(cfg, s);
    PiModelNonNeg(cfg, s, 0.0);
    assert TotalsNonNeg(t) && WiresNonNeg(t);
    AnalysisOfNonNeg(cfg, t);
    AnalysisStream(cfg, t);
  }

  /** The delay side of `elmoreDelay` on any tree with non-negative totals and wires. */
  lemma AnalysisOfNonNeg(cfg: Config, t: Tree)
    requires cfg.NonNegative() && t.Tree? && TotalsNonNeg(t) && WiresNonNeg(t)
    ensures var a := Analyse(cfg, t);
            ElmoreConsistent(a) && a.delay == Arrival(0.0, cfg.invOutputRes, SumTotal(t)) && DelayMonotone(a)
  {
    AnalysisRootDelay(cfg, t);
    CapFoldConsistent(t);
    CapFoldNonNeg(t);
    CapFoldOnlyElmore(t);
    WiresOfNoElmore(t, CapFold(t));
    DelayFoldMonotone(cfg, CapFold(t), 0.0, cfg.invOutputRes);
    DelayFoldOnlyDelay(cfg, CapFold(t), 0.0, cfg.invOutputRes);
    ConsistentOfNoDelay(CapFold(t), Analyse(cfg, t));
  }

  /** The root's delay is the driver's output resistance times the whole net's capacitance. */
  lemma AnalysisRootDelay(cfg: Config, t: Tree)
    requires t.Tree?
    ensures Analyse(cfg, t).delay == Arrival(0.0, cfg.invOutputRes, SumTotal(t))
  {
    CapFoldConsistent(t);
    var e := CapFold(t).elmore;
    assert e == SumTotal(t);
    assert Analyse(cfg, t).delay == Arrival(0.0, cfg.invOutputRes, e);
  }

  /** The stream `elmoreDelay` writes lists every leaf of the analysed tree with its delay, in pre-order. */
  lemma AnalysisStream(cfg: Config, t: Tree)
    ensures AnalysisRecords(cfg, t) == LeafDelays(Analyse(cfg, t))
    ensures Labels(AnalysisRecords(cfg, t)) == LeafLabels(t)
  {
    CapFoldOnlyElmore(t);
    DelayStream(cfg, CapFold(t), 0.0, cfg.invOutputRes);
    LeafLabelsOfNoElmore(t, CapFold(t));
  }

  lemma {:induction false} WiresOfNoElmore(a: Tree, b: Tree)
    requires NoElmore(a) == NoElmore(b) && WiresNonNeg(a)
    ensures WiresNonNeg(b)
  {
    if a.Tree? {
      WiresOfNoElmore(a.left, b.left);
      WiresOfNoElmore(a.right, b.right);
    }
  }

  lemma {:induction false} LeafLabelsOfNoElmore(a: Tree, b: Tree)
    requires NoElmore(a) == NoElmore(b)
    ensures LeafLabels(a) == LeafLabels(b)
  {
    if a.Tree? {
      LeafLabelsOfNoElmore(a.left, b.left);
      LeafLabelsOfNoElmore(a.right, b.right);
    }
  }

  lemma {:induction false} ConsistentOfNoDelay(a: Tree, b: Tree)
    requires NoDelay(a) == NoDelay(b) && ElmoreConsistent(a)
    ensures ElmoreConsistent(b)
  {
    if a.Tree? {
      ConsistentOfNoDelay(a.left, b.left);
      ConsistentOfNoDelay(a.right, b.right);
    }
  }

  // ---------------------------------------------------------------------------------------
  // The heap passes.

  /** `capacitancePostOrder`: writes every elmore capacitance and returns the root's. */
  method CapacitancePostOrder(node: Node?) returns (cap: real)
    requires node != null ==> node.Valid()
    modifies if node != null then node.Repr else {}
    ensures node != null ==> node.Valid() && node.Repr == old(node.Repr)
    ensures ModelOf(node) == CapFold(old(ModelOf(node)))
    ensures cap == ElmOf(ModelOf(node))
    decreases if node != null then node.Repr else {}, 1
  {
    if node == null {
      return 0.0;
    }
    cap := CapacitanceAt(node);
  }

  /** The body of `capacitancePostOrder` at a non-null node. */
  method CapacitanceAt(node: Node) returns (cap: real)
    requires node.Valid()
    modifies node.Repr
    ensures node.Valid() && node.Repr == old(node.Repr)
    ensures node.Model() == CapFold(old(node.Model()))
    ensures cap == node.elmoreCapacitance
    decreases node.Repr, 0
  {
    ghost var t := node.Model();
    var l, r := node.left, node.right;
    var leftCap := CapacitancePostOrder(l);
    assert ModelOf(r) == t.right;
    var rightCap := CapacitancePostOrder(r);
    assert ModelOf(l) == CapFold(t.left);
    SubtreesUpdated(node);
    node.SetElmore(leftCap + rightCap + node.totalCapacitance);
    cap := node.elmoreCapacitance;
  }

  /** `delayPreOrder`: writes every elmore delay and returns the records written, in order. */
  method DelayPreOrder(cfg: Config, node: Node?, cur: real, res: real) returns (recs: seq<DelayRecord>)
    requires node != null ==> node.Valid()
    modifies if node != null then node.Repr else {}
    ensures node != null ==> node.Valid() && node.Repr == old(node.Repr)
    ensures ModelOf(node) == DelayFold(cfg, old(ModelOf(node)), cur, res)
    ensures recs == DelayRecords(cfg, old(ModelOf(node)), cur, res)
    decreases if node != null then node.Repr else {}, 1
  {
    if node == null {
      return [];
    }
    recs := DelayAt(cfg, node, cur, res);
  }

  /** The body of `delayPreOrder` at a non-null node. */
  method DelayAt(cfg: Config, node: Node, cur: real, res: real) returns (recs: seq<DelayRecord>)
    requires node.Valid()
    modifies node.Repr
    ensures node.Valid() && node.Repr == old(node.Repr)
    ensures node.Model() == DelayFold(cfg, old(node.Model()), cur, res)
    ensures recs == DelayRecords(cfg, old(node.Model()), cur, res)
    decreases node.Repr, 0
  {
    ghost var t := node.Model();
    var d := Arrival(cur, res, node.elmoreCapacitance);
    recs := [];
    if node.kind == Leaf {
      recs := [DelayRecord(node.leafLabel, d)];
    }
    var l, r := node.left, node.right;
    var lr, rr := cfg.WireRes(node.leftWire), cfg.WireRes(node.rightWire);
    var leftRecs := DelayPreOrder(cfg, l, d, lr);
    assert ModelOf(r) == t.right;
    var rightRecs := DelayPreOrder(cfg, r, d, rr);
    assert ModelOf(l) == DelayFold(cfg, t.left, d, lr);
    SubtreesUpdated(node);
    node.SetDelay(d);
    recs := recs + leftRecs + rightRecs;
    DelayFoldStep(cfg, t, cur, res);
  }

  /** `elmoreDelay`: both folds over the tree, returning the delay stream. */
  method ElmoreDelay(cfg: Config, root: Node?) returns (recs: seq<DelayRecord>)
    requires root != null ==> root.Valid()
    modifies if root != null then root.Repr else {}
    ensures root != null ==> root.Valid() && root.Repr == old(root.Repr)
    ensures ModelOf(root) == Analyse(cfg, old(ModelOf(root)))
    ensures recs == AnalysisRecords(cfg, old(ModelOf(root)))
  {
    var _ := CapacitancePostOrder(root);
    recs := DelayPreOrder(cfg, root, 0.0, cfg.invOutputRes);
  }
}
