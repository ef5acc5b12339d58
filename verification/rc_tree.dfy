/**
 * The RC-tree data model of main.cpp: the process-wide electrical parameters, the node kinds,
 * and `Tree`, the value of a `Node*` subtree (`Null` is the null pointer).
 */
module RcTree {

  /** The six global parameters of main.cpp (lines 11-18), bundled as one immutable value. */
  datatype Config = Config(
    unitWireRes: real,
    unitWireCap: real,
    invInputCap: real,
    invOutputCap: real,
    invOutputRes: real,
    timeConstraint: real)
  {
    /** `A` of every stage-delay quadratic: half the product of unit wire capacitance and resistance. */
    function StageA(): real { (unitWireCap * unitWireRes) / 2.0 }

    /** `B` of the stage-delay quadratic for a stage whose far end is loaded by `load`. */
    function StageB(load: real): real { (invOutputRes * unitWireCap) + (unitWireRes * load) }

    /** `C` of the stage-delay quadratic for a stage whose far end is loaded by `load`. */
    function StageC(load: real): real { (invOutputRes * invOutputCap) + (invOutputRes * load) }

    /** Half the capacitance of a wire of length `len`, the π-model load put at each end. */
    function HalfWire(len: real): real { (len * unitWireCap) / 2.0 }

    /** Resistance of a wire of length `len`. */
    function WireRes(len: real): real { unitWireRes * len }

    /** Every electrical parameter is non-negative (the time constraint may be anything). */
    predicate NonNegative()
    {
      unitWireRes >= 0.0 && unitWireCap >= 0.0 && invInputCap >= 0.0 &&
      invOutputCap >= 0.0 && invOutputRes >= 0.0
    }
  }

  /** Inverter parity: 0 or 1. */
  type Bit = b: int | 0 <= b <= 1

  /** `NodeType`: LEAF, BRIDGE (a junction) and INV. */
  datatype Kind = Leaf | Bridge | Inv

  /**
   * The value of a subtree: every field of `struct Node`, with the child pointers replaced by
   * the children's values.
   */
  datatype Tree =
    | Null
    | Tree(kind: Kind, leafLabel: int, capacitance: real,
           leftWire: real, rightWire: real, left: Tree, right: Tree,
           total: real, elmore: real, delay: real, cutWire: real, polarity: Bit)

  /** A fresh leaf, as `new Node(lbl, cap)` builds it. */
  function LeafTree(leafLabel: int, cap: real): Tree
  {
    Tree(Leaf, leafLabel, cap, 0.0, 0.0, Null, Null, 0.0, 0.0, 0.0, 0.0, 0)
  }

  /**
   * An inverter driving `child` through a wire of length `lw`, `cut` being the wire length left
   * above it: `new Node(inv_input_cap, cut, true)` with its wire, child, capacitances and
   * polarity filled in as both insertion sites of main.cpp do.
   */
  function InverterTree(cfg: Config, child: Tree, cut: real, lw: real): (r: Tree)
    requires child.Tree?
    ensures r.Tree? && r.kind == Inv && r.left == child && r.right.Null? && r.cutWire == cut
    ensures r.polarity != child.polarity
  {
    var total := cfg.invInputCap + cfg.HalfWire(cut);
    Tree(Inv, -1, cfg.invInputCap, lw, -1.0, child, Null, total, total, 0.0, cut, (1 + child.polarity) % 2)
  }

  /** The Elmore capacitance a (possibly null) child contributes: 0 for a null pointer. */
  function ElmOf(t: Tree): real
  {
    if t.Null? then 0.0 else t.elmore
  }

  /** `t` with `x` more lumped capacitance on its own `total_capacitance`. */
  function AddLoad(t: Tree, x: real): (r: Tree)
    requires t.Tree?
    ensures r.Tree? && r.total == t.total + x
  {
    t.(total := t.total + x)
  }

  /** `t` with its elmore capacitance overwritten. */
  function WithElmore(t: Tree, v: real): (r: Tree)
    requires t.Tree?
    ensures r.Tree? && r.elmore == v
  {
    t.(elmore := v)
  }

  /** `t` with its elmore delay overwritten. */
  function WithDelay(t: Tree, v: real): (r: Tree)
    requires t.Tree?
    ensures r.Tree? && r.delay == v
  {
    t.(delay := v)
  }

  /** `t` with its polarity overwritten. */
  function WithPolarity(t: Tree, p: Bit): (r: Tree)
    requires t.Tree?
    ensures r.Tree? && r.polarity == p
  {
    t.(polarity := p)
  }

  /** `t` with both subtrees replaced. */
  function WithChildren(t: Tree, l: Tree, r: Tree): (u: Tree)
    requires t.Tree?
    ensures u.Tree? && u.left == l && u.right == r
  {
    t.(left := l, right := r)
  }

  /** Children as the kind demands: a leaf has none, a junction two, an inverter only a left one. */
  predicate WellShaped(t: Tree)
  {
    t.Null? ||
    ((match t.kind
      case Leaf => t.left.Null? && t.right.Null?
      case Bridge => t.left.Tree? && t.right.Tree?
      case Inv => t.left.Tree? && t.right.Null?) &&
     WellShaped(t.left) && WellShaped(t.right))
  }

  /** No inverter anywhere in the subtree. */
  predicate NoInv(t: Tree)
  {
    t.Null? || (t.kind != Inv && NoInv(t.left) && NoInv(t.right))
  }

  /** A non-null, inverter-free, well-shaped tree: what the builder produces. */
  predicate Built(t: Tree)
  {
    t.Tree? && WellShaped(t) && NoInv(t)
  }

  /** Σ `total_capacitance` over every node of the subtree. */
  function SumTotal(t: Tree): real
  {
    if t.Null? then 0.0 else t.total + SumTotal(t.left) + SumTotal(t.right)
  }

  /** Number of leaves. */
  function LeafCount(t: Tree): nat
  {
    if t.Null? then 0
    else (if t.kind == Leaf then 1 else 0) + LeafCount(t.left) + LeafCount(t.right)
  }

  /** Leaf labels in pre-order. */
  function LeafLabels(t: Tree): seq<int>
  {
    if t.Null? then []
    else (if t.kind == Leaf then [t.leafLabel] else []) + LeafLabels(t.left) + LeafLabels(t.right)
  }

  /** Every leaf label is a non-negative int32 (what a digit-first text label parses to). */
  predicate LabelsOk(t: Tree)
  {
    t.Null? ||
    ((t.kind == Leaf ==> 0 <= t.leafLabel < 0x8000_0000) && LabelsOk(t.left) && LabelsOk(t.right))
  }

  /**
   * The structural content of an inverter-free tree: shape, leaf labels and capacitances,
   * wire lengths, without any derived field.
   */
  datatype Shape =
    | SLeaf(leafLabel: int, cap: real)
    | SJoin(leftWire: real, rightWire: real, left: Shape, right: Shape)

  /** The shape of a built tree. */
  function ShapeOf(t: Tree): Shape
    requires Built(t)
  {
    if t.kind == Leaf then SLeaf(t.leafLabel, t.capacitance)
    else SJoin(t.leftWire, t.rightWire, ShapeOf(t.left), ShapeOf(t.right))
  }
}
