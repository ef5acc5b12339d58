/**
 * `struct Node` of main.cpp as a heap object. Children are owned exclusively: `Repr` is the
 * node and everything below it, and `Valid()` says the two child footprints are disjoint and
 * do not contain the node, so the structure is an acyclic, unshared tree.
 */
module Nodes {
  import opened RcTree

  class Node {
    var kind: Kind
    var leafLabel: int
    var capacitance: real
    var leftWire: real
    var rightWire: real
    var left: Node?
    var right: Node?
    var totalCapacitance: real
    var elmoreCapacitance: real
    var elmoreDelay: real
    var cutWire: real
    var polarity: Bit
    ghost var Repr: set<object>

    ghost predicate Valid()
      reads this, Repr
      ensures Valid() ==> this in Repr
      decreases Repr
    {
      this in Repr &&
      (left != null ==>
        left in Repr && left.Repr <= Repr && this !in left.Repr && left.Valid()) &&
      (right != null ==>
        right in Repr && right.Repr <= Repr && this !in right.Repr && right.Valid()) &&
      (left != null && right != null ==> left.Repr !! right.Repr) &&
      Repr == {this} + (if left != null then left.Repr else {}) + (if right != null then right.Repr else {})
    }

    /** The value of the subtree rooted here. */
    ghost function Model(): (t: Tree)
      reads this, Repr
      requires Valid()
      ensures t.Tree?
      decreases Repr
    {
      Tree(kind, leafLabel, capacitance, leftWire, rightWire,
           if left == null then Null else left.Model(),
           if right == null then Null else right.Model(),
           totalCapacitance, elmoreCapacitance, elmoreDelay, cutWire, polarity)
    }

    /** `Node(int lbl, double cap)`: a leaf with every derived field zero. */
    constructor LeafNode(lbl: int, cap: real)
      ensures Valid() && fresh(Repr)
      ensures Model() == LeafTree(lbl, cap)
    {
      kind, leafLabel, capacitance := Leaf, lbl, cap;
      leftWire, rightWire, left, right := 0.0, 0.0, null, null;
      totalCapacitance, elmoreCapacitance, elmoreDelay, cutWire, polarity := 0.0, 0.0, 0.0, 0.0, 0;
      Repr := {this};
    }

    /** `Node(double lw, double rw, Node* l, Node* r)`: a junction owning `l` and `r`. */
    constructor BridgeNode(lw: real, rw: real, l: Node, r: Node)
      requires l.Valid() && r.Valid() && l.Repr !! r.Repr
      ensures Valid() && Repr == {this} + l.Repr + r.Repr
      ensures left == l && right == r
      ensures Model() == Tree(Bridge, -1, 0.0, lw, rw, l.Model(), r.Model(), 0.0, 0.0, 0.0, 0.0, 0)
    {
      kind, leafLabel, capacitance := Bridge, -1, 0.0;
      leftWire, rightWire, left, right := lw, rw, l, r;
      totalCapacitance, elmoreCapacitance, elmoreDelay, cutWire, polarity := 0.0, 0.0, 0.0, 0.0, 0;
      Repr := {this} + l.Repr + r.Repr;
    }

    /** `Node(double cap, double wire_left, bool inv)`: a detached inverter with its cut wire. */
    constructor InverterNode(cap: real, wireLeft: real)
      ensures Valid() && fresh(Repr) && left == null && right == null
      ensures Model() == Tree(Inv, -1, cap, 0.0, 0.0, Null, Null, 0.0, 0.0, 0.0, wireLeft, 0)
    {
      kind, leafLabel, capacitance := Inv, -1, cap;
      leftWire, rightWire, left, right := 0.0, 0.0, null, null;
      totalCapacitance, elmoreCapacitance, elmoreDelay, cutWire, polarity := 0.0, 0.0, 0.0, wireLeft, 0;
      Repr := {this};
    }

    /**
     * An inverter put above `child`: `new Node(inv_input_cap, cut, true)`, then its wire
     * (`leftWire = lw`, `rightWire = -1`), its child, its lumped and Elmore capacitance
     * (input capacitance plus half the cut wire) and the flipped polarity.
     */
    constructor Inverter(cfg: Config, child: Node, cut: real, lw: real)
      requires child.Valid()
      ensures Valid() && Repr == {this} + child.Repr
      ensures Model() == InverterTree(cfg, old(child.Model()), cut, lw)
    {
      kind, leafLabel, capacitance, cutWire, elmoreDelay := Inv, -1, cfg.invInputCap, cut, 0.0;
      leftWire, rightWire, left, right := lw, -1.0, child, null;
      var total := cfg.invInputCap + cfg.HalfWire(cut);
      totalCapacitance, elmoreCapacitance := total, total;
      polarity := (1 + child.polarity) % 2;
      Repr := {this} + child.Repr;
    }

    /** Writes `elmore_capacitance`. */
    method SetElmore(v: real)
      requires Valid()
      modifies this
      ensures Valid() && Repr == old(Repr) && left == old(left) && right == old(right)
      ensures Model() == WithElmore(old(Model()), v)
    {
      elmoreCapacitance := v;
    }

    /** Writes `elmore_delay`. */
    method SetDelay(v: real)
      requires Valid()
      modifies this
      ensures Valid() && Repr == old(Repr) && left == old(left) && right == old(right)
      ensures Model() == WithDelay(old(Model()), v)
    {
      elmoreDelay := v;
    }

    /**
     * Points the left child at `c` over a wire of length `lw`, with the node's lumped and Elmore
     * capacitance rewritten to `total` and `elmore`; `c` must own the old child.
     */
    method SwapLeft(c: Node, lw: real, total: real, elmore: real)
      requires Valid() && c.Valid() && left != null && left.Repr <= c.Repr && this !in c.Repr
      requires right != null ==> c.Repr !! right.Repr
      modifies this
      ensures Valid() && Repr == old(Repr) + c.Repr && left == c && right == old(right)
      ensures ModelRepr(right) == old(ModelRepr(right))
      ensures c.Model() == old(c.Model())
      ensures Model() == WithLeft(old(Model()), old(c.Model()), lw, total, elmore)
    {
      left, leftWire, totalCapacitance, elmoreCapacitance := c, lw, total, elmore;
      Repr := Repr + c.Repr;
      LeftRelinked(this);
    }

    /** The mirror image of `SwapLeft` on the right child. */
    method SwapRight(c: Node, rw: real, total: real, elmore: real)
      requires Valid() && c.Valid() && right != null && right.Repr <= c.Repr && this !in c.Repr
      requires left != null ==> c.Repr !! left.Repr
      modifies this
      ensures Valid() && Repr == old(Repr) + c.Repr && right == c && left == old(left)
      ensures ModelRepr(left) == old(ModelRepr(left))
      ensures c.Model() == old(c.Model())
      ensures Model() == WithRight(old(Model()), old(c.Model()), rw, total, elmore)
    {
      right, rightWire, totalCapacitance, elmoreCapacitance := c, rw, total, elmore;
      Repr := Repr + c.Repr;
      RightRelinked(this);
    }

    /** Writes `polarity`. */
    method SetPolarity(p: Bit)
      requires Valid()
      modifies this
      ensures Valid() && Repr == old(Repr) && left == old(left) && right == old(right)
      ensures Model() == WithPolarity(old(Model()), p)
    {
      polarity := p;
    }

    /**
     * Collects the children's footprints again after they were rewritten in place; nothing but
     * the footprint changes.
     */
    ghost method Regrow()
      requires left != null ==> left.Valid() && this !in left.Repr
      requires right != null ==> right.Valid() && this !in right.Repr
      requires left != null && right != null ==> left.Repr !! right.Repr
      modifies this
      ensures Valid() && Repr == {this} + old(ModelRepr(left)) + old(ModelRepr(right))
      ensures left == old(left) && right == old(right)
      ensures ModelRepr(left) == old(ModelRepr(left)) && ModelRepr(right) == old(ModelRepr(right))
      ensures ModelOf(left) == old(ModelOf(left)) && ModelOf(right) == old(ModelOf(right))
      ensures Model() == Tree(kind, leafLabel, capacitance, leftWire, rightWire, old(ModelOf(left)),
                              old(ModelOf(right)), totalCapacitance, elmoreCapacitance, elmoreDelay, cutWire, polarity)
    {
      Repr := {this} + ModelRepr(left) + ModelRepr(right);
    }

    /** `total_capacitance += x`, which the builder applies to leaves, junctions and the root. */
    method AddLoad(x: real)
      requires Valid()
      modifies this
      ensures Valid() && Repr == old(Repr) && left == old(left) && right == old(right)
      ensures Model() == RcTree.AddLoad(old(Model()), x)
    {
      totalCapacitance := totalCapacitance + x;
    }
  }

  /** A subtree none of whose nodes changed keeps its validity, its value and its children's values. */
  twostate lemma ChildrenUntouched(n: Node)
    requires old(n.Valid()) && unchanged(old(n.Repr))
    ensures n.Valid() && n.Model() == old(n.Model())
    ensures ModelOf(n.left) == old(n.Model()).left && ModelOf(n.right) == old(n.Model()).right
  {
  }

  /**
   * A node whose own fields are untouched stays valid when both subtrees were updated in place
   * (each still valid on the same footprint), and its value takes the subtrees' new values.
   */
  twostate lemma SubtreesUpdated(n: Node)
    requires old(n.Valid()) && unchanged(n)
    requires n.left != null ==> n.left.Valid() && n.left.Repr == old(n.left.Repr)
    requires n.right != null ==> n.right.Valid() && n.right.Repr == old(n.right.Repr)
    ensures n.Valid()
    ensures n.Model() == WithChildren(old(n.Model()), ModelOf(n.left), ModelOf(n.right))
  {
  }

  /**
   * The frame reasoning of `SwapLeft`, between the heaps before and after it: only `n`'s left
   * pointer, left wire, capacitances and footprint changed, and its new left child `c` owned
   * the old one.
   */
  twostate lemma LeftRelinked(n: Node)
    requires old(n.Valid()) && old(n.left) != null && n.left != null
    requires var c := n.left;
             old(allocated(c)) && old(c.Valid()) && old(n.left.Repr) <= old(c.Repr) && n !in old(c.Repr) &&
             (old(n.right) != null ==> old(c.Repr) !! old(n.right.Repr)) &&
             unchanged(old(n.Repr + c.Repr) - {n}) &&
             n.right == old(n.right) && n.Repr == old(n.Repr) + old(c.Repr)
    requires n.kind == old(n.kind) && n.leafLabel == old(n.leafLabel) && n.capacitance == old(n.capacitance) &&
             n.rightWire == old(n.rightWire) && n.elmoreDelay == old(n.elmoreDelay) &&
             n.cutWire == old(n.cutWire) && n.polarity == old(n.polarity)
    ensures n.Valid()
    ensures var c := n.left;
            c.Valid() && c.Model() == old(c.Model())
    ensures var c := n.left;
            n.Model() == WithLeft(old(n.Model()), old(c.Model()), n.leftWire, n.totalCapacitance, n.elmoreCapacitance)
  {
  }

  /** The mirror image of `LeftRelinked`. */
  twostate lemma RightRelinked(n: Node)
    requires old(n.Valid()) && old(n.right) != null && n.right != null
    requires var c := n.right;
             old(allocated(c)) && old(c.Valid()) && old(n.right.Repr) <= old(c.Repr) && n !in old(c.Repr) &&
             (old(n.left) != null ==> old(c.Repr) !! old(n.left.Repr)) &&
             unchanged(old(n.Repr + c.Repr) - {n}) &&
             n.left == old(n.left) && n.Repr == old(n.Repr) + old(c.Repr)
    requires n.kind == old(n.kind) && n.leafLabel == old(n.leafLabel) && n.capacitance == old(n.capacitance) &&
             n.leftWire == old(n.leftWire) && n.elmoreDelay == old(n.elmoreDelay) &&
             n.cutWire == old(n.cutWire) && n.polarity == old(n.polarity)
    ensures n.Valid()
    ensures var c := n.right;
            c.Valid() && c.Model() == old(c.Model())
    ensures var c := n.right;
            n.Model() == WithRight(old(n.Model()), old(c.Model()), n.rightWire, n.totalCapacitance, n.elmoreCapacitance)
  {
  }

  /**
   * What a node knows after its left subtree was rewritten in place, possibly taking in new
   * nodes, while nothing else it owns changed: its own fields are as they were, and the right
   * subtree is untouched and still disjoint from the left one.
   */
  twostate lemma LeftProcessed(n: Node)
    requires old(n.Valid()) && old(n.left) != null
    requires unchanged(old(n.Repr) - old(n.left.Repr))
    requires var c := old(n.left);
             c.Valid() && old(c.Repr) <= c.Repr && fresh(c.Repr - old(c.Repr))
    ensures n.left == old(n.left) && n.right == old(n.right) && n.Repr == old(n.Repr)
    ensures n !in n.left.Repr
    ensures n.right != null ==>
              n.right.Valid() && n.right.Repr == old(n.right.Repr) && n.right.Model() == old(n.right.Model()) &&
              n.left.Repr !! n.right.Repr
  {
  }

  /** The mirror image of `LeftProcessed`. */
  twostate lemma RightProcessed(n: Node)
    requires old(n.Valid()) && old(n.right) != null
    requires unchanged(old(n.Repr) - old(n.right.Repr))
    requires var c := old(n.right);
             c.Valid() && old(c.Repr) <= c.Repr && fresh(c.Repr - old(c.Repr))
    ensures n.left == old(n.left) && n.right == old(n.right) && n.Repr == old(n.Repr)
    ensures n !in n.right.Repr
    ensures n.left != null ==>
              n.left.Valid() && n.left.Repr == old(n.left.Repr) && n.left.Model() == old(n.left.Model()) &&
              n.left.Repr !! n.right.Repr
  {
  }

  /** `t` with a new right child, right wire, lumped and Elmore capacitance. */
  function WithRight(t: Tree, r: Tree, rw: real, total: real, elmore: real): (u: Tree)
    requires t.Tree?
    ensures u.Tree? && u.right == r && u.rightWire == rw && u.left == t.left
  {
    t.(right := r, rightWire := rw, total := total, elmore := elmore)
  }

  /** `t` with a new left child, left wire, lumped and Elmore capacitance. */
  function WithLeft(t: Tree, l: Tree, lw: real, total: real, elmore: real): (r: Tree)
    requires t.Tree?
    ensures r.Tree? && r.left == l && r.leftWire == lw && r.right == t.right
  {
    t.(left := l, leftWire := lw, total := total, elmore := elmore)
  }

  /** The footprint of a possibly-null pointer. */
  ghost function ModelRepr(n: Node?): set<object>
    reads n
  {
    if n == null then {} else n.Repr
  }

  /** The value of a possibly-null pointer. */
  ghost function ModelOf(n: Node?): Tree
    reads if n != null then {n} + n.Repr else {}
    requires n != null ==> n.Valid()
  {
    if n == null then Null else n.Model()
  }
}
