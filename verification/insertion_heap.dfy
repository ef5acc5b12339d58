/**
 * `insertionPostOrder` and `inverterInsertion` of main.cpp on the heap: the pass rewrites the
 * nodes in place, links freshly allocated inverters into the tree and returns the top of the
 * chain put above each node. Each method is proved against the value functions of `Insertion`
 * with `repatch` off, that is, main.cpp as written.
 */
module InsertionHeap {
  import opened RcTree
  import opened Nodes
  import opened Segmentation
  import opened Insertion

  /** The child pointer on `side`. */
  function ChildNode(node: Node, side: Side): Node?
    reads node
  {
    if side == LeftSide then node.left else node.right
  }

  /**
   * Re-parenting the inverter `inv` on `side` of `node`, in main.cpp's order of statements: the
   * old child's elmore is read, the pointer is swapped, the old half wire and the old child's
   * elmore come off, the wire becomes the inverter's cut wire, and the new half wire and the
   * inverter's elmore go on.
   */
  method Reparent(cfg: Config, node: Node, side: Side, inv: Node)
    requires node.Valid() && inv.Valid() && ChildNode(node, side) != null
    requires node !in inv.Repr && ChildNode(node, side).Repr <= inv.Repr
    requires ChildNode(node, Other(side)) != null ==> inv.Repr !! ChildNode(node, Other(side)).Repr
    modifies node
    ensures node.Valid() && node.Repr == old(node.Repr) + inv.Repr
    ensures ChildNode(node, side) == inv && ChildNode(node, Other(side)) == old(ChildNode(node, Other(side)))
    ensures inv.Model() == old(inv.Model())
    ensures node.Model() == Insertion.Reparent(cfg, side, old(node.Model()), old(inv.Model()))
  {
    if side == LeftSide {
      ReparentLeft(cfg, node, inv);
    } else {
      ReparentRight(cfg, node, inv);
    }
  }

  /** The left-hand re-parenting: the inverter's elmore goes on before the new half wire. */
  method ReparentLeft(cfg: Config, node: Node, inv: Node)
    requires node.Valid() && inv.Valid() && node.left != null
    requires node !in inv.Repr && node.left.Repr <= inv.Repr
    requires node.right != null ==> inv.Repr !! node.right.Repr
    modifies node
    ensures node.Valid() && node.Repr == old(node.Repr) + inv.Repr
    ensures node.left == inv && node.right == old(node.right) && inv.Model() == old(inv.Model())
    ensures ModelRepr(node.right) == old(ModelRepr(node.right))
    ensures node.Model() == Insertion.Reparent(cfg, LeftSide, old(node.Model()), old(inv.Model()))
  {
    var oldChildCap := node.left.elmoreCapacitance;
    var total := node.totalCapacitance - cfg.HalfWire(node.leftWire);
    var elmore := (node.elmoreCapacitance - cfg.HalfWire(node.leftWire)) - oldChildCap;
    var cut := inv.cutWire;
    total := total + cfg.HalfWire(cut);
    elmore := (elmore + inv.elmoreCapacitance) + cfg.HalfWire(cut);
    node.SwapLeft(inv, cut, total, elmore);
  }

  /** The right-hand re-parenting: the new half wire goes on before the inverter's elmore. */
  method ReparentRight(cfg: Config, node: Node, inv: Node)
    requires node.Valid() && inv.Valid() && node.right != null
    requires node !in inv.Repr && node.right.Repr <= inv.Repr
    requires node.left != null ==> inv.Repr !! node.left.Repr
    modifies node
    ensures node.Valid() && node.Repr == old(node.Repr) + inv.Repr
    ensures node.right == inv && node.left == old(node.left) && inv.Model() == old(inv.Model())
    ensures ModelRepr(node.left) == old(ModelRepr(node.left))
    ensures node.Model() == Insertion.Reparent(cfg, RightSide, old(node.Model()), old(inv.Model()))
  {
    var oldChildCap := node.right.elmoreCapacitance;
    var total := node.totalCapacitance - cfg.HalfWire(node.rightWire);
    var elmore := (node.elmoreCapacitance - cfg.HalfWire(node.rightWire)) - oldChildCap;
    var cut := inv.cutWire;
    total := total + cfg.HalfWire(cut);
    elmore := (elmore + cfg.HalfWire(cut)) + inv.elmoreCapacitance;
    node.SwapRight(inv, cut, total, elmore);
  }

  /**
   * The polarity check of a node with two children: a (0, 1) pair gets a zero-cut inverter over
   * the left child, a (1, 0) pair one over the right child, and the node takes the inverter's
   * polarity; any other pair leaves the node with the left child's polarity.
   */
  method ReconcileAt(cfg: Config, node: Node)
    requires node.Valid()
    modifies node
    ensures node.Valid() && old(node.Repr) <= node.Repr && fresh(node.Repr - old(node.Repr))
    ensures node.Model() == Reconcile(cfg, old(node.Model()))
  {
    ghost var t := node.Model();
    if node.left != null && node.right != null {
      if node.left.polarity == 0 && node.right.polarity == 1 {
        FixLeft(cfg, node);
        ReconcileCases(cfg, t);
      } else if node.left.polarity == 1 && node.right.polarity == 0 {
        FixRight(cfg, node);
        ReconcileCases(cfg, t);
      } else {
        node.SetPolarity(node.left.polarity);
      }
    }
  }

  /** The inverter `Reconcile` puts over the child on `side`. */
  function FixInverter(cfg: Config, t: Tree, side: Side): (r: Tree)
    requires t.Tree? && Child(t, side).Tree?
    ensures r.Tree? && r.polarity != Child(t, side).polarity
  {
    InverterTree(cfg, Child(t, side), 0.0, Wire(t, side))
  }

  /** The two inverter cases of `Reconcile`, each one re-parenting followed by the polarity write. */
  lemma ReconcileCases(cfg: Config, t: Tree)
    requires t.Tree? && t.left.Tree? && t.right.Tree?
    ensures t.left.polarity == 0 && t.right.polarity == 1 ==>
              Reconcile(cfg, t) ==
              WithPolarity(Insertion.Reparent(cfg, LeftSide, t, FixInverter(cfg, t, LeftSide)), FixInverter(cfg, t, LeftSide).polarity)
    ensures t.left.polarity == 1 && t.right.polarity == 0 ==>
              Reconcile(cfg, t) ==
              WithPolarity(Insertion.Reparent(cfg, RightSide, t, FixInverter(cfg, t, RightSide)), FixInverter(cfg, t, RightSide).polarity)
  {
  }

  /** `new Node(inv_input_cap, 0, true)` over the left child, re-parented, and the polarity copied. */
  method FixLeft(cfg: Config, node: Node)
    requires node.Valid() && node.left != null && node.right != null
    modifies node
    ensures node.Valid() && old(node.Repr) <= node.Repr && fresh(node.Repr - old(node.Repr))
    ensures var t := old(node.Model());
            node.Model() ==
            WithPolarity(Insertion.Reparent(cfg, LeftSide, t, FixInverter(cfg, t, LeftSide)), FixInverter(cfg, t, LeftSide).polarity)
  {
    ghost var t := node.Model();
    var inv := new Node.Inverter(cfg, node.left, 0.0, node.leftWire);
    ghost var im := inv.Model();
    assert im == FixInverter(cfg, t, LeftSide);
    assert node.Model() == t;
    ReparentLeft(cfg, node, inv);
    assert inv.Model() == im;
    ghost var m1 := node.Model();
    assert m1 == Insertion.Reparent(cfg, LeftSide, t, im);
    var p := inv.polarity;
    assert p == im.polarity;
    node.SetPolarity(p);
  }

  /** `new Node(inv_input_cap, 0, true)` over the right child, re-parented, and the polarity copied. */
  method FixRight(cfg: Config, node: Node)
    requires node.Valid() && node.left != null && node.right != null
    modifies node
    ensures node.Valid() && old(node.Repr) <= node.Repr && fresh(node.Repr - old(node.Repr))
    ensures var t := old(node.Model());
            node.Model() ==
            WithPolarity(Insertion.Reparent(cfg, RightSide, t, FixInverter(cfg, t, RightSide)), FixInverter(cfg, t, RightSide).polarity)
  {
    ghost var t := node.Model();
    var inv := new Node.Inverter(cfg, node.right, 0.0, node.rightWire);
    ghost var im := inv.Model();
    assert im == FixInverter(cfg, t, RightSide);
    assert node.Model() == t;
    ReparentRight(cfg, node, inv);
    assert inv.Model() == im;
    ghost var m1 := node.Model();
    assert m1 == Insertion.Reparent(cfg, RightSide, t, im);
    var p := inv.polarity;
    assert p == im.polarity;
    node.SetPolarity(p);
  }

  /** `child_time_constraint` at a node with two children, 0 at a leaf. */
  function BranchAt(cfg: Config, node: Node): (branch: real)
    reads node, node.Repr
    requires node.Valid() && (node.left != null <==> node.right != null)
    ensures branch == Branch(cfg, node.Model())
  {
    if node.left == null then 0.0
    else
      var t1 := EdgeDelay(cfg, node.leftWire, node.left.elmoreCapacitance);
      var t2 := EdgeDelay(cfg, node.rightWire, node.right.elmoreCapacitance);
      if t1 > t2 then t1 else t2
  }

  /** With the mode as written, adopting is re-parenting when an inverter came back, else nothing. */
  lemma AdoptAsWritten(cfg: Config, side: Side, t: Tree, pc: Tree, top: Tree)
    requires t.Tree? && Child(t, side).Tree? && pc.Tree? && top.Tree?
    ensures Adopt(cfg, false, side, t, pc, top) ==
            if top.kind == Inv then Insertion.Reparent(cfg, side, SetChild(t, side, pc), top) else SetChild(t, side, pc)
  {
  }

  /**
   * The recursive call on the left child: the child is rewritten in place, the node itself and
   * the other side are untouched, and `top` is the chain returned for the left wire.
   */
  method DescendLeft(cfg: Config, sqrt: real -> real, fuel: nat, node: Node) returns (top: Node)
    requires node.Valid() && node.left != null && cfg.StageA() != 0.0
    requires Built(node.left.Model())
    modifies node.Repr
    ensures node.left == old(node.left) && node.right == old(node.right) && node.Repr == old(node.Repr)
    ensures node.left.Valid() && node !in node.left.Repr && old(node.left.Repr) <= node.left.Repr
    ensures fresh(node.left.Repr - old(node.left.Repr))
    ensures node.right != null ==>
              node.right.Valid() && node.right.Repr == old(node.right.Repr) && node.right.Model() == old(node.right.Model()) &&
              node.left.Repr !! node.right.Repr && top.Repr !! node.right.Repr
    ensures unchanged(node)
    ensures node.left.Model() == Process(cfg, sqrt, fuel, false, old(node.left.Model()))
    ensures top.Valid() && fresh(top.Repr - old(node.Repr)) && node !in top.Repr && node.left.Repr <= top.Repr
    ensures top.Model() == Insert(cfg, sqrt, fuel, false, old(node.left.Model()), node.leftWire)
    decreases node.left.Repr, 4
  {
    var child := node.left;
    top := ProcessAt(cfg, sqrt, fuel, child, node.leftWire);
    LeftProcessed(node);
  }

  /**
   * The left child processed on the left wire and the node's footprint regrown around it;
   * `top` is the chain the recursive call returned, not yet linked in.
   */
  method ProcessLeft(cfg: Config, sqrt: real -> real, fuel: nat, node: Node) returns (top: Node)
    requires node.Valid() && node.left != null && cfg.StageA() != 0.0
    requires Built(node.left.Model())
    modifies node.Repr
    ensures node.Valid() && old(node.Repr) <= node.Repr && fresh(node.Repr - old(node.Repr))
    ensures node.left == old(node.left) && node.right == old(node.right)
    ensures ModelRepr(node.right) == old(ModelRepr(node.right))
    ensures node.Model() == SetChild(old(node.Model()), LeftSide, Process(cfg, sqrt, fuel, false, old(node.Model()).left))
    ensures top.Valid() && fresh(top.Repr - old(node.Repr)) && node !in top.Repr && node.left.Repr <= top.Repr
    ensures node.right != null ==> top.Repr !! node.right.Repr
    ensures top.Model() == Insert(cfg, sqrt, fuel, false, old(node.Model()).left, old(node.Model()).leftWire)
    decreases node.left.Repr, 5
  {
    ghost var t := node.Model();
    top := DescendLeft(cfg, sqrt, fuel, node);
    ghost var tm := top.Model();
    node.Regrow();
    assert node.Model() == SetChild(t, LeftSide, Process(cfg, sqrt, fuel, false, t.left));
    assert top.Valid() && top.Model() == tm;
  }

  /**
   * The left half of `insertionPostOrder`: the left child is processed on the left wire, and
   * when an inverter came back it replaces the left pointer.
   */
  method AdoptLeft(cfg: Config, sqrt: real -> real, fuel: nat, node: Node)
    requires node.Valid() && node.left != null && cfg.StageA() != 0.0
    requires Built(node.left.Model())
    modifies node.Repr
    ensures node.Valid() && old(node.Repr) <= node.Repr && fresh(node.Repr - old(node.Repr))
    ensures node.right == old(node.right) && ModelRepr(node.right) == old(ModelRepr(node.right))
    ensures ModelOf(node.right) == old(ModelOf(node.right))
    ensures var t := old(node.Model());
            var pc := Process(cfg, sqrt, fuel, false, t.left);
            node.Model() == Adopt(cfg, false, LeftSide, t, pc, Lift(cfg, sqrt, fuel, pc, t.leftWire))
    decreases node.left.Repr, 6
  {
    ghost var t := node.Model();
    ghost var pc := Process(cfg, sqrt, fuel, false, t.left);
    var top := ProcessLeft(cfg, sqrt, fuel, node);
    ghost var tm := top.Model();
    assert tm == Lift(cfg, sqrt, fuel, pc, t.leftWire);
    AdoptAsWritten(cfg, LeftSide, t, pc, tm);
    if top.kind == Inv {
      ReparentLeft(cfg, node, top);
    }
  }

  /**
   * The recursive call on the right child: the child is rewritten in place, the node itself and
   * the other side are untouched, and `top` is the chain returned for the right wire.
   */
  method DescendRight(cfg: Config, sqrt: real -> real, fuel: nat, node: Node) returns (top: Node)
    requires node.Valid() && node.right != null && cfg.StageA() != 0.0
    requires Built(node.right.Model())
    modifies node.Repr
    ensures node.right == old(node.right) && node.left == old(node.left) && node.Repr == old(node.Repr)
    ensures node.right.Valid() && node !in node.right.Repr && old(node.right.Repr) <= node.right.Repr
    ensures fresh(node.right.Repr - old(node.right.Repr))
    ensures node.left != null ==>
              node.left.Valid() && node.left.Repr == old(node.left.Repr) && node.left.Model() == old(node.left.Model()) &&
              node.right.Repr !! node.left.Repr && top.Repr !! node.left.Repr
    ensures unchanged(node)
    ensures node.right.Model() == Process(cfg, sqrt, fuel, false, old(node.right.Model()))
    ensures top.Valid() && fresh(top.Repr - old(node.Repr)) && node !in top.Repr && node.right.Repr <= top.Repr
    ensures top.Model() == Insert(cfg, sqrt, fuel, false, old(node.right.Model()), node.rightWire)
    decreases node.right.Repr, 4
  {
    var child := node.right;
    top := ProcessAt(cfg, sqrt, fuel, child, node.rightWire);
    RightProcessed(node);
  }

  /**
   * The right child processed on the right wire and the node's footprint regrown around it;
   * `top` is the chain the recursive call returned, not yet linked in.
   */
  method ProcessRight(cfg: Config, sqrt: real -> real, fuel: nat, node: Node) returns (top: Node)
    requires node.Valid() && node.right != null && cfg.StageA() != 0.0
    requires Built(node.right.Model())
    modifies node.Repr
    ensures node.Valid() && old(node.Repr) <= node.Repr && fresh(node.Repr - old(node.Repr))
    ensures node.right == old(node.right) && node.left == old(node.left)
    ensures ModelRepr(node.left) == old(ModelRepr(node.left))
    ensures node.Model() == SetChild(old(node.Model()), RightSide, Process(cfg, sqrt, fuel, false, old(node.Model()).right))
    ensures top.Valid() && fresh(top.Repr - old(node.Repr)) && node !in top.Repr && node.right.Repr <= top.Repr
    ensures node.left != null ==> top.Repr !! node.left.Repr
    ensures top.Model() == Insert(cfg, sqrt, fuel, false, old(node.Model()).right, old(node.Model()).rightWire)
    decreases node.right.Repr, 5
  {
    ghost var t := node.Model();
    top := DescendRight(cfg, sqrt, fuel, node);
    ghost var tm := top.Model();
    node.Regrow();
    assert node.Model() == SetChild(t, RightSide, Process(cfg, sqrt, fuel, false, t.right));
    assert top.Valid() && top.Model() == tm;
  }

  /**
   * The right half of `insertionPostOrder`: the right child is processed on the right wire, and
   * when an inverter came back it replaces the right pointer.
   */
  method AdoptRight(cfg: Config, sqrt: real -> real, fuel: nat, node: Node)
    requires node.Valid() && node.right != null && cfg.StageA() != 0.0
    requires Built(node.right.Model())
    modifies node.Repr
    ensures node.Valid() && old(node.Repr) <= node.Repr && fresh(node.Repr - old(node.Repr))
    ensures node.left == old(node.left) && ModelRepr(node.left) == old(ModelRepr(node.left))
    ensures var t := old(node.Model());
            var pc := Process(cfg, sqrt, fuel, false, t.right);
            node.Model() == Adopt(cfg, false, RightSide, t, pc, Lift(cfg, sqrt, fuel, pc, t.rightWire))
    decreases node.right.Repr, 6
  {
    ghost var t := node.Model();
    ghost var pc := Process(cfg, sqrt, fuel, false, t.right);
    var top := ProcessRight(cfg, sqrt, fuel, node);
    ghost var tm := top.Model();
    assert tm == Lift(cfg, sqrt, fuel, pc, t.rightWire);
    AdoptAsWritten(cfg, RightSide, t, pc, tm);
    if top.kind == Inv {
      ReparentRight(cfg, node, top);
    }
  }

  /** A built node once its left child, if any, has been processed and adopted. */
  function LeftAdopted(cfg: Config, sqrt: real -> real, fuel: nat, t: Tree): (r: Tree)
    requires Built(t) && cfg.StageA() != 0.0
    ensures r.Tree? && r.right == t.right && r.rightWire == t.rightWire
  {
    if t.left.Null? then t
    else
      var pl := Process(cfg, sqrt, fuel, false, t.left);
      Adopt(cfg, false, LeftSide, t, pl, Lift(cfg, sqrt, fuel, pl, t.leftWire))
  }

  /** A built node once both its children, where present, have been processed and adopted. */
  function BothAdopted(cfg: Config, sqrt: real -> real, fuel: nat, t: Tree): (r: Tree)
    requires Built(t) && cfg.StageA() != 0.0
    ensures r.Tree?
  {
    var n1 := LeftAdopted(cfg, sqrt, fuel, t);
    if t.right.Null? then n1
    else
      var pr := Process(cfg, sqrt, fuel, false, t.right);
      Adopt(cfg, false, RightSide, n1, pr, Lift(cfg, sqrt, fuel, pr, t.rightWire))
  }

  /** Processing a node is reconciling it once both sides are adopted. */
  lemma ProcessIsReconciled(cfg: Config, sqrt: real -> real, fuel: nat, t: Tree)
    requires Built(t) && cfg.StageA() != 0.0
    ensures Process(cfg, sqrt, fuel, false, t) == Reconcile(cfg, BothAdopted(cfg, sqrt, fuel, t))
  {
  }

  /** The two recursive halves of `insertionPostOrder`, in the order the code runs them. */
  method AdoptChildren(cfg: Config, sqrt: real -> real, fuel: nat, node: Node)
    requires node.Valid() && Built(node.Model()) && cfg.StageA() != 0.0
    modifies node.Repr
    ensures node.Valid() && old(node.Repr) <= node.Repr && fresh(node.Repr - old(node.Repr))
    ensures node.Model() == BothAdopted(cfg, sqrt, fuel, old(node.Model()))
    decreases node.Repr, 1
  {
    ghost var t := node.Model();
    if node.left != null {
      AdoptLeft(cfg, sqrt, fuel, node);
    }
    assert node.Model() == LeftAdopted(cfg, sqrt, fuel, t);
    if node.right != null {
      AdoptRight(cfg, sqrt, fuel, node);
    }
  }

  /** `insertionPostOrder` at a non-null node up to its own edge: adoption, then reconciliation. */
  method ProcessNode(cfg: Config, sqrt: real -> real, fuel: nat, node: Node)
    requires node.Valid() && Built(node.Model()) && cfg.StageA() != 0.0
    modifies node.Repr
    ensures node.Valid() && old(node.Repr) <= node.Repr && fresh(node.Repr - old(node.Repr))
    ensures node.Model() == Process(cfg, sqrt, fuel, false, old(node.Model()))
    decreases node.Repr, 2
  {
    ghost var t := node.Model();
    AdoptChildren(cfg, sqrt, fuel, node);
    ProcessIsReconciled(cfg, sqrt, fuel, t);
    ReconcileAt(cfg, node);
  }

  /**
   * `insertionPostOrder` at a non-null node: both sides adopted, polarity reconciled, and the
   * node's own edge segmented. The node is rewritten into its processed value, and the result
   * is the top of the chain above it.
   */
  method ProcessAt(cfg: Config, sqrt: real -> real, fuel: nat, node: Node, l: real) returns (top: Node)
    requires node.Valid() && Built(node.Model()) && cfg.StageA() != 0.0
    modifies node.Repr
    ensures node.Valid() && old(node.Repr) <= node.Repr && fresh(node.Repr - old(node.Repr))
    ensures node.Model() == Process(cfg, sqrt, fuel, false, old(node.Model()))
    ensures top.Valid() && node.Repr <= top.Repr && fresh(top.Repr - old(node.Repr))
    ensures top.Model() == Insert(cfg, sqrt, fuel, false, old(node.Model()), l)
    decreases node.Repr, 3
  {
    ProcessNode(cfg, sqrt, fuel, node);
    label Processed:
    var branch := BranchAt(cfg, node);
    top := InverterSegmentation(cfg, sqrt, node, l, branch, fuel);
    ChildrenUntouched@Processed(node);
  }

  /** `insertionPostOrder(node, l)`: null for a null node. */
  method InsertionPostOrder(cfg: Config, sqrt: real -> real, fuel: nat, node: Node?, l: real)
    returns (top: Node?)
    requires node != null ==> node.Valid() && Built(node.Model())
    requires cfg.StageA() != 0.0
    modifies if node != null then node.Repr else {}
    ensures node == null ==> top == null
    ensures node != null ==>
              top != null && top.Valid() && fresh(top.Repr - old(node.Repr)) &&
              top.Model() == Insert(cfg, sqrt, fuel, false, old(node.Model()), l)
  {
    if node == null {
      return null;
    }
    top := ProcessAt(cfg, sqrt, fuel, node, l);
  }

  /** `inverterInsertion(root)`: the pass from the root, whose edge has length 0. */
  method InverterInsertion(cfg: Config, sqrt: real -> real, fuel: nat, root: Node?) returns (top: Node?)
    requires root != null ==> root.Valid() && Built(root.Model())
    requires cfg.StageA() != 0.0
    modifies if root != null then root.Repr else {}
    ensures root == null ==> top == null
    ensures root != null ==>
              top != null && top.Valid() && fresh(top.Repr - old(root.Repr)) &&
              top.Model() == Insertion.InverterInsertion(cfg, sqrt, fuel, old(root.Model()))
  {
    top := InsertionPostOrder(cfg, sqrt, fuel, root, 0.0);
  }
}
