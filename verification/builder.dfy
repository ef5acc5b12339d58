/**
 * `parseTree` (main.cpp:117-177): a postfix stack machine over pre-tokenised lines. Leaves are
 * pushed; a junction pops its right child, then its left child, and lumps half of each wire's
 * capacitance on each end of that wire; the final stack top, loaded with the inverter output
 * capacitance, is the root.
 */
module Builder {
  import opened Wrappers
  import opened RcTree
  import opened Nodes

  /** A tree-file line, tokenised. */
  datatype Line =
    | LeafLine(leafLabel: nat, cap: real)            // `label(cap)`: first character is a digit
    | JunctionLine(leftWire: real, rightWire: real)  // `(lw rw ...)`: first character is '('
    | Other                                          // empty, or any other first character

  /** A junction line met with fewer than two nodes on the stack (`st.top()` on an empty stack). */
  datatype BuildError = StackUnderflow

  predicate NonNull(st: seq<Tree>)
  {
    forall k :: 0 <= k < |st| ==> st[k].Tree?
  }

  /** The junction a `(lw rw)` line makes of its two popped children. */
  function Join(cfg: Config, lw: real, rw: real, left: Tree, right: Tree): (p: Tree)
    requires left.Tree? && right.Tree?
    ensures p.Tree? && p.kind == Bridge && p.leftWire == lw && p.rightWire == rw
    ensures p.left.Tree? && p.right.Tree?
    ensures p.left.total == left.total + cfg.HalfWire(lw)
    ensures p.right.total == right.total + cfg.HalfWire(rw)
    ensures p.total == p.left.total - left.total + p.right.total - right.total
  {
    var lc := cfg.HalfWire(lw);
    var rc := cfg.HalfWire(rw);
    Tree(Bridge, -1, 0.0, lw, rw, AddLoad(left, lc), AddLoad(right, rc), 0.0 + (lc + rc), 0.0, 0.0, 0.0, 0)
  }

  /** One line of the loop body. */
  function Step(cfg: Config, st: seq<Tree>, line: Line): (r: Result<seq<Tree>, BuildError>)
    requires NonNull(st)
    ensures r.Failure? <==> line.JunctionLine? && |st| < 2
    ensures r.Success? ==> NonNull(r.value)
    ensures line.Other? ==> r == Success(st)
    ensures line.LeafLine? ==> r.Success? && |r.value| == |st| + 1 && r.value[..|st|] == st &&
                               r.value[|st|].total == line.cap
    ensures line.JunctionLine? && r.Success? ==>
              |r.value| == |st| - 1 && r.value[..|st| - 2] == st[..|st| - 2] &&
              r.value[|st| - 2].left == AddLoad(st[|st| - 2], cfg.HalfWire(line.leftWire)) &&
              r.value[|st| - 2].right == AddLoad(st[|st| - 1], cfg.HalfWire(line.rightWire))
  {
    match line
    case Other => Success(st)
    case LeafLine(lbl, cap) => Success(st + [AddLoad(LeafTree(lbl, cap), cap)])
    case JunctionLine(lw, rw) =>
      if |st| < 2 then Failure(StackUnderflow)
      else Success(st[..|st| - 2] + [Join(cfg, lw, rw, st[|st| - 2], st[|st| - 1])])
  }

  /** The loop over the remaining lines. */
  function Run(cfg: Config, st: seq<Tree>, lines: seq<Line>): (r: Result<seq<Tree>, BuildError>)
    requires NonNull(st)
    ensures r.Success? ==> NonNull(r.value)
    decreases |lines|
  {
    if lines == [] then Success(st)
    else
      match Step(cfg, st, lines[0])
      case Failure(e) => Failure(e)
      case Success(st') => Run(cfg, st', lines[1..])
  }

  /** The whole of `parseTree`: null for an empty stack, else the top plus the driver's load. */
  function Build(cfg: Config, lines: seq<Line>): Result<Tree, BuildError>
  {
    match Run(cfg, [], lines)
    case Failure(e) => Failure(e)
    case Success(st) =>
      if st == [] then Success(Null) else Success(AddLoad(st[|st| - 1], cfg.invOutputCap))
  }

  // ---------------------------------------------------------------------------------------
  // The π-model reference: what a tree's lumped capacitances should be.

  /**
   * The tree a shape stands for when it hangs from a wire of length `up`: every node carries its
   * own capacitance plus half of the capacitance of each wire touching it.
   */
  function PiModel(cfg: Config, s: Shape, up: real): (t: Tree)
    ensures WellShaped(t) && NoInv(t)
    ensures Built(t) && ShapeOf(t) == s
  {
    match s
    case SLeaf(lbl, cap) =>
      Tree(Leaf, lbl, cap, 0.0, 0.0, Null, Null, cap + cfg.HalfWire(up), 0.0, 0.0, 0.0, 0)
    case SJoin(lw, rw, ls, rs) =>
      Tree(Bridge, -1, 0.0, lw, rw, PiModel(cfg, ls, lw), PiModel(cfg, rs, rw),
           cfg.HalfWire(lw) + cfg.HalfWire(rw) + cfg.HalfWire(up), 0.0, 0.0, 0.0, 0)
  }

  /** The root of a net: the π-model with no wire above it, loaded by the driving inverter. */
  function Fresh(cfg: Config, s: Shape): Tree
  {
    AddLoad(PiModel(cfg, s, 0.0), cfg.invOutputCap)
  }

  /** Every label can be written as a digit-first leaf line. */
  predicate DigitLabels(s: Shape)
  {
    match s
    case SLeaf(lbl, _) => lbl >= 0
    case SJoin(_, _, l, r) => DigitLabels(l) && DigitLabels(r)
  }

  /** The postfix lines describing a shape. */
  function ShapeLines(s: Shape): seq<Line>
    requires DigitLabels(s)
  {
    match s
    case SLeaf(lbl, cap) => [LeafLine(lbl, cap)]
    case SJoin(lw, rw, l, r) => ShapeLines(l) + ShapeLines(r) + [JunctionLine(lw, rw)]
  }

  function LeafCaps(s: Shape): real
  {
    match s
    case SLeaf(_, cap) => cap
    case SJoin(_, _, l, r) => LeafCaps(l) + LeafCaps(r)
  }

  function WireLength(s: Shape): real
  {
    match s
    case SLeaf(_, _) => 0.0
    case SJoin(lw, rw, l, r) => lw + rw + WireLength(l) + WireLength(r)
  }

  /** Hanging a stacked subtree from a wire lumps that wire's half capacitance on its root. */
  lemma PiModelLoad(cfg: Config, s: Shape, w: real)
    ensures AddLoad(PiModel(cfg, s, 0.0), cfg.HalfWire(w)) == PiModel(cfg, s, w)
  {
  }

  /** Running the lines of a shape pushes exactly that shape's π-model. */
  lemma {:induction false} RunShapeLines(cfg: Config, st: seq<Tree>, s: Shape, rest: seq<Line>)
    requires NonNull(st) && DigitLabels(s)
    ensures NonNull(st + [PiModel(cfg, s, 0.0)])
    decreases s
    ensures Run(cfg, st, ShapeLines(s) + rest) == Run(cfg, st + [PiModel(cfg, s, 0.0)], rest)
  {
    match s
    case SLeaf(lbl, cap) =>
      assert ShapeLines(s) + rest == [LeafLine(lbl, cap)] + rest;
      assert AddLoad(LeafTree(lbl, cap), cap) == PiModel(cfg, s, 0.0);
    case SJoin(lw, rw, l, r) =>
      var pl, pr := PiModel(cfg, l, 0.0), PiModel(cfg, r, 0.0);
      calc {
        Run(cfg, st, ShapeLines(s) + rest);
        { assert ShapeLines(s) + rest == ShapeLines(l) + (ShapeLines(r) + ([JunctionLine(lw, rw)] + rest)); }
        Run(cfg, st, ShapeLines(l) + (ShapeLines(r) + ([JunctionLine(lw, rw)] + rest)));
        { RunShapeLines(cfg, st, l, ShapeLines(r) + ([JunctionLine(lw, rw)] + rest)); }
        Run(cfg, st + [pl], ShapeLines(r) + ([JunctionLine(lw, rw)] + rest));
        { RunShapeLines(cfg, st + [pl], r, [JunctionLine(lw, rw)] + rest); }
        Run(cfg, st + [pl] + [pr], [JunctionLine(lw, rw)] + rest);
        { JoinPiModel(cfg, lw, rw, l, r);
          assert (st + [pl] + [pr])[..|st|] == st; }
        Run(cfg, st + [PiModel(cfg, s, 0.0)], rest);
      }
  }

  /** A junction line over two stacked π-models yields the π-model of the joined shape. */
  lemma JoinPiModel(cfg: Config, lw: real, rw: real, l: Shape, r: Shape)
    ensures Join(cfg, lw, rw, PiModel(cfg, l, 0.0), PiModel(cfg, r, 0.0)) ==
            PiModel(cfg, SJoin(lw, rw, l, r), 0.0)
  {
    PiModelLoad(cfg, l, lw);
    PiModelLoad(cfg, r, rw);
  }

  /** The post-order lines of a shape rebuild the shape with its π-model capacitances. */
  lemma BuildShapeLines(cfg: Config, s: Shape)
    requires DigitLabels(s)
    ensures Build(cfg, ShapeLines(s)) == Success(Fresh(cfg, s))
  {
    RunShapeLines(cfg, [], s, []);
    assert ShapeLines(s) + [] == ShapeLines(s);
  }

  /**
   * A built tree is the π-model of its own shape: every node's total is as the π-split demands,
   * and every label is one a digit-first line can carry.
   */
  predicate PiForm(cfg: Config, t: Tree)
  {
    Built(t) && DigitLabels(ShapeOf(t)) && t == PiModel(cfg, ShapeOf(t), 0.0)
  }

  lemma StepKeepsPiForm(cfg: Config, st: seq<Tree>, line: Line)
    requires NonNull(st) && forall k :: 0 <= k < |st| ==> PiForm(cfg, st[k])
    ensures Step(cfg, st, line).Success? ==>
              forall k :: 0 <= k < |Step(cfg, st, line).value| ==> PiForm(cfg, Step(cfg, st, line).value[k])
  {
    match line
    case Other =>
    case LeafLine(lbl, cap) =>
      assert AddLoad(LeafTree(lbl, cap), cap) == PiModel(cfg, SLeaf(lbl, cap), 0.0);
    case JunctionLine(lw, rw) =>
      if |st| >= 2 {
        JoinPiModel(cfg, lw, rw, ShapeOf(st[|st| - 2]), ShapeOf(st[|st| - 1]));
      }
  }

  lemma {:induction false} RunKeepsPiForm(cfg: Config, st: seq<Tree>, lines: seq<Line>)
    requires NonNull(st) && forall k :: 0 <= k < |st| ==> PiForm(cfg, st[k])
    ensures Run(cfg, st, lines).Success? ==>
              forall k :: 0 <= k < |Run(cfg, st, lines).value| ==> PiForm(cfg, Run(cfg, st, lines).value[k])
    decreases |lines|
  {
    if lines != [] {
      StepKeepsPiForm(cfg, st, lines[0]);
      match Step(cfg, st, lines[0])
      case Failure(_) =>
      case Success(st') => RunKeepsPiForm(cfg, st', lines[1..]);
    }
  }

  /** Whatever lines it is given, a non-null root the builder returns is `Fresh` of its shape. */
  lemma BuildIsFresh(cfg: Config, lines: seq<Line>)
    ensures Build(cfg, lines).Success? && Build(cfg, lines).value.Tree? ==>
              Built(Build(cfg, lines).value) && DigitLabels(ShapeOf(Build(cfg, lines).value)) &&
              Build(cfg, lines).value == Fresh(cfg, ShapeOf(Build(cfg, lines).value))
  {
    RunKeepsPiForm(cfg, [], lines);
  }

  lemma {:induction false} PiModelConserves(cfg: Config, s: Shape, up: real)
    ensures SumTotal(PiModel(cfg, s, up)) ==
            LeafCaps(s) + cfg.unitWireCap * WireLength(s) + cfg.HalfWire(up)
  {
    PiModelSums(cfg, s, up);
    WireCapIsLinear(cfg, s);
  }

  /** Σ unit_wire_cap · length, wire by wire. */
  function WireCap(cfg: Config, s: Shape): real
  {
    match s
    case SLeaf(_, _) => 0.0
    case SJoin(lw, rw, l, r) =>
      (cfg.HalfWire(lw) + cfg.HalfWire(lw)) + (cfg.HalfWire(rw) + cfg.HalfWire(rw)) +
      WireCap(cfg, l) + WireCap(cfg, r)
  }

  lemma {:induction false} PiModelSums(cfg: Config, s: Shape, up: real)
    ensures SumTotal(PiModel(cfg, s, up)) == LeafCaps(s) + WireCap(cfg, s) + cfg.HalfWire(up)
  {
    match s
    case SLeaf(_, _) =>
    case SJoin(lw, rw, l, r) =>
      PiModelSums(cfg, l, lw);
      PiModelSums(cfg, r, rw);
  }

  lemma {:induction false} WireCapIsLinear(cfg: Config, s: Shape)
    ensures WireCap(cfg, s) == cfg.unitWireCap * WireLength(s)
  {
    match s
    case SLeaf(_, _) =>
    case SJoin(lw, rw, l, r) =>
      WireCapIsLinear(cfg, l);
      WireCapIsLinear(cfg, r);
      WireCapSplits(cfg, lw, rw, WireLength(l), WireLength(r));
  }

  /** Two halves make one wire, and wire capacitance is additive in length. */
  lemma WireCapSplits(cfg: Config, lw: real, rw: real, wl: real, wr: real)
    ensures cfg.HalfWire(lw) + cfg.HalfWire(lw) == cfg.unitWireCap * lw
    ensures cfg.HalfWire(rw) + cfg.HalfWire(rw) == cfg.unitWireCap * rw
    ensures cfg.unitWireCap * (lw + rw + wl + wr) ==
            cfg.unitWireCap * lw + cfg.unitWireCap * rw + cfg.unitWireCap * wl + cfg.unitWireCap * wr
  {
  }

  /**
   * Capacitance conservation: Σ total_capacitance = Σ leaf caps + unit_wire_cap · Σ wire lengths
   * + inv_output_cap, for every non-null tree the builder returns.
   */
  lemma BuildConservesCapacitance(cfg: Config, lines: seq<Line>)
    requires Build(cfg, lines).Success? && Build(cfg, lines).value.Tree?
    ensures var t := Build(cfg, lines).value;
            Built(t) &&
            SumTotal(t) == LeafCaps(ShapeOf(t)) + cfg.unitWireCap * WireLength(ShapeOf(t)) + cfg.invOutputCap
  {
    BuildIsFresh(cfg, lines);
    var t := Build(cfg, lines).value;
    PiModelConserves(cfg, ShapeOf(t), 0.0);
  }

  /** The lines with every skipped line removed. */
  function DropOther(lines: seq<Line>): (r: seq<Line>)
    ensures forall k :: 0 <= k < |r| ==> !r[k].Other?
  {
    if lines == [] then []
    else (if lines[0].Other? then [] else [lines[0]]) + DropOther(lines[1..])
  }

  lemma {:induction false} RunDropOther(cfg: Config, st: seq<Tree>, lines: seq<Line>)
    requires NonNull(st)
    ensures Run(cfg, st, lines) == Run(cfg, st, DropOther(lines))
    decreases |lines|
  {
    if lines != [] {
      var d := DropOther(lines[1..]);
      if lines[0].Other? {
        assert DropOther(lines) == d;
        RunDropOther(cfg, st, lines[1..]);
      } else {
        assert DropOther(lines) == [lines[0]] + d;
        assert ([lines[0]] + d)[1..] == d;
        match Step(cfg, st, lines[0])
        case Failure(_) =>
        case Success(st') => RunDropOther(cfg, st', lines[1..]);
      }
    }
  }

  /** Empty lines and lines starting with neither a digit nor '(' change nothing. */
  lemma SkippedLines(cfg: Config, lines: seq<Line>)
    ensures Build(cfg, lines) == Build(cfg, DropOther(lines))
  {
    RunDropOther(cfg, [], lines);
  }

  lemma {:induction false} RunEmpty(cfg: Config, st: seq<Tree>, lines: seq<Line>)
    requires NonNull(st)
    ensures Run(cfg, st, lines) == Success([]) <==>
            st == [] && forall k :: 0 <= k < |lines| ==> lines[k].Other?
    decreases |lines|
  {
    if lines != [] {
      match Step(cfg, st, lines[0])
      case Failure(_) =>
      case Success(st') =>
        RunEmpty(cfg, st', lines[1..]);
        if lines[0].Other? {
          assert forall k :: 1 <= k < |lines| ==> lines[k] == lines[1..][k - 1];
        }
    }
  }

  /** `parseTree` returns null exactly when no line pushed anything: every line was skipped. */
  lemma BuildNull(cfg: Config, lines: seq<Line>)
    ensures Build(cfg, lines) == Success(Null) <==> forall k :: 0 <= k < |lines| ==> lines[k].Other?
  {
    RunEmpty(cfg, [], lines);
  }

  // ---------------------------------------------------------------------------------------
  // The heap version.

  /** The `std::stack<Node*>`: valid, pairwise-disjoint trees whose values are `models`. */
  ghost predicate StackOk(st: seq<Node>, models: seq<Tree>)
    reads st, set n, o | n in st && o in n.Repr :: o
  {
    |st| == |models| && NonNull(models) &&
    (forall k :: 0 <= k < |st| ==> st[k].Valid() && st[k].Model() == models[k]) &&
    (forall j, k :: 0 <= j < k < |st| ==> st[j].Repr !! st[k].Repr)
  }

  /** One iteration of the loop over `lines`, seen from index `i`. */
  lemma RunAt(cfg: Config, st: seq<Tree>, lines: seq<Line>, i: nat)
    requires NonNull(st) && i < |lines|
    ensures Step(cfg, st, lines[i]).Failure? ==> Run(cfg, st, lines[i..]).Failure?
    ensures Step(cfg, st, lines[i]).Success? ==>
              Run(cfg, st, lines[i..]) == Run(cfg, Step(cfg, st, lines[i]).value, lines[i + 1..])
  {
    assert lines[i..][0] == lines[i] && lines[i..][1..] == lines[i + 1..];
  }

  /** The loop after its last line. */
  lemma RunDone(cfg: Config, st: seq<Tree>, lines: seq<Line>, i: nat)
    requires NonNull(st) && i == |lines|
    ensures Run(cfg, st, lines[i..]) == Success(st)
  {
    assert lines[i..] == [];
  }

  /** Pushing a valid tree disjoint from every stacked one keeps the stack well formed. */
  lemma StackPush(st: seq<Node>, models: seq<Tree>, n: Node)
    requires StackOk(st, models) && n.Valid()
    requires forall k :: 0 <= k < |st| ==> st[k].Repr !! n.Repr
    ensures StackOk(st + [n], models + [n.Model()])
  {
    var st', models' := st + [n], models + [n.Model()];
    assert forall k :: 0 <= k < |st| ==> st'[k] == st[k] && models'[k] == models[k];
  }

  /** Popping two trees leaves a well-formed stack disjoint from both of them. */
  lemma StackPop(st: seq<Node>, models: seq<Tree>)
    requires StackOk(st, models) && |st| >= 2
    ensures StackOk(st[..|st| - 2], models[..|models| - 2])
    ensures st[|st| - 2].Valid() && st[|st| - 1].Valid() && st[|st| - 2].Repr !! st[|st| - 1].Repr
    ensures st[|st| - 2].Model() == models[|st| - 2] && st[|st| - 1].Model() == models[|st| - 1]
    ensures forall k :: 0 <= k < |st| - 2 ==>
      st[k].Repr !! st[|st| - 2].Repr && st[k].Repr !! st[|st| - 1].Repr
    ensures forall k :: 0 <= k < |st| - 2 ==> st[k] != st[|st| - 2] && st[k] != st[|st| - 1]
  {
    var rest, restModels := st[..|st| - 2], models[..|models| - 2];
    assert forall k :: 0 <= k < |rest| ==> rest[k] == st[k] && restModels[k] == models[k];
  }

  /** Pushing a node whose footprint is within `held'` keeps the stack within `held'`. */
  lemma HeldPush(st: seq<Node>, held: set<object>, held': set<object>, n: Node)
    requires held <= held' && n.Repr <= held'
    requires forall k :: 0 <= k < |st| ==> st[k].Repr <= held
    ensures forall k :: 0 <= k < |st| + 1 ==> (st + [n])[k].Repr <= held'
  {
  }

  /** A leaf line: `new Node(lbl, cap)`, `total_capacitance += cap`, push. */
  method PushLeaf(cfg: Config, st: seq<Node>, ghost models: seq<Tree>, ghost held: set<object>,
                  lbl: nat, cap: real)
    returns (st': seq<Node>, ghost models': seq<Tree>, ghost held': set<object>)
    requires StackOk(st, models) && forall k :: 0 <= k < |st| ==> st[k].Repr <= held
    ensures StackOk(st', models') && forall k :: 0 <= k < |st'| ==> st'[k].Repr <= held'
    ensures Step(cfg, models, LeafLine(lbl, cap)) == Success(models')
    ensures held <= held' && fresh(held' - held)
  {
    var leaf := new Node.LeafNode(lbl, cap);
    leaf.AddLoad(cap);
    StackPush(st, models, leaf);
    st' := st + [leaf];
    models' := models + [leaf.Model()];
    held' := held + leaf.Repr;
    assert forall k :: 0 <= k < |st| ==> st'[k] == st[k];
  }

  /**
   * The body of a junction line once both children are popped: lump each wire half into its
   * child, `new Node(lw, rw, left, right)`, lump both halves into the junction.
   */
  method JoinNodes(cfg: Config, left: Node, right: Node, lw: real, rw: real) returns (parent: Node)
    requires left.Valid() && right.Valid() && left.Repr !! right.Repr
    modifies left, right
    ensures parent.Valid() && parent.Repr == {parent} + old(left.Repr) + old(right.Repr)
    ensures fresh(parent)
    ensures parent.Model() == Join(cfg, lw, rw, old(left.Model()), old(right.Model()))
  {
    var lc := cfg.HalfWire(lw);
    var rc := cfg.HalfWire(rw);
    LoadChildren(left, right, lc, rc);
    parent := new Node.BridgeNode(lw, rw, left, right);
    parent.AddLoad(lc + rc);
  }

  /** Lump each wire half into its child. */
  method LoadChildren(left: Node, right: Node, lc: real, rc: real)
    requires left.Valid() && right.Valid() && left.Repr !! right.Repr
    modifies left, right
    ensures left.Valid() && left.Repr == old(left.Repr) && left.Model() == AddLoad(old(left.Model()), lc)
    ensures right.Valid() && right.Repr == old(right.Repr) && right.Model() == AddLoad(old(right.Model()), rc)
  {
    left.AddLoad(lc);
    ChildrenUntouched(right);
    label LeftLoaded:
    right.AddLoad(rc);
    ChildrenUntouched@LeftLoaded(left);
  }

  /** `JoinNodes` beneath a stack it does not touch: the stacked trees keep their values. */
  method JoinBeneath(cfg: Config, rest: seq<Node>, ghost restModels: seq<Tree>,
                     left: Node, right: Node, lw: real, rw: real) returns (parent: Node)
    requires StackOk(rest, restModels)
    requires left.Valid() && right.Valid() && left.Repr !! right.Repr
    requires forall k :: 0 <= k < |rest| ==> rest[k].Repr !! left.Repr && rest[k].Repr !! right.Repr
    modifies left, right
    ensures StackOk(rest, restModels)
    ensures forall k :: 0 <= k < |rest| ==> rest[k].Repr == old(rest[k].Repr)
    ensures parent.Valid() && parent.Repr == {parent} + old(left.Repr) + old(right.Repr)
    ensures fresh(parent)
    ensures parent.Model() == Join(cfg, lw, rw, old(left.Model()), old(right.Model()))
  {
    assert forall k :: 0 <= k < |rest| ==> rest[k] != left && rest[k] != right;
    parent := JoinNodes(cfg, left, right, lw, rw);
  }

  /** A junction line on a stack of at least two: pop the right child, then the left, push the join. */
  method PopJunction(cfg: Config, st: seq<Node>, ghost models: seq<Tree>, ghost held: set<object>,
                     lw: real, rw: real)
    returns (st': seq<Node>, ghost models': seq<Tree>, ghost held': set<object>)
    requires StackOk(st, models) && |st| >= 2 && forall k :: 0 <= k < |st| ==> st[k].Repr <= held
    modifies st[|st| - 2], st[|st| - 1]
    ensures StackOk(st', models') && forall k :: 0 <= k < |st'| ==> st'[k].Repr <= held'
    ensures Step(cfg, models, JunctionLine(lw, rw)) == Success(models')
    ensures held <= held' && fresh(held' - held)
  {
    var right := st[|st| - 1];
    var left := st[|st| - 2];
    var rest := st[..|st| - 2];
    ghost var restModels := models[..|models| - 2];
    ghost var joined := Join(cfg, lw, rw, models[|st| - 2], models[|st| - 1]);
    models' := restModels + [joined];
    assert Step(cfg, models, JunctionLine(lw, rw)) == Success(models');
    StackPop(st, models);
    var parent := JoinBeneath(cfg, rest, restModels, left, right, lw, rw);
    assert parent.Model() == joined;
    held' := held + {parent};
    StackPush(rest, restModels, parent);
    HeldPush(rest, held, held', parent);
    st' := rest + [parent];
  }

  /** One iteration of the `getline` loop; `underflow` when a junction line finds < 2 nodes. */
  method ParseLine(cfg: Config, st: seq<Node>, ghost models: seq<Tree>, ghost held: set<object>, line: Line)
    returns (underflow: bool, st': seq<Node>, ghost models': seq<Tree>, ghost held': set<object>)
    requires StackOk(st, models) && forall k :: 0 <= k < |st| ==> st[k].Repr <= held
    modifies if line.JunctionLine? && |st| >= 2 then {st[|st| - 2], st[|st| - 1]} else {}
    ensures underflow <==> Step(cfg, models, line).Failure?
    ensures !underflow ==> Step(cfg, models, line) == Success(models')
    ensures !underflow ==> StackOk(st', models') && forall k :: 0 <= k < |st'| ==> st'[k].Repr <= held'
    ensures !underflow ==> held <= held' && fresh(held' - held)
  {
    underflow, st', models', held' := false, st, models, held;
    if line.LeafLine? {
      st', models', held' := PushLeaf(cfg, st, models, held, line.leafLabel, line.cap);
    } else if line.JunctionLine? {
      if |st| < 2 {
        underflow := true;
        return;
      }
      st', models', held' := PopJunction(cfg, st, models, held, line.leftWire, line.rightWire);
    }
  }

  /**
   * `parseTree` on tokenised lines. `underflow` reports a junction line met with fewer than two
   * stacked nodes, where the source reads an empty `std::stack`.
   */
  method ParseTree(cfg: Config, lines: seq<Line>) returns (underflow: bool, root: Node?)
    ensures underflow <==> Build(cfg, lines).Failure?
    ensures !underflow ==> (root == null || (root.Valid() && fresh(root.Repr))) &&
                           ModelOf(root) == Build(cfg, lines).value
  {
    var st: seq<Node> := [];
    ghost var models: seq<Tree> := [];
    ghost var held: set<object> := {};
    var i := 0;
    while i < |lines|
      invariant 0 <= i <= |lines|
      invariant StackOk(st, models)
      invariant fresh(held) && forall k :: 0 <= k < |st| ==> st[k].Repr <= held
      invariant Run(cfg, models, lines[i..]) == Run(cfg, [], lines)
    {
      RunAt(cfg, models, lines, i);
      var stop;
      stop, st, models, held := ParseLine(cfg, st, models, held, lines[i]);
      if stop {
        return true, null;
      }
      i := i + 1;
    }
    RunDone(cfg, models, lines, i);
    if st == [] {
      return false, null;
    }
    root := st[|st| - 1];
    root.AddLoad(cfg.invOutputCap);
    return false, root;
  }
}
