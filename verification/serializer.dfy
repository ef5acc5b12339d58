/**
 * The tree writers of main.cpp: `preOrderTraversal` (lines 179-203), the text dump of
 * `writePre`, and `postOrderTraversalOutput3`/`write3rdOutputPost` (lines 524-604),
 * which write every node as a text line and as a binary record in post-order and then one or
 * two sentinel inverter records. Text lines are kept as tokens; a `double` written with
 * `fwrite` is its eight bytes `f64(x)`, a parameter, since the IEEE-754 encoding is not modelled.
 */
module Serializer {
  import opened Wrappers
  import opened RcTree
  import opened Nodes
  import opened Bytes
  import opened BinaryRead
  import Builder

  /** A line of a tree text file, tokenised. */
  datatype TextLine =
    | LeafText(leafLabel: int, cap: real)                   // `label(cap)`
    | PairText(leftWire: real, rightWire: real)             // `(lw rw)`
    | FlagText(leftWire: real, rightWire: real, flag: int)  // `(lw rw flag)`

  /** Number of nodes in a subtree. */
  function NodeCount(t: Tree): nat
  {
    if t.Null? then 0 else 1 + NodeCount(t.left) + NodeCount(t.right)
  }

  /** The leaf labels a list of text lines carries, in order. */
  function TextLabels(lines: seq<TextLine>): seq<int>
  {
    if lines == [] then []
    else (if lines[0].LeafText? then [lines[0].leafLabel] else []) + TextLabels(lines[1..])
  }

  lemma {:induction false} TextLabelsAppend(a: seq<TextLine>, b: seq<TextLine>)
    ensures TextLabels(a + b) == TextLabels(a) + TextLabels(b)
    decreases |a|
  {
    if a == [] {
      assert a + b == b;
    } else {
      var h := if a[0].LeafText? then [a[0].leafLabel] else [];
      assert (a + b)[0] == a[0] && (a + b)[1..] == a[1..] + b;
      TextLabelsAppend(a[1..], b);
      AppendAssoc(h, TextLabels(a[1..]), TextLabels(b));
    }
  }

  // ---------------------------------------------------------------------------------------
  // The pre-order text dump.

  /** The line `preOrderTraversal` writes for a node itself: none for an inverter. */
  function PreLineOf(t: Tree): (r: seq<TextLine>)
    requires t.Tree?
    ensures |r| <= 1
  {
    match t.kind
    case Leaf => [LeafText(t.leafLabel, t.capacitance)]
    case Bridge => [PairText(t.leftWire, t.rightWire)]
    case Inv => []
  }

  /** `preOrderTraversal`: the node's own line, then the left and the right subtree. */
  function PreOrderLines(t: Tree): seq<TextLine>
  {
    if t.Null? then [] else PreLineOf(t) + PreOrderLines(t.left) + PreOrderLines(t.right)
  }

  /** The leaf lines of the pre-order dump list exactly the leaf labels, in pre-order. */
  lemma {:induction false} PreOrderLabels(t: Tree)
    ensures TextLabels(PreOrderLines(t)) == LeafLabels(t)
  {
    if t.Tree? {
      PreOrderLabels(t.left);
      PreOrderLabels(t.right);
      TextLabelsAppend(PreLineOf(t), PreOrderLines(t.left));
      TextLabelsAppend(PreLineOf(t) + PreOrderLines(t.left), PreOrderLines(t.right));
      assert TextLabels(PreLineOf(t)) == if t.kind == Leaf then [t.leafLabel] else [];
    }
  }

  /** Appending in three steps. */
  lemma AppendAssoc<T>(a: seq<T>, b: seq<T>, c: seq<T>)
    ensures a + b + c == a + (b + c)
  {
  }

  /** `preOrderTraversal(node, fout)`: the lines appended to the stream. */
  method PreOrderTraversal(node: Node?, fout: seq<TextLine>) returns (text: seq<TextLine>)
    requires node != null ==> node.Valid()
    ensures text == fout + PreOrderLines(ModelOf(node))
    decreases ModelRepr(node)
  {
    if node == null {
      return fout;
    }
    ghost var t := node.Model();
    ghost var pl, pr := PreOrderLines(t.left), PreOrderLines(t.right);
    var own := PreWriteNode(node);
    ChildrenUntouched(node);
    text := PreOrderTraversal(node.left, fout + own);
    ChildrenUntouched(node);
    text := PreOrderTraversal(node.right, text);
    ChildrenUntouched(node);
    AppendAssoc(fout, own + pl, pr);
    AppendAssoc(fout, own, pl);
  }

  /** The body of `preOrderTraversal` for the node itself: a leaf or junction line, or nothing. */
  function PreWriteNode(node: Node): (own: seq<TextLine>)
    reads node, node.Repr
    requires node.Valid()
    ensures own == PreLineOf(node.Model())
  {
    match node.kind
    case Leaf => [LeafText(node.leafLabel, node.capacitance)]
    case Bridge => [PairText(node.leftWire, node.rightWire)]
    case Inv => []
  }

  // ---------------------------------------------------------------------------------------
  // The post-order text and binary dump.

  /** The text line `postOrderTraversalOutput3` writes for one node (the inverter's own right wire). */
  function LineOf(t: Tree): TextLine
    requires t.Tree?
  {
    match t.kind
    case Leaf => LeafText(t.leafLabel, t.capacitance)
    case Bridge => FlagText(t.leftWire, t.rightWire, 0)
    case Inv => FlagText(t.leftWire, t.rightWire, 1)
  }

  /** The record `postOrderTraversalOutput3` writes for one node (an inverter's right wire as -1). */
  function RecordOf(f64: real -> Word64, t: Tree): (r: Record)
    requires t.Tree?
    ensures LabelsOk(t) ==> WellTagged(r)
  {
    match t.kind
    case Leaf => LeafRecord(t.leafLabel, f64(t.capacitance))
    case Bridge => InternalRecord(f64(t.leftWire), f64(t.rightWire), 0)
    case Inv => InternalRecord(f64(t.leftWire), f64(-1.0), 1)
  }

  /** The text lines of a subtree in post-order: one per node. */
  function PostOrderLines(t: Tree): (r: seq<TextLine>)
    ensures |r| == NodeCount(t)
  {
    if t.Null? then [] else PostOrderLines(t.left) + PostOrderLines(t.right) + [LineOf(t)]
  }

  /** The records of a subtree in post-order: one per node. */
  function PostOrderRecords(f64: real -> Word64, t: Tree): (r: seq<Record>)
    requires LabelsOk(t)
    ensures |r| == NodeCount(t) && AllWellTagged(r)
  {
    if t.Null? then []
    else
      var r := PostOrderRecords(f64, t.left) + PostOrderRecords(f64, t.right) + [RecordOf(f64, t)];
      assert forall k :: 0 <= k < |r| - 1 ==>
        r[k] == (PostOrderRecords(f64, t.left) + PostOrderRecords(f64, t.right))[k];
      r
  }

  /** The bytes of a subtree in post-order: each node's record, as `RecordBytes` frames it. */
  function PostOrderBytes(f64: real -> Word64, t: Tree): seq<Byte>
    requires LabelsOk(t)
  {
    if t.Null? then [] else PostOrderBytes(f64, t.left) + PostOrderBytes(f64, t.right) + RecordBytes(RecordOf(f64, t))
  }

  /** What the writer puts in the binary file is exactly the reader's framing of the node records. */
  lemma {:induction false} PostOrderBytesFrame(f64: real -> Word64, t: Tree)
    requires LabelsOk(t)
    ensures PostOrderBytes(f64, t) == Encode(PostOrderRecords(f64, t))
  {
    if t.Tree? {
      PostOrderBytesFrame(f64, t.left);
      PostOrderBytesFrame(f64, t.right);
      var l, r := PostOrderRecords(f64, t.left), PostOrderRecords(f64, t.right);
      EncodeAppend(l, r);
      EncodeAppend(l + r, [RecordOf(f64, t)]);
      assert Encode([RecordOf(f64, t)]) == RecordBytes(RecordOf(f64, t)) + [];
    }
  }

  /** `postOrderTraversalOutput3(node, fout, fp)`: what it appends to the text and binary streams. */
  method PostOrderTraversalOutput3(f64: real -> Word64, node: Node?, fout: seq<TextLine>, fp: seq<Byte>)
    returns (text: seq<TextLine>, bin: seq<Byte>)
    requires node != null ==> node.Valid() && LabelsOk(node.Model())
    ensures text == fout + PostOrderLines(ModelOf(node))
    ensures bin == fp + PostOrderBytes(f64, ModelOf(node))
    decreases ModelRepr(node)
  {
    if node == null {
      return fout, fp;
    }
    ghost var t := node.Model();
    ghost var pl, pr := PostOrderLines(t.left), PostOrderLines(t.right);
    ghost var bl, br := PostOrderBytes(f64, t.left), PostOrderBytes(f64, t.right);
    ChildrenUntouched(node);
    text, bin := PostOrderTraversalOutput3(f64, node.left, fout, fp);
    ChildrenUntouched(node);
    text, bin := PostOrderTraversalOutput3(f64, node.right, text, bin);
    ChildrenUntouched(node);
    var (line, own) := WriteNode(f64, node);
    AppendAssoc(fout, pl + pr, [line]);
    AppendAssoc(fp, bl + br, own);
    AppendAssoc(fout, pl, pr);
    AppendAssoc(fp, bl, br);
    text, bin := text + [line], bin + own;
  }

  /**
   * The body of `postOrderTraversalOutput3` for the node itself: its text line and the fields
   * it passes to `fwrite`, in order.
   */
  function WriteNode(f64: real -> Word64, node: Node): (r: (TextLine, seq<Byte>))
    reads node, node.Repr
    requires node.Valid() && LabelsOk(node.Model())
    ensures r.0 == LineOf(node.Model())
    ensures r.1 == RecordBytes(RecordOf(f64, node.Model()))
  {
    match node.kind
    case Leaf =>
      (LeafText(node.leafLabel, node.capacitance), Int32Le(node.leafLabel) + f64(node.capacitance))
    case Bridge =>
      (FlagText(node.leftWire, node.rightWire, 0),
       Int32Le(-1) + f64(node.leftWire) + f64(node.rightWire) + Int32Le(0))
    case Inv =>
      (FlagText(node.leftWire, node.rightWire, 1),
       Int32Le(-1) + f64(node.leftWire) + f64(-1.0) + Int32Le(1))
  }

  /** The sentinel inverter after the tree: `(0 -1 1)`, record (-1, 0.0, -1.0, 1). */
  const SentinelText: TextLine := FlagText(0.0, -1.0, 1)

  function SentinelRecord(f64: real -> Word64): Record
  {
    InternalRecord(f64(0.0), f64(-1.0), 1)
  }

  /**
   * One sentinel always, a second when the root's polarity is 0: the root polarity plus the
   * number of sentinel inverters is even.
   */
  function SentinelCount(t: Tree): (n: nat)
    requires t.Tree?
    ensures 1 <= n <= 2 && (t.polarity + n) % 2 == 0
  {
    if t.polarity == 0 then 2 else 1
  }

  /** The two streams `write3rdOutputPost` leaves behind. */
  datatype Output = Output(text: seq<TextLine>, bytes: seq<Byte>)

  /** The sentinel records that follow the tree's records. */
  function Sentinels(f64: real -> Word64, t: Tree): (r: seq<Record>)
    requires t.Tree?
    ensures |r| == SentinelCount(t) && AllWellTagged(r)
  {
    if t.polarity == 0 then [SentinelRecord(f64), SentinelRecord(f64)] else [SentinelRecord(f64)]
  }

  /** What `write3rdOutputPost` writes for a non-null root. */
  function ThirdOutput(f64: real -> Word64, t: Tree): (o: Output)
    requires t.Tree? && LabelsOk(t)
    ensures |o.text| == NodeCount(t) + SentinelCount(t)
  {
    var one := RecordBytes(SentinelRecord(f64));
    if t.polarity == 0 then
      Output(PostOrderLines(t) + [SentinelText, SentinelText], PostOrderBytes(f64, t) + one + one)
    else
      Output(PostOrderLines(t) + [SentinelText], PostOrderBytes(f64, t) + one)
  }

  /**
   * `write3rdOutputPost(root, ...)` once both files are open. The root must be non-null: the
   * code reads `root->polarity` after the traversal.
   */
  method Write3rdOutputPost(f64: real -> Word64, root: Node) returns (text: seq<TextLine>, bin: seq<Byte>)
    requires root.Valid() && LabelsOk(root.Model())
    ensures Output(text, bin) == ThirdOutput(f64, root.Model())
  {
    ghost var t := root.Model();
    text, bin := PostOrderTraversalOutput3(f64, root, [], []);
    assert text == PostOrderLines(t) && bin == PostOrderBytes(f64, t);
    var i, j, zero, neg := -1, 1, 0.0, -1.0;
    var one := Int32Le(i) + f64(zero) + f64(neg) + Int32Le(j);
    assert one == RecordBytes(SentinelRecord(f64));
    text, bin := text + [SentinelText], bin + one;
    if root.polarity == 0 {
      text, bin := text + [SentinelText], bin + one;
    }
  }

  // ---------------------------------------------------------------------------------------
  // Reading the dumps back.

  /**
   * How `parseTree` reads a written line: a leaf line whose label is non-negative starts with a
   * digit; a negative label starts with '-' and is skipped; every other line starts with '('
   * and is a junction line, whose third number (if any) is not read.
   */
  function Reread(l: TextLine): Builder.Line
  {
    match l
    case LeafText(lbl, cap) => if lbl >= 0 then Builder.LeafLine(lbl, cap) else Builder.Other
    case PairText(lw, rw) => Builder.JunctionLine(lw, rw)
    case FlagText(lw, rw, _) => Builder.JunctionLine(lw, rw)
  }

  function RereadAll(lines: seq<TextLine>): (r: seq<Builder.Line>)
    ensures |r| == |lines| && forall k :: 0 <= k < |lines| ==> r[k] == Reread(lines[k])
  {
    if lines == [] then [] else [Reread(lines[0])] + RereadAll(lines[1..])
  }

  lemma {:induction false} RereadAllAppend(a: seq<TextLine>, b: seq<TextLine>)
    ensures RereadAll(a + b) == RereadAll(a) + RereadAll(b)
  {
    var x, y := RereadAll(a + b), RereadAll(a) + RereadAll(b);
    assert |x| == |y|;
    forall k | 0 <= k < |x|
      ensures x[k] == y[k]
    {
      if k < |a| {
        assert (a + b)[k] == a[k];
      } else {
        assert (a + b)[k] == b[k - |a|];
      }
    }
  }

  /** The post-order lines of an inverter-free tree are its shape's postfix lines. */
  lemma {:induction false} PostOrderIsPostfix(t: Tree)
    requires Built(t) && Builder.DigitLabels(ShapeOf(t))
    ensures RereadAll(PostOrderLines(t)) == Builder.ShapeLines(ShapeOf(t))
  {
    if t.kind == Bridge {
      PostOrderIsPostfix(t.left);
      PostOrderIsPostfix(t.right);
      var a, b := PostOrderLines(t.left), PostOrderLines(t.right);
      RereadAllAppend(a, b);
      RereadAllAppend(a + b, [LineOf(t)]);
    }
  }

  /**
   * Re-reading the post-order text of an inverter-free tree rebuilds its shape: the same leaves,
   * labels, capacitances and wire lengths, with the builder's π-model capacitances.
   */
  lemma PostOrderReparses(cfg: Config, t: Tree)
    requires Built(t) && Builder.DigitLabels(ShapeOf(t))
    ensures Builder.Build(cfg, RereadAll(PostOrderLines(t))) == Success(Builder.Fresh(cfg, ShapeOf(t)))
  {
    PostOrderIsPostfix(t);
    Builder.BuildShapeLines(cfg, ShapeOf(t));
  }

  /** So a tree straight from the builder is rebuilt exactly from its own post-order text. */
  lemma BuiltTreeRoundTrip(cfg: Config, lines: seq<Builder.Line>)
    requires Builder.Build(cfg, lines).Success? && Builder.Build(cfg, lines).value.Tree?
    ensures var t := Builder.Build(cfg, lines).value;
            Built(t) && Builder.Build(cfg, RereadAll(PostOrderLines(t))) == Success(t)
  {
    Builder.BuildIsFresh(cfg, lines);
    PostOrderReparses(cfg, Builder.Build(cfg, lines).value);
  }

  /**
   * The pre-order text is not postfix: for any tree whose root is a junction, its first line
   * is a junction line met with an empty stack.
   */
  lemma PreOrderDoesNotReparse(cfg: Config, t: Tree)
    requires t.Tree? && t.kind == Bridge
    ensures Builder.Build(cfg, RereadAll(PreOrderLines(t))) == Failure(Builder.StackUnderflow)
  {
    var r := RereadAll(PreOrderLines(t));
    assert r[0] == Builder.JunctionLine(t.leftWire, t.rightWire);
    assert Builder.Step(cfg, [], r[0]) == Failure(Builder.StackUnderflow);
  }

  // ---------------------------------------------------------------------------------------
  // The binary dump, read back by binary_read.py.

  /**
   * `read_tree_bin_file` on what `write3rdOutputPost` wrote: every node's record in post-order,
   * then the sentinels, and no error.
   */
  lemma DecodeThirdOutput(f64: real -> Word64, t: Tree)
    requires t.Tree? && LabelsOk(t)
    ensures Decode(ThirdOutput(f64, t).bytes) == Outcome(PostOrderRecords(f64, t) + Sentinels(f64, t), None)
  {
    ThirdOutputFrame(f64, t);
    DecodeEncode(PostOrderRecords(f64, t) + Sentinels(f64, t));
  }

  /** The binary output is the framing of the node records followed by the sentinel records. */
  lemma ThirdOutputFrame(f64: real -> Word64, t: Tree)
    requires t.Tree? && LabelsOk(t)
    ensures AllWellTagged(PostOrderRecords(f64, t) + Sentinels(f64, t))
    ensures ThirdOutput(f64, t).bytes == Encode(PostOrderRecords(f64, t) + Sentinels(f64, t))
  {
    var body, tail := PostOrderRecords(f64, t), Sentinels(f64, t);
    var s, one := [SentinelRecord(f64)], RecordBytes(SentinelRecord(f64));
    assert Encode(s) == one + [];
    PostOrderBytesFrame(f64, t);
    EncodeAppend(body, tail);
    if t.polarity == 0 {
      EncodeAppend(s, s);
      assert tail == s + s;
      AppendAssoc(Encode(body), one, one);
    } else {
      assert tail == s;
    }
  }

  /** A text line and a record describe the same node: label and capacitance, or wire and flag. */
  predicate Agree(f64: real -> Word64, l: TextLine, r: Record)
  {
    match l
    case LeafText(lbl, cap) => r == LeafRecord(lbl, f64(cap))
    case PairText(_, _) => false
    case FlagText(lw, _, flag) => r.InternalRecord? && r.leftLen == f64(lw) && r.numInv == flag
  }

  /** The text and the binary post-order dumps describe the same nodes, line by line. */
  lemma {:induction false} PostOrderAgree(f64: real -> Word64, t: Tree)
    requires LabelsOk(t)
    ensures var ls, rs := PostOrderLines(t), PostOrderRecords(f64, t);
            |ls| == |rs| && forall k :: 0 <= k < |ls| ==> Agree(f64, ls[k], rs[k])
  {
    if t.Tree? {
      PostOrderAgree(f64, t.left);
      PostOrderAgree(f64, t.right);
      var ll, lr := PostOrderLines(t.left), PostOrderRecords(f64, t.left);
      var rl, rr := PostOrderLines(t.right), PostOrderRecords(f64, t.right);
      var ls, rs := ll + rl + [LineOf(t)], lr + rr + [RecordOf(f64, t)];
      forall k | 0 <= k < |ls|
        ensures Agree(f64, ls[k], rs[k])
      {
        if k < |ll| {
          assert ls[k] == ll[k] && rs[k] == lr[k];
        } else if k < |ll| + |rl| {
          assert ls[k] == rl[k - |ll|] && rs[k] == rr[k - |ll|];
        }
      }
    }
  }

  /** The same holds for the whole output, sentinels included. */
  lemma ThirdOutputAgrees(f64: real -> Word64, t: Tree)
    requires t.Tree? && LabelsOk(t)
    ensures var ls, rs := ThirdOutput(f64, t).text, PostOrderRecords(f64, t) + Sentinels(f64, t);
            |ls| == |rs| && forall k :: 0 <= k < |ls| ==> Agree(f64, ls[k], rs[k])
  {
    PostOrderAgree(f64, t);
  }
}
