/**
 * The two-leaf net: leaves `1(1.0e-3)` and `2(2.0e-3)` under a junction `(1.0 1.0)`, unit
 * wire R/C 1.0 and 1.0e-4, inverter input/output capacitance 1.0e-4 and output resistance 1.0.
 */
module FixtureNet {
  import opened RcTree
  import Builder

  function FixtureConfig(): Config
  {
    Config(1.0, 0.0001, 0.0001, 0.0001, 1.0, 0.0)
  }

  function FixtureShape(): Shape
  {
    SJoin(1.0, 1.0, SLeaf(1, 0.001), SLeaf(2, 0.002))
  }

  /** The net's postfix lines: `1(1.0e-3)`, `2(2.0e-3)`, `(1.0 1.0)`. */
  function FixtureLines(): (lines: seq<Builder.Line>)
    ensures lines == Builder.ShapeLines(FixtureShape())
  {
    [Builder.LeafLine(1, 0.001), Builder.LeafLine(2, 0.002), Builder.JunctionLine(1.0, 1.0)]
  }

  /** The tree the fixture builds: each leaf gains half a wire (5.0e-5), the root the driver's 1.0e-4. */
  function FixtureTree(): Tree
  {
    Tree(Bridge, -1, 0.0, 1.0, 1.0,
         Tree(Leaf, 1, 0.001, 0.0, 0.0, Null, Null, 0.00105, 0.0, 0.0, 0.0, 0),
         Tree(Leaf, 2, 0.002, 0.0, 0.0, Null, Null, 0.00205, 0.0, 0.0, 0.0, 0),
         0.0002, 0.0, 0.0, 0.0, 0)
  }
}

/** The worked two-leaf net: the tree the builder makes of it and the delays `elmoreDelay` writes. */
module Fixture {
  import opened Wrappers
  import opened RcTree
  import opened Elmore
  import Builder
  import opened FixtureNet

  lemma FixtureBuilds()
    ensures Builder.Build(FixtureConfig(), FixtureLines()) == Success(FixtureTree())
  {
    var cfg, s := FixtureConfig(), FixtureShape();
    Builder.BuildShapeLines(cfg, s);
    assert cfg.HalfWire(1.0) == 0.00005 && cfg.HalfWire(0.0) == 0.0;
    assert Builder.PiModel(cfg, SLeaf(1, 0.001), 1.0) == FixtureTree().left;
    assert Builder.PiModel(cfg, SLeaf(2, 0.002), 1.0) == FixtureTree().right;
  }

  /** On the fixture tree the root's elmore capacitance and its delay are both 3.3e-3. */
  lemma FixtureRoot()
    ensures CapFold(FixtureTree()).elmore == 0.0033
    ensures Analyse(FixtureConfig(), FixtureTree()).delay == 0.0033
  {
    assert Arrival(0.0, 1.0, 0.0033) == 0.0033;
  }

  /** The leaves' delays on the fixture tree: 4.35e-3 and 5.35e-3, in pre-order. */
  lemma FixtureAnalysis()
    ensures AnalysisRecords(FixtureConfig(), FixtureTree()) ==
              [DelayRecord(1, 0.00435), DelayRecord(2, 0.00535)]
  {
    var cfg, c := FixtureConfig(), CapFold(FixtureTree());
    assert c.elmore == 0.0033;
    assert cfg.WireRes(1.0) == 1.0;
    assert DelayRecords(cfg, c.left, 0.0033, 1.0) == [DelayRecord(1, 0.00435)];
    assert DelayRecords(cfg, c.right, 0.0033, 1.0) == [DelayRecord(2, 0.00535)];
  }
}
