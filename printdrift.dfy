/**
 * The printer's indentation at three levels: the exact output of a chain of one-branch
 * nodes, as written and with the corrected indentation rule.
 */
module PrintDrift {
  import opened Wrappers
  import opened Seqs
  import opened Nodes
  import opened Rendering

  lemma AssembleOne(a: string, k: string, c: Tree, b: nat, s: Result<seq<string>, RenderError>)
    requires s.Success? && |s.value| == Size(c)
    ensures Assemble(a, [(k, c)], b, |k|, [s]) == Success(["|-" + a] + Block(Prefix(k, b, |k|), s.value))
  {
    var blk := Block(Prefix(k, b, |k|), s.value);
    var bl := Blocks([(k, c)], b, |k|, [s]);
    assert bl == [blk];
    assert [blk] == [] + [blk];
    FlattenAppend([], blk);
    assert !exists i :: 0 <= i < 1 && [s][i].Failure?;
    var r := Assemble(a, [(k, c)], b, |k|, [s]);
    assert r.Success?;
    assert r.value == ["|-" + a] + Flatten(bl);
    assert Flatten(bl) == blk;
  }

  lemma OneBranchShape(a: string, k: string, b: nat, sub: seq<string>)
    requires |sub| > 0
    ensures ["|-" + a] + Block(Prefix(k, b, |k|), sub) == ["|-" + a, Spaces(b + 4) + k + "  " + sub[0]] + sub[1..]
  {
    assert PadRight(k, |k|) == k;
  }

  /** A decision node with a single branch prints its label, then the branch line: the key
      after base + 4 spaces, and the child's first line right after it. */
  lemma SingleBranch(a: string, k: string, c: Tree, b: nat, layout: Layout)
    requires Lines(c, ChildBase(layout, b, k, |k|), layout).Success?
    ensures var sub := Lines(c, ChildBase(layout, b, k, |k|), layout).value;
      Lines(Decision(a, [(k, c)]), b, layout) == Success(["|-" + a, Spaces(b + 4) + k + "  " + sub[0]] + sub[1..])
  {
    var cs := [(k, c)];
    DecisionLines(a, cs, b, layout);
    assert MaxKeyLen(cs) == |k|;
    var cb := ChildBase(layout, b, k, |k|);
    assert ChildLines(cs, b, layout) == [Lines(c, cb, layout)];
    AssembleOne(a, k, c, b, Lines(c, cb, layout));
    OneBranchShape(a, k, b, Lines(c, cb, layout).value);
  }

  const NodeC := Decision("C", [("z", Leaf("w"))])
  const NodeB := Decision("B", [("y", NodeC)])
  const Chain := Decision("A", [("x", NodeB)])

  /** The line the leaf under z prints. */
  const LeafLine := "|-" + "w" + " : Leaf-Node"

  lemma PrintC(b: nat, layout: Layout)
    ensures Lines(NodeC, b, layout) == Success(["|-" + "C", Spaces(b + 4) + "z" + "  " + LeafLine])
  {
    var lw := Lines(Leaf("w"), ChildBase(layout, b, "z", 1), layout).value;
    assert lw == [LeafLine];
    assert lw[1..] == [];
    SingleBranch("C", "z", Leaf("w"), b, layout);
    assert Lines(NodeC, b, layout) == Success(["|-" + "C", Spaces(b + 4) + "z" + "  " + lw[0]] + lw[1..]);
    assert ["|-" + "C", Spaces(b + 4) + "z" + "  " + lw[0]] + lw[1..] == ["|-" + "C", Spaces(b + 4) + "z" + "  " + LeafLine];
  }

  lemma PrintB(b: nat, layout: Layout)
    ensures Lines(NodeB, b, layout) == Success(["|-" + "B", Spaces(b + 4) + "y" + "  " + ("|-" + "C"),
                                                Spaces(ChildBase(layout, b, "y", 1) + 4) + "z" + "  " + LeafLine])
  {
    var cb := ChildBase(layout, b, "y", 1);
    PrintC(cb, layout);
    var lc := Lines(NodeC, cb, layout).value;
    assert lc[1..] == [Spaces(cb + 4) + "z" + "  " + LeafLine];
    SingleBranch("B", "y", NodeC, b, layout);
    assert lc[0] == "|-" + "C";
    var l2 := Spaces(b + 4) + "y" + "  " + lc[0];
    assert ["|-" + "B", l2] + lc[1..] == ["|-" + "B", l2, lc[1]];
  }

  lemma PrintChain(layout: Layout)
    ensures var z := ChildBase(layout, ChildBase(layout, 0, "x", 1), "y", 1) + 4;
      Lines(Chain, 0, layout) == Success(["|-" + "A", Spaces(4) + "x" + "  " + ("|-" + "B"),
                                          Spaces(ChildBase(layout, 0, "x", 1) + 4) + "y" + "  " + ("|-" + "C"),
                                          Spaces(z) + "z" + "  " + LeafLine])
  {
    var cb := ChildBase(layout, 0, "x", 1);
    PrintB(cb, layout);
    var lb := Lines(NodeB, cb, layout).value;
    SingleBranch("A", "x", NodeB, 0, layout);
    assert lb[0] == "|-" + "B";
    assert Spaces(0 + 4) == Spaces(4);
    var l1 := Spaces(4) + "x" + "  " + lb[0];
    assert Lines(Chain, 0, layout) == Success(["|-" + "A", l1] + lb[1..]);
    assert ["|-" + "A", l1] + lb[1..] == ["|-" + "A", l1, lb[1], lb[2]];
  }

  /** Printed as written, the branch line under C starts 25 columns in, although C's own
      "|-" stands at column 14 of the line above (11 spaces, "y", two spaces): its branch
      belongs at column 18, and every further level drifts further right. */
  lemma AsWrittenDrift()
    ensures Lines(Chain, 0, AsWritten) == Success(["|-" + "A", Spaces(4) + "x" + "  " + ("|-" + "B"),
                                                  Spaces(11) + "y" + "  " + ("|-" + "C"),
                                                  Spaces(25) + "z" + "  " + LeafLine])
    ensures |Spaces(11) + "y" + "  "| + 4 != 25
  {
    PrintChain(AsWritten);
  }

  /** Printed with aligned indentation, each branch line starts 4 columns right of the
      "|-" of its node: column 4 under A, 11 under B (its "|-" at column 7) and 18 under C
      (its "|-" at column 14). */
  lemma AlignedChain()
    ensures Lines(Chain, 0, Aligned) == Success(["|-" + "A", Spaces(4) + "x" + "  " + ("|-" + "B"),
                                                Spaces(11) + "y" + "  " + ("|-" + "C"),
                                                Spaces(18) + "z" + "  " + LeafLine])
    ensures |Spaces(4) + "x" + "  "| + 4 == 11 && |Spaces(11) + "y" + "  "| + 4 == 18
  {
    PrintChain(Aligned);
  }
}
