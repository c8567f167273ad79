/** The tree printer (Node.print of DTLearn.py), as the function from a tree to the lines
    it writes to standard output. */
module Rendering {
  import opened Wrappers
  import opened Seqs
  import opened Nodes

  /** How the indentation handed to a child is computed. `AsWritten` is DTLearn.py:
      `baseIndentation + len(outputText)`, although `outputText` already starts with
      `baseIndentation + 4` spaces. `Aligned` hands the child the column it is printed at,
      `len(outputText)`. */
  datatype Layout = AsWritten | Aligned

  /** `max()` of an empty sequence raises ValueError: printing a node without branches. */
  datatype RenderError = NoBranches

  function Spaces(n: nat): (r: string)
    ensures |r| == n
  {
    seq(n, _ => ' ')
  }

  /** `f"{s:<{w}}"`: s left-justified in a field of width w. */
  function PadRight(s: string, w: nat): (r: string)
    ensures |r| == (if |s| >= w then |s| else w)
  {
    if |s| >= w then s else s + Spaces(w - |s|)
  }

  /** `maxValueLen`: the length of the longest key among the branches. */
  function MaxKeyLen(cs: seq<(string, Tree)>): (m: nat)
    requires |cs| > 0
    ensures forall i :: 0 <= i < |cs| ==> |cs[i].0| <= m
    ensures exists i :: 0 <= i < |cs| && |cs[i].0| == m
  {
    if |cs| == 1 then |cs[0].0|
    else
      var m' := MaxKeyLen(cs[1..]);
      assert forall i :: 1 <= i < |cs| ==> cs[1..][i - 1] == cs[i];
      if |cs[0].0| > m' then |cs[0].0| else m'
  }

  /** `outputText`: the text printed on the line before a child's own first line. */
  function Prefix(key: string, base: nat, width: nat): (r: string)
    ensures |r| == base + 6 + (if |key| >= width then |key| else width)
  {
    Spaces(base + 4) + PadRight(key, width) + "  "
  }

  /** The indentation a child printed after `prefix` is given. */
  function ChildIndent(layout: Layout, base: nat, prefix: string): (r: nat)
    ensures r >= |prefix|
    ensures r == |prefix| <==> layout == Aligned || base == 0
  {
    match layout
    case AsWritten => base + |prefix|
    case Aligned => |prefix|
  }

  /** A child's lines, its first line continuing the prefix printed before it. */
  function Block(prefix: string, lines: seq<string>): seq<string>
    requires |lines| > 0
  {
    [prefix + lines[0]] + lines[1..]
  }

  /** The indentation the child under `key` is printed with: under Aligned the column
      after the base, four spaces, the padded key and two spaces; as written, the base
      is counted once more. */
  function ChildBase(layout: Layout, base: nat, key: string, width: nat): (r: nat)
    ensures layout == Aligned ==> r == base + 6 + (if |key| >= width then |key| else width)
    ensures layout == AsWritten ==> r == 2 * base + 6 + (if |key| >= width then |key| else width)
  {
    ChildIndent(layout, base, Prefix(key, base, width))
  }

  /** A decision node's output given what each of its children prints: "|-" and the
      attribute, then each child's block; the first failing child makes it fail. */
  function Assemble(a: string, cs: seq<(string, Tree)>, base: nat, width: nat,
                    subs: seq<Result<seq<string>, RenderError>>): (r: Result<seq<string>, RenderError>)
    requires |subs| == |cs|
    requires forall i :: 0 <= i < |cs| && subs[i].Success? ==> |subs[i].value| == Size(cs[i].1)
    ensures r.Success? <==> forall i :: 0 <= i < |cs| ==> subs[i].Success?
    ensures r.Success? ==> |r.value| == 1 + Sum(seq(|cs|, i requires 0 <= i < |cs| => Size(cs[i].1)))
  {
    if exists i :: 0 <= i < |cs| && subs[i].Failure? then Failure(NoBranches)
    else
      assert forall i :: 0 <= i < |cs| ==> subs[i].Success? && |subs[i].value| == Size(cs[i].1) >= 1;
      var blocks := Blocks(cs, base, width, subs);
      FlattenLength(blocks, seq(|cs|, i requires 0 <= i < |cs| => Size(cs[i].1)));
      Success(["|-" + a] + Flatten(blocks))
  }

  /** Each child's block, under its own prefix. */
  function Blocks(cs: seq<(string, Tree)>, base: nat, width: nat,
                  subs: seq<Result<seq<string>, RenderError>>): (bs: seq<seq<string>>)
    requires |subs| == |cs|
    requires forall i :: 0 <= i < |cs| ==> subs[i].Success? && |subs[i].value| > 0
    ensures |bs| == |cs|
    ensures forall i :: 0 <= i < |cs| ==> bs[i] == Block(Prefix(cs[i].0, base, width), subs[i].value)
  {
    seq(|cs|, i requires 0 <= i < |cs| => Block(Prefix(cs[i].0, base, width), subs[i].value))
  }

  /** `node.print(base)`: the lines printed, in order, without line ends; a failure when
      some node met on the way has no branches. Every node prints exactly one line. */
  function Lines(t: Tree, base: nat, layout: Layout): (r: Result<seq<string>, RenderError>)
    ensures r.Success? ==> |r.value| == Size(t)
  {
    match t
    case Leaf(o) => Success(["|-" + o + " : Leaf-Node"])
    case Blank => Failure(NoBranches)
    case Decision(a, cs) =>
      if |cs| == 0 then Failure(NoBranches)
      else
        var w := MaxKeyLen(cs);
        Assemble(a, cs, base, w, seq(|cs|, i requires 0 <= i < |cs| =>
          Lines(cs[i].1, ChildBase(layout, base, cs[i].0, w), layout)))
  }

  /** What the children of a decision node print. */
  function ChildLines(cs: seq<(string, Tree)>, base: nat, layout: Layout): (subs: seq<Result<seq<string>, RenderError>>)
    requires |cs| > 0
    ensures |subs| == |cs|
    ensures forall i :: 0 <= i < |cs| && subs[i].Success? ==> |subs[i].value| == Size(cs[i].1)
  {
    seq(|cs|, i requires 0 <= i < |cs| => Lines(cs[i].1, ChildBase(layout, base, cs[i].0, MaxKeyLen(cs)), layout))
  }

  lemma DecisionLines(a: string, cs: seq<(string, Tree)>, base: nat, layout: Layout)
    requires |cs| > 0
    ensures Lines(Decision(a, cs), base, layout) == Assemble(a, cs, base, MaxKeyLen(cs), ChildLines(cs, base, layout))
  {
    var w := MaxKeyLen(cs);
    assert ChildLines(cs, base, layout) == seq(|cs|, i requires 0 <= i < |cs| =>
          Lines(cs[i].1, ChildBase(layout, base, cs[i].0, w), layout));
  }

  /** Printing succeeds exactly on the trees without blank nodes and without decision nodes
      lacking branches. */
  lemma {:induction false} PrintsIffWellFormed(t: Tree, base: nat, layout: Layout)
    ensures Lines(t, base, layout).Success? <==> WellFormed(t)
  {
    match t
    case Leaf(_) =>
    case Blank =>
    case Decision(a, cs) =>
      if |cs| > 0 {
        DecisionLines(a, cs, base, layout);
        var subs := ChildLines(cs, base, layout);
        forall i | 0 <= i < |cs| ensures subs[i].Success? <==> WellFormed(cs[i].1) {
          PrintsIffWellFormed(cs[i].1, ChildBase(layout, base, cs[i].0, MaxKeyLen(cs)), layout);
        }
      }
  }

  /** Each line of ls moved d columns to the right. */
  function Indent(d: nat, ls: seq<string>): seq<string> {
    seq(|ls|, i requires 0 <= i < |ls| => Spaces(d) + ls[i])
  }

  lemma {:induction false} FlattenIndent(d: nat, xss: seq<seq<string>>, yss: seq<seq<string>>)
    requires |xss| == |yss|
    requires forall i :: 0 <= i < |xss| ==> yss[i] == Indent(d, xss[i])
    ensures Flatten(yss) == Indent(d, Flatten(xss))
  {
    if xss != [] {
      var n := |xss|;
      FlattenIndent(d, xss[..n - 1], yss[..n - 1]);
      assert Indent(d, Flatten(xss[..n - 1]) + xss[n - 1]) == Indent(d, Flatten(xss[..n - 1])) + Indent(d, xss[n - 1]);
    }
  }

  lemma SpacesAdd(a: nat, b: nat)
    ensures Spaces(a + b) == Spaces(a) + Spaces(b)
  {
  }

  lemma ShiftBlock(d: nat, p: string, ls: seq<string>)
    requires |ls| > 0
    ensures Block(Spaces(d) + p, [ls[0]] + Indent(d, ls[1..])) == Indent(d, Block(p, ls))
  {
    var l := Block(Spaces(d) + p, [ls[0]] + Indent(d, ls[1..]));
    var r := Indent(d, Block(p, ls));
    assert |l| == |r|;
    forall i | 0 <= i < |l| ensures l[i] == r[i] {
      if i == 0 { assert l[0] == Spaces(d) + p + ls[0]; assert r[0] == Spaces(d) + (p + ls[0]); }
    }
  }

  /** y is x with every line after the first moved d columns to the right. */
  predicate ShiftedBy(x: Result<seq<string>, RenderError>, y: Result<seq<string>, RenderError>, d: nat) {
    x.Success? == y.Success? &&
    (x.Success? ==> |x.value| > 0 && y.value == [x.value[0]] + Indent(d, x.value[1..]))
  }

  /** Assembling children whose output is shifted by d, under prefixes shifted by d, shifts
      every line after the first by d. */
  lemma ShiftAssemble(a: string, cs: seq<(string, Tree)>, c: nat, c2: nat, d: nat, w: nat,
                      sx: seq<Result<seq<string>, RenderError>>, sy: seq<Result<seq<string>, RenderError>>)
    requires c2 == c + d
    requires |sx| == |cs| && |sy| == |cs|
    requires forall i :: 0 <= i < |cs| && sx[i].Success? ==> |sx[i].value| == Size(cs[i].1) >= 1
    requires forall i :: 0 <= i < |cs| && sy[i].Success? ==> |sy[i].value| == Size(cs[i].1) >= 1
    requires forall i :: 0 <= i < |cs| ==> ShiftedBy(sx[i], sy[i], d)
    ensures ShiftedBy(Assemble(a, cs, c, w, sx), Assemble(a, cs, c2, w, sy), d)
  {
    var x, y := Assemble(a, cs, c, w, sx), Assemble(a, cs, c2, w, sy);
    if x.Success? {
      var xs := Blocks(cs, c, w, sx);
      var ys := Blocks(cs, c2, w, sy);
      forall i | 0 <= i < |cs| ensures ys[i] == Indent(d, xs[i]) {
        PrefixShift(cs[i].0, c, c2, d, w);
        ShiftBlock(d, Prefix(cs[i].0, c, w), sx[i].value);
      }
      FlattenIndent(d, xs, ys);
      assert x.value == ["|-" + a] + Flatten(xs);
      assert y.value == ["|-" + a] + Flatten(ys);
    }
  }

  lemma PrefixShift(k: string, c: nat, c2: nat, d: nat, w: nat)
    requires c2 == c + d
    ensures Prefix(k, c2, w) == Spaces(d) + Prefix(k, c, w)
  {
    SpacesAdd(d, c + 4);
    assert Spaces(c2 + 4) == Spaces(d) + Spaces(c + 4);
  }

  lemma ChildBaseShift(k: string, c: nat, d: nat, w: nat)
    ensures ChildBase(Aligned, c + d, k, w) == ChildBase(Aligned, c, k, w) + d
  {
  }

  /** With the aligned layout a subtree prints the same wherever it is placed: printed
      with d more columns of indentation (at c2 == c + d), its first line is unchanged
      (it continues the parent's label) and every further line is moved right by exactly
      d columns. */
  lemma {:induction false} AlignedShift(t: Tree, c: nat, c2: nat, d: nat)
    requires c2 == c + d
    ensures ShiftedBy(Lines(t, c, Aligned), Lines(t, c2, Aligned), d)
  {
    match t
    case Leaf(_) =>
    case Blank =>
    case Decision(a, cs) =>
      if |cs| > 0 {
        var sx, sy := ChildLines(cs, c, Aligned), ChildLines(cs, c2, Aligned);
        forall i | 0 <= i < |cs| ensures ShiftedBy(sx[i], sy[i], d) {
          var w := MaxKeyLen(cs);
          ChildShift(cs, c, c2, d, i);
          AlignedShift(cs[i].1, ChildBase(Aligned, c, cs[i].0, w), ChildBase(Aligned, c2, cs[i].0, w), d);
        }
        DecisionShift(a, cs, c, c2, d);
      }
  }

  /** Child i of a decision node printed at c and at c2 == c + d. */
  lemma ChildShift(cs: seq<(string, Tree)>, c: nat, c2: nat, d: nat, i: nat)
    requires c2 == c + d
    requires 0 <= i < |cs|
    ensures var w := MaxKeyLen(cs);
      ChildLines(cs, c, Aligned)[i] == Lines(cs[i].1, ChildBase(Aligned, c, cs[i].0, w), Aligned) &&
      ChildLines(cs, c2, Aligned)[i] == Lines(cs[i].1, ChildBase(Aligned, c2, cs[i].0, w), Aligned) &&
      ChildBase(Aligned, c2, cs[i].0, w) == ChildBase(Aligned, c, cs[i].0, w) + d
  {
    ChildBaseShift(cs[i].0, c, d, MaxKeyLen(cs));
  }

  /** A decision node whose children's output shifts by d shifts by d. */
  lemma DecisionShift(a: string, cs: seq<(string, Tree)>, c: nat, c2: nat, d: nat)
    requires c2 == c + d
    requires |cs| > 0
    requires forall i :: 0 <= i < |cs| ==> ShiftedBy(ChildLines(cs, c, Aligned)[i], ChildLines(cs, c2, Aligned)[i], d)
    ensures ShiftedBy(Lines(Decision(a, cs), c, Aligned), Lines(Decision(a, cs), c2, Aligned), d)
  {
    DecisionLines(a, cs, c, Aligned);
    DecisionLines(a, cs, c2, Aligned);
    ShiftAssemble(a, cs, c, c2, d, MaxKeyLen(cs), ChildLines(cs, c, Aligned), ChildLines(cs, c2, Aligned));
  }
}
