/** The decision tree built by the learner (class Node of DTLearn.py). */
module Nodes {
  import opened Wrappers
  import opened Seqs

  /** A Python Node is a leaf exactly when its `output` is not None; otherwise it splits on
      `atr_name` and maps each attribute value to a child through its `children` dict. The
      dict is a sequence of (value, child) pairs in insertion order. The one Node that is
      neither is `Node(None, None)`, which the learner builds when pluralityValue returns
      None: it is `Blank`. */
  datatype Tree =
    | Leaf(out: string)
    | Decision(attr: string, children: seq<(string, Tree)>)
    | Blank

  /** `Node(atr_name, output)`: a fresh node has no children. */
  function NewNode(atrName: Option<string>, output: Option<string>): (t: Tree)
    ensures t.Leaf? <==> output.Some?
    ensures t.Leaf? ==> t.out == output.value
    ensures t.Decision? ==> atrName == Some(t.attr) && t.children == []
    ensures t.Blank? <==> atrName.None? && output.None?
  {
    if output.Some? then Leaf(output.value)
    else if atrName.Some? then Decision(atrName.value, [])
    else Blank
  }

  /** The keys of a children dict, in insertion order. */
  function Keys(cs: seq<(string, Tree)>): seq<string> {
    seq(|cs|, i requires 0 <= i < |cs| => cs[i].0)
  }

  /** The dict a sequence of (key, child) pairs stands for. */
  function ToMap(cs: seq<(string, Tree)>): map<string, Tree>
    requires NoDup(Keys(cs))
  {
    map k | k in Keys(cs) :: cs[IndexOf(Keys(cs), k)].1
  }

  /** `addChild(atr_value, child_node)`: `children[atr_value] = child_node`. A key already
      present keeps its position and gets the new child; a new key goes last. */
  function AddChild(cs: seq<(string, Tree)>, k: string, c: Tree): (r: seq<(string, Tree)>)
    requires NoDup(Keys(cs))
    ensures NoDup(Keys(r))
    ensures Keys(r) == if k in Keys(cs) then Keys(cs) else Keys(cs) + [k]
    ensures ToMap(r) == ToMap(cs)[k := c]
  {
    if k in Keys(cs) then
      var r := cs[IndexOf(Keys(cs), k) := (k, c)];
      ToMapReplace(cs, k, c);
      r
    else
      var r := cs + [(k, c)];
      ToMapAppend(cs, k, c);
      r
  }

  lemma ToMapReplace(cs: seq<(string, Tree)>, k: string, c: Tree)
    requires NoDup(Keys(cs)) && k in Keys(cs)
    ensures var r := cs[IndexOf(Keys(cs), k) := (k, c)];
      Keys(r) == Keys(cs) && ToMap(r) == ToMap(cs)[k := c]
  {
    var j := IndexOf(Keys(cs), k);
    var r := cs[j := (k, c)];
    assert Keys(r) == Keys(cs);
    var m, m' := ToMap(r), ToMap(cs)[k := c];
    assert m.Keys == m'.Keys;
    forall k' | k' in m.Keys ensures m[k'] == m'[k'] {
      if k' != k {
        var i := IndexOf(Keys(cs), k');
        assert i != j;
      }
    }
  }

  lemma ToMapAppend(cs: seq<(string, Tree)>, k: string, c: Tree)
    requires NoDup(Keys(cs)) && k !in Keys(cs)
    ensures var r := cs + [(k, c)];
      Keys(r) == Keys(cs) + [k] && NoDup(Keys(r)) && ToMap(r) == ToMap(cs)[k := c]
  {
    var r := cs + [(k, c)];
    assert Keys(r) == Keys(cs) + [k];
    var m, m' := ToMap(r), ToMap(cs)[k := c];
    assert m.Keys == m'.Keys;
    forall k' | k' in m.Keys ensures m[k'] == m'[k'] {
      if k' != k {
        IndexOfPrefix(Keys(cs), [k], k');
      } else {
        assert Keys(r)[|cs|] == k;
        assert IndexOf(Keys(r), k) == |cs|;
      }
    }
  }

  lemma {:induction false} IndexOfPrefix(s: seq<string>, t: seq<string>, x: string)
    requires x in s
    ensures IndexOf(s + t, x) == IndexOf(s, x)
  {
    if s[0] != x {
      assert (s + t)[1..] == s[1..] + t;
      IndexOfPrefix(s[1..], t, x);
    }
  }

  /** The number of nodes. */
  function Size(t: Tree): (n: nat)
    ensures n >= 1
  {
    match t
    case Decision(_, cs) => 1 + Sum(seq(|cs|, i requires 0 <= i < |cs| => Size(cs[i].1)))
    case _ => 1
  }

  /** The attributes of the decision nodes, in pre-order (the order the learner removes
      them from its attribute list). */
  function DecisionAttrs(t: Tree): seq<string> {
    match t
    case Decision(a, cs) => [a] + Flatten(seq(|cs|, i requires 0 <= i < |cs| => DecisionAttrs(cs[i].1)))
    case _ => []
  }

  /** The decision attributes of a sequence of branches, branch after branch. */
  function BranchAttrs(cs: seq<(string, Tree)>): seq<string> {
    Flatten(seq(|cs|, i requires 0 <= i < |cs| => DecisionAttrs(cs[i].1)))
  }

  lemma DecisionAttrsOf(a: string, cs: seq<(string, Tree)>)
    ensures DecisionAttrs(Decision(a, cs)) == [a] + BranchAttrs(cs)
  {
    assert seq(|cs|, i requires 0 <= i < |cs| => DecisionAttrs(cs[i].1))
        == seq(|cs|, i requires 0 <= i < |cs| => DecisionAttrs(cs[i].1));
  }

  lemma BranchAttrsAppend(cs: seq<(string, Tree)>, k: string, c: Tree)
    ensures BranchAttrs(cs + [(k, c)]) == BranchAttrs(cs) + DecisionAttrs(c)
  {
    var cs' := cs + [(k, c)];
    var xs := seq(|cs|, i requires 0 <= i < |cs| => DecisionAttrs(cs[i].1));
    assert seq(|cs'|, i requires 0 <= i < |cs'| => DecisionAttrs(cs'[i].1)) == xs + [DecisionAttrs(c)];
    FlattenAppend(xs, DecisionAttrs(c));
  }

  /** Every node can be printed: no blank node, and every decision node has a branch. */
  predicate WellFormed(t: Tree) {
    match t
    case Leaf(_) => true
    case Blank => false
    case Decision(_, cs) => |cs| > 0 && forall i :: 0 <= i < |cs| ==> WellFormed(cs[i].1)
  }
}
