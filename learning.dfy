/** The recursive learner of DTLearn.py (dtLearn). One attribute list is shared by the
    whole recursion: each split removes its attribute from it before building the
    children, so the calls that follow, siblings included, no longer see it. */
module Learning {
  import opened Wrappers
  import opened Seqs
  import opened Tables
  import opened Nodes
  import opened Scoring
  import opened Voting
  import opened Rendering

  /** The Python list `attributes` that every call of dtLearn receives and mutates. */
  class AttributeList {
    var items: seq<string>

    constructor (items: seq<string>)
      ensures this.items == items
    {
      this.items := items;
    }

    /** `attributes.remove(x)`. */
    method Remove(x: string)
      requires x in items
      modifies this
      ensures items == RemoveFirst(old(items), x)
    {
      items := RemoveFirst(items, x);
    }
  }

  /** Every row has every column of `cols`. */
  predicate Rect(t: Table, cols: set<string>) {
    forall row :: row in t ==> cols <= row.Keys
  }

  /** The state the recursion threads: the shared attribute list and the number of coins
      drawn by random.choice. */
  datatype State = State(attrs: seq<string>, drawn: nat)

  /** What one call of dtLearn returns, with the state it leaves behind. */
  datatype Built = Built(tree: Tree, st: State)

  /** The tables and the attribute list of a call name only columns the tables have; the
      target and the WillWait column that infoGain reads are among them. */
  predicate Ready(data: Table, cols: set<string>, ex: Table, parent: Table, attrs: seq<string>, target: string) {
    Rect(data, cols) && Rect(ex, cols) && Rect(parent, cols) &&
    target in cols && OutcomeColumn in cols &&
    forall a :: a in attrs ==> a in cols
  }

  /** `infoGain(atr_name, target_atr_name, examples)` on non-empty examples, where it does
      not raise. */
  function GainValue(ex: Table, atr: string, target: string, lg: real -> real): (r: real)
    requires HasColumn(ex, atr) && HasColumn(ex, target) && HasColumn(ex, OutcomeColumn)
    requires |ex| > 0
    ensures Gain(ex, atr, target, lg) == Success(r)
  {
    Gain(ex, atr, target, lg).value
  }

  /** `[infoGain(atr_name, target_atr_name, examples) for atr_name in attributes]`. */
  function Gains(ex: Table, cols: set<string>, attrs: seq<string>, target: string, lg: real -> real): (gs: seq<real>)
    requires Rect(ex, cols) && target in cols && OutcomeColumn in cols
    requires forall a :: a in attrs ==> a in cols
    requires |ex| > 0
    ensures |gs| == |attrs|
  {
    if attrs == [] then []
    else
      var n := |attrs|;
      assert attrs[n - 1] in attrs;
      Gains(ex, cols, attrs[..n - 1], target, lg) + [GainValue(ex, attrs[n - 1], target, lg)]
  }

  /** The i-th gain is the information gain of the i-th attribute. */
  lemma {:induction false} GainsAt(ex: Table, cols: set<string>, attrs: seq<string>, target: string,
                                   lg: real -> real, i: nat)
    requires Rect(ex, cols) && target in cols && OutcomeColumn in cols
    requires forall a :: a in attrs ==> a in cols
    requires |ex| > 0 && i < |attrs|
    ensures attrs[i] in cols
    ensures HasColumn(ex, attrs[i])
    ensures Gains(ex, cols, attrs, target, lg)[i] == GainValue(ex, attrs[i], target, lg)
  {
    assert attrs[i] in attrs;
    var n := |attrs|;
    GainsLast(ex, cols, attrs, target, lg);
    if i < n - 1 {
      var init := attrs[..n - 1];
      assert init[i] == attrs[i];
      GainsAt(ex, cols, init, target, lg, i);
    }
  }

  /** The last gain is that of the last attribute; the others are the gains of the
      attributes before it. */
  lemma GainsLast(ex: Table, cols: set<string>, attrs: seq<string>, target: string, lg: real -> real)
    requires Rect(ex, cols) && target in cols && OutcomeColumn in cols
    requires forall a :: a in attrs ==> a in cols
    requires |ex| > 0 && |attrs| > 0
    ensures forall a :: a in attrs[..|attrs| - 1] ==> a in attrs
    ensures var n := |attrs|; var gs := Gains(ex, cols, attrs, target, lg);
      attrs[n - 1] in cols &&
      gs == Gains(ex, cols, attrs[..n - 1], target, lg) + [GainValue(ex, attrs[n - 1], target, lg)]
  {
    assert attrs[|attrs| - 1] in attrs;
  }

  /** The attribute dtLearn splits on: the first one of maximal gain. */
  function Best(gains: seq<real>, attrs: seq<string>): (r: string)
    requires |gains| == |attrs| > 0
    ensures r in attrs
  {
    attrs[IndexOf(gains, Max(gains))]
  }

  /** `dtLearn(examples, attributes, target_atr_name, parent_examples)` with global table
      `data`, started in state st: the tree it returns and the state it leaves. */
  function Learn(data: Table, cols: set<string>, ex: Table, st: State, target: string, parent: Table,
                 flips: nat -> bool, lg: real -> real): (b: Built)
    requires Ready(data, cols, ex, parent, st.attrs, target)
    ensures |b.st.attrs| <= |st.attrs|
    ensures forall a :: a in b.st.attrs ==> a in st.attrs
    decreases |st.attrs|, 0, 0
  {
    if |ex| == 0 then
      var t := Plurality(Column(parent, target), flips, st.drawn);
      Built(NewNode(None, t.leader), State(st.attrs, t.drawn))
    else if |Distinct(Column(ex, target))| == 1 then
      Built(NewNode(None, Some(ex[0][target])), st)
    else if |st.attrs| == 0 then
      var t := Plurality(Column(ex, target), flips, st.drawn);
      Built(NewNode(None, t.leader), State(st.attrs, t.drawn))
    else
      var best := Best(Gains(ex, cols, st.attrs, target, lg), st.attrs);
      LearnChildren(data, cols, ex, best, Distinct(Column(data, best)), NewNode(Some(best), None),
                    State(RemoveFirst(st.attrs, best), st.drawn), target, flips, lg)
  }

  /** The loop `for val in set(data[best])` of dtLearn, over the values `vals` still to
      visit, adding the children to `root`: each child is learned from the examples with
      that value, with the current examples as its parent examples. */
  function LearnChildren(data: Table, cols: set<string>, ex: Table, best: string, vals: seq<string>,
                         root: Tree, st: State, target: string, flips: nat -> bool, lg: real -> real): (b: Built)
    requires Ready(data, cols, ex, ex, st.attrs, target) && best in cols
    requires root.Decision? && NoDup(Keys(root.children))
    ensures |b.st.attrs| <= |st.attrs|
    ensures forall a :: a in b.st.attrs ==> a in st.attrs
    ensures b.tree.Decision? && b.tree.attr == root.attr
    decreases |st.attrs|, 1, |vals|
  {
    if vals == [] then Built(root, st)
    else
      var v := vals[0];
      var c := Learn(data, cols, Select(ex, best, v), st, target, ex, flips, lg);
      var cs := AddChild(root.children, v, c.tree);
      LearnChildren(data, cols, ex, best, vals[1..], Decision(root.attr, cs), c.st, target, flips, lg)
  }

  /** The tree of a fresh leaf (or blank) node has no decision attribute. */
  lemma NewLeafAttrs(output: Option<string>)
    ensures DecisionAttrs(NewNode(None, output)) == []
  {
  }

  /** `root.addChild(val, child)` for a value not yet among the keys appends the branch,
      and the child's decision attributes follow those of root. */
  lemma AddBranch(a: string, cs: seq<(string, Tree)>, v: string, c: Tree)
    requires NoDup(Keys(cs)) && v !in Keys(cs)
    ensures AddChild(cs, v, c) == cs + [(v, c)]
    ensures DecisionAttrs(Decision(a, AddChild(cs, v, c))) == DecisionAttrs(Decision(a, cs)) + DecisionAttrs(c)
  {
    DecisionAttrsOf(a, cs);
    DecisionAttrsOf(a, cs + [(v, c)]);
    BranchAttrsAppend(cs, v, c);
  }

  /** Every attribute leaves the shared list only to label one decision node: the list
      before a call is the list after it plus the decision attributes of the tree built. */
  lemma {:induction false} LearnAccounts(data: Table, cols: set<string>, ex: Table, st: State, target: string,
                                         parent: Table, flips: nat -> bool, lg: real -> real)
    requires Ready(data, cols, ex, parent, st.attrs, target)
    ensures var b := Learn(data, cols, ex, st, target, parent, flips, lg);
      multiset(st.attrs) == multiset(b.st.attrs) + multiset(DecisionAttrs(b.tree))
    decreases |st.attrs|, 0, 0
  {
    if |ex| == 0 {
      NewLeafAttrs(Plurality(Column(parent, target), flips, st.drawn).leader);
    } else if |Distinct(Column(ex, target))| == 1 {
      NewLeafAttrs(Some(ex[0][target]));
    } else if |st.attrs| == 0 {
      NewLeafAttrs(Plurality(Column(ex, target), flips, st.drawn).leader);
    } else {
      var best := Best(Gains(ex, cols, st.attrs, target, lg), st.attrs);
      var rest := RemoveFirst(st.attrs, best);
      var root := NewNode(Some(best), None);
      DecisionAttrsOf(best, []);
      assert DecisionAttrs(root) == [best];
      ChildrenAccount(data, cols, ex, best, Distinct(Column(data, best)), root, State(rest, st.drawn), target, flips, lg);
    }
  }

  /** The loop over the values keeps the same account. */
  lemma {:induction false} ChildrenAccount(data: Table, cols: set<string>, ex: Table, best: string, vals: seq<string>,
                                           root: Tree, st: State, target: string, flips: nat -> bool, lg: real -> real)
    requires Ready(data, cols, ex, ex, st.attrs, target) && best in cols
    requires root.Decision? && NoDup(Keys(root.children))
    requires NoDup(vals) && forall v :: v in vals ==> v !in Keys(root.children)
    ensures var b := LearnChildren(data, cols, ex, best, vals, root, st, target, flips, lg);
      multiset(st.attrs) + multiset(DecisionAttrs(root)) == multiset(b.st.attrs) + multiset(DecisionAttrs(b.tree))
    decreases |st.attrs|, 1, |vals|
  {
    if vals != [] {
      var v := vals[0];
      var c := Learn(data, cols, Select(ex, best, v), st, target, ex, flips, lg);
      LearnAccounts(data, cols, Select(ex, best, v), st, target, ex, flips, lg);
      AddBranch(root.attr, root.children, v, c.tree);
      var root' := Decision(root.attr, AddChild(root.children, v, c.tree));
      NextValues(root.children, v, c.tree, vals);
      ChildrenAccount(data, cols, ex, best, vals[1..], root', c.st, target, flips, lg);
    }
  }

  /** The loop adds one branch per value, in the order of the values. */
  lemma {:induction false} ChildrenKeys(data: Table, cols: set<string>, ex: Table, best: string, vals: seq<string>,
                                        root: Tree, st: State, target: string, flips: nat -> bool, lg: real -> real)
    requires Ready(data, cols, ex, ex, st.attrs, target) && best in cols
    requires root.Decision? && NoDup(Keys(root.children))
    requires NoDup(vals) && forall v :: v in vals ==> v !in Keys(root.children)
    ensures Keys(LearnChildren(data, cols, ex, best, vals, root, st, target, flips, lg).tree.children)
      == Keys(root.children) + vals
    decreases |vals|
  {
    if vals == [] {
      assert Keys(root.children) + vals == Keys(root.children);
    } else {
      var v := vals[0];
      var c := Learn(data, cols, Select(ex, best, v), st, target, ex, flips, lg);
      var root' := Decision(root.attr, AddChild(root.children, v, c.tree));
      NextValues(root.children, v, c.tree, vals);
      ChildrenKeys(data, cols, ex, best, vals[1..], root', c.st, target, flips, lg);
    }
  }

  /** After the branch for the first value is added, the remaining values are still new. */
  lemma NextValues(cs: seq<(string, Tree)>, v: string, c: Tree, vals: seq<string>)
    requires NoDup(Keys(cs)) && NoDup(vals) && |vals| > 0 && v == vals[0]
    requires forall u :: u in vals ==> u !in Keys(cs)
    ensures var cs' := AddChild(cs, v, c);
      NoDup(vals[1..]) && (forall u :: u in vals[1..] ==> u !in Keys(cs')) &&
      Keys(cs') + vals[1..] == Keys(cs) + vals
  {
    var cs' := AddChild(cs, v, c);
    assert Keys(cs') == Keys(cs) + [v];
    forall u | u in vals[1..] ensures u !in Keys(cs') {
      var k :| 1 <= k < |vals| && vals[k] == u;
      assert vals[0] != vals[k];
    }
    assert vals == [v] + vals[1..];
    assert Keys(cs') + vals[1..] == Keys(cs) + ([v] + vals[1..]);
  }

  /** No attribute labels two decision nodes of a learned tree, the tree has at most as many
      decision nodes as the list had attributes, and the attributes it uses are gone from
      the list. */
  lemma NoAttributeReused(data: Table, cols: set<string>, ex: Table, st: State, target: string,
                          parent: Table, flips: nat -> bool, lg: real -> real)
    requires Ready(data, cols, ex, parent, st.attrs, target)
    requires NoDup(st.attrs)
    ensures var b := Learn(data, cols, ex, st, target, parent, flips, lg);
      NoDup(DecisionAttrs(b.tree)) && |DecisionAttrs(b.tree)| <= |st.attrs| &&
      forall a :: a in DecisionAttrs(b.tree) ==> a in st.attrs && a !in b.st.attrs
  {
    var b := Learn(data, cols, ex, st, target, parent, flips, lg);
    var used := DecisionAttrs(b.tree);
    LearnAccounts(data, cols, ex, st, target, parent, flips, lg);
    NoDupSub(used, st.attrs);
    NoDupMultiset(st.attrs);
    forall a | a in used ensures a in st.attrs && a !in b.st.attrs {
      assert multiset(st.attrs)[a] == multiset(b.st.attrs)[a] + multiset(used)[a];
    }
  }

  /** Empty examples: a leaf holding a most common target value of the parent examples,
      or the blank node when those are empty too; the attribute list is untouched. */
  lemma LearnEmpty(data: Table, cols: set<string>, ex: Table, st: State, target: string,
                   parent: Table, flips: nat -> bool, lg: real -> real)
    requires Ready(data, cols, ex, parent, st.attrs, target)
    requires |ex| == 0
    ensures var b := Learn(data, cols, ex, st, target, parent, flips, lg);
      var col := Column(parent, target);
      b.st.attrs == st.attrs &&
      (|parent| == 0 <==> b.tree == Blank) &&
      (|parent| > 0 ==>
        b.tree.Leaf? && b.tree.out in col && forall v :: v in col ==> Count(col, v) <= Count(col, b.tree.out))
  {
    PluralityIsMax(Column(parent, target), flips, st.drawn);
  }

  /** Examples that all share one target value: the leaf of that value, nothing else
      changes. */
  lemma LearnUniform(data: Table, cols: set<string>, ex: Table, st: State, target: string,
                     parent: Table, flips: nat -> bool, lg: real -> real)
    requires Ready(data, cols, ex, parent, st.attrs, target)
    requires |ex| > 0 && forall i :: 0 <= i < |ex| ==> ex[i][target] == ex[0][target]
    ensures Learn(data, cols, ex, st, target, parent, flips, lg) == Built(Leaf(ex[0][target]), st)
  {
    SingleDistinct(Column(ex, target));
  }

  /** Mixed examples and no attribute left: a leaf holding a most common target value of
      the examples. */
  lemma LearnNoAttributes(data: Table, cols: set<string>, ex: Table, st: State, target: string,
                          parent: Table, flips: nat -> bool, lg: real -> real)
    requires Ready(data, cols, ex, parent, st.attrs, target)
    requires |ex| > 0 && exists i :: 0 <= i < |ex| && ex[i][target] != ex[0][target]
    requires st.attrs == []
    ensures var b := Learn(data, cols, ex, st, target, parent, flips, lg);
      var col := Column(ex, target);
      b.st.attrs == [] && b.tree.Leaf? && b.tree.out in col &&
      forall v :: v in col ==> Count(col, v) <= Count(col, b.tree.out)
  {
    SingleDistinct(Column(ex, target));
    PluralityIsMax(Column(ex, target), flips, st.drawn);
  }

  /** Examples with more than one target value and some attribute left: a decision node on
      the best attribute (BestIsFirstMax), with one branch per distinct value of that
      attribute in the whole table, in enumeration order; the list has lost at least that
      attribute. */
  lemma LearnSplit(data: Table, cols: set<string>, ex: Table, st: State, target: string,
                   parent: Table, flips: nat -> bool, lg: real -> real)
    requires Ready(data, cols, ex, parent, st.attrs, target)
    requires |Distinct(Column(ex, target))| > 1
    requires |st.attrs| > 0
    ensures var b := Learn(data, cols, ex, st, target, parent, flips, lg);
      b.tree.Decision? && b.tree.attr == Best(Gains(ex, cols, st.attrs, target, lg), st.attrs) &&
      |b.st.attrs| < |st.attrs| &&
      Keys(b.tree.children) == Distinct(Column(data, b.tree.attr))
  {
    var best := Best(Gains(ex, cols, st.attrs, target, lg), st.attrs);
    SplitUnfolds(data, cols, ex, st, target, parent, flips, lg);
    var vals := Distinct(Column(data, best));
    var root := NewNode(Some(best), None);
    assert Keys(root.children) == [];
    ChildrenKeys(data, cols, ex, best, vals, root, State(RemoveFirst(st.attrs, best), st.drawn), target, flips, lg);
    assert [] + vals == vals;
  }

  /** The best attribute is `attributes[infoGains.index(max(infoGains))]`: the one at the
      first index whose gain is maximal. */
  lemma BestIsFirstMax(gains: seq<real>, attrs: seq<string>)
    requires |gains| == |attrs| > 0
    ensures exists i ::
      0 <= i < |attrs| && Best(gains, attrs) == attrs[i] &&
      (forall j :: 0 <= j < |gains| ==> gains[j] <= gains[i]) &&
      (forall j :: 0 <= j < i ==> gains[j] < gains[i])
  {
    var m := Max(gains);
    var i := IndexOf(gains, m);
    assert Best(gains, attrs) == attrs[i];
    forall j | 0 <= j < i ensures gains[j] < gains[i] {
      assert gains[j] != m && gains[j] <= m;
    }
  }

  /** In the split case the call is the loop over the values of the best attribute. */
  lemma SplitUnfolds(data: Table, cols: set<string>, ex: Table, st: State, target: string,
                     parent: Table, flips: nat -> bool, lg: real -> real)
    requires Ready(data, cols, ex, parent, st.attrs, target)
    requires |Distinct(Column(ex, target))| > 1
    requires |st.attrs| > 0
    ensures var best := Best(Gains(ex, cols, st.attrs, target, lg), st.attrs);
      best in cols &&
      Learn(data, cols, ex, st, target, parent, flips, lg)
        == LearnChildren(data, cols, ex, best, Distinct(Column(data, best)), Decision(best, []),
                         State(RemoveFirst(st.attrs, best), st.drawn), target, flips, lg)
  {
  }

  /** A tree learned from a non-empty table, with non-empty examples or parent examples,
      has no blank node and a branch under every decision node. */
  lemma {:induction false} LearnWellFormed(data: Table, cols: set<string>, ex: Table, st: State, target: string,
                                           parent: Table, flips: nat -> bool, lg: real -> real)
    requires Ready(data, cols, ex, parent, st.attrs, target)
    requires |data| > 0 && (|ex| > 0 || |parent| > 0)
    ensures WellFormed(Learn(data, cols, ex, st, target, parent, flips, lg).tree)
    decreases |st.attrs|, 0, 0
  {
    if |ex| == 0 {
      PluralityIsMax(Column(parent, target), flips, st.drawn);
    } else if |Distinct(Column(ex, target))| == 1 {
    } else if |st.attrs| == 0 {
      PluralityIsMax(Column(ex, target), flips, st.drawn);
    } else {
      var best := Best(Gains(ex, cols, st.attrs, target, lg), st.attrs);
      var vals := Distinct(Column(data, best));
      assert Column(data, best)[0] in vals;
      assert Keys([]) == [];
      ChildrenWellFormed(data, cols, ex, best, vals, NewNode(Some(best), None),
                         State(RemoveFirst(st.attrs, best), st.drawn), target, flips, lg);
    }
  }

  lemma {:induction false} ChildrenWellFormed(data: Table, cols: set<string>, ex: Table, best: string, vals: seq<string>,
                                              root: Tree, st: State, target: string, flips: nat -> bool, lg: real -> real)
    requires Ready(data, cols, ex, ex, st.attrs, target) && best in cols
    requires root.Decision? && NoDup(Keys(root.children))
    requires NoDup(vals) && forall v :: v in vals ==> v !in Keys(root.children)
    requires |data| > 0 && |ex| > 0
    requires |root.children| + |vals| > 0 && forall i :: 0 <= i < |root.children| ==> WellFormed(root.children[i].1)
    ensures WellFormed(LearnChildren(data, cols, ex, best, vals, root, st, target, flips, lg).tree)
    decreases |st.attrs|, 1, |vals|
  {
    if vals != [] {
      var v := vals[0];
      var c := Learn(data, cols, Select(ex, best, v), st, target, ex, flips, lg);
      LearnWellFormed(data, cols, Select(ex, best, v), st, target, ex, flips, lg);
      AddBranch(root.attr, root.children, v, c.tree);
      var root' := Decision(root.attr, AddChild(root.children, v, c.tree));
      NextValues(root.children, v, c.tree, vals);
      assert forall i :: 0 <= i < |root'.children| ==> WellFormed(root'.children[i].1);
      ChildrenWellFormed(data, cols, ex, best, vals[1..], root', c.st, target, flips, lg);
    }
  }

  /** Every decision node has one branch per distinct value of its attribute in the whole
      table `data`, in enumeration order, whichever examples reached it. */
  predicate Complete(t: Tree, data: Table) {
    match t
    case Decision(a, cs) =>
      HasColumn(data, a) && Keys(cs) == Distinct(Column(data, a)) &&
      forall i :: 0 <= i < |cs| ==> Complete(cs[i].1, data)
    case _ => true
  }

  /** Every decision node of a learned tree is complete: values of the split attribute
      that no example reaching the node has get a branch too, learned from no examples. */
  lemma {:induction false} LearnComplete(data: Table, cols: set<string>, ex: Table, st: State, target: string,
                                         parent: Table, flips: nat -> bool, lg: real -> real)
    requires Ready(data, cols, ex, parent, st.attrs, target)
    ensures Complete(Learn(data, cols, ex, st, target, parent, flips, lg).tree, data)
    decreases |st.attrs|, 0, 0
  {
    if |ex| > 0 && |Distinct(Column(ex, target))| != 1 && |st.attrs| > 0 {
      var best := Best(Gains(ex, cols, st.attrs, target, lg), st.attrs);
      var vals := Distinct(Column(data, best));
      assert Keys([]) + vals == vals;
      ChildrenComplete(data, cols, ex, best, vals, NewNode(Some(best), None),
                       State(RemoveFirst(st.attrs, best), st.drawn), target, flips, lg);
    }
  }

  lemma {:induction false} ChildrenComplete(data: Table, cols: set<string>, ex: Table, best: string, vals: seq<string>,
                                            root: Tree, st: State, target: string, flips: nat -> bool, lg: real -> real)
    requires Ready(data, cols, ex, ex, st.attrs, target) && best in cols
    requires root.Decision? && root.attr == best && NoDup(Keys(root.children))
    requires NoDup(vals) && forall v :: v in vals ==> v !in Keys(root.children)
    requires HasColumn(data, best) && Keys(root.children) + vals == Distinct(Column(data, best))
    requires forall i :: 0 <= i < |root.children| ==> Complete(root.children[i].1, data)
    ensures Complete(LearnChildren(data, cols, ex, best, vals, root, st, target, flips, lg).tree, data)
    decreases |st.attrs|, 1, |vals|
  {
    if vals == [] {
      assert Keys(root.children) + vals == Keys(root.children);
    } else {
      var v := vals[0];
      var c := Learn(data, cols, Select(ex, best, v), st, target, ex, flips, lg);
      LearnComplete(data, cols, Select(ex, best, v), st, target, ex, flips, lg);
      AddBranch(root.attr, root.children, v, c.tree);
      var root' := Decision(root.attr, AddChild(root.children, v, c.tree));
      NextValues(root.children, v, c.tree, vals);
      assert forall i :: 0 <= i < |root'.children| ==> Complete(root'.children[i].1, data);
      ChildrenComplete(data, cols, ex, best, vals[1..], root', c.st, target, flips, lg);
    }
  }

  /** The script's last line, `dtLearn(data, attributes, target, data).print()`, prints
      exactly when the table is non-empty; on an empty table the learner returns the blank
      node `Node(None, None)`, whose printing raises. */
  lemma PrintsIffNonEmpty(data: Table, cols: set<string>, attrs: seq<string>, target: string, d0: nat,
                          flips: nat -> bool, lg: real -> real, layout: Layout)
    requires Ready(data, cols, data, data, attrs, target)
    ensures var t := Learn(data, cols, data, State(attrs, d0), target, data, flips, lg).tree;
      Lines(t, 0, layout).Success? <==> |data| > 0
  {
    var t := Learn(data, cols, data, State(attrs, d0), target, data, flips, lg).tree;
    if |data| > 0 {
      LearnWellFormed(data, cols, data, State(attrs, d0), target, data, flips, lg);
    } else {
      LearnEmpty(data, cols, data, State(attrs, d0), target, data, flips, lg);
    }
    PrintsIffWellFormed(t, 0, layout);
  }

  /** `[infoGain(atr_name, target_atr_name, examples) for atr_name in attributes]`. */
  method InfoGains(ex: Table, cols: set<string>, attrs: seq<string>, target: string, lg: real -> real)
    returns (gains: seq<real>)
    requires Rect(ex, cols) && target in cols && OutcomeColumn in cols
    requires forall a :: a in attrs ==> a in cols
    requires |ex| > 0
    ensures gains == Gains(ex, cols, attrs, target, lg)
  {
    gains := [];
    assert attrs[..0] == [];
    for i := 0 to |attrs|
      invariant gains == Gains(ex, cols, attrs[..i], target, lg)
    {
      var g := InfoGain(attrs[i], target, ex, lg);
      GainsSnoc(ex, cols, attrs, i, target, lg);
      gains := gains + [g.value];
    }
    assert attrs[..|attrs|] == attrs;
  }

  /** One more gain at the end of the list. */
  lemma GainsSnoc(ex: Table, cols: set<string>, attrs: seq<string>, i: nat, target: string, lg: real -> real)
    requires Rect(ex, cols) && target in cols && OutcomeColumn in cols
    requires forall a :: a in attrs ==> a in cols
    requires |ex| > 0 && i < |attrs|
    ensures forall a :: a in attrs[..i + 1] ==> a in attrs
    ensures Gains(ex, cols, attrs[..i + 1], target, lg)
      == Gains(ex, cols, attrs[..i], target, lg) + [GainValue(ex, attrs[i], target, lg)]
  {
    assert forall a :: a in attrs[..i + 1] ==> a in attrs;
    assert attrs[..i + 1][..i] == attrs[..i];
  }

  /** `dtLearn(examples, attributes, target_atr_name, parent_examples)`, with the global
      table `data` as a parameter, the shared list `attributes` and the random module
      `coins`. */
  method DtLearn(data: Table, cols: set<string>, examples: Table, attributes: AttributeList, target: string,
                 parentExamples: Table, coins: Coins, lg: real -> real) returns (t: Tree)
    requires Ready(data, cols, examples, parentExamples, attributes.items, target)
    modifies attributes, coins
    ensures var b := Learn(data, cols, examples, State(old(attributes.items), old(coins.drawn)), target,
                           parentExamples, coins.flips, lg);
      t == b.tree && attributes.items == b.st.attrs && coins.drawn == b.st.drawn
    decreases |attributes.items|, 0
  {
    if |examples| == 0 {
      var v := PluralityValue(target, parentExamples, coins);
      return NewNode(None, v);
    } else if |Distinct(Column(examples, target))| == 1 {
      return NewNode(None, Some(examples[0][target]));
    } else if |attributes.items| == 0 {
      var v := PluralityValue(target, examples, coins);
      return NewNode(None, v);
    }
    ghost var st := State(attributes.items, coins.drawn);
    var infoGains := InfoGains(examples, cols, attributes.items, target, lg);
    var maxGainIdx := IndexOf(infoGains, Max(infoGains));
    var optimalAtrName := attributes.items[maxGainIdx];
    var root := NewNode(Some(optimalAtrName), None);
    attributes.Remove(optimalAtrName);
    SplitUnfolds(data, cols, examples, st, target, parentExamples, coins.flips, lg);
    t := AddChildren(data, cols, examples, optimalAtrName, Distinct(Column(data, optimalAtrName)), root,
                     attributes, target, coins, lg);
  }

  /** The loop `for val in set(data[optimalAtrName])` of dtLearn: learn the child of each
      value from the examples with that value, and add it to root. */
  method AddChildren(data: Table, cols: set<string>, examples: Table, best: string, vals: seq<string>,
                     root: Tree, attributes: AttributeList, target: string, coins: Coins, lg: real -> real)
    returns (t: Tree)
    requires Ready(data, cols, examples, examples, attributes.items, target) && best in cols
    requires root.Decision? && NoDup(Keys(root.children))
    modifies attributes, coins
    ensures var b := LearnChildren(data, cols, examples, best, vals, root, State(old(attributes.items), old(coins.drawn)),
                                   target, coins.flips, lg);
      t == b.tree && attributes.items == b.st.attrs && coins.drawn == b.st.drawn
    decreases |attributes.items|, 1
  {
    ghost var rest := attributes.items;
    ghost var goal := LearnChildren(data, cols, examples, best, vals, root, State(rest, coins.drawn),
                                    target, coins.flips, lg);
    t := root;
    for i := 0 to |vals|
      invariant t.Decision? && NoDup(Keys(t.children))
      invariant |attributes.items| <= |rest|
      invariant forall a :: a in attributes.items ==> a in rest
      invariant LearnChildren(data, cols, examples, best, vals[i..], t,
                              State(attributes.items, coins.drawn), target, coins.flips, lg) == goal
    {
      var val := vals[i];
      var exampleSubset := Select(examples, best, val);
      var child := DtLearn(data, cols, exampleSubset, attributes, target, examples, coins, lg);
      t := Decision(t.attr, AddChild(t.children, val, child));
      assert vals[i..][1..] == vals[i + 1..];
    }
    assert vals[|vals|..] == [];
  }
}
