# ID3 decision-tree learner (DTLearn.py) in Dafny

DTLearn.py learns a decision tree from a table of restaurant examples, ID3 style, and
prints it. This project models its core:

- the tree (`class Node`, with `addChild`);
- the binary `entropy` and the information gain `infoGain` of an attribute;
- the plurality vote `pluralityValue`, which breaks ties with `random.choice`;
- the recursive learner `dtLearn`. It shares one attribute list across the whole
  recursion, and it takes the values of each split from the global table `data`;
- the printer `Node.print`;
- the script's last line, which learns from the whole table and prints the result.

Modules, one per file:

- `Seqs` (seqs.dfy): the Python built-ins the code relies on. These are `list.count`,
  the enumeration of a `set`, `list.remove`, `max` and `list.index`.
- `Tables` (tables.dfy): the DataFrame, a sequence of rows. Each row maps a column name
  to its cell. This module also has column access and row selection `t[t[c] == v]`.
- `Nodes` (nodes.dfy): the tree. `Leaf`, `Decision` and `Blank` are the three kinds of
  `Node` the program builds. This module also has `Node(...)` and `addChild`.
- `Rendering` (rendering.dfy): `Node.print` as the function
  from a tree and an indentation to the lines it prints.
- `PrintDrift` (printdrift.dfy): a three-level example that shows the indentation defect
  described under Findings.
- `Scoring` (scoring.dfy): `entropy` and `infoGain`. The loop of `infoGain` is a method
  proved against a recursive specification.
- `Voting` (voting.dfy): `pluralityValue` as a method over a coin stream `Coins`, proved
  against the function `Plurality`.
- `Learning` (learning.dfy): `dtLearn`. The method `DtLearn` mutates the shared
  `AttributeList` and the `Coins`. It is proved equal to the function `Learn`, which
  threads the list and the coin counter as a `State`. The whole-tree properties are
  proved about `Learn`.

Python `set` iteration order is modelled as order of first occurrence (`Distinct`). The
results depend on that order in more ways than ties. The order of the branches follows
it. The shared attribute list also makes the shape of the tree follow it: the first
value of a split may take an attribute that its siblings then no longer see. The random
choices and `index(max(...))` depend on it too.

## Model

| member | source | states |
|---|---|---|
| Seqs.Count | DTLearn.py:115 | `list.count(x)` is at most the length, and it is positive exactly when x occurs; CountMultiset fixes its value |
| Seqs.CountMultiset | DTLearn.py:115 | `list.count(x)` is the number of occurrences of x: its multiplicity in the list |
| Seqs.Distinct | DTLearn.py:79 | the enumeration of `set(s)` has no duplicates and holds exactly the elements of s |
| Seqs.RemoveFirst | DTLearn.py:144 | `list.remove(x)` shortens the list by one, removes one copy of x and keeps every other element |
| Seqs.RemoveFirstAt | DTLearn.py:144 | `list.remove(x)` deletes exactly the element at `list.index(x)`, the first x, and keeps the others in their order |
| Seqs.Max | DTLearn.py:141 | `max(s)` is an element of s and bounds every element |
| Seqs.IndexOf | DTLearn.py:141 | `s.index(x)` is the first position holding x |
| Seqs.SingleDistinct | DTLearn.py:134 | `len(set(s)) == 1` exactly when s is non-empty and all its elements equal the first |
| Tables.Select | DTLearn.py:81 | `t[t[c] == v]` keeps exactly the rows whose cell in c is v, and is no longer than t |
| Tables.SelectMultiset | DTLearn.py:81 | `t[t[c] == v]` holds every row whose cell in c is v exactly as many times as t does, and no other row |
| Tables.SelectCount | DTLearn.py:81 | the selected subset has as many rows as column c has cells equal to v |
| Tables.Column | DTLearn.py:79 | `t[c]`: the cells of column c, one per row, in row order (a definition; Select, SelectCount and Positives state what is read from it) |
| Nodes.NewNode | DTLearn.py:14-17 | a new node is a leaf exactly when `output` is not None; otherwise a decision node without children; blank exactly when both arguments are None |
| Nodes.AddChild | DTLearn.py:19-20 | `children[v] = child`: keys stay duplicate-free, the dict becomes the old dict updated at v, an existing key keeps its place and a new key goes last |
| Rendering.MaxKeyLen | DTLearn.py:28 | `maxValueLen` bounds the length of every key and is the length of some key |
| Rendering.PadRight | DTLearn.py:30 | `f"{key:<{w}}"` is as long as the key, and at least w long |
| Rendering.Prefix | DTLearn.py:30 | `outputText` is base + 4 spaces, the key padded to the widest key, and two spaces: base + 6 + max(len(key), width) characters |
| Rendering.ChildIndent | DTLearn.py:32 | the indentation handed to a child is at least the length of `outputText`, and equal to it exactly under the corrected rule or at base 0 |
| Rendering.ChildBase | DTLearn.py:30-32 | under the corrected rule a child starts at base + 6 + max(len(key), width), the column after `outputText`; as written it is given 2 * base + 6 + max(len(key), width), counting the base twice |
| Rendering.Assemble | DTLearn.py:26-32 | a decision node prints only when every branch prints, and then one line per node of the subtree |
| Rendering.Lines | DTLearn.py:22-32 | a node that prints writes exactly one line per node of its subtree |
| Rendering.ChildLines | DTLearn.py:29-32 | the output of the children, one per branch, each of the child's size |
| Rendering.PrintsIffWellFormed | DTLearn.py:23-28 | printing succeeds exactly on trees without a blank node and without a decision node lacking branches (`max` of an empty list raises) |
| Rendering.PrefixShift | DTLearn.py:30 | the branch prefix at base + d is the prefix at base with d more leading spaces |
| Rendering.ShiftAssemble | DTLearn.py:26-32 | children shifted by d under prefixes shifted by d give a node output whose every line after the first is shifted by d |
| Rendering.ChildShift | DTLearn.py:30-32 | with aligned indentation, a parent moved d columns right moves each child's indentation by exactly d |
| Rendering.DecisionShift | DTLearn.py:26-32 | a decision node whose children shift by d shifts by d |
| Rendering.AlignedShift | DTLearn.py:30-32 | with the corrected indentation a subtree prints the same wherever it is placed: its first line is unchanged and every further line moves right by the extra indentation |
| PrintDrift.SingleBranch | DTLearn.py:26-32 | a one-branch node prints its label line, then base + 4 spaces, the key, two spaces and the child's first line, then the child's other lines |
| PrintDrift.PrintC | DTLearn.py:22-32 | the exact output of a node with a single leaf branch at any indentation |
| PrintDrift.PrintB | DTLearn.py:22-32 | the exact output of a two-level chain at any indentation |
| PrintDrift.PrintChain | DTLearn.py:22-32 | the exact output of a three-level chain, for either indentation rule |
| PrintDrift.AsWrittenDrift | DTLearn.py:32 | as written, the third branch line starts at column 25 although its node's label starts at column 14, so the branch is not 4 columns in from its node |
| PrintDrift.AlignedChain | DTLearn.py:30-32 | with corrected indentation each branch line starts 4 columns right of where its node's label starts |
| Scoring.Entropy | DTLearn.py:53-59 | only (0, 0) raises the "Both p and n cannot be 0" error; exactly 0.0 when one count is zero; non-negative counts never fail otherwise; two positive counts give the binary entropy of p/(p+n) |
| Scoring.Binary | DTLearn.py:59 | `-(q*log2(q) + (1-q)*log2(1-q))` with log2 as the parameter lg (a definition; BinarySymmetric, EntropySymmetric and EntropyFairCoin state its properties) |
| Scoring.EntropySymmetric | DTLearn.py:53-59 | swapping positives and negatives changes neither the entropy nor whether it fails |
| Scoring.EntropyScale | DTLearn.py:56 | the entropy depends only on the ratio of the counts |
| Scoring.EntropyFairCoin | DTLearn.py:67 | entropy(1, 1) is 1 when log2(0.5) is -1 |
| Scoring.Positives | DTLearn.py:74 | `p` is the number of target cells equal to "Yes" and at most the number of examples |
| Scoring.PartFor | DTLearn.py:81-82 | the size and positive count read from one subset satisfy pk <= size <= number of examples |
| Scoring.PositivesSnoc | DTLearn.py:82 | one more row adds one positive exactly when its cell is "Yes" |
| Scoring.PartForSelect | DTLearn.py:81-82 | the counts are `len(subset)` and the number of "Yes" in the subset's WillWait column, for `subset = examples[examples[atr] == v]` |
| Scoring.PartForCount | DTLearn.py:81 | the subset for v has as many rows as the attribute column has cells v |
| Scoring.PartForAll | DTLearn.py:81-82 | when every example has value v, the subset for v is the whole table |
| Scoring.Parts | DTLearn.py:80-82 | one part per visited value, each within the table |
| Scoring.PartsAt | DTLearn.py:80-82 | the i-th part is the subset of the i-th value |
| Scoring.Share | DTLearn.py:86 | an empty subset or a zero entropy contributes nothing; the whole table contributes its entropy unweighted |
| Scoring.Accumulate | DTLearn.py:83-86 | one turn of the loop: an empty subset leaves the remainder unchanged (`continue`), and the entropy of a non-empty subset cannot raise |
| Scoring.Remainder | DTLearn.py:78-86 | the remainder after the loop has visited the given subsets in order (a definition; RemainderLoop, RemainderPure and RemainderBalanced state its properties) |
| Scoring.AddSubset | DTLearn.py:81-86 | one turn of the loop: an empty subset leaves the remainder unchanged, otherwise len(subset)/len(examples) times the subset's entropy is added |
| Scoring.Minus | DTLearn.py:88-89 | `initialE - remainder` fails exactly when `entropy(p, n)` raised, with the same error |
| Scoring.Gain | DTLearn.py:72-89 | `infoGain` raises exactly on empty examples, and then it is the ValueError of entropy(0, 0) |
| Scoring.SizesCount | DTLearn.py:79-81 | the sizes of the subsets of any enumeration of values add up to the counts of those values |
| Scoring.Partition | DTLearn.py:79-84 | the subsets infoGain visits are non-empty, each has 0 <= pk <= size, and their sizes add up to the number of examples; so the `continue` is never taken |
| Scoring.RemainderPure | DTLearn.py:80-86 | subsets each of one outcome leave a remainder of 0.0 |
| Scoring.PureSplitGain | DTLearn.py:72-89 | an attribute whose every value singles out one outcome gains the whole initial entropy |
| Scoring.ConstantParts | DTLearn.py:79-82 | an attribute with one value yields a single subset, the whole table |
| Scoring.ConstantAttributeGain | DTLearn.py:72-89 | an attribute with the same value in every example gains exactly 0.0 when the target is WillWait |
| Scoring.PartEntropy | DTLearn.py:82-86 | a subset with the whole table's ratio of "Yes" outcomes has the whole table's entropy |
| Scoring.RemainderBalanced | DTLearn.py:78-86 | when every non-empty subset has entropy e, the remainder is e weighted by the share of the examples the subsets cover |
| Scoring.BalancedRemainder | DTLearn.py:78-86 | when every subset has the whole table's ratio of "Yes" outcomes, the remainder equals the initial entropy |
| Scoring.BalancedGain | DTLearn.py:72-96 | an attribute whose every subset has the whole table's ratio of "Yes" outcomes gains exactly 0.0 whatever log2 is, the expectation written beside infoGain for `infoGain('Type', 'WillWait', data)` |
| Scoring.RemainderLoop | DTLearn.py:78-86 | the loop computes the remainder over the visited values, skipping empty subsets |
| Scoring.InfoGain | DTLearn.py:72-89 | `infoGain` equals the specification `Gain`: initial entropy minus remainder, or the ValueError on empty examples |
| Voting.Coins.constructor | DTLearn.py:101 | a fresh coin stream has drawn nothing |
| Voting.Coins.Choose | DTLearn.py:120 | `random.choice([a, b])` returns the pick of the next coin and draws exactly one coin |
| Voting.Step | DTLearn.py:115-120 | one turn never lowers the running maximum, and draws a coin only on a tie |
| Voting.Vote | DTLearn.py:112-120 | after visiting some values at most one coin per value has been drawn, and without a leader the maximum is still 0 |
| Voting.VoteInvariant | DTLearn.py:112-120 | the leader is a visited value of maximal count, every visited value's count is at most the maximum, a positive maximum has a leader, and at most one coin is drawn per value |
| Voting.Plurality | DTLearn.py:109-122 | `pluralityValue` is the loop run over the enumeration of the target values (a definition; PluralityIsMax and StrictWinner state its properties) |
| Voting.PluralityIsMax | DTLearn.py:109-122 | on non-empty examples the result is a present target value whose count is at least every other's; on empty examples it is None and no coin is drawn |
| Voting.VoteStrict | DTLearn.py:114-120 | a value more common than all others leads from its turn on, and the maximum stays below its count before that |
| Voting.StrictWinner | DTLearn.py:109-122 | a strictly most common value is returned whatever the coins |
| Voting.PluralityValue | DTLearn.py:109-122 | the loop returns the leader of `Plurality` and draws the coins it draws |
| Learning.AttributeList.constructor | DTLearn.py:153 | the list starts as the given attribute names |
| Learning.AttributeList.Remove | DTLearn.py:144 | `attributes.remove(x)` drops the first occurrence of x from the shared list |
| Learning.GainValue | DTLearn.py:140 | `infoGain` on non-empty examples does not raise, and this is the value it returns |
| Learning.Gains | DTLearn.py:140 | one gain per attribute |
| Learning.GainsAt | DTLearn.py:140 | the i-th entry of the list of gains is the information gain of the i-th attribute |
| Learning.Best | DTLearn.py:141-142 | the chosen attribute is one of the attributes |
| Learning.BestIsFirstMax | DTLearn.py:141-142 | the chosen attribute is at the smallest index whose gain is maximal |
| Learning.Learn | DTLearn.py:130-149 | a call never lengthens the shared list and never adds to it |
| Learning.LearnChildren | DTLearn.py:145-148 | the loop over the values never lengthens or adds to the list, and yields a decision node on the chosen attribute |
| Learning.AddBranch | DTLearn.py:148 | adding a new value appends its branch, and the child's decision attributes follow the node's |
| Learning.LearnAccounts | DTLearn.py:130-149 | the attribute list before a call is the list after it plus the decision attributes of the tree built, as multisets |
| Learning.ChildrenAccount | DTLearn.py:145-148 | the loop over the values keeps the same account |
| Learning.ChildrenKeys | DTLearn.py:145-148 | the loop adds exactly one branch per value, in enumeration order |
| Learning.NoAttributeReused | DTLearn.py:144-147 | with a duplicate-free list, no attribute labels two decision nodes; there are at most as many decision nodes as attributes; every attribute used was in the list and is gone from it |
| Learning.LearnEmpty | DTLearn.py:132-133 | empty examples give a leaf with a most common target value of the parent examples, or the blank node when those are empty too; the list is untouched |
| Learning.LearnUniform | DTLearn.py:134-136 | examples of one target value give the leaf of the first row's target, and nothing else changes |
| Learning.LearnNoAttributes | DTLearn.py:137-138 | mixed examples with no attribute left give a leaf with a most common target value of the examples |
| Learning.LearnSplit | DTLearn.py:139-149 | mixed examples with attributes left give a decision node on the best attribute, with one branch per distinct value of that attribute in the whole table, and a shorter list |
| Learning.LearnWellFormed | DTLearn.py:130-149 | a tree learned from a non-empty table, with examples or parent examples, has no blank node and a branch under every decision node |
| Learning.ChildrenWellFormed | DTLearn.py:145-148 | the loop over the values keeps the node well formed |
| Learning.LearnComplete | DTLearn.py:139-149 | every decision node of the learned tree has one branch per distinct value of its attribute in the whole table `data`, in enumeration order, including values no example reaching it has |
| Learning.ChildrenComplete | DTLearn.py:145-148 | the loop over `set(data[best])` keeps every branch complete and finishes with the keys equal to the whole enumeration |
| Learning.PrintsIffNonEmpty | DTLearn.py:153 | the script's final `dtLearn(...).print()` prints exactly when the table is non-empty |
| Learning.InfoGains | DTLearn.py:140 | the list of gains is the specification `Gains`, one `infoGain` per attribute in order |
| Learning.DtLearn | DTLearn.py:130-149 | the method returns the tree of `Learn` and leaves the shared list and the coin counter as `Learn` says |
| Learning.AddChildren | DTLearn.py:145-148 | the loop over `set(data[optimalAtrName])` builds the node and leaves the list and coins as `LearnChildren` says |

## Left out

- CSV loading, whitespace stripping, column naming and `print(data)` (DTLearn.py:37-49) are not modelled. The table is a parameter.
- `math.log2` is a parameter `lg`, and Python floats are modelled as exact reals. Only the exact values are proved: the error on (0, 0), the zeros, and the value built from `lg`.
- `random.choice` is a stream of coin flips (`Coins.flips`) with a counter of the coins drawn. No distribution is modelled.
- Python `set` iteration order is modelled as one fixed enumeration, order of first occurrence. The tree's shape and the order of its branches are proved only for that enumeration. With rows (A, B, WillWait) = (a1, b1, Yes), (a1, b2, No), (a2, b1, No), (a2, b2, Yes), the split is on A and the value visited first takes B from the shared list, whichever value that is.
- Standard output is modelled as the sequence of lines printed, without line ends.
- Printing a tree with a blank node, or with a decision node without branches, is modelled as a failure. The lines Python writes before the exception are not modelled.
- `pdb` and the commented-out example calls (DTLearn.py:10, 61-69, 91-97) are not modelled.
- A pandas `KeyError` on a missing column is not modelled. The tables passed in are required to have the columns used (`HasColumn`, `Rect`, `Ready`).
- Nodes are values (`Tree`), not Python objects. Object identity and aliasing of nodes are not modelled. `addChild` is a function on the branch sequence, and `DtLearn`'s loop rebuilds the node value on each turn.
- The `infoGain` loop reads its per-subset positive count from the fixed column WillWait, whatever the target (DTLearn.py:82). This is modelled as written (`OutcomeColumn`). The script always passes WillWait as the target.
- Learning.Learn: its own contract only bounds the list. The tree it builds is described by the lemmas beside it.
- Learning.Best: its contract only says the choice is an attribute. BestIsFirstMax states the first-maximum rule.

## Findings

| source | as written | input that shows it | evidently intended | confidence | as-written member | corrected member |
|---|---|---|---|---|---|---|
| DTLearn.py:32 | a child is printed with indentation `baseIndentation + len(outputText)`, but `outputText` already begins with `baseIndentation + 4` spaces, so the base is counted twice and each level drifts further right | the chain A -x-> B -y-> C -z-> leaf w: the branch line under C starts at column 25, although C's label starts at column 14 (it should start at 18) | the child's indentation is `len(outputText)`, the column where the child's label is printed, so every branch line sits 4 columns right of its node | not executed | PrintDrift.AsWrittenDrift | Rendering.AlignedShift |
