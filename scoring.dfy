/** The importance measure of DTLearn.py: `entropy` of a two-class count and the
    information gain `infoGain` of an attribute. Floating point numbers are modelled as
    reals and `math.log2` as a parameter `lg`, so the numeric value of a logarithm is left
    open while everything around it (the error cases, the exact zeros, the partition of the
    examples and the counts read from it) is modelled exactly. */
module Scoring {
  import opened Wrappers
  import opened Seqs
  import opened Tables

  /** The exceptions `entropy` can raise. */
  datatype ScoreError =
    | BothZero      // ValueError("Both p and n cannot be 0")
    | ZeroDivision  // p + n == 0 although p and n are not both 0
    | MathDomain    // math.log2 of a number that is not positive

  /** `-(q*log2(q) + (1-q)*log2(1-q))`. */
  function Binary(q: real, lg: real -> real): real {
    -(q * lg(q) + (1.0 - q) * lg(1.0 - q))
  }

  /** `entropy(p, n)`: the entropy of a split into p positive and n negative examples.
      Both zero is refused; a pure split has entropy exactly 0.0; counts (non-negative
      and not both zero) never make it fail. */
  function Entropy(p: real, n: real, lg: real -> real): (r: Result<real, ScoreError>)
    ensures r == Failure(BothZero) <==> p == 0.0 && n == 0.0
    ensures (p == 0.0) != (n == 0.0) ==> r == Success(0.0)
    ensures p >= 0.0 && n >= 0.0 ==> (r.Success? <==> p + n > 0.0)
    ensures p > 0.0 && n > 0.0 ==> r == Success(Binary(p / (p + n), lg))
  {
    if p == 0.0 && n == 0.0 then Failure(BothZero)
    else if p + n == 0.0 then Failure(ZeroDivision)
    else
      var q := p / (p + n);
      if q == 1.0 || q == 0.0 then Success(0.0)
      else if q < 0.0 || 1.0 - q < 0.0 then Failure(MathDomain)
      else Success(Binary(q, lg))
  }

  lemma RatioComplement(p: real, n: real)
    requires p + n != 0.0
    ensures n / (n + p) == 1.0 - p / (p + n)
  {
    var s := p + n;
    assert n + p == s;
    assert p / s + n / s == (p + n) / s;
    assert s / s == 1.0;
  }

  lemma BinarySymmetric(q: real, lg: real -> real)
    ensures Binary(1.0 - q, lg) == Binary(q, lg)
  {
    assert 1.0 - (1.0 - q) == q;
  }

  /** Swapping the two classes does not change the entropy, nor whether it fails. */
  lemma EntropySymmetric(p: real, n: real, lg: real -> real)
    ensures Entropy(p, n, lg) == Entropy(n, p, lg)
  {
    if p + n != 0.0 {
      RatioComplement(p, n);
      BinarySymmetric(p / (p + n), lg);
    }
  }

  lemma RatioScale(p: real, n: real, k: real)
    requires k > 0.0 && p + n != 0.0
    ensures (k * p) / (k * p + k * n) == p / (p + n)
  {
    assert k * p + k * n == k * (p + n);
    assert (k * p) / (k * (p + n)) == (k / k) * (p / (p + n));
  }

  /** The entropy depends on the ratio of the counts only. */
  lemma EntropyScale(p: real, n: real, k: real, lg: real -> real)
    requires k > 0.0
    ensures Entropy(k * p, k * n, lg) == Entropy(p, n, lg)
  {
    assert k * p == 0.0 <==> p == 0.0;
    assert k * n == 0.0 <==> n == 0.0;
    assert k * p + k * n == k * (p + n);
    if p + n != 0.0 {
      RatioScale(p, n, k);
    }
  }

  /** One positive and one negative example carry one bit, when log2(0.5) is -1: the
      expectation `entropy(1, 1) == 1` written in a comment beside the function in
      DTLearn.py. */
  lemma EntropyFairCoin(lg: real -> real)
    requires lg(0.5) == -1.0
    ensures Entropy(1.0, 1.0, lg) == Success(1.0)
  {
    assert 1.0 / (1.0 + 1.0) == 0.5;
  }

  /** `len(t[t[c] == 'Yes'])`: the number of rows whose cell in column c is "Yes". */
  function Positives(t: Table, c: string): (r: nat)
    requires HasColumn(t, c)
    ensures r == Count(Column(t, c), Positive)
    ensures r <= |t|
  {
    SelectCount(t, c, Positive);
    |Select(t, c, Positive)|
  }

  /** What infoGain reads from one subset: its size `len(subset)` and its positive count
      `pk`. */
  datatype Part = Part(size: nat, pk: nat)

  /** A part taken from a table of `total` examples. */
  predicate PartOf(q: Part, total: nat) {
    q.pk <= q.size <= total
  }

  /** The part for value v of attribute atr, counted row by row: the size of the subset
      `examples[examples[atr] == v]` and the number of its rows with "Yes" in the WillWait
      column (DTLearn.py reads that column, not the target, for every subset).
      PartForSelect shows these are the two counts of the subset itself. */
  function PartFor(ex: Table, atr: string, v: string): (q: Part)
    requires HasColumn(ex, atr) && HasColumn(ex, OutcomeColumn)
    ensures PartOf(q, |ex|)
  {
    if ex == [] then Part(0, 0)
    else
      var n := |ex|;
      var row := ex[n - 1];
      assert row in ex;
      var q := PartFor(ex[..n - 1], atr, v);
      if row[atr] != v then q
      else Part(q.size + 1, q.pk + if row[OutcomeColumn] == Positive then 1 else 0)
  }

  /** Counting the positives of a table with one more row. */
  lemma PositivesSnoc(t: Table, row: Row, c: string)
    requires HasColumn(t + [row], c)
    ensures HasColumn(t, c)
    ensures Positives(t + [row], c) == Positives(t, c) + if row[c] == Positive then 1 else 0
  {
    assert forall r :: r in t ==> r in t + [row];
    assert row in t + [row];
    var col := Column(t + [row], c);
    assert col[..|t|] == Column(t, c);
    assert col[|t|] == row[c];
  }

  /** PartFor counts exactly what infoGain reads: `len(subset)` and
      `len(subset[subset['WillWait'] == 'Yes'])` for `subset = examples[examples[atr] == v]`. */
  lemma {:induction false} PartForSelect(ex: Table, atr: string, v: string)
    requires HasColumn(ex, atr) && HasColumn(ex, OutcomeColumn)
    ensures HasColumn(Select(ex, atr, v), OutcomeColumn)
    ensures PartFor(ex, atr, v)
      == Part(|Select(ex, atr, v)|, Positives(Select(ex, atr, v), OutcomeColumn))
  {
    if ex != [] {
      var n := |ex|;
      var init := ex[..n - 1];
      var row := ex[n - 1];
      assert ex == init + [row];
      assert forall r :: r in init ==> r in ex;
      PartForSelect(init, atr, v);
      var s := Select(init, atr, v);
      if row[atr] == v {
        assert Select(ex, atr, v) == s + [row];
        PositivesSnoc(s, row, OutcomeColumn);
      } else {
        assert Select(ex, atr, v) == s;
      }
    }
  }

  /** The size of the part for v is the number of cells equal to v in the attribute's column. */
  lemma PartForCount(ex: Table, atr: string, v: string)
    requires HasColumn(ex, atr) && HasColumn(ex, OutcomeColumn)
    ensures PartFor(ex, atr, v).size == Count(Column(ex, atr), v)
  {
    PartForSelect(ex, atr, v);
    SelectCount(ex, atr, v);
  }

  /** The parts infoGain visits for the values `vals`, in that order. */
  function Parts(ex: Table, atr: string, vals: seq<string>): (ps: seq<Part>)
    requires HasColumn(ex, atr) && HasColumn(ex, OutcomeColumn)
    ensures |ps| == |vals|
    ensures forall i :: 0 <= i < |ps| ==> PartOf(ps[i], |ex|)
  {
    if vals == [] then []
    else Parts(ex, atr, vals[..|vals| - 1]) + [PartFor(ex, atr, vals[|vals| - 1])]
  }

  lemma {:induction false} PartsAt(ex: Table, atr: string, vals: seq<string>, i: nat)
    requires HasColumn(ex, atr) && HasColumn(ex, OutcomeColumn)
    requires i < |vals|
    ensures Parts(ex, atr, vals)[i] == PartFor(ex, atr, vals[i])
  {
    var n := |vals|;
    var init := vals[..n - 1];
    var ps := Parts(ex, atr, init);
    assert Parts(ex, atr, vals) == ps + [PartFor(ex, atr, vals[n - 1])];
    if i < n - 1 {
      PartsAt(ex, atr, init, i);
      assert init[i] == vals[i];
    }
  }

  /** `(len(subset)/float(len(examples))) * e`: the entropy e of a subset weighted by its
      share of the examples. */
  function Share(size: nat, total: nat, e: real): (r: real)
    requires total > 0
    ensures e == 0.0 ==> r == 0.0
    ensures size == 0 ==> r == 0.0
    ensures size == total ==> r == e
  {
    (size as real / total as real) * e
  }

  /** `remainder` after one more subset q of a table of `total` examples: an empty subset
      is skipped (`continue`), any other adds its share times `entropy(pk, len(subset) - pk)`,
      which cannot raise. */
  function Accumulate(acc: real, q: Part, total: nat, lg: real -> real): (r: real)
    requires PartOf(q, total)
    ensures q.size == 0 ==> r == acc
    ensures q.size > 0 ==> Entropy(q.pk as real, (q.size - q.pk) as real, lg).Success?
  {
    if q.size == 0 then acc
    else acc + Share(q.size, total, Entropy(q.pk as real, (q.size - q.pk) as real, lg).value)
  }

  /** `remainder` after the loop of infoGain has visited the parts `ps` of a table of
      `total` examples, in that order. */
  function Remainder(total: nat, ps: seq<Part>, lg: real -> real): real
    requires forall i :: 0 <= i < |ps| ==> PartOf(ps[i], total)
  {
    if ps == [] then 0.0
    else
      var q := ps[|ps| - 1];
      assert PartOf(q, total);
      Accumulate(Remainder(total, ps[..|ps| - 1], lg), q, total, lg)
  }

  /** One more turn of the loop of infoGain. */
  lemma RemainderSnoc(total: nat, ps: seq<Part>, q: Part, lg: real -> real)
    requires forall j :: 0 <= j < |ps| ==> PartOf(ps[j], total)
    requires PartOf(q, total)
    ensures forall j :: 0 <= j < |ps + [q]| ==> PartOf((ps + [q])[j], total)
    ensures Remainder(total, ps + [q], lg) == Accumulate(Remainder(total, ps, lg), q, total, lg)
  {
    assert (ps + [q])[..|ps|] == ps;
  }

  lemma RemainderOne(total: nat, q: Part, lg: real -> real)
    requires PartOf(q, total) && q.size > 0
    ensures Remainder(total, [q], lg) == Share(q.size, total, Entropy(q.pk as real, (q.size - q.pk) as real, lg).value)
  {
    assert [q][..0] == [];
  }

  /** `initialE - remainder`, unless computing initialE raised. */
  function Minus(initial: Result<real, ScoreError>, rem: real): (r: Result<real, ScoreError>)
    ensures r.Success? <==> initial.Success?
    ensures r.Failure? ==> r.error == initial.error
  {
    if initial.Failure? then Failure(initial.error) else Success(initial.value - rem)
  }

  lemma MinusSelf(e: Result<real, ScoreError>)
    requires e.Success?
    ensures Minus(e, e.value) == Success(0.0)
  {
  }

  /** `infoGain(atr, target, examples)`: the entropy of the whole set minus the remainder
      over the distinct values of the attribute. It raises exactly on an empty example
      set, and then the ValueError of entropy(0, 0). */
  function Gain(ex: Table, atr: string, target: string, lg: real -> real): (r: Result<real, ScoreError>)
    requires HasColumn(ex, atr) && HasColumn(ex, target) && HasColumn(ex, OutcomeColumn)
    ensures r.Failure? <==> |ex| == 0
    ensures |ex| == 0 ==> r == Failure(BothZero)
  {
    var p := Positives(ex, target);
    Minus(Entropy(p as real, (|ex| - p) as real, lg),
          Remainder(|ex|, Parts(ex, atr, Distinct(Column(ex, atr))), lg))
  }

  /** The sum of the part sizes. */
  function Sizes(ps: seq<Part>): nat {
    if ps == [] then 0 else Sizes(ps[..|ps| - 1]) + ps[|ps| - 1].size
  }

  lemma {:induction false} SizesCount(ex: Table, atr: string, vals: seq<string>)
    requires HasColumn(ex, atr) && HasColumn(ex, OutcomeColumn)
    ensures Sizes(Parts(ex, atr, vals)) == CountAll(vals, Column(ex, atr))
  {
    if vals != [] {
      var n := |vals|;
      SizesCount(ex, atr, vals[..n - 1]);
      PartForCount(ex, atr, vals[n - 1]);
      var ps := Parts(ex, atr, vals);
      assert ps[..n - 1] == Parts(ex, atr, vals[..n - 1]);
    }
  }

  /** The subsets infoGain visits partition the examples: each is non-empty, its positive
      count pk lies between 0 and its size, and the sizes add up to the number of
      examples. So the `continue` on an empty subset is never taken. */
  lemma Partition(ex: Table, atr: string)
    requires HasColumn(ex, atr) && HasColumn(ex, OutcomeColumn)
    ensures var ps := Parts(ex, atr, Distinct(Column(ex, atr)));
      (forall i :: 0 <= i < |ps| ==> 0 < ps[i].size && ps[i].pk <= ps[i].size) &&
      Sizes(ps) == |ex|
  {
    var vals := Distinct(Column(ex, atr));
    var ps := Parts(ex, atr, vals);
    forall i | 0 <= i < |ps| ensures 0 < ps[i].size {
      PartsAt(ex, atr, vals, i);
      PartForCount(ex, atr, vals[i]);
      assert vals[i] in Column(ex, atr);
    }
    SizesCount(ex, atr, vals);
    CountAllCovers(vals, Column(ex, atr));
  }

  /** A part all of whose rows agree on WillWait. */
  predicate Pure(q: Part) {
    q.pk == 0 || q.pk == q.size
  }

  lemma {:induction false} RemainderPure(total: nat, ps: seq<Part>, lg: real -> real)
    requires forall i :: 0 <= i < |ps| ==> PartOf(ps[i], total) && Pure(ps[i])
    ensures Remainder(total, ps, lg) == 0.0
  {
    if ps != [] {
      RemainderPure(total, ps[..|ps| - 1], lg);
    }
  }

  /** An attribute each of whose values singles out examples of one outcome gains the
      whole initial entropy. */
  lemma PureSplitGain(ex: Table, atr: string, target: string, lg: real -> real)
    requires HasColumn(ex, atr) && HasColumn(ex, target) && HasColumn(ex, OutcomeColumn)
    requires forall v :: v in Column(ex, atr) ==> Pure(PartFor(ex, atr, v))
    ensures Gain(ex, atr, target, lg)
      == Entropy(Positives(ex, target) as real, (|ex| - Positives(ex, target)) as real, lg)
  {
    var vals := Distinct(Column(ex, atr));
    var ps := Parts(ex, atr, vals);
    forall i | 0 <= i < |ps| ensures Pure(ps[i]) {
      PartsAt(ex, atr, vals, i);
      assert vals[i] in Column(ex, atr);
    }
    RemainderPure(|ex|, ps, lg);
  }

  /** When every example has value v, the part for v is the whole table. */
  lemma {:induction false} PartForAll(ex: Table, atr: string, v: string)
    requires HasColumn(ex, atr) && HasColumn(ex, OutcomeColumn)
    requires forall i :: 0 <= i < |ex| ==> ex[i][atr] == v
    ensures PartFor(ex, atr, v) == Part(|ex|, Positives(ex, OutcomeColumn))
  {
    if ex != [] {
      var n := |ex|;
      var init := ex[..n - 1];
      assert ex == init + [ex[n - 1]];
      assert forall r :: r in init ==> r in ex;
      PartForAll(init, atr, v);
      PositivesSnoc(init, ex[n - 1], OutcomeColumn);
    }
  }

  /** An attribute with the same value in every example gains nothing, when the target
      is the WillWait column. */
  lemma ConstantAttributeGain(ex: Table, atr: string, lg: real -> real)
    requires HasColumn(ex, atr) && HasColumn(ex, OutcomeColumn)
    requires |ex| > 0
    requires forall i :: 0 <= i < |ex| ==> ex[i][atr] == ex[0][atr]
    ensures Gain(ex, atr, OutcomeColumn, lg) == Success(0.0)
  {
    ConstantParts(ex, atr);
    var p := Positives(ex, OutcomeColumn);
    var e := Entropy(p as real, (|ex| - p) as real, lg);
    RemainderOne(|ex|, Part(|ex|, p), lg);
    MinusSelf(e);
  }

  lemma CastMul(a: nat, b: nat)
    ensures (a * b) as real == a as real * b as real
  {
  }

  lemma ScaleDown(pk: real, size: real, p: real, t: real)
    requires t > 0.0 && pk * t == size * p
    ensures pk == (size / t) * p
  {
    assert (size / t) * p == (size * p) / t;
    assert (pk * t) / t == pk;
  }

  lemma ScaleRest(pk: real, size: real, p: real, t: real)
    requires t > 0.0 && pk == (size / t) * p
    ensures size - pk == (size / t) * (t - p)
  {
    assert (size / t) * t == size;
  }

  lemma AddShares(a: real, b: real, t: real, e: real)
    requires t > 0.0
    ensures (a / t) * e + (b / t) * e == ((a + b) / t) * e
  {
    assert a / t + b / t == (a + b) / t;
  }

  /** A subset with the whole table's ratio of positives has the whole table's entropy. */
  lemma PartEntropy(q: Part, p: nat, total: nat, lg: real -> real)
    requires PartOf(q, total) && p <= total && q.size > 0
    requires q.pk * total == q.size * p
    ensures Entropy(q.pk as real, (q.size - q.pk) as real, lg) == Entropy(p as real, (total - p) as real, lg)
  {
    var t, size, x := total as real, q.size as real, q.pk as real;
    var pos, neg := p as real, (total - p) as real;
    var k := size / t;
    CastMul(q.pk, total);
    CastMul(q.size, p);
    ScaleDown(x, size, pos, t);
    ScaleRest(x, size, pos, t);
    assert neg == t - pos;
    assert (q.size - q.pk) as real == size - x;
    var kp, kn := k * pos, k * neg;
    assert x == kp;
    assert size - x == kn;
    EntropyScale(pos, neg, k, lg);
  }

  lemma ShareAdd(a: nat, b: nat, total: nat, e: real)
    requires total > 0
    ensures Share(a, total, e) + Share(b, total, e) == Share(a + b, total, e)
  {
    AddShares(a as real, b as real, total as real, e);
  }

  /** When every non-empty part has entropy e, the remainder is e weighted by the share
      of the examples the parts cover. */
  lemma {:induction false} RemainderBalanced(total: nat, ps: seq<Part>, e: real, lg: real -> real)
    requires total > 0
    requires forall i :: 0 <= i < |ps| ==> PartOf(ps[i], total)
    requires forall i :: 0 <= i < |ps| && ps[i].size > 0 ==>
      Entropy(ps[i].pk as real, (ps[i].size - ps[i].pk) as real, lg) == Success(e)
    ensures Remainder(total, ps, lg) == Share(Sizes(ps), total, e)
  {
    if ps != [] {
      var init, q := ps[..|ps| - 1], ps[|ps| - 1];
      assert ps == init + [q];
      RemainderBalanced(total, init, e, lg);
      BalancedStep(total, init, q, e, lg);
    }
  }

  lemma BalancedStep(total: nat, init: seq<Part>, q: Part, e: real, lg: real -> real)
    requires total > 0 && PartOf(q, total)
    requires forall j :: 0 <= j < |init| ==> PartOf(init[j], total)
    requires q.size > 0 ==> Entropy(q.pk as real, (q.size - q.pk) as real, lg) == Success(e)
    requires Remainder(total, init, lg) == Share(Sizes(init), total, e)
    ensures forall j :: 0 <= j < |init + [q]| ==> PartOf((init + [q])[j], total)
    ensures Remainder(total, init + [q], lg) == Share(Sizes(init + [q]), total, e)
  {
    RemainderSnoc(total, init, q, lg);
    assert (init + [q])[..|init|] == init;
    AccumulateBalanced(Remainder(total, init, lg), Sizes(init), q, total, e, lg);
  }

  /** A subset of entropy e adds its share of e. */
  lemma AccumulateBalanced(acc: real, covered: nat, q: Part, total: nat, e: real, lg: real -> real)
    requires total > 0 && PartOf(q, total)
    requires q.size > 0 ==> Entropy(q.pk as real, (q.size - q.pk) as real, lg) == Success(e)
    requires acc == Share(covered, total, e)
    ensures Accumulate(acc, q, total, lg) == Share(covered + q.size, total, e)
  {
    if q.size > 0 {
      ShareAdd(covered, q.size, total, e);
    }
  }

  /** An attribute each of whose subsets has the whole table's ratio of positive outcomes
      gains nothing, with WillWait as the target, whatever `lg` is. The expectation
      `infoGain('Type', 'WillWait', data) # 0` written beside infoGain is of this kind. */
  lemma BalancedGain(ex: Table, atr: string, lg: real -> real)
    requires HasColumn(ex, atr) && HasColumn(ex, OutcomeColumn)
    requires |ex| > 0
    requires forall v :: v in Column(ex, atr) ==>
      PartFor(ex, atr, v).pk * |ex| == PartFor(ex, atr, v).size * Positives(ex, OutcomeColumn)
    ensures Gain(ex, atr, OutcomeColumn, lg) == Success(0.0)
  {
    var p := Positives(ex, OutcomeColumn);
    var initial := Entropy(p as real, (|ex| - p) as real, lg);
    BalancedRemainder(ex, atr, lg, initial.value);
    MinusSelf(initial);
  }

  /** Under the hypothesis of BalancedGain the remainder is the whole table's entropy e. */
  lemma BalancedRemainder(ex: Table, atr: string, lg: real -> real, e: real)
    requires HasColumn(ex, atr) && HasColumn(ex, OutcomeColumn)
    requires |ex| > 0
    requires forall v :: v in Column(ex, atr) ==>
      PartFor(ex, atr, v).pk * |ex| == PartFor(ex, atr, v).size * Positives(ex, OutcomeColumn)
    requires Entropy(Positives(ex, OutcomeColumn) as real, (|ex| - Positives(ex, OutcomeColumn)) as real, lg) == Success(e)
    ensures Remainder(|ex|, Parts(ex, atr, Distinct(Column(ex, atr))), lg) == e
  {
    var p := Positives(ex, OutcomeColumn);
    var vals := Distinct(Column(ex, atr));
    var ps := Parts(ex, atr, vals);
    forall i | 0 <= i < |ps| && ps[i].size > 0
      ensures Entropy(ps[i].pk as real, (ps[i].size - ps[i].pk) as real, lg) == Success(e)
    {
      PartsAt(ex, atr, vals, i);
      assert vals[i] in Column(ex, atr);
      PartEntropy(ps[i], p, |ex|, lg);
    }
    RemainderBalanced(|ex|, ps, e, lg);
    Partition(ex, atr);
  }

  /** A constant attribute has a single part: the whole table. */
  lemma ConstantParts(ex: Table, atr: string)
    requires HasColumn(ex, atr) && HasColumn(ex, OutcomeColumn)
    requires |ex| > 0
    requires forall i :: 0 <= i < |ex| ==> ex[i][atr] == ex[0][atr]
    ensures Parts(ex, atr, Distinct(Column(ex, atr))) == [Part(|ex|, Positives(ex, OutcomeColumn))]
  {
    var col := Column(ex, atr);
    SingleDistinct(col);
    var vals := Distinct(col);
    var v := vals[0];
    assert vals == [v];
    assert v == ex[0][atr] by { assert v in col; }
    PartForAll(ex, atr, v);
    PartsAt(ex, atr, vals, 0);
  }

  /** The parts of one more value. */
  lemma PartsSnoc(ex: Table, atr: string, vals: seq<string>, i: nat)
    requires HasColumn(ex, atr) && HasColumn(ex, OutcomeColumn)
    requires i < |vals|
    ensures Parts(ex, atr, vals[..i + 1]) == Parts(ex, atr, vals[..i]) + [PartFor(ex, atr, vals[i])]
  {
    assert vals[..i + 1][..i] == vals[..i];
  }

  /** The body of the loop of infoGain (DTLearn.py:81-86) for one value: the remainder
      after visiting it, from the remainder before. */
  method AddSubset(atr: string, examples: Table, value: string, remainder: real, lg: real -> real)
    returns (r: real)
    requires HasColumn(examples, atr) && HasColumn(examples, OutcomeColumn)
    ensures r == Accumulate(remainder, PartFor(examples, atr, value), |examples|, lg)
  {
    // `subset` and `pk` of the source, kept as the counts the loop reads from them
    var part := PartFor(examples, atr, value);
    if part.size == 0 {
      return remainder;
    }
    var e := Entropy(part.pk as real, (part.size - part.pk) as real, lg);
    r := remainder + Share(part.size, |examples|, e.value);
  }

  /** The loop of infoGain (DTLearn.py:78-86) over the attribute values `atrValues`. */
  method RemainderLoop(atr: string, examples: Table, atrValues: seq<string>, lg: real -> real)
    returns (remainder: real)
    requires HasColumn(examples, atr) && HasColumn(examples, OutcomeColumn)
    ensures remainder == Remainder(|examples|, Parts(examples, atr, atrValues), lg)
  {
    remainder := 0.0;
    assert atrValues[..0] == [];
    for i := 0 to |atrValues|
      invariant remainder == Remainder(|examples|, Parts(examples, atr, atrValues[..i]), lg)
    {
      PartsSnoc(examples, atr, atrValues, i);
      RemainderSnoc(|examples|, Parts(examples, atr, atrValues[..i]), PartFor(examples, atr, atrValues[i]), lg);
      remainder := AddSubset(atr, examples, atrValues[i], remainder, lg);
    }
    assert atrValues[..|atrValues|] == atrValues;
  }

  /** `infoGain(atr_name, target_atr_name, examples)`. */
  method InfoGain(atr: string, target: string, examples: Table, lg: real -> real)
    returns (r: Result<real, ScoreError>)
    requires HasColumn(examples, atr) && HasColumn(examples, target) && HasColumn(examples, OutcomeColumn)
    ensures r == Gain(examples, atr, target, lg)
  {
    var p := Positives(examples, target);
    var n := |examples| - p;
    var remainder := RemainderLoop(atr, examples, Distinct(Column(examples, atr)), lg);
    var initialE := Entropy(p as real, n as real, lg);
    r := Minus(initialE, remainder);
  }
}
