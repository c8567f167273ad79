/** The plurality vote of DTLearn.py (pluralityValue): the most common target value,
    with ties broken by `random.choice`. */
module Voting {
  import opened Wrappers
  import opened Seqs
  import opened Tables

  /** The random module as a stream of coin flips: `flips(k)` is the outcome of the k-th
      call of `random.choice([a, b])` (true picks b), and `drawn` counts the calls made. */
  class Coins {
    const flips: nat -> bool
    var drawn: nat

    constructor (flips: nat -> bool)
      ensures this.flips == flips && drawn == 0
    {
      this.flips := flips;
      drawn := 0;
    }

    /** `random.choice([a, b])`. */
    method Choose(a: Option<string>, b: Option<string>) returns (r: Option<string>)
      modifies this
      ensures r == (if flips(old(drawn)) then b else a)
      ensures drawn == old(drawn) + 1
    {
      r := if flips(drawn) then b else a;
      drawn := drawn + 1;
    }
  }

  /** The loop state of pluralityValue: `mostCommonValue`, `maxCount`, and the number of
      coins drawn so far. */
  datatype Tally = Tally(leader: Option<string>, maxCount: nat, drawn: nat)

  /** One turn of the loop, for a value v that occurs c times: a larger count takes the
      lead; an equal count of a value other than the leader draws a coin between the two. */
  function Step(t: Tally, v: string, c: nat, flips: nat -> bool): (r: Tally)
    ensures r.maxCount >= t.maxCount && r.maxCount >= c
    ensures r.drawn == t.drawn || (r.drawn == t.drawn + 1 && c == t.maxCount)
  {
    if c > t.maxCount then Tally(Some(v), c, t.drawn)
    else if c == t.maxCount && t.leader != Some(v) then
      Tally(if flips(t.drawn) then Some(v) else t.leader, t.maxCount, t.drawn + 1)
    else t
  }

  /** The state after the loop has visited `order`, counting in `col`, starting with
      `d0` coins drawn. */
  function Vote(order: seq<string>, col: seq<string>, flips: nat -> bool, d0: nat): (r: Tally)
    ensures d0 <= r.drawn <= d0 + |order|
    ensures r.leader.None? ==> r.maxCount == 0
  {
    if order == [] then Tally(None, 0, d0)
    else
      var n := |order|;
      Step(Vote(order[..n - 1], col, flips, d0), order[n - 1], Count(col, order[n - 1]), flips)
  }

  /** One more turn of the loop. */
  lemma VoteSnoc(order: seq<string>, col: seq<string>, flips: nat -> bool, d0: nat, i: nat)
    requires i < |order|
    ensures Vote(order[..i + 1], col, flips, d0) == Step(Vote(order[..i], col, flips, d0), order[i], Count(col, order[i]), flips)
  {
    assert order[..i + 1][..i] == order[..i];
  }

  /** `pluralityValue` on a target column, over the enumeration of its distinct values. */
  function Plurality(col: seq<string>, flips: nat -> bool, d0: nat): Tally {
    Vote(Distinct(col), col, flips, d0)
  }

  /** The loop invariant of pluralityValue: the leader is a value already visited with the
      running maximal count, which bounds every count seen so far; once a value that
      occurs has been seen there is a leader; at most one coin is drawn per value. */
  lemma {:induction false} VoteInvariant(order: seq<string>, col: seq<string>, flips: nat -> bool, d0: nat)
    ensures var t := Vote(order, col, flips, d0);
      (t.leader.Some? ==> t.leader.value in order && Count(col, t.leader.value) == t.maxCount) &&
      (forall v :: v in order ==> Count(col, v) <= t.maxCount) &&
      (t.maxCount > 0 ==> t.leader.Some?) &&
      d0 <= t.drawn <= d0 + |order|
  {
    if order != [] {
      var n := |order|;
      var init := order[..n - 1];
      assert order == init + [order[n - 1]];
      VoteInvariant(init, col, flips, d0);
    }
  }

  /** On non-empty examples the result is a value of the target column whose count is at
      least that of every value; on empty examples it is None and no coin is drawn. */
  lemma PluralityIsMax(col: seq<string>, flips: nat -> bool, d0: nat)
    ensures var t := Plurality(col, flips, d0);
      (t.leader.None? <==> |col| == 0) &&
      (|col| == 0 ==> t.drawn == d0) &&
      (t.leader.Some? ==>
        t.leader.value in col && forall v :: v in col ==> Count(col, v) <= Count(col, t.leader.value))
  {
    var order := Distinct(col);
    VoteInvariant(order, col, flips, d0);
    if |col| > 0 {
      assert col[0] in order;
    } else {
      assert order == [];
    }
  }

  /** Before a strict winner w is visited the running maximum is below its count; from
      then on w leads. */
  lemma {:induction false} VoteStrict(order: seq<string>, col: seq<string>, flips: nat -> bool, d0: nat, w: string)
    requires w in col
    requires forall v :: v in order && v != w ==> Count(col, v) < Count(col, w)
    ensures var t := Vote(order, col, flips, d0);
      (w in order ==> t.leader == Some(w) && t.maxCount == Count(col, w)) &&
      (w !in order ==> t.maxCount < Count(col, w))
  {
    if order != [] {
      var n := |order|;
      var init := order[..n - 1];
      assert order == init + [order[n - 1]];
      VoteStrict(init, col, flips, d0, w);
    }
  }

  /** A target value more common than every other one is returned whatever the coins. */
  lemma StrictWinner(col: seq<string>, flips: nat -> bool, d0: nat, w: string)
    requires w in col
    requires forall v :: v in col && v != w ==> Count(col, v) < Count(col, w)
    ensures Plurality(col, flips, d0).leader == Some(w)
  {
    assert w in Distinct(col);
    VoteStrict(Distinct(col), col, flips, d0, w);
  }

  /** `pluralityValue(target_atr_name, examples)`. */
  method PluralityValue(target: string, examples: Table, coins: Coins) returns (r: Option<string>)
    requires HasColumn(examples, target)
    modifies coins
    ensures var t := Plurality(Column(examples, target), coins.flips, old(coins.drawn));
      r == t.leader && coins.drawn == t.drawn
  {
    var col := Column(examples, target);
    var targetValues := Distinct(col);
    var maxCount := 0;
    var mostCommonValue: Option<string> := None;
    ghost var d0 := coins.drawn;
    for i := 0 to |targetValues|
      invariant Vote(targetValues[..i], col, coins.flips, d0) == Tally(mostCommonValue, maxCount, coins.drawn)
    {
      var value := targetValues[i];
      VoteSnoc(targetValues, col, coins.flips, d0, i);
      var currCount := Count(col, value);
      if currCount > maxCount {
        maxCount := currCount;
        mostCommonValue := Some(value);
      } else if currCount == maxCount && mostCommonValue != Some(value) {
        mostCommonValue := coins.Choose(mostCommonValue, Some(value));
      }
    }
    assert targetValues[..|targetValues|] == targetValues;
    r := mostCommonValue;
  }
}
