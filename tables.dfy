/** The example table: the pandas DataFrame the learner works on, as a sequence of rows,
    each row a map from column name to (whitespace-stripped) cell text. */
module Tables {
  import opened Seqs

  type Row = map<string, string>
  type Table = seq<Row>

  /** The target value counted as a positive example. */
  const Positive: string := "Yes"

  /** The column that infoGain reads its per-value positive counts from, whatever the target. */
  const OutcomeColumn: string := "WillWait"

  /** Every row has column c, so that `t[c]` does not raise KeyError. */
  predicate HasColumn(t: Table, c: string) {
    forall row :: row in t ==> c in row
  }

  /** `t[c]`: the cells of column c, one per row, in row order. */
  function Column(t: Table, c: string): seq<string>
    requires HasColumn(t, c)
  {
    seq(|t|, i requires 0 <= i < |t| => t[i][c])
  }

  /** `t[t[c] == v]`: the rows whose cell in column c is v, in table order. */
  function Select(t: Table, c: string, v: string): (r: Table)
    requires HasColumn(t, c)
    ensures forall row :: row in r <==> row in t && row[c] == v
    ensures |r| <= |t|
  {
    if t == [] then []
    else
      var n := |t|;
      assert t == t[..n - 1] + [t[n - 1]];
      Select(t[..n - 1], c, v) + (if t[n - 1][c] == v then [t[n - 1]] else [])
  }

  /** The selection keeps every row whose cell in column c is v exactly as often as the
      table holds it, and no other row. */
  lemma {:induction false} SelectMultiset(t: Table, c: string, v: string, row: Row)
    requires HasColumn(t, c)
    ensures multiset(Select(t, c, v))[row] == if c in row && row[c] == v then multiset(t)[row] else 0
  {
    if t != [] {
      var n := |t|;
      assert t == t[..n - 1] + [t[n - 1]];
      SelectMultiset(t[..n - 1], c, v, row);
    }
  }

  /** The selection has as many rows as the column has cells equal to v. */
  lemma {:induction false} SelectCount(t: Table, c: string, v: string)
    requires HasColumn(t, c)
    ensures |Select(t, c, v)| == Count(Column(t, c), v)
  {
    if t != [] {
      var n := |t|;
      assert Column(t[..n - 1], c) == Column(t, c)[..n - 1];
      SelectCount(t[..n - 1], c, v);
    }
  }
}
