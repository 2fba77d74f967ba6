/**
 * Splitting a Pair of input and label matrices into one (input row, label
 * row) pair per input row, so that each row can go to a different worker.
 */
module RowSplit {
  import opened Messages

  /** `DoubleMatrix.rowsAsList()`: each row as a one-row matrix, in order. */
  function RowsAsList(m: Matrix): (rows: seq<Matrix>)
    ensures |rows| == |m.rows|
    ensures forall i :: 0 <= i < |rows| ==> rows[i] == Matrix([m.rows[i]])
  {
    seq(|m.rows|, i requires 0 <= i < |m.rows| => Matrix([m.rows[i]]))
  }

  /**
   * What the split yields: the i-th input paired with the i-th label for
   * every input index, or the index at which the label list ran out.
   */
  function PairRows(inputs: seq<Matrix>, labels: seq<Matrix>): Result<seq<Example>>
  {
    if |labels| < |inputs| then Failed(IndexOutOfBounds(|labels|))
    else Ok(seq(|inputs|, i requires 0 <= i < |inputs| => Example(inputs[i], labels[i])))
  }

  /** The split of a Pair message. */
  function SplitPair(pair: Example): Result<seq<Example>>
  {
    PairRows(RowsAsList(pair.first), RowsAsList(pair.second))
  }

  /** The index loop over the input rows that builds the list of row pairs. */
  method SplitPairIntoRows(pair: Example) returns (res: Result<seq<Example>>)
    ensures res == SplitPair(pair)
  {
    var inputs := RowsAsList(pair.first);
    var labels := RowsAsList(pair.second);
    var pairs: seq<Example> := [];
    var i := 0;
    while i < |inputs|
      invariant 0 <= i <= |inputs| && i <= |labels|
      invariant |pairs| == i
      invariant forall k :: 0 <= k < i ==> pairs[k] == Example(inputs[k], labels[k])
    {
      if i >= |labels| {
        return Failed(IndexOutOfBounds(i));
      }
      pairs := pairs + [Example(inputs[i], labels[i])];
      i := i + 1;
    }
    assert pairs == seq(|inputs|, k requires 0 <= k < |inputs| => Example(inputs[k], labels[k]));
    res := Ok(pairs);
  }

  /**
   * The split fails exactly when there are fewer label rows than input
   * rows; otherwise it yields one pair per input row, the i-th holding
   * input row i and label row i.
   */
  lemma SplitPairRows(pair: Example)
    ensures SplitPair(pair).Failed? <==> |pair.second.rows| < |pair.first.rows|
    ensures SplitPair(pair).Failed? ==>
              SplitPair(pair).error == IndexOutOfBounds(|pair.second.rows|)
    ensures SplitPair(pair).Ok? ==>
              |SplitPair(pair).value| == |pair.first.rows| &&
              forall i :: 0 <= i < |pair.first.rows| ==>
                SplitPair(pair).value[i] ==
                  Example(Matrix([pair.first.rows[i]]), Matrix([pair.second.rows[i]]))
  {
  }

  /** The matrix whose rows are those of `ms`, one after another. */
  function Stack(ms: seq<Matrix>): Matrix
  {
    if ms == [] then Matrix([])
    else Matrix(Stack(ms[..|ms| - 1]).rows + ms[|ms| - 1].rows)
  }

  /** The input matrices of `pairs`, in order. */
  function Inputs(pairs: seq<Example>): seq<Matrix>
  {
    seq(|pairs|, i requires 0 <= i < |pairs| => pairs[i].first)
  }

  /** The label matrices of `pairs`, in order. */
  function Labels(pairs: seq<Example>): seq<Matrix>
  {
    seq(|pairs|, i requires 0 <= i < |pairs| => pairs[i].second)
  }

  /** Stacking the one-row matrices of a prefix of rows gives that prefix back. */
  lemma {:induction false} StackRowsPrefix(m: Matrix, n: nat)
    requires n <= |m.rows|
    ensures Stack(RowsAsList(m)[..n]) == Matrix(m.rows[..n])
  {
    if n > 0 {
      StackRowsPrefix(m, n - 1);
      var rows := RowsAsList(m);
      assert rows[..n][..n - 1] == rows[..n - 1];
      assert m.rows[..n] == m.rows[..n - 1] + [m.rows[n - 1]];
    }
  }

  /**
   * Nothing is dropped, duplicated or reordered by a successful split:
   * re-stacking the inputs of the pairs gives back the input matrix, and
   * re-stacking their labels gives the first label rows, one per input.
   */
  lemma SplitPairRestacks(pair: Example)
    requires SplitPair(pair).Ok?
    ensures Stack(Inputs(SplitPair(pair).value)) == pair.first
    ensures Stack(Labels(SplitPair(pair).value)) ==
              Matrix(pair.second.rows[..|pair.first.rows|])
  {
    var pairs := SplitPair(pair).value;
    var n := |pair.first.rows|;
    var ins, labs := RowsAsList(pair.first), RowsAsList(pair.second);
    assert Inputs(pairs) == ins[..n];
    assert Labels(pairs) == labs[..n];
    StackRowsPrefix(pair.first, n);
    StackRowsPrefix(pair.second, n);
    assert pair.first.rows[..n] == pair.first.rows;
  }
}
