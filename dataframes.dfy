/**
 * The three Spark DataFrame operations the transform composes, over plain sequences of
 * rows: `explode` of an array column, a per-row projection (`select`/`withColumn`), and
 * `dropDuplicates` on one key column.
 */
module DataFrames {

  /** Total number of elements of the array column `field` over all rows. */
  function TotalLength<A, B>(rows: seq<A>, field: A -> seq<B>): nat
  {
    if rows == [] then 0 else |field(rows[0])| + TotalLength(rows[1..], field)
  }

  /**
   * `explode(field)`: one output row per element of each row's array, in row order and
   * then in array order. Rows whose array is empty produce nothing. Only the exploded
   * column is kept, since the transform reads nothing else afterwards.
   */
  function Explode<A, B>(rows: seq<A>, field: A -> seq<B>): (out: seq<B>)
    ensures |out| == TotalLength(rows, field)
  {
    if rows == [] then [] else field(rows[0]) + Explode(rows[1..], field)
  }

  /** Exploding a concatenation of inputs is the concatenation of the explosions. */
  lemma {:induction false} ExplodeAppend<A, B>(xs: seq<A>, ys: seq<A>, field: A -> seq<B>)
    ensures Explode(xs + ys, field) == Explode(xs, field) + Explode(ys, field)
  {
    if xs != [] {
      assert (xs + ys)[0] == xs[0];
      assert (xs + ys)[1..] == xs[1..] + ys;
      ExplodeAppend(xs[1..], ys, field);
    } else {
      assert xs + ys == ys;
    }
  }

  /**
   * Element `j` of row `i`'s array sits at position (total length of the rows before `i`) + `j`
   * of the output: exactly one output row per input element, in order.
   */
  lemma {:induction false} ExplodeAt<A, B>(rows: seq<A>, field: A -> seq<B>, i: nat, j: nat)
    requires i < |rows| && j < |field(rows[i])|
    ensures TotalLength(rows[..i], field) + j < |Explode(rows, field)|
    ensures Explode(rows, field)[TotalLength(rows[..i], field) + j] == field(rows[i])[j]
  {
    if i > 0 {
      ExplodeAt(rows[1..], field, i - 1, j);
      assert rows[1..][..i - 1] == rows[..i][1..];
      assert rows[1..][i - 1] == rows[i];
    }
  }

  /** An element is in the explosion if and only if it is in the array of some input row. */
  lemma {:induction false} ExplodeMembership<A, B>(rows: seq<A>, field: A -> seq<B>, b: B)
    ensures b in Explode(rows, field) <==> exists i :: 0 <= i < |rows| && b in field(rows[i])
  {
    if rows != [] {
      ExplodeMembership(rows[1..], field, b);
      if exists i :: 0 <= i < |rows[1..]| && b in field(rows[1..][i]) {
        var i :| 0 <= i < |rows[1..]| && b in field(rows[1..][i]);
        assert rows[1..][i] == rows[i + 1];
      }
      if exists i :: 0 <= i < |rows| && b in field(rows[i]) {
        var i :| 0 <= i < |rows| && b in field(rows[i]);
        if i > 0 {
          assert rows[1..][i - 1] == rows[i];
        }
      }
    }
  }

  /** A projection applied to every row: the row count is unchanged and row `i` becomes `f(rows[i])`. */
  function MapRows<A, B>(f: A -> B, rows: seq<A>): (out: seq<B>)
    ensures |out| == |rows|
    ensures forall i :: 0 <= i < |rows| ==> out[i] == f(rows[i])
  {
    if rows == [] then [] else [f(rows[0])] + MapRows(f, rows[1..])
  }

  /** The set of key values occurring in a table. */
  function KeySet<T, K>(rows: seq<T>, key: T -> K): set<K>
  {
    set i | 0 <= i < |rows| :: key(rows[i])
  }

  /** No two rows of the table share a key. */
  predicate DistinctKeys<T, K(==)>(rows: seq<T>, key: T -> K)
  {
    forall i, j :: 0 <= i < j < |rows| ==> key(rows[i]) != key(rows[j])
  }

  lemma KeySetSnoc<T, K>(rows: seq<T>, x: T, key: T -> K)
    ensures KeySet(rows + [x], key) == KeySet(rows, key) + {key(x)}
  {
    var s := rows + [x];
    assert key(s[|rows|]) == key(x);
    forall k | k in KeySet(rows, key) ensures k in KeySet(s, key) {
      var i :| 0 <= i < |rows| && key(rows[i]) == k;
      assert s[i] == rows[i];
    }
  }

  /** A last row whose key no earlier row has contributes a new key value. */
  lemma LastKeyIsNew<T, K>(rows: seq<T>, key: T -> K)
    requires |rows| > 0
    requires forall j :: 0 <= j < |rows| - 1 ==> key(rows[j]) != key(rows[|rows| - 1])
    ensures key(rows[|rows| - 1]) !in KeySet(rows[..|rows| - 1], key)
  {
    var init := rows[..|rows| - 1];
    forall j | 0 <= j < |init| ensures key(init[j]) != key(rows[|rows| - 1]) {
      assert init[j] == rows[j];
    }
  }

  /**
   * `dropDuplicates([key])`: one row per key value. Of the rows that share a key, the
   * first one is kept (Spark leaves the survivor unspecified; the properties proved about
   * this function other than KeepsFirstOccurrences do not depend on that choice).
   */
  function Dedup<T(==), K(==)>(rows: seq<T>, key: T -> K): (out: seq<T>)
    ensures |out| <= |rows|
    ensures forall x :: x in out ==> x in rows
    ensures KeySet(out, key) == KeySet(rows, key)
    ensures DistinctKeys(out, key)
    decreases |rows|
  {
    if rows == [] then []
    else
      var init := rows[..|rows| - 1];
      var last := rows[|rows| - 1];
      var kept := Dedup(init, key);
      KeySetSnoc(init, last, key);
      KeySetSnoc(kept, last, key);
      assert rows == init + [last];
      if key(last) in KeySet(kept, key) then kept else kept + [last]
  }

  /** A table with distinct keys has exactly as many rows as key values. */
  lemma {:induction false} DistinctKeysCount<T, K>(rows: seq<T>, key: T -> K)
    requires DistinctKeys(rows, key)
    ensures |KeySet(rows, key)| == |rows|
  {
    if rows != [] {
      var init := rows[..|rows| - 1];
      var last := rows[|rows| - 1];
      assert rows == init + [last];
      DistinctKeysCount(init, key);
      KeySetSnoc(init, last, key);
      LastKeyIsNew(rows, key);
    }
  }

  /** For all rows sharing a key exactly one survives: the output has one row per distinct key of the input. */
  lemma DedupCount<T, K>(rows: seq<T>, key: T -> K)
    ensures |Dedup(rows, key)| == |KeySet(rows, key)|
  {
    DistinctKeysCount(Dedup(rows, key), key);
  }

  /** Deduplicating a table whose keys are already distinct returns it unchanged. */
  lemma {:induction false} DedupOfDistinct<T, K>(rows: seq<T>, key: T -> K)
    requires DistinctKeys(rows, key)
    ensures Dedup(rows, key) == rows
  {
    if rows != [] {
      var init := rows[..|rows| - 1];
      var last := rows[|rows| - 1];
      DedupOfDistinct(init, key);
      LastKeyIsNew(rows, key);
      assert rows == init + [last];
    }
  }

  /** Deduplication is idempotent. */
  lemma DedupIdempotent<T, K>(rows: seq<T>, key: T -> K)
    ensures Dedup(Dedup(rows, key), key) == Dedup(rows, key)
  {
    DedupOfDistinct(Dedup(rows, key), key);
  }

  /** Every row that is the first with its key survives deduplication. */
  lemma {:induction false} KeepsFirstOccurrences<T, K>(rows: seq<T>, key: T -> K, i: nat)
    requires i < |rows|
    requires forall j :: 0 <= j < i ==> key(rows[j]) != key(rows[i])
    ensures rows[i] in Dedup(rows, key)
  {
    var init := rows[..|rows| - 1];
    var last := rows[|rows| - 1];
    if i < |rows| - 1 {
      KeepsFirstOccurrences(init, key, i);
    } else {
      LastKeyIsNew(rows, key);
    }
  }
}
