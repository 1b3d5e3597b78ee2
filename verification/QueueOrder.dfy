/** The order in which a queue holds what it holds. */
module QueueOrder {
  /** x is queued somewhere before y. */
  ghost predicate Ahead<T>(q: seq<T>, x: T, y: T) {
    exists i, j :: 0 <= i < j < |q| && q[i] == x && q[j] == y
  }

  ghost predicate Once<T>(q: seq<T>) {
    forall i, j | 0 <= i < j < |q| :: q[i] != q[j]
  }

  lemma TailOrder<T>(q: seq<T>, x: T, y: T)
    requires Once(q) && q != [] && Ahead(q, x, y) && x in q[1..]
    ensures Ahead(q[1..], x, y)
  {
    var i, j :| 0 <= i < j < |q| && q[i] == x && q[j] == y;
    var k :| 0 <= k < |q| - 1 && q[1..][k] == x;
    assert q[k + 1] == x && k + 1 == i;
    assert q[1..][i - 1] == x && q[1..][j - 1] == y;
  }

  lemma AppendOrder<T>(q: seq<T>, z: T, x: T, y: T)
    requires Ahead(q, x, y)
    ensures Ahead(q + [z], x, y)
  {
    var i, j :| 0 <= i < j < |q| && q[i] == x && q[j] == y;
    assert (q + [z])[i] == x && (q + [z])[j] == y;
  }

  lemma PrependOrder<T>(z: T, q: seq<T>, x: T, y: T)
    requires Ahead(q, x, y)
    ensures Ahead([z] + q, x, y)
  {
    var i, j :| 0 <= i < j < |q| && q[i] == x && q[j] == y;
    assert ([z] + q)[i + 1] == x && ([z] + q)[j + 1] == y;
  }
}
