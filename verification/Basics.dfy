/** Options, and insertion into a sequence. */
module Basics {
  datatype Option<T> = None | Some(value: T)

  /** q with x in front of q[i]. */
  function Inserted<T>(q: seq<T>, i: nat, x: T): seq<T>
    requires i <= |q|
  {
    q[..i] + [x] + q[i..]
  }

  lemma InsertedAt<T>(q: seq<T>, i: nat, x: T)
    requires i <= |q|
    ensures var r := Inserted(q, i, x);
      && |r| == |q| + 1 && r[i] == x
      && (forall j :: 0 <= j < i ==> r[j] == q[j])
      && (forall j :: i < j < |r| ==> r[j] == q[j - 1])
      && (forall y :: y in r <==> y in q || y == x)
  {
    assert q == q[..i] + q[i..];
  }
}
