/** Result and option types shared by every module, and the left fold that stops at the
    first error. Error texts are not modelled: an error is the value `Err`. */
module Prelude {

  datatype Option<+T> = None | Some(value: T)

  datatype Result<+T> = Ok(value: T) | Err

  lemma Associative<T>(a: seq<T>, b: seq<T>, c: seq<T>)
    ensures a + (b + c) == a + b + c
  {}

  lemma LastOfBoth<T>(a: seq<T>, b: seq<T>)
    requires b != []
    ensures var n := |b| - 1; a + b == (a + b[..n]) + [b[n]] && b == b[..n] + [b[n]]
  {}

  /** The loops of the readers: take the items in order, stop at the first error. */
  function Fold<A, B>(step: (A, B) -> Result<A>, init: A, items: seq<B>): Result<A>
    decreases |items|
  {
    if items == [] then Ok(init)
    else
      match Fold(step, init, items[..|items| - 1])
      case Err => Err
      case Ok(a) => step(a, items[|items| - 1])
  }

  lemma FoldNext<A, B>(step: (A, B) -> Result<A>, init: A, items: seq<B>, n: nat)
    requires n < |items|
    ensures
      Fold(step, init, items[..n + 1]) ==
        match Fold(step, init, items[..n]) case Err => Err case Ok(a) => step(a, items[n])
  {
    assert items[..n + 1][..n] == items[..n];
  }

  lemma {:induction false} FoldFails<A, B>(step: (A, B) -> Result<A>, init: A, items: seq<B>, n: nat)
    requires n <= |items| && Fold(step, init, items[..n]).Err?
    ensures Fold(step, init, items).Err?
    decreases |items|
  {
    if n == |items| {
      assert items[..n] == items;
    } else {
      assert items[..|items| - 1][..n] == items[..n];
      FoldFails(step, init, items[..|items| - 1], n);
    }
  }

  lemma {:induction false} FoldKeeps<A(!new), B(!new)>(
    step: (A, B) -> Result<A>, init: A, items: seq<B>, inv: A -> bool)
    requires inv(init)
    requires forall a, i | inv(a) && 0 <= i < |items| && step(a, items[i]).Ok? :: inv(step(a, items[i]).value)
    ensures Fold(step, init, items).Ok? ==> inv(Fold(step, init, items).value)
    decreases |items|
  {
    if items != [] {
      FoldKeeps(step, init, items[..|items| - 1], inv);
    }
  }

  /** What holds after item `k` and survives every later step holds of the result. */
  lemma {:induction false} FoldKeepsFrom<A(!new), B(!new)>(
    step: (A, B) -> Result<A>, init: A, items: seq<B>, k: nat, inv: A -> bool)
    requires k < |items| && Fold(step, init, items).Ok?
    requires forall a | step(a, items[k]).Ok? :: inv(step(a, items[k]).value)
    requires forall a, i | inv(a) && 0 <= i < |items| && step(a, items[i]).Ok? :: inv(step(a, items[i]).value)
    ensures inv(Fold(step, init, items).value)
    decreases |items|
  {
    var n := |items| - 1;
    if k < n {
      FoldKeepsFrom(step, init, items[..n], k, inv);
    }
  }

  /** A fold that succeeds got through every item. */
  lemma {:induction false} FoldPasses<A, B>(step: (A, B) -> Result<A>, init: A, items: seq<B>, k: nat) returns (a: A)
    requires k < |items| && Fold(step, init, items).Ok?
    ensures step(a, items[k]).Ok?
    decreases |items|
  {
    var n := |items| - 1;
    if k < n {
      a := FoldPasses(step, init, items[..n], k);
    } else {
      a := Fold(step, init, items[..n]).value;
    }
  }
}
