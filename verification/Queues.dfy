/** The blocking queue shared by transports and processors. A call that would wait is not enabled. */
module Queues {
  import opened Wrappers

  function Total<T>(amountOf: T -> nat, items: seq<T>): nat {
    if items == [] then 0 else amountOf(items[0]) + Total(amountOf, items[1..])
  }

  lemma {:induction false} TotalAppend<T>(amountOf: T -> nat, items: seq<T>, e: T)
    ensures Total(amountOf, items + [e]) == Total(amountOf, items) + amountOf(e)
  {
    if items == [] {
      assert items + [e] == [e];
    } else {
      assert (items + [e])[1..] == items[1..] + [e];
      TotalAppend(amountOf, items[1..], e);
    }
  }

  class Queue<T(==)> {
    const limit: nat
    const amountOf: T -> nat
    var amount: nat
    var items: seq<T>
    var stopping: bool

    /** The amount is the sum over the elements. */
    ghost predicate Accounted()
      reads this
    {
      amount == Total(amountOf, items)
    }

    /** A push would not wait. */
    ghost predicate Room()
      reads this
    {
      limit == 0 || |items| < limit || stopping
    }

    constructor (limit: nat, amountOf: T -> nat)
      ensures this.limit == limit && this.amountOf == amountOf
      ensures items == [] && !stopping && Accounted()
    {
      this.limit, this.amountOf := limit, amountOf;
      amount, items, stopping := 0, [], false;
    }

    method Stop()
      modifies this
      ensures stopping && items == old(items) && amount == old(amount)
    {
      stopping := true;
    }

    /** A stopped queue drops what is pushed. */
    method Push(e: T)
      requires Room()
      modifies this
      ensures stopping == old(stopping) && (old(Accounted()) ==> Accounted())
      ensures items == if stopping then old(items) else old(items) + [e]
    {
      if stopping { return; }
      TotalAppend(amountOf, items, e);
      amount := amount + amountOf(e);
      items := items + [e];
    }

    method Pop() returns (e: Option<T>)
      requires Accounted()
      modifies this
      ensures stopping == old(stopping) && Accounted()
      ensures if old(items) == [] then e == None && items == []
              else e == Some(old(items)[0]) && items == old(items)[1..]
    {
      if items == [] { return None; }
      amount := amount - amountOf(items[0]);
      e := Some(items[0]);
      items := items[1..];
    }

    method Peek() returns (e: Option<T>)
      ensures e == if items == [] then None else Some(items[0])
    {
      if items == [] { return None; }
      return Some(items[0]);
    }

    /** The front is replaced in place. The amount is not adjusted: it stays right exactly when the new front
        counts as much as the old one. */
    method Exchange(e: T) returns (front: Option<T>)
      requires Accounted()
      modifies this
      ensures stopping == old(stopping) && amount == old(amount)
      ensures if old(items) == [] then front == None && items == []
              else front == Some(old(items)[0]) && items == [e] + old(items)[1..]
      ensures Accounted() <==> old(items) == [] || amountOf(e) == amountOf(old(items)[0])
    {
      if items == [] { return None; }
      front := Some(items[0]);
      items := items[0 := e];
      assert items == [e] + old(items)[1..];
    }
  }
}
