/**
 The order summary's total: the `reduce` over `orderList` that adds up each
 line's price times quantity, starting from 0. It is recomputed from the list
 on every render, so it is a pure function of the list. Prices are integers
 (an amount in the smallest currency unit).
 */
module Totals {
  import opened Cart

  /** One line's amount: `item.price * item.quantity`. */
  function Subtotal(e: Entry): (amount: int)
  {
    e.price * e.quantity
  }

  /** Reference definition: the sum of the lines' subtotals. */
  function Sum(list: seq<Entry>): (sum: int)
  {
    if |list| == 0 then 0 else Subtotal(list[0]) + Sum(list[1..])
  }

  /** `list.reduce((total, item) => total + item.price * item.quantity, acc)`: a left fold. */
  function Reduce(list: seq<Entry>, acc: int): (total: int)
  {
    if |list| == 0 then acc else Reduce(list[1..], acc + Subtotal(list[0]))
  }

  /** The left fold from `acc` adds exactly the sum of the subtotals to `acc`. */
  lemma {:induction false} ReduceIsSum(list: seq<Entry>, acc: int)
    ensures Reduce(list, acc) == acc + Sum(list)
  {
    if |list| > 0 {
      ReduceIsSum(list[1..], acc + Subtotal(list[0]));
    }
  }

  /** The total shown under the order summary, as the reduce from 0 computes it. */
  function Total(list: seq<Entry>): (t: int)
    ensures t == Sum(list)
    ensures |list| == 0 ==> t == 0
  {
    ReduceIsSum(list, 0);
    Reduce(list, 0)
  }

  /** The sum splits over concatenation. */
  lemma {:induction false} SumAppend(a: seq<Entry>, b: seq<Entry>)
    ensures Sum(a + b) == Sum(a) + Sum(b)
  {
    if |a| == 0 {
      assert a + b == b;
    } else {
      assert (a + b)[1..] == a[1..] + b;
      SumAppend(a[1..], b);
    }
  }

  /** Replacing one line changes the sum by the difference of the two subtotals. */
  lemma SumUpdate(list: seq<Entry>, i: nat, e: Entry)
    requires i < |list|
    ensures Sum(list[i := e]) == Sum(list) - Subtotal(list[i]) + Subtotal(e)
  {
    var before, after := list[..i], list[i + 1..];
    assert list == before + ([list[i]] + after);
    assert list[i := e] == before + ([e] + after);
    SumAppend(before, [list[i]] + after);
    SumAppend([list[i]], after);
    SumAppend(before, [e] + after);
    SumAppend([e], after);
    assert Sum([list[i]]) == Subtotal(list[i]) by { assert [list[i]][1..] == []; }
    assert Sum([e]) == Subtotal(e) by { assert [e][1..] == []; }
  }

  /** Appending a line adds its subtotal. */
  lemma SumSnoc(list: seq<Entry>, e: Entry)
    ensures Sum(list + [e]) == Sum(list) + Subtotal(e)
  {
    SumAppend(list, [e]);
    assert Sum([e]) == Subtotal(e) by { assert [e][1..] == []; }
  }

  /**
   Filtering a product out of a list with one line per product lowers the sum
   by exactly that line's subtotal.
   */
  lemma SumWithout(list: seq<Entry>, pid: int)
    requires UniqueIds(list)
    requires HasEntry(list, pid)
    ensures Sum(Without(list, pid)) == Sum(list) - Subtotal(list[EntryIndex(list, pid)])
  {
    var i := EntryIndex(list, pid);
    WithoutUnique(list, pid);
    var before, after := list[..i], list[i + 1..];
    assert list == before + ([list[i]] + after);
    SumAppend(before, [list[i]] + after);
    SumAppend([list[i]], after);
    SumAppend(before, after);
    assert Sum([list[i]]) == Subtotal(list[i]) by { assert [list[i]][1..] == []; }
  }
}
