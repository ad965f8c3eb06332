/**
 The cart's line-item list (`orderList`): one record per product in the cart,
 with the name and price copied from the catalog and the current quantity.
 This module holds the list-level operations the page uses on it:
 `findIndex` by product id and `filter` by product id.
 */
module Cart {

  /** One line of the order summary. */
  datatype Entry = Entry(productId: int, name: string, price: int, quantity: nat)

  /** True iff some line carries `pid`. */
  predicate HasEntry(list: seq<Entry>, pid: int)
  {
    exists i :: 0 <= i < |list| && list[i].productId == pid
  }

  /** At most one line per product. */
  predicate UniqueIds(list: seq<Entry>)
  {
    forall i, j :: 0 <= i < |list| && 0 <= j < |list| && list[i].productId == list[j].productId ==> i == j
  }

  /**
   `orderList.findIndex((item) => item.productId === pid)`: the index of the
   first line for `pid`, or -1 when there is none.
   */
  function EntryIndex(list: seq<Entry>, pid: int): (r: int)
    ensures -1 <= r < |list|
    ensures r == -1 <==> !HasEntry(list, pid)
    ensures r >= 0 ==> list[r].productId == pid && forall j :: 0 <= j < r ==> list[j].productId != pid
  {
    if |list| == 0 then -1
    else if list[0].productId == pid then 0
    else
      var k := EntryIndex(list[1..], pid);
      assert HasEntry(list, pid) ==> HasEntry(list[1..], pid) by {
        if HasEntry(list, pid) {
          var i :| 0 <= i < |list| && list[i].productId == pid;
          assert list[1..][i - 1].productId == pid;
        }
      }
      if k == -1 then -1 else k + 1
  }

  /** `orderList.filter((item) => item.productId !== pid)`. */
  function Without(list: seq<Entry>, pid: int): (r: seq<Entry>)
    ensures forall e :: e in r <==> e in list && e.productId != pid
    ensures !HasEntry(r, pid)
    ensures |r| <= |list|
  {
    if |list| == 0 then []
    else if list[0].productId == pid then Without(list[1..], pid)
    else [list[0]] + Without(list[1..], pid)
  }

  /** Filtering distributes over concatenation, so the kept lines stay in their order. */
  lemma {:induction false} WithoutAppend(a: seq<Entry>, b: seq<Entry>, pid: int)
    ensures Without(a + b, pid) == Without(a, pid) + Without(b, pid)
  {
    if |a| == 0 {
      assert a + b == b;
    } else {
      assert (a + b)[1..] == a[1..] + b;
      WithoutAppend(a[1..], b, pid);
    }
  }

  /** A list with no line for `pid` is left as it is. */
  lemma {:induction false} WithoutAbsent(list: seq<Entry>, pid: int)
    requires !HasEntry(list, pid)
    ensures Without(list, pid) == list
  {
    if |list| > 0 {
      forall i | 0 <= i < |list[1..]| ensures list[1..][i].productId != pid {
        assert list[1..][i] == list[i + 1];
      }
      WithoutAbsent(list[1..], pid);
    }
  }

  /** No line for `pid` before its first index, and none after it when ids are unique. */
  lemma AroundIndex(list: seq<Entry>, pid: int)
    requires UniqueIds(list)
    requires HasEntry(list, pid)
    ensures var i := EntryIndex(list, pid);
            !HasEntry(list[..i], pid) && !HasEntry(list[i + 1..], pid)
  {
  }

  /**
   On a list with unique ids, filtering out `pid` removes exactly the one line
   at `EntryIndex` and keeps every other line in place.
   */
  lemma WithoutUnique(list: seq<Entry>, pid: int)
    requires UniqueIds(list)
    requires HasEntry(list, pid)
    ensures var i := EntryIndex(list, pid);
            Without(list, pid) == list[..i] + list[i + 1..]
  {
    var i := EntryIndex(list, pid);
    var before, after := list[..i], list[i + 1..];
    assert list == before + ([list[i]] + after);
    WithoutAppend(before, [list[i]] + after, pid);
    WithoutAppend([list[i]], after, pid);
    AroundIndex(list, pid);
    WithoutAbsent(before, pid);
    WithoutAbsent(after, pid);
    assert Without([list[i]], pid) == [] by {
      assert [list[i]][1..] == [];
    }
  }

  /** Appending a line for a product that has none keeps one line per product. */
  lemma AppendKeepsUnique(list: seq<Entry>, e: Entry)
    requires UniqueIds(list)
    requires !HasEntry(list, e.productId)
    ensures UniqueIds(list + [e]) && HasEntry(list + [e], e.productId)
  {
    var r := list + [e];
    assert r[|list|] == e;
    forall i, j | 0 <= i < |r| && 0 <= j < |r| && r[i].productId == r[j].productId
      ensures i == j
    {
      if i < |list| { assert r[i] == list[i]; }
      if j < |list| { assert r[j] == list[j]; }
    }
  }

  /** Filtering keeps the one-line-per-product property. */
  lemma {:induction false} WithoutKeepsUnique(list: seq<Entry>, pid: int)
    requires UniqueIds(list)
    ensures UniqueIds(Without(list, pid))
  {
    if |list| > 0 {
      var rest := list[1..];
      forall i, j | 0 <= i < |rest| && 0 <= j < |rest| && rest[i].productId == rest[j].productId
        ensures i == j
      {
        assert list[i + 1].productId == list[j + 1].productId;
      }
      WithoutKeepsUnique(rest, pid);
      if list[0].productId != pid {
        var w := Without(rest, pid);
        forall k | 0 <= k < |w| ensures w[k].productId != list[0].productId {
          assert w[k] in rest;
          var m :| 0 <= m < |rest| && rest[m] == w[k];
          assert list[m + 1] == w[k];
        }
        var r := [list[0]] + w;
        forall i, j | 0 <= i < |r| && 0 <= j < |r| && r[i].productId == r[j].productId
          ensures i == j
        {
          if i > 0 && j > 0 {
            assert w[i - 1].productId == w[j - 1].productId;
          }
        }
      }
    }
  }
}
