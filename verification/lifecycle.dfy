/**
 Sequences of user actions on the order page: the clicks on "Add to Order",
 the submit check mark and the trash icon, each applied with the network
 outcome it met. The properties here relate several calls: repeated adds,
 the invariant every reachable cart keeps, and which order-detail id a
 removal deletes.
 */
module Lifecycle {
  import opened Catalog
  import opened Cart
  import opened Totals
  import opened OrderSession

  /** The line of a cart that holds only `pid`, `m` times. */
  function SingleLine(products: seq<Product>, pid: int, m: nat): (e: Entry)
    requires Listed(products, pid)
  {
    var p := FindProduct(products, pid).value;
    Entry(pid, p.name, p.price, m)
  }

  /** The first add on the empty cart creates the single line with quantity 1. */
  lemma AddToEmpty(products: seq<Product>, pid: int)
    requires Listed(products, pid)
    ensures var r := Add(products, Empty(), pid);
            r.orders == map[pid := 1] && r.orderList == [SingleLine(products, pid, 1)]
  {
  }

  /** One more add on a cart holding only `pid` keeps a single line and raises it by one. */
  lemma AddToSingle(products: seq<Product>, s: Session, pid: int, m: nat)
    requires Listed(products, pid)
    requires s.orders == map[pid := m] && s.orderList == [SingleLine(products, pid, m)]
    ensures var r := Add(products, s, pid);
            r.orders == map[pid := m + 1] && r.orderList == [SingleLine(products, pid, m + 1)]
  {
  }

  /**
   `n` clicks on "Add to Order" for the same product. Each raises the
   product's quantity by one, whatever the cart held before; from the empty
   cart, `n >= 1` clicks leave quantity `n` in the map and exactly one line,
   carrying the catalog's name and price.
   */
  function AddTimes(products: seq<Product>, s: Session, pid: int, n: nat): (r: Session)
    requires Listed(products, pid)
    ensures QuantityOf(r.orders, pid) == QuantityOf(s.orders, pid) + n
    ensures s == Empty() && n >= 1 ==>
              r.orders == map[pid := n] && r.orderList == [SingleLine(products, pid, n)]
  {
    if n == 0 then s
    else
      var prev := AddTimes(products, s, pid, n - 1);
      assert s == Empty() ==>
               Add(products, prev, pid).orders == map[pid := n]
               && Add(products, prev, pid).orderList == [SingleLine(products, pid, n)] by {
        if s == Empty() {
          if n == 1 { AddToEmpty(products, pid); } else { AddToSingle(products, prev, pid, n - 1); }
        }
      }
      Add(products, prev, pid)
  }

  /** One click, with the outcome of the request it sent. */
  datatype Action =
    | AddItem(pid: int)
    | SubmitItem(pid: int, response: Response)
    | RemoveItem(pid: int, deleteResolved: bool)

  /**
   The actions the model admits: add only for catalog products (the only ids
   the page renders an add button for), any submit, and remove only for a
   product with a recorded order-detail id.
   */
  predicate Allowed(products: seq<Product>, s: Session, a: Action)
  {
    match a
    case AddItem(pid) => Listed(products, pid)
    case SubmitItem(_, _) => true
    case RemoveItem(pid, _) => pid in s.detailIds
  }

  /** The state after one handler has run to completion (or thrown). */
  function Step(products: seq<Product>, s: Session, a: Action): (r: Session)
    requires Allowed(products, s, a)
  {
    match a
    case AddItem(pid) => Add(products, s, pid)
    case SubmitItem(pid, response) => Submit(products, s, pid, response)
    case RemoveItem(pid, resolved) => After(s, Remove(s, pid, resolved))
  }

  /** Every action of the sequence is admitted in the state it meets. */
  predicate RunAllowed(products: seq<Product>, s: Session, actions: seq<Action>)
    decreases |actions|
  {
    |actions| == 0 ||
    (Allowed(products, s, actions[0]) && RunAllowed(products, Step(products, s, actions[0]), actions[1..]))
  }

  /** The state after the handlers for `actions` have run one after another. */
  function Run(products: seq<Product>, s: Session, actions: seq<Action>): (r: Session)
    requires RunAllowed(products, s, actions)
    decreases |actions|
  {
    if |actions| == 0 then s else Run(products, Step(products, s, actions[0]), actions[1..])
  }

  /**
   What every reachable state satisfies: map and list agree, lines are priced
   from the catalog, and ids are recorded only for catalog products.
   */
  predicate Invariant(products: seq<Product>, s: Session)
  {
    && Consistent(s)
    && Priced(products, s.orderList)
    && forall k :: k in s.detailIds ==> Listed(products, k)
  }

  lemma EmptyInvariant(products: seq<Product>)
    ensures Invariant(products, Empty())
  {
  }

  /** Every admitted action keeps the invariant. */
  lemma StepKeepsInvariant(products: seq<Product>, s: Session, a: Action)
    requires Allowed(products, s, a)
    requires Invariant(products, s)
    ensures Invariant(products, Step(products, s, a))
  {
    match a
    case AddItem(pid) =>
      AddKeepsConsistent(products, s, pid);
      AddKeepsPriced(products, s, pid);
    case SubmitItem(pid, response) =>
      SubmitKeepsInvariants(products, s, pid, response);
    case RemoveItem(pid, resolved) =>
      RemoveKeepsConsistent(s, pid, resolved);
      RemoveKeepsPriced(products, s, pid, resolved);
  }

  /** Every state reachable by admitted actions keeps the invariant. */
  lemma {:induction false} RunKeepsInvariant(products: seq<Product>, s: Session, actions: seq<Action>)
    requires RunAllowed(products, s, actions)
    requires Invariant(products, s)
    ensures Invariant(products, Run(products, s, actions))
    decreases |actions|
  {
    if |actions| > 0 {
      StepKeepsInvariant(products, s, actions[0]);
      RunKeepsInvariant(products, Step(products, s, actions[0]), actions[1..]);
    }
  }

  /** No action in the sequence is a submit for `pid` that gets a 201. */
  predicate NoRecordFor(products: seq<Product>, pid: int, actions: seq<Action>)
  {
    forall i :: 0 <= i < |actions| ==>
      !(actions[i].SubmitItem? && actions[i].pid == pid && Records(products, pid, actions[i].response))
  }

  /** Only a successful submit for `pid` changes the order-detail id recorded for `pid`. */
  lemma {:induction false} RunKeepsDetailId(products: seq<Product>, s: Session, pid: int, actions: seq<Action>)
    requires RunAllowed(products, s, actions)
    requires NoRecordFor(products, pid, actions)
    requires pid in s.detailIds
    ensures var r := Run(products, s, actions);
            pid in r.detailIds && r.detailIds[pid] == s.detailIds[pid]
    decreases |actions|
  {
    if |actions| > 0 {
      assert NoRecordFor(products, pid, actions[1..]) by {
        forall i | 0 <= i < |actions[1..]|
          ensures !(actions[1..][i].SubmitItem? && actions[1..][i].pid == pid
                    && Records(products, pid, actions[1..][i].response))
        {
          assert actions[1..][i] == actions[i + 1];
        }
      }
      assert !(actions[0].SubmitItem? && actions[0].pid == pid && Records(products, pid, actions[0].response));
      RunKeepsDetailId(products, Step(products, s, actions[0]), pid, actions[1..]);
    }
  }

  /**
   A recorded id means the product was submitted: without a 201 submit for
   `pid`, a run never records an id for it.
   */
  lemma {:induction false} RunWithoutSubmitRecordsNothing(products: seq<Product>, s: Session, pid: int,
                                                         actions: seq<Action>)
    requires RunAllowed(products, s, actions)
    requires NoRecordFor(products, pid, actions)
    requires pid !in s.detailIds
    ensures pid !in Run(products, s, actions).detailIds
    decreases |actions|
  {
    if |actions| > 0 {
      assert NoRecordFor(products, pid, actions[1..]) by {
        forall i | 0 <= i < |actions[1..]|
          ensures !(actions[1..][i].SubmitItem? && actions[1..][i].pid == pid
                    && Records(products, pid, actions[1..][i].response))
        {
          assert actions[1..][i] == actions[i + 1];
        }
      }
      assert !(actions[0].SubmitItem? && actions[0].pid == pid && Records(products, pid, actions[0].response));
      RunWithoutSubmitRecordsNothing(products, Step(products, s, actions[0]), pid, actions[1..]);
    }
  }

  /**
   A removal deletes the order detail of the LAST successful submit for the
   product: after a 201 with id `x`, any later actions that record nothing new
   for the product (adds, failed submits, other products, even a removal) leave
   `x` as the delete target.
   */
  lemma RemoveTargetsLastSubmit(products: seq<Product>, s: Session, pid: int, x: int,
                                actions: seq<Action>, deleteResolved: bool)
    requires Listed(products, pid)
    requires RunAllowed(products, Submit(products, s, pid, Responded(201, x)), actions)
    requires NoRecordFor(products, pid, actions)
    ensures var r := Run(products, Submit(products, s, pid, Responded(201, x)), actions);
            pid in r.detailIds && Remove(r, pid, deleteResolved).detailId == x
  {
    RunKeepsDetailId(products, Submit(products, s, pid, Responded(201, x)), pid, actions);
  }

  /** The one-product catalog of the worked example below. */
  const WidgetCatalog: seq<Product> := [Product(1, "Widget", "Acme", 10)]

  /**
   The worked example: two adds of the one product, a submit answered with
   201 and id 99, then a resolved removal.
   */
  lemma WidgetScenario()
    ensures Listed(WidgetCatalog, 1)
    ensures var s1 := Add(WidgetCatalog, Add(WidgetCatalog, Empty(), 1), 1);
            var s2 := Submit(WidgetCatalog, s1, 1, Responded(201, 99));
            var rm := Remove(s2, 1, true);
            && s1.orderList == [Entry(1, "Widget", 10, 2)]
            && Total(s1.orderList) == 20
            && s2.detailIds[1] == 99
            && rm.detailId == 99
            && After(s2, rm).orderList == []
            && After(s2, rm).orders == map[]
            && Total(After(s2, rm).orderList) == 0
  {
    var products := WidgetCatalog;
    assert products[0].id == 1;
    assert AddTimes(products, Empty(), 1, 2) == Add(products, Add(products, Empty(), 1), 1) by {
      assert AddTimes(products, Empty(), 1, 0) == Empty();
    }
    assert SingleLine(products, 1, 2) == Entry(1, "Widget", 10, 2);
    var s1 := Add(products, Add(products, Empty(), 1), 1);
    assert Sum(s1.orderList) == 20 by {
      assert s1.orderList[1..] == [];
    }
  }
}
