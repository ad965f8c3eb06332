/**
 The cart bookkeeping of the product order page. Its state has three parts:
 the quantity map `orders` (product id to quantity), the line-item list
 `orderList`, and, per product, the id of the order-detail record the server
 returned on the last successful submit (the page keeps it on the product
 object as `order_id`; here it is a map from product id).

 The three handlers become pure transitions. The HTTP calls they make are
 replaced by their outcomes, given as parameters: the response to the
 create-order-detail request, and whether the delete request resolved.
 */
module OrderSession {
  import opened Catalog
  import opened Cart
  import opened Totals

  datatype Session = Session(orders: map<int, nat>, orderList: seq<Entry>, detailIds: map<int, int>)

  /** The state the page starts with: nothing ordered, nothing submitted. */
  function Empty(): (s: Session)
  {
    Session(map[], [], map[])
  }

  /** `orders[productId] || 0`: the quantity in the map, 0 when the key is absent. */
  function QuantityOf(orders: map<int, nat>, pid: int): (q: nat)
  {
    if pid in orders then orders[pid] else 0
  }

  /**
   The map and the list agree: one line per product, a key exactly for each
   product with a line (every key has a line, every line has a key), the same
   quantity in both, and every quantity at least 1.
   */
  predicate Consistent(s: Session)
  {
    && UniqueIds(s.orderList)
    && (forall k :: k in s.orders ==> HasEntry(s.orderList, k))
    && (forall i :: 0 <= i < |s.orderList| ==>
          s.orderList[i].productId in s.orders && s.orders[s.orderList[i].productId] == s.orderList[i].quantity)
    && (forall k :: k in s.orders ==> s.orders[k] >= 1)
  }

  /** Every line carries its product's name and price as the catalog lists them. */
  predicate Priced(products: seq<Product>, list: seq<Entry>)
  {
    forall i :: 0 <= i < |list| ==>
      var p := FindProduct(products, list[i].productId);
      p.Some? && p.value.name == list[i].name && p.value.price == list[i].price
  }

  /**
   `createOrder(productId)`: raise the product's quantity in the map by one,
   then update its line in place when `findIndex` finds one, or append a new
   line built from the catalog record when it does not. The page only offers
   this action for products shown from the catalog.
   */
  function Add(products: seq<Product>, s: Session, pid: int): (r: Session)
    requires Listed(products, pid)
    ensures pid in r.orders && r.orders[pid] == QuantityOf(s.orders, pid) + 1
    ensures r.orders.Keys == s.orders.Keys + {pid}
    ensures forall k :: k in s.orders && k != pid ==> r.orders[k] == s.orders[k]
    ensures r.detailIds == s.detailIds
    ensures HasEntry(s.orderList, pid) ==>
              var i := EntryIndex(s.orderList, pid);
              && |r.orderList| == |s.orderList|
              && (forall j :: 0 <= j < |s.orderList| && j != i ==> r.orderList[j] == s.orderList[j])
              && r.orderList[i].productId == pid
              && r.orderList[i].name == s.orderList[i].name
              && r.orderList[i].price == s.orderList[i].price
              && r.orderList[i].quantity == r.orders[pid]
    ensures !HasEntry(s.orderList, pid) ==>
              && |r.orderList| == |s.orderList| + 1
              && r.orderList[..|s.orderList|] == s.orderList
              && var p := FindProduct(products, pid).value;
                 r.orderList[|s.orderList|] == Entry(pid, p.name, p.price, r.orders[pid])
    ensures HasEntry(r.orderList, pid)
  {
    var product := FindProduct(products, pid).value;
    var quantity := QuantityOf(s.orders, pid) + 1;
    var orders := s.orders[pid := quantity];
    var existing := EntryIndex(s.orderList, pid);
    var list :=
      if existing > -1 then s.orderList[existing := s.orderList[existing].(quantity := quantity)]
      else s.orderList + [Entry(pid, product.name, product.price, quantity)];
    assert list[if existing > -1 then existing else |s.orderList|].productId == pid;
    Session(orders, list, s.detailIds)
  }

  /** The outcome of the create-order-detail POST, as the handler sees it. */
  datatype Response =
    | Rejected                        // the request threw: network failure or a non-2xx status
    | Responded(status: int, id: int) // the request resolved with this status and `response.data.id`

  /** True iff the submit writes a new order-detail id for `pid`. */
  predicate Records(products: seq<Product>, pid: int, response: Response)
  {
    response.Responded? && response.status == 201 && Listed(products, pid)
  }

  /**
   `submitOrder(productId, quantity)`: on a 201 response, remember the returned
   order-detail id for the product, replacing any earlier one. A rejected
   request, another status, or an unknown product (`find` yields `undefined`,
   so src/App.jsx:83 or :87 throws inside the handler's `try`) leaves everything
   as it was. The cart itself is never
   touched.
   */
  function Submit(products: seq<Product>, s: Session, pid: int, response: Response): (r: Session)
    ensures r.orders == s.orders && r.orderList == s.orderList
    ensures Records(products, pid, response) ==>
              r.detailIds.Keys == s.detailIds.Keys + {pid} && r.detailIds[pid] == response.id
    ensures forall k :: k in s.detailIds && k != pid ==> k in r.detailIds && r.detailIds[k] == s.detailIds[k]
    ensures !Records(products, pid, response) ==> r.detailIds == s.detailIds
  {
    if Records(products, pid, response) then s.(detailIds := s.detailIds[pid := response.id])
    else s
  }

  /**
   What `removeOrderItem` ends with: the delete of order-detail `detailId`
   resolved and the product left the cart, or it rejected and the handler
   threw before changing anything.
   */
  datatype Removal = Removed(detailId: int, next: Session) | DeleteRejected(detailId: int)

  /**
   `removeOrderItem(productId)`: delete the product's last recorded order
   detail; once that resolves, drop the product's key from the map and filter
   its lines out of the list. The model admits the removal only for a product
   with a recorded id; the page also shows the trash button on lines never
   submitted, and then asks the server to delete the id `undefined`.
   */
  function Remove(s: Session, pid: int, deleteResolved: bool): (r: Removal)
    requires pid in s.detailIds
    ensures r.detailId == s.detailIds[pid]
    ensures r.Removed? <==> deleteResolved
    ensures r.Removed? ==>
              && r.next.orders.Keys == s.orders.Keys - {pid}
              && (forall k :: k in r.next.orders ==> r.next.orders[k] == s.orders[k])
              && !HasEntry(r.next.orderList, pid)
              && (forall e :: e in r.next.orderList <==> e in s.orderList && e.productId != pid)
              && r.next.detailIds == s.detailIds
  {
    var target := s.detailIds[pid];
    if !deleteResolved then DeleteRejected(target)
    else Removed(target, Session(s.orders - {pid}, Without(s.orderList, pid), s.detailIds))
  }

  /** The session a removal leaves the page in: unchanged when the delete rejected. */
  function After(s: Session, r: Removal): (next: Session)
  {
    match r
    case Removed(_, next) => next
    case DeleteRejected(_) => s
  }

  /** Adding a product that already has a line keeps the map and the list in agreement. */
  lemma AddExistingKeepsConsistent(products: seq<Product>, s: Session, pid: int)
    requires Listed(products, pid)
    requires Consistent(s)
    requires HasEntry(s.orderList, pid)
    ensures Consistent(Add(products, s, pid))
  {
  }

  /** Adding a product without a line keeps the map and the list in agreement. */
  lemma AddNewKeepsConsistent(products: seq<Product>, s: Session, pid: int)
    requires Listed(products, pid)
    requires Consistent(s)
    requires !HasEntry(s.orderList, pid)
    ensures Consistent(Add(products, s, pid))
  {
    var p := FindProduct(products, pid).value;
    var e := Entry(pid, p.name, p.price, QuantityOf(s.orders, pid) + 1);
    assert Add(products, s, pid) == Session(s.orders[pid := e.quantity], s.orderList + [e], s.detailIds);
    AppendKeepsConsistent(s, e);
  }

  /** Appending a line for a product absent from map and list, with the same quantity in both, keeps agreement. */
  lemma AppendKeepsConsistent(s: Session, e: Entry)
    requires Consistent(s)
    requires !HasEntry(s.orderList, e.productId)
    requires e.quantity >= 1
    ensures Consistent(Session(s.orders[e.productId := e.quantity], s.orderList + [e], s.detailIds))
  {
    var L, R := s.orderList, s.orderList + [e];
    var orders := s.orders[e.productId := e.quantity];
    AppendKeepsUnique(L, e);
    forall k | k in orders ensures HasEntry(R, k) {
      if k != e.productId {
        var j :| 0 <= j < |L| && L[j].productId == k;
        assert R[j].productId == k;
      }
    }
    forall j | 0 <= j < |R|
      ensures R[j].productId in orders && orders[R[j].productId] == R[j].quantity
    {
      if j < |L| { assert R[j] == L[j]; }
    }
  }

  /** Adding keeps the map and the list in agreement. */
  lemma AddKeepsConsistent(products: seq<Product>, s: Session, pid: int)
    requires Listed(products, pid)
    requires Consistent(s)
    ensures Consistent(Add(products, s, pid))
  {
    if HasEntry(s.orderList, pid) {
      AddExistingKeepsConsistent(products, s, pid);
    } else {
      AddNewKeepsConsistent(products, s, pid);
    }
  }

  /** Adding keeps every line priced from the catalog. */
  lemma AddKeepsPriced(products: seq<Product>, s: Session, pid: int)
    requires Listed(products, pid)
    requires Priced(products, s.orderList)
    ensures Priced(products, Add(products, s, pid).orderList)
  {
  }

  /** One more unit of a line adds its price to the line's amount. */
  lemma SubtotalStep(e: Entry, e': Entry)
    requires e'.price == e.price && e'.quantity == e.quantity + 1
    ensures Subtotal(e') == Subtotal(e) + e.price
  {
  }

  /** On a consistent, catalog-priced cart, adding a product raises the total by its price. */
  lemma AddTotal(products: seq<Product>, s: Session, pid: int)
    requires Listed(products, pid)
    requires Consistent(s) && Priced(products, s.orderList)
    ensures Total(Add(products, s, pid).orderList) == Total(s.orderList) + FindProduct(products, pid).value.price
  {
    var r := Add(products, s, pid);
    var L, R := s.orderList, r.orderList;
    if HasEntry(L, pid) {
      var i := EntryIndex(L, pid);
      assert R == L[i := R[i]];
      SumUpdate(L, i, R[i]);
      assert L[i].quantity == s.orders[pid];
      assert FindProduct(products, L[i].productId).value.price == L[i].price;
      SubtotalStep(L[i], R[i]);
    } else {
      assert R == L + [R[|L|]];
      SumSnoc(L, R[|L|]);
    }
  }

  /** Recording an order-detail id keeps both invariants: the cart is not touched. */
  lemma SubmitKeepsInvariants(products: seq<Product>, s: Session, pid: int, response: Response)
    requires Consistent(s) && Priced(products, s.orderList)
    ensures var r := Submit(products, s, pid, response);
            Consistent(r) && Priced(products, r.orderList) && Total(r.orderList) == Total(s.orderList)
  {
  }

  /** A resolved removal keeps the map and the list in agreement. */
  lemma RemoveKeepsConsistent(s: Session, pid: int, deleteResolved: bool)
    requires pid in s.detailIds
    requires Consistent(s)
    ensures Consistent(After(s, Remove(s, pid, deleteResolved)))
  {
    if deleteResolved {
      var r := After(s, Remove(s, pid, deleteResolved));
      var R := r.orderList;
      WithoutKeepsUnique(s.orderList, pid);
      forall i | 0 <= i < |R|
        ensures R[i].productId in r.orders && r.orders[R[i].productId] == R[i].quantity
      {
        assert R[i] in s.orderList;
      }
      forall k ensures k in r.orders <==> HasEntry(R, k) {
        if k in r.orders {
          var j :| 0 <= j < |s.orderList| && s.orderList[j].productId == k;
          assert s.orderList[j] in R;
        }
      }
    }
  }

  /**
   On a consistent cart, a resolved removal takes out exactly the product's
   one line and keeps every other line in its relative order; a product with
   no line leaves the list as it was.
   */
  lemma RemoveKeepsOrder(s: Session, pid: int)
    requires pid in s.detailIds
    requires Consistent(s)
    ensures var list := After(s, Remove(s, pid, true)).orderList;
            if HasEntry(s.orderList, pid) then
              var i := EntryIndex(s.orderList, pid);
              list == s.orderList[..i] + s.orderList[i + 1..]
            else list == s.orderList
  {
    if HasEntry(s.orderList, pid) {
      WithoutUnique(s.orderList, pid);
    } else {
      WithoutAbsent(s.orderList, pid);
    }
  }

  /** Removing keeps every remaining line priced from the catalog. */
  lemma RemoveKeepsPriced(products: seq<Product>, s: Session, pid: int, deleteResolved: bool)
    requires pid in s.detailIds
    requires Priced(products, s.orderList)
    ensures Priced(products, After(s, Remove(s, pid, deleteResolved)).orderList)
  {
  }

  /**
   On a consistent cart, a resolved removal lowers the total by the removed
   line's amount, the product's price times its quantity in the map.
   */
  lemma RemoveTotal(s: Session, pid: int)
    requires pid in s.detailIds
    requires Consistent(s)
    ensures var r := After(s, Remove(s, pid, true));
            Total(r.orderList) == Total(s.orderList) - (
              if pid in s.orders then s.orderList[EntryIndex(s.orderList, pid)].price * s.orders[pid] else 0)
  {
    if HasEntry(s.orderList, pid) {
      SumWithout(s.orderList, pid);
    } else {
      WithoutAbsent(s.orderList, pid);
    }
  }
}
