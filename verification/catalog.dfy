/**
 The product catalog the order page loads at startup. The model treats
 products as read-only: the page's one write to a product, `order_id`
 (src/App.jsx:83), is kept in `OrderSession.Session.detailIds` instead. The
 only operation on the catalog is lookup by id, which behaves like
 JavaScript's `Array.prototype.find`: the FIRST product whose id matches, or
 nothing.
 */
module Catalog {

  datatype Option<+T> = None | Some(value: T)

  /** A catalog record. `price` is an integer amount in the smallest currency unit. */
  datatype Product = Product(id: int, name: string, brand: string, price: int)

  /** True iff some product in the catalog carries `id`. */
  predicate Listed(products: seq<Product>, id: int)
  {
    exists i :: 0 <= i < |products| && products[i].id == id
  }

  /** `products.find((p) => p.id === id)`: the first product with that id. */
  function FindProduct(products: seq<Product>, id: int): (r: Option<Product>)
    ensures r.None? <==> !Listed(products, id)
    ensures r.Some? ==> exists i :: 0 <= i < |products| && products[i] == r.value
                                   && forall j :: 0 <= j < i ==> products[j].id != id
    ensures r.Some? ==> r.value.id == id
  {
    if |products| == 0 then None
    else if products[0].id == id then Some(products[0])
    else
      var r := FindProduct(products[1..], id);
      assert r.Some? ==> exists i :: 0 <= i < |products[1..]| && products[1..][i] == r.value
                                     && forall j :: 0 <= j < i ==> products[1..][j].id != id;
      assert Listed(products, id) ==> Listed(products[1..], id) by {
        if Listed(products, id) {
          var i :| 0 <= i < |products| && products[i].id == id;
          assert products[1..][i - 1].id == id;
        }
      }
      if r.Some? then
        var i :| 0 <= i < |products[1..]| && products[1..][i] == r.value
                 && forall j :: 0 <= j < i ==> products[1..][j].id != id;
        assert products[i + 1] == r.value;
        assert forall j :: 0 <= j < i + 1 ==> products[j].id != id by {
          forall j | 0 <= j < i + 1 ensures products[j].id != id {
            if j > 0 { assert products[j] == products[1..][j - 1]; }
          }
        }
        r
      else
        r
  }
}
