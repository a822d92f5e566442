/**
 * The cart of the storefront: an ordered list of line items and the three
 * operations that compute a new list from the old one (`addToCart`,
 * `increment`, `decrement` in src/hooks/cart.tsx). Every operation here is a
 * function: the source builds a fresh array with `find`, `map`, `filter` and
 * object spread and hands it to the React state setter.
 */
module Cart {
  import opened Wrappers

  /** One line item. `price` is carried along and never computed on. */
  datatype Product = Product(id: string, title: string, imageUrl: string, price: real, quantity: int)

  /** The ids of a list, in order. */
  function Ids(products: seq<Product>): seq<string>
  {
    seq(|products|, i requires 0 <= i < |products| => products[i].id)
  }

  /** Some entry of `products` carries `id`. */
  predicate Contains(products: seq<Product>, id: string)
  {
    exists i :: 0 <= i < |products| && products[i].id == id
  }

  /** No two entries share an id. */
  predicate DistinctIds(products: seq<Product>)
  {
    forall i, j :: 0 <= i < j < |products| ==> products[i].id != products[j].id
  }

  /** Every entry has a quantity of at least one. */
  predicate AllPositive(products: seq<Product>)
  {
    forall i :: 0 <= i < |products| ==> products[i].quantity > 0
  }

  /** The invariant a cart keeps: one entry per id, and no empty entries. */
  predicate WellFormed(products: seq<Product>)
  {
    DistinctIds(products) && AllPositive(products)
  }

  /** `xs` is `ys` with some entries dropped and the rest in their order. */
  predicate SubsequenceOf<T(==)>(xs: seq<T>, ys: seq<T>)
    decreases |ys|
  {
    if |ys| == 0 then xs == []
    else (|xs| > 0 && xs[0] == ys[0] && SubsequenceOf(xs[1..], ys[1..])) || SubsequenceOf(xs, ys[1..])
  }

  /** Dropping entries never makes a list longer. */
  lemma {:induction false} SubsequenceShorter<T>(xs: seq<T>, ys: seq<T>)
    requires SubsequenceOf(xs, ys)
    ensures |xs| <= |ys|
    decreases |ys|
  {
    if |ys| > 0 {
      if |xs| > 0 && xs[0] == ys[0] && SubsequenceOf(xs[1..], ys[1..]) {
        SubsequenceShorter(xs[1..], ys[1..]);
      } else {
        SubsequenceShorter(xs, ys[1..]);
      }
    }
  }

  /** Dropping entries drops their ids and keeps the order of the rest. */
  lemma {:induction false} SubsequenceIds(xs: seq<Product>, ys: seq<Product>)
    requires SubsequenceOf(xs, ys)
    ensures SubsequenceOf(Ids(xs), Ids(ys))
    decreases |ys|
  {
    if |ys| > 0 {
      assert Ids(ys)[1..] == Ids(ys[1..]);
      if |xs| > 0 && xs[0] == ys[0] && SubsequenceOf(xs[1..], ys[1..]) {
        SubsequenceIds(xs[1..], ys[1..]);
        assert Ids(xs)[1..] == Ids(xs[1..]);
      } else {
        SubsequenceIds(xs, ys[1..]);
      }
    }
  }

  /** A subsequence of a list without repeated ids has no repeated ids. */
  lemma {:induction false} SubsequenceDistinct(xs: seq<Product>, ys: seq<Product>)
    requires SubsequenceOf(xs, ys) && DistinctIds(ys)
    ensures DistinctIds(xs)
    ensures forall i :: 0 <= i < |xs| ==> xs[i] in ys
    decreases |ys|
  {
    if |ys| > 0 {
      if |xs| > 0 && xs[0] == ys[0] && SubsequenceOf(xs[1..], ys[1..]) {
        SubsequenceDistinct(xs[1..], ys[1..]);
        forall j | 0 < j < |xs| ensures xs[0].id != xs[j].id {
          assert xs[j] == xs[1..][j - 1];
          var k :| 0 <= k < |ys[1..]| && ys[1..][k] == xs[j];
          assert ys[k + 1] == xs[j];
        }
      } else {
        SubsequenceDistinct(xs, ys[1..]);
      }
    }
  }

  /** `products.find(p => p.id === id)`: the first entry carrying `id`, if any. */
  function Find(products: seq<Product>, id: string): (r: Option<Product>)
    ensures r.None? <==> !Contains(products, id)
    ensures r.Some? ==> r.value.id == id
    ensures r.Some? ==> exists k :: 0 <= k < |products| && products[k] == r.value &&
                                    forall j :: 0 <= j < k ==> products[j].id != id
  {
    if |products| == 0 then None
    else if products[0].id == id then Some(products[0])
    else
      var r := Find(products[1..], id);
      assert Contains(products[1..], id) ==> Contains(products, id);
      assert Contains(products, id) ==> Contains(products[1..], id) by {
        if Contains(products, id) {
          var i :| 0 <= i < |products| && products[i].id == id;
          assert products[1..][i - 1].id == id;
        }
      }
      assert r.Some? ==> exists k :: 0 <= k < |products| && products[k] == r.value &&
                                     forall j :: 0 <= j < k ==> products[j].id != id by {
        if r.Some? {
          var k :| 0 <= k < |products[1..]| && products[1..][k] == r.value &&
                   forall j :: 0 <= j < k ==> products[1..][j].id != id;
          assert products[k + 1] == r.value;
          assert forall j :: 0 <= j < k + 1 ==> products[j].id != id by {
            forall j | 0 <= j < k + 1 ensures products[j].id != id {
              if j > 0 { assert products[j] == products[1..][j - 1]; }
            }
          }
        }
      }
      r
  }

  /** The map of `addToCart`: every entry carrying `id` becomes `entry`. */
  function ReplaceAll(products: seq<Product>, id: string, entry: Product): (r: seq<Product>)
    ensures |r| == |products|
    ensures forall i :: 0 <= i < |products| ==> r[i] == if products[i].id == id then entry else products[i]
  {
    if |products| == 0 then []
    else [if products[0].id == id then entry else products[0]] + ReplaceAll(products[1..], id, entry)
  }

  /** The map of `increment` and `decrement`: every entry carrying `id` has `delta` added to its quantity. */
  function AddQuantity(products: seq<Product>, id: string, delta: int): (r: seq<Product>)
    ensures |r| == |products|
    ensures forall i :: 0 <= i < |products| ==>
      r[i] == if products[i].id == id then products[i].(quantity := products[i].quantity + delta) else products[i]
  {
    if |products| == 0 then []
    else
      var head := if products[0].id == id then products[0].(quantity := products[0].quantity + delta) else products[0];
      [head] + AddQuantity(products[1..], id, delta)
  }

  /** The filter of `decrement`: the entries whose quantity is positive, in their order. */
  function KeepPositive(products: seq<Product>): (r: seq<Product>)
    ensures AllPositive(r)
    ensures SubsequenceOf(r, products)
    ensures AllPositive(products) ==> r == products
  {
    if |products| == 0 then []
    else
      var rest := KeepPositive(products[1..]);
      if products[0].quantity > 0 then
        var r := [products[0]] + rest;
        assert r[1..] == rest;
        assert products == [products[0]] + products[1..];
        r
      else
        rest
  }

  /** An entry survives the filter exactly when it is in the input with a positive quantity. */
  lemma {:induction false} KeepPositiveMembers(products: seq<Product>, p: Product)
    ensures p in KeepPositive(products) <==> p in products && p.quantity > 0
    decreases |products|
  {
    if |products| > 0 {
      KeepPositiveMembers(products[1..], p);
      assert products == [products[0]] + products[1..];
    }
  }

  /** `filter` distributes over concatenation. */
  lemma {:induction false} KeepPositiveAppend(a: seq<Product>, b: seq<Product>)
    ensures KeepPositive(a + b) == KeepPositive(a) + KeepPositive(b)
    decreases |a|
  {
    if |a| > 0 {
      assert (a + b)[1..] == a[1..] + b;
      KeepPositiveAppend(a[1..], b);
    } else {
      assert a + b == b;
    }
  }

  /** Replacing the entries carrying `id` by one that carries `id` keeps the ids, their distinctness and positivity. */
  lemma ReplaceAllKeeps(products: seq<Product>, id: string, entry: Product)
    requires entry.id == id
    ensures Ids(ReplaceAll(products, id, entry)) == Ids(products)
    ensures DistinctIds(products) ==> DistinctIds(ReplaceAll(products, id, entry))
    ensures AllPositive(products) && entry.quantity > 0 ==> AllPositive(ReplaceAll(products, id, entry))
  {
    var r := ReplaceAll(products, id, entry);
    assert forall i :: 0 <= i < |r| ==> r[i].id == products[i].id;
  }

  /** Appending an entry whose id is new keeps the ids distinct and adds its id at the end. */
  lemma AppendKeeps(products: seq<Product>, entry: Product)
    requires !Contains(products, entry.id)
    ensures Ids(products + [entry]) == Ids(products) + [entry.id]
    ensures DistinctIds(products) ==> DistinctIds(products + [entry])
    ensures AllPositive(products) && entry.quantity > 0 ==> AllPositive(products + [entry])
  {
    var r := products + [entry];
    assert forall i :: 0 <= i < |products| ==> r[i] == products[i];
  }

  /**
   * `addToCart(product)`: when an entry with the same id exists, the first
   * such entry with its quantity raised by one replaces every entry with that
   * id (the argument's other fields are discarded); otherwise the argument
   * is appended with quantity one.
   */
  function AddToCart(products: seq<Product>, product: Product): (r: seq<Product>)
    ensures !Contains(products, product.id) ==>
      && |r| == |products| + 1
      && r[..|products|] == products
      && r[|products|] == product.(quantity := 1)
    ensures Contains(products, product.id) ==>
      && |r| == |products|
      && forall i :: 0 <= i < |products| ==>
           r[i] == if products[i].id != product.id then products[i]
                   else Find(products, product.id).value.(quantity := Find(products, product.id).value.quantity + 1)
  {
    match Find(products, product.id)
    case Some(found) => ReplaceAll(products, product.id, found.(quantity := found.quantity + 1))
    case None => products + [product.(quantity := 1)]
  }

  /** `addToCart` of a present id keeps the ids, so keeps them distinct, and keeps quantities positive. */
  lemma AddToCartKnownKeeps(products: seq<Product>, product: Product, found: Product)
    requires Find(products, product.id) == Some(found)
    ensures Ids(AddToCart(products, product)) == Ids(products)
    ensures DistinctIds(products) ==> DistinctIds(AddToCart(products, product))
    ensures AllPositive(products) ==> AllPositive(AddToCart(products, product))
  {
    ReplaceAllKeeps(products, product.id, found.(quantity := found.quantity + 1));
  }

  /** `addToCart` of a new id appends that id, keeps the ids distinct and quantities positive. */
  lemma AddToCartNewKeeps(products: seq<Product>, product: Product)
    requires Find(products, product.id) == None
    ensures Ids(AddToCart(products, product)) == Ids(products) + [product.id]
    ensures DistinctIds(products) ==> DistinctIds(AddToCart(products, product))
    ensures AllPositive(products) ==> AllPositive(AddToCart(products, product))
  {
    AppendKeeps(products, product.(quantity := 1));
  }

  /**
   * `addToCart` keeps the ids of the cart, or appends the new one, and so
   * keeps them distinct; it keeps every quantity positive.
   */
  lemma AddToCartKeeps(products: seq<Product>, product: Product)
    ensures Ids(AddToCart(products, product)) ==
            if Contains(products, product.id) then Ids(products) else Ids(products) + [product.id]
    ensures DistinctIds(products) ==> DistinctIds(AddToCart(products, product))
    ensures AllPositive(products) ==> AllPositive(AddToCart(products, product))
  {
    match Find(products, product.id)
    case Some(found) => AddToCartKnownKeeps(products, product, found);
    case None => AddToCartNewKeeps(products, product);
  }

  /**
   * `increment(id)`: every entry carrying `id` gains one in quantity; the
   * list keeps its length, order and ids.
   */
  function Increment(products: seq<Product>, id: string): (r: seq<Product>)
    ensures |r| == |products| && Ids(r) == Ids(products)
    ensures forall i :: 0 <= i < |products| && products[i].id == id ==>
      r[i].quantity == products[i].quantity + 1 && r[i].(quantity := products[i].quantity) == products[i]
    ensures forall i :: 0 <= i < |products| && products[i].id != id ==> r[i] == products[i]
    ensures !Contains(products, id) ==> r == products
    ensures DistinctIds(products) ==> DistinctIds(r)
    ensures AllPositive(products) ==> AllPositive(r)
  {
    AddQuantity(products, id, 1)
  }

  /**
   * `decrement(id)`: every entry carrying `id` loses one in quantity, then
   * every entry whose quantity is not positive is dropped.
   */
  function Decrement(products: seq<Product>, id: string): (r: seq<Product>)
    ensures AllPositive(r)
    ensures SubsequenceOf(r, AddQuantity(products, id, -1))
    ensures AllPositive(products) && !Contains(products, id) ==> r == products
  {
    KeepPositive(AddQuantity(products, id, -1))
  }

  /**
   * What survives `decrement`: every entry of the result is an entry of the
   * input, lowered by one when it carries `id`; every positive entry not
   * carrying `id` survives, and so does a matching entry above one, lowered.
   */
  lemma DecrementMembers(products: seq<Product>, id: string, p: Product)
    ensures p in Decrement(products, id) ==>
      if p.id == id then p.(quantity := p.quantity + 1) in products else p in products
    ensures p in products && p.id != id && p.quantity > 0 ==> p in Decrement(products, id)
    ensures p in products && p.id == id && p.quantity > 1 ==> p.(quantity := p.quantity - 1) in Decrement(products, id)
  {
    var mapped := AddQuantity(products, id, -1);
    KeepPositiveMembers(mapped, p);
    KeepPositiveMembers(mapped, p.(quantity := p.quantity - 1));
    if p in mapped {
      var i :| 0 <= i < |mapped| && mapped[i] == p;
      assert products[i].id == p.id;
      if p.id == id { assert products[i] == p.(quantity := p.quantity + 1); }
    }
    if p in products {
      var i :| 0 <= i < |products| && products[i] == p;
      if p.id != id { assert mapped[i] == p; } else { assert mapped[i] == p.(quantity := p.quantity - 1); }
    }
  }

  /**
   * `decrement` keeps the remaining ids in their order and distinct, and
   * never makes the cart longer.
   */
  lemma DecrementKeeps(products: seq<Product>, id: string)
    ensures |Decrement(products, id)| <= |products|
    ensures SubsequenceOf(Ids(Decrement(products, id)), Ids(products))
    ensures DistinctIds(products) ==> DistinctIds(Decrement(products, id))
  {
    var mapped := AddQuantity(products, id, -1);
    var r := KeepPositive(mapped);
    SubsequenceShorter(r, mapped);
    SubsequenceIds(r, mapped);
    assert Ids(mapped) == Ids(products);
    if DistinctIds(products) {
      assert DistinctIds(mapped);
      SubsequenceDistinct(r, mapped);
    }
  }
}
