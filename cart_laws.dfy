/**
 * What the three cart operations do to a well-formed cart (one entry per id,
 * every quantity positive), stated exactly, and what they do to the quantity
 * the cart holds of each product.
 */
module CartLaws {
  import opened Wrappers
  import opened Cart

  /** The quantity the cart holds of `id`: that of the entry `find` returns, or zero. */
  function QuantityOf(products: seq<Product>, id: string): (n: int)
    ensures !Contains(products, id) ==> n == 0
    ensures AllPositive(products) ==> (n > 0 <==> Contains(products, id))
  {
    match Find(products, id)
    case Some(p) => p.quantity
    case None => 0
  }

  /** With one entry per id, `find` returns the entry at the only index carrying the id. */
  lemma FindUnique(products: seq<Product>, k: nat)
    requires DistinctIds(products) && k < |products|
    ensures Find(products, products[k].id) == Some(products[k])
    ensures QuantityOf(products, products[k].id) == products[k].quantity
  {
    var r := Find(products, products[k].id);
    var k' :| 0 <= k' < |products| && products[k'] == r.value &&
              forall j :: 0 <= j < k' ==> products[j].id != products[k].id;
    assert k' == k;
  }

  /** With one entry per id, the `map` of `increment`/`decrement` touches exactly one index. */
  lemma AddQuantityAt(products: seq<Product>, k: nat, delta: int)
    requires DistinctIds(products) && k < |products|
    ensures AddQuantity(products, products[k].id, delta) ==
            products[..k] + [products[k].(quantity := products[k].quantity + delta)] + products[k + 1..]
  {
    var r := AddQuantity(products, products[k].id, delta);
    var s := products[..k] + [products[k].(quantity := products[k].quantity + delta)] + products[k + 1..];
    assert |r| == |s|;
    forall i | 0 <= i < |r| ensures r[i] == s[i] {
      if i != k { assert products[i].id != products[k].id; }
    }
  }

  /**
   * `addToCart` of a product already in a well-formed cart raises that
   * entry's quantity by one in place and keeps the entry's own title, image
   * and price.
   */
  lemma AddToCartExisting(products: seq<Product>, product: Product, k: nat)
    requires DistinctIds(products) && k < |products| && products[k].id == product.id
    ensures AddToCart(products, product) == products[k := products[k].(quantity := products[k].quantity + 1)]
  {
    FindUnique(products, k);
    var r := AddToCart(products, product);
    var s := products[k := products[k].(quantity := products[k].quantity + 1)];
    forall i | 0 <= i < |products| ensures r[i] == s[i] {
      if i != k { assert products[i].id != products[k].id; }
    }
  }

  /** `increment` of an id in a well-formed cart raises that one entry's quantity by one in place. */
  lemma IncrementExisting(products: seq<Product>, k: nat)
    requires DistinctIds(products) && k < |products|
    ensures Increment(products, products[k].id) == products[k := products[k].(quantity := products[k].quantity + 1)]
  {
    AddQuantityAt(products, k, 1);
  }

  /** `filter` drops a non-positive entry standing between two runs of positive ones. */
  lemma KeepPositiveDrops(before: seq<Product>, dropped: Product, after: seq<Product>)
    requires AllPositive(before) && AllPositive(after) && dropped.quantity <= 0
    ensures KeepPositive(before + [dropped] + after) == before + after
  {
    assert KeepPositive([dropped]) == [] by { assert [dropped][1..] == []; }
    KeepPositiveAppend(before, [dropped]);
    assert KeepPositive(before + [dropped]) == before;
    KeepPositiveAppend(before + [dropped], after);
  }

  /** `decrement` of an entry of quantity one removes it and keeps the rest in order. */
  lemma DecrementRemoves(products: seq<Product>, k: nat)
    requires WellFormed(products) && k < |products| && products[k].quantity == 1
    ensures Decrement(products, products[k].id) == products[..k] + products[k + 1..]
  {
    AddQuantityAt(products, k, -1);
    KeepPositiveDrops(products[..k], products[k].(quantity := 0), products[k + 1..]);
  }

  /** `decrement` of an entry of quantity above one lowers it by one in place. */
  lemma DecrementLowers(products: seq<Product>, k: nat)
    requires WellFormed(products) && k < |products| && products[k].quantity > 1
    ensures Decrement(products, products[k].id) == products[k := products[k].(quantity := products[k].quantity - 1)]
  {
    var lowered := products[k].(quantity := products[k].quantity - 1);
    AddQuantityAt(products, k, -1);
    var mapped := products[..k] + [lowered] + products[k + 1..];
    assert mapped == products[k := lowered];
    assert AllPositive(mapped) by {
      forall i | 0 <= i < |mapped| ensures mapped[i].quantity > 0 {
        if i != k { assert mapped[i] == products[i]; }
      }
    }
  }

  /** Replacing the entry at `k` by one with the same id changes the quantity held of that id only. */
  lemma QuantityAfterUpdate(products: seq<Product>, k: nat, entry: Product, other: string)
    requires DistinctIds(products) && k < |products| && entry.id == products[k].id
    ensures QuantityOf(products[k := entry], other) ==
            if other == entry.id then entry.quantity else QuantityOf(products, other)
  {
    var r := products[k := entry];
    assert DistinctIds(r) by {
      forall i, j | 0 <= i < j < |r| ensures r[i].id != r[j].id {
        assert r[i].id == products[i].id && r[j].id == products[j].id;
      }
    }
    FindUnique(r, k);
    if other != entry.id {
      if Contains(products, other) {
        var j :| 0 <= j < |products| && products[j].id == other;
        FindUnique(products, j);
        FindUnique(r, j);
      } else {
        assert !Contains(r, other) by {
          forall i | 0 <= i < |r| ensures r[i].id != other { assert r[i].id == products[i].id; }
        }
      }
    }
  }

  /** Removing the entry at `k` empties the quantity held of its id and changes no other. */
  lemma QuantityAfterRemoval(products: seq<Product>, k: nat, other: string)
    requires DistinctIds(products) && k < |products|
    ensures QuantityOf(products[..k] + products[k + 1..], other) ==
            if other == products[k].id then 0 else QuantityOf(products, other)
  {
    var r := products[..k] + products[k + 1..];
    assert |r| == |products| - 1;
    assert forall i :: 0 <= i < k ==> r[i] == products[i];
    assert forall i :: k <= i < |r| ==> r[i] == products[i + 1];
    if Contains(r, other) {
      var i :| 0 <= i < |r| && r[i].id == other;
      var j := if i < k then i else i + 1;
      assert r[i] == products[j];
      assert DistinctIds(r) by {
        forall a, b | 0 <= a < b < |r| ensures r[a].id != r[b].id {
          var a', b' := if a < k then a else a + 1, if b < k then b else b + 1;
          assert r[a] == products[a'] && r[b] == products[b'];
        }
      }
      FindUnique(products, j);
      FindUnique(r, i);
    } else if other != products[k].id {
      assert !Contains(products, other) by {
        forall j | 0 <= j < |products| ensures products[j].id != other {
          if j < k { assert products[j] == r[j]; } else if j > k { assert products[j] == r[j - 1]; }
        }
      }
    } else {
      FindUnique(products, k);
    }
  }

  /** `addToCart` raises the quantity held of the added product by one and of no other. */
  lemma AddToCartQuantity(products: seq<Product>, product: Product, id: string)
    requires DistinctIds(products)
    ensures QuantityOf(AddToCart(products, product), id) ==
            QuantityOf(products, id) + if id == product.id then 1 else 0
  {
    var r := AddToCart(products, product);
    if Contains(products, product.id) {
      var k :| 0 <= k < |products| && products[k].id == product.id;
      AddToCartExisting(products, product, k);
      FindUnique(products, k);
      QuantityAfterUpdate(products, k, products[k].(quantity := products[k].quantity + 1), id);
    } else {
      var n := |products|;
      assert r == products + [product.(quantity := 1)];
      if id == product.id {
        FindUnique(r, n);
      } else if Contains(products, id) {
        var j :| 0 <= j < |products| && products[j].id == id;
        FindUnique(products, j);
        FindUnique(r, j);
      } else {
        assert !Contains(r, id) by {
          forall i | 0 <= i < |r| ensures r[i].id != id {
            if i < n { assert r[i] == products[i]; }
          }
        }
      }
    }
  }

  /** `increment` raises the quantity held of `id` by one when the cart holds it, and of nothing else. */
  lemma IncrementQuantity(products: seq<Product>, id: string, other: string)
    requires DistinctIds(products)
    ensures QuantityOf(Increment(products, id), other) ==
            QuantityOf(products, other) + if other == id && Contains(products, id) then 1 else 0
  {
    if Contains(products, id) {
      var k :| 0 <= k < |products| && products[k].id == id;
      IncrementExisting(products, k);
      FindUnique(products, k);
      QuantityAfterUpdate(products, k, products[k].(quantity := products[k].quantity + 1), other);
    }
  }

  /** `decrement` lowers the quantity held of `id` by one when the cart holds it, and of nothing else. */
  lemma DecrementQuantity(products: seq<Product>, id: string, other: string)
    requires WellFormed(products)
    ensures QuantityOf(Decrement(products, id), other) ==
            QuantityOf(products, other) - if other == id && Contains(products, id) then 1 else 0
  {
    if !Contains(products, id) {
      assert Decrement(products, id) == products;
    } else {
      var k :| 0 <= k < |products| && products[k].id == id;
      FindUnique(products, k);
      if products[k].quantity == 1 {
        DecrementRemoves(products, k);
        QuantityAfterRemoval(products, k, other);
      } else {
        DecrementLowers(products, k);
        QuantityAfterUpdate(products, k, products[k].(quantity := products[k].quantity - 1), other);
      }
    }
  }
}
