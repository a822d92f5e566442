/**
 * The provider around the cart: its `products` state starts as the empty
 * list and each call of a mutator replaces it wholesale with the operation's
 * result; `useCart` hands the provider's value to a consumer, or fails when
 * there is no provider.
 *
 * Each mutator is a closure over the `products` of the render that created
 * it, and it passes a new list to the setter rather than an updater. The
 * replay below therefore describes runs in which the provider re-renders
 * between calls, so that each call starts from the list the previous one
 * left. Two calls made within one render both start from the same list, and
 * only the later result is kept; that case is not replayed here.
 */
module CartProvider {
  import opened Wrappers
  import Cart
  import CartLaws

  /** One call a consumer makes on the cart's value. */
  datatype Action =
    | AddToCart(product: Cart.Product)
    | Increment(id: string)
    | Decrement(id: string)

  /** The value a consumer receives: the current products (the mutators are the operations of `Cart`). */
  datatype CartContext = CartContext(products: seq<Cart.Product>)

  /** The message `useCart` throws with outside a provider. */
  const OutsideProvider: string := "useCart must be used within a CartProvider"

  /** The new `products` state after one action; well-formedness is kept. */
  function Apply(products: seq<Cart.Product>, action: Action): (r: seq<Cart.Product>)
    ensures Cart.WellFormed(products) ==> Cart.WellFormed(r)
  {
    match action
    case AddToCart(product) =>
      Cart.AddToCartKeeps(products, product);
      Cart.AddToCart(products, product)
    case Increment(id) => Cart.Increment(products, id)
    case Decrement(id) =>
      Cart.DecrementKeeps(products, id);
      Cart.Decrement(products, id)
  }

  /**
   * The `products` state after the given actions, in order, starting from the
   * provider's empty list, when the provider re-renders between actions.
   */
  function Replay(actions: seq<Action>): seq<Cart.Product>
    decreases |actions|
  {
    if |actions| == 0 then []
    else Apply(Replay(actions[..|actions| - 1]), actions[|actions| - 1])
  }

  /** Every state the provider can reach holds at most one entry per id, each with a positive quantity. */
  lemma {:induction false} ReplayWellFormed(actions: seq<Action>)
    ensures Cart.WellFormed(Replay(actions))
    decreases |actions|
  {
    if |actions| > 0 {
      ReplayWellFormed(actions[..|actions| - 1]);
    }
  }

  /** How many of `actions` add a product carrying `id`. */
  function AddedCount(actions: seq<Action>, id: string): nat
    decreases |actions|
  {
    if |actions| == 0 then 0
    else
      var last := actions[|actions| - 1];
      AddedCount(actions[..|actions| - 1], id) + if last.AddToCart? && last.product.id == id then 1 else 0
  }

  /**
   * After a run of `addToCart` calls only, each made after the re-render that
   * followed the previous one, the cart holds of each id exactly as many as
   * were added.
   */
  lemma {:induction false} ReplayAddsCount(actions: seq<Action>, id: string)
    requires forall i :: 0 <= i < |actions| ==> actions[i].AddToCart?
    ensures CartLaws.QuantityOf(Replay(actions), id) == AddedCount(actions, id)
    decreases |actions|
  {
    if |actions| > 0 {
      var prefix, last := actions[..|actions| - 1], actions[|actions| - 1];
      assert forall i :: 0 <= i < |prefix| ==> prefix[i] == actions[i];
      ReplayAddsCount(prefix, id);
      ReplayWellFormed(prefix);
      CartLaws.AddToCartQuantity(Replay(prefix), last.product, id);
    }
  }

  /** `useCart`: the provider's value when there is one, and the error otherwise. */
  function UseCart(context: Option<CartContext>): (r: Result<CartContext, string>)
    ensures r.Failure? <==> context.None?
    ensures r.Failure? ==> r.error == OutsideProvider
    ensures r.Success? ==> r.value == context.value
  {
    match context
    case None => Failure(OutsideProvider)
    case Some(value) => Success(value)
  }
}
