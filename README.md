# Shopping cart of the GoMarketplace storefront, modelled in Dafny

The storefront keeps its cart as an ordered list of line items (`Product`:
`id`, `title`, `image_url`, `price`, `quantity`) inside a React provider
(`src/hooks/cart.tsx`). Three operations replace that list wholesale with a
new one computed from the old:

- `addToCart(product)` raises the quantity of the entry with the same id, or
  appends the product with quantity 1;
- `increment(id)` adds one to the quantity of every entry carrying `id`;
- `decrement(id)` subtracts one from every entry carrying `id`, then drops
  every entry whose quantity is not positive.

`useCart` gives a consumer the provider's value, and throws outside a provider.

The source builds every new list with `find`, `map`, `filter` and object
spread, so the model is written as functions over `seq<Product>`:

- `wrappers.dfy` (module `Wrappers`): `Option` and `Result`.
- `cart.dfy` (module `Cart`): the `Product` record and the three operations.
  It also holds the `find`, `map` and `filter` steps they are built from,
  each with an element-wise contract.
- `cart_laws.dfy` (module `CartLaws`): exact statements of what each
  operation does to a well-formed cart. A well-formed cart has one entry per
  id and only positive quantities. The module also has `QuantityOf`, the
  quantity the cart holds of an id, and the laws for how each operation
  changes it.
- `cart_provider.dfy` (module `CartProvider`): the provider's state, which
  starts as `[]` and is replaced by each action. `Replay` applies the actions
  in order, each to the list the previous one left, which is what happens
  when the provider re-renders between calls. It proves that every reachable
  state is well-formed and that such a run of `addToCart` calls holds exactly
  as many of each id as were added. It also models `useCart`.

Two details of the code differ from what the operations' names suggest, and
the model follows the code:

- `addToCart` on an id that is already present does not update only one
  entry. The `map` replaces every entry carrying the id with a copy of the
  first such entry, with its quantity raised by one. The two readings agree
  on every well-formed cart, and `CartLaws.AddToCartExisting` proves this.
- `decrement` drops every entry whose quantity is not positive, not just the
  decremented one. Such entries can exist only if they were loaded from
  storage. On a cart with positive quantities this makes no difference.

## Model

| member | source | states |
|---|---|---|
| `Cart.Find` | src/hooks/cart.tsx:58-60 | it finds nothing exactly when no entry carries the id; otherwise the result carries the id and is the entry at the first index that does |
| `Cart.ReplaceAll` | src/hooks/cart.tsx:64-69 | the map of `addToCart` keeps the length, and each entry becomes the replacement when its id matches and stays the same otherwise |
| `Cart.AddQuantity` | src/hooks/cart.tsx:81-85 | the map of `increment`/`decrement` keeps the length, and each matching entry gets `quantity + delta` with its other fields kept; other entries are unchanged |
| `Cart.KeepPositive` | src/hooks/cart.tsx:100 | the filter's result has only positive quantities and is an order-preserving subsequence of its input; an input whose quantities are all positive comes back unchanged |
| `Cart.KeepPositiveAppend` | src/hooks/cart.tsx:100 | the filter distributes over concatenation; with `KeepPositive`'s own contract this fixes its result, also on lists with repeated equal entries |
| `Cart.KeepPositiveMembers` | src/hooks/cart.tsx:100 | an entry is in the filter's result exactly when it is in the input with a positive quantity |
| `Cart.AddToCart` | src/hooks/cart.tsx:56-76 | unknown id: one entry is appended, equal to the argument with quantity 1, and the old list is an unchanged prefix. Known id: same length, non-matching entries unchanged, and every matching entry becomes the first entry `find` returns with its quantity plus 1, so title, image and price come from the cart, not the argument |
| `Cart.AddToCartKeeps` | src/hooks/cart.tsx:58-73 | `addToCart` keeps the ids of the cart when the id is present and appends the id otherwise; so distinct ids stay distinct, and positive quantities stay positive |
| `Cart.Increment` | src/hooks/cart.tsx:78-89 | keeps length, order and ids; a matching entry gains exactly 1 in quantity and keeps its other fields; others are unchanged; an unknown id leaves the list unchanged; keeps distinct ids and positive quantities |
| `Cart.Decrement` | src/hooks/cart.tsx:91-104 | every quantity in the result is positive; the result is an order-preserving subsequence of the mapped list; with all quantities positive, an unknown id leaves the list unchanged |
| `Cart.DecrementMembers` | src/hooks/cart.tsx:94-100 | each result entry is an input entry, lowered by one when it carries the id; every non-matching entry with a positive quantity survives; a matching entry above 1 survives lowered by one |
| `Cart.DecrementKeeps` | src/hooks/cart.tsx:94-100 | the result is no longer than the input; its ids are a subsequence of the input's ids, in order, so no entry is created or reordered; distinct ids stay distinct |
| `CartLaws.QuantityOf` | src/hooks/cart.tsx:58-66 | the quantity held of an id is zero when no entry carries it; when all quantities are positive it is positive exactly when some entry carries the id |
| `CartLaws.FindUnique` | src/hooks/cart.tsx:58-60 | with distinct ids, `find` returns the one entry carrying the id |
| `CartLaws.AddToCartExisting` | src/hooks/cart.tsx:62-70 | on a cart with distinct ids, adding a present product raises that entry's quantity by one in place; its title, image and price come from the existing entry, not the argument |
| `CartLaws.IncrementExisting` | src/hooks/cart.tsx:80-86 | on a cart with distinct ids, `increment` raises the one matching entry's quantity by one in place |
| `CartLaws.DecrementRemoves` | src/hooks/cart.tsx:94-100 | on a well-formed cart, decrementing an entry of quantity 1 removes it and keeps the other entries in order |
| `CartLaws.DecrementLowers` | src/hooks/cart.tsx:94-100 | on a well-formed cart, decrementing an entry of quantity above 1 lowers it by one in place |
| `CartLaws.AddToCartQuantity` | src/hooks/cart.tsx:56-76 | on a cart with distinct ids, `addToCart` raises the quantity held of the added id by one (from 0 when absent) and of no other id |
| `CartLaws.IncrementQuantity` | src/hooks/cart.tsx:78-89 | on a cart with distinct ids, `increment` raises the quantity held of a present id by one, changes no other, and is a no-op on an unknown id |
| `CartLaws.DecrementQuantity` | src/hooks/cart.tsx:91-104 | on a well-formed cart, `decrement` lowers the quantity held of a present id by one, changes no other, and is a no-op on an unknown id; from 1 it lowers to 0, which means the entry is removed |
| `CartProvider.Apply` | src/hooks/cart.tsx:56-104 | each of the three operations keeps the cart well-formed |
| `CartProvider.ReplayWellFormed` | src/hooks/cart.tsx:29-104 | every state reached from the provider's initial empty list through any actions has at most one entry per id and only positive quantities |
| `CartProvider.ReplayAddsCount` | src/hooks/cart.tsx:29-76 | after any run of `addToCart` calls from the empty list, with a re-render between calls, the cart holds of each id exactly the number of calls that added it |
| `CartProvider.UseCart` | src/hooks/cart.tsx:114-122 | fails, with the provider message, exactly when there is no context, and otherwise returns the context unchanged |

## Left out

- Loading the cart from AsyncStorage and saving it after every change
  (src/hooks/cart.tsx:31-54): asynchronous I/O through a foreign library. The
  provider's state is modelled as starting from `[]`. A cart loaded from
  storage can be any list, and that is why the operations take any list.
  Their well-formedness lemmas require the invariant instead of assuming it.
- `JSON.parse` and `JSON.stringify`, and with them the serialisation round
  trip: foreign code whose behaviour is not visible in the source.
- The race between the initial load and early mutations, and the order in
  which overlapping saves complete: timing, not list logic.
- Updates lost within one render. Each mutator closes over the `products` of
  the render that created it (src/hooks/cart.tsx:56-58, 75, 78-80, 88,
  91-93, 103) and passes a new list to `setProducts`, not an updater
  function. So two calls made before a re-render both start from the same
  list and the later one wins: from `[]`, `addToCart(a); addToCart(b)` in one
  handler ends at `[b]` with quantity 1. `CartProvider.Replay`, and with it
  `ReplayAddsCount`, assumes a re-render between calls and does not model
  this. `ReplayWellFormed` still covers such runs, because every state is
  one operation applied to a reachable state.
- React plumbing (`createContext`, `useState`, `useCallback`, `useMemo`, the
  provider element). `CartContext` carries only the products, because the
  mutators are the functions of module `Cart`. `useCart`'s missing context is
  an `Option`, and its `throw` is a `Result` failure.
- `price` is a JavaScript number used only as an opaque field. It is modelled
  as `real` and never computed on, so floating point is not modelled.
- `quantity` is modelled as an unbounded `int`. JavaScript numbers could
  hold fractions or lose precision past 2^53, and neither is modelled.
