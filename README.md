# Storefront core: slugs, session cart, checkout and totals

A Dafny model of the parts of the Django storefront that carry real logic:

- **Slug derivation** (`Category.save`, `Product.save`). The name is
  lower-cased, then run through the transliteration table one entry at a
  time. Every character outside `[a-z0-9-]` is deleted, runs of hyphens are
  collapsed and hyphens are trimmed from both ends. An empty result falls
  back to `category` or `product`. A product then tries `base`, `base-1`,
  `base-2`, … until its slug is free among the slugs already stored.
- **The session cart and checkout** (`orders/views.py`). The cart maps a
  product to a quantity and a price snapshot taken at the first add.
  Checkout turns the cart into one order and one item per entry, and then
  empties the cart.
- **Totals** (`Order.total_price`, `OrderItem.total_price` and the cart
  context processor): sums of price × quantity.

Modules:

| file | module | models |
|---|---|---|
| `wrappers.dfy` | `Wrappers` | the `Option` type |
| `slugs.dfy` | `Slugs` | the slug pipeline, the suffix loop, and the `Category` and `Product` classes with their `Save` methods |
| `cart.dfy` | `Cart` | cart entries, lookup by product, the two sums and the context processor |
| `orders.dfy` | `Orders` | order statuses, orders and items, `total_price`, and the `OrderStore` class holding the two tables |
| `views.dfy` | `OrderViews` | the `SessionCart` class, `cart_add`, `cart_remove`, `cart_detail`, `checkout`, and the owner filter of the order views |

Modelling choices:

- **Prices** are integer kopecks. The price columns are decimals with two
  fractional digits, so the conversion is exact.
- **The cart** is a sequence of lines with pairwise distinct product ids.
  A Python dictionary keeps insertion order, and checkout creates items in
  that order. So a new product is appended, an updated product keeps its
  place, and a deleted product leaves the sequence.
- **The catalog** is a map from product id to current price. An id that is
  not in the map is what `get_object_or_404` turns into a 404.
- **The two order tables** are sequences held by `OrderStore`. Order ids
  are 1, 2, 3, … in creation order. Every item refers to an order that
  exists.
- **The existence check** of the suffix loop is a finite set: the slugs
  stored in the products table. When a stored product is saved again with
  its slug cleared, this includes the product's own stored slug, since the
  query does not exclude the row being saved.
- **Lower-casing** (`LowerChar`, `Lower`) covers ASCII `A`–`Z`, Cyrillic
  `А`–`Я` and `Ё`. Every other character is returned unchanged.
- **Checkout has no transaction**, and the model keeps that. The order is
  created before the item loop. If one entry's product has gone from the
  catalog, the view answers 404. The order and the items created so far
  stay stored, and the cart is not cleared. An order should not exist
  without its items, and a failed checkout should keep the cart for a
  retry; that all-or-nothing behaviour is modelled beside it (see
  Findings).
- **Category slugs collide at the database.** `Category.save` adds no
  suffix; the slug column is unique, so a second category whose name gives
  the same slug is rejected by the database, not by `save`.

## Model

| member | source | states |
|---|---|---|
| `Slugs.TranslitTableOk` | products/products/models.py:47-54 | no key of the table is a slug character, and every replacement consists of slug characters only |
| `Slugs.ReplaceAll` | products/products/models.py:59 | `str.replace` with a key that does not occur returns the string unchanged |
| `Slugs.ReplaceEachIsTransliterate` | products/products/models.py:58-59 | for a table like this one, replacing its entries one after another equals substituting each character through the table |
| `Slugs.ReplaceLoop` | products/products/models.py:58-59 | the replacement loop computes the entry-by-entry replacement over the whole table |
| `Slugs.LowerChar` | products/products/models.py:57 | lower-casing one character leaves no capital of the modelled alphabet, and changes a character exactly when it is such a capital |
| `Slugs.Lower` | products/products/models.py:57 | `name.lower()` keeps the length, leaves no capital, and leaves every other character where it was |
| `Slugs.LowerIdempotent` | products/products/models.py:57 | lower-casing twice is lower-casing once |
| `Slugs.KeepSlugChars` | products/products/models.py:62 | after the first regex only `[a-z0-9-]` remain; letters and digits keep their order; a string already made of slug characters is unchanged, and one without any is emptied |
| `Slugs.KeepSlugCharsAppend` | products/products/models.py:62 | the regex works on each piece on its own: what it keeps of `a + b` is what it keeps of `a` followed by what it keeps of `b`. With the one-piece cases above, every kept character, hyphens included, keeps its place relative to the others |
| `Slugs.KeepSlugCharsCounts` | products/products/models.py:62 | the regex deletes exactly the characters outside `[a-z0-9-]`: each slug character keeps its number of occurrences, every other character has none |
| `Slugs.CollapseHyphens` | products/products/models.py:65 | no two hyphens in a row afterwards; the string does not grow; it is empty only if its input is; letters and digits are kept in order; no non-slug character comes in; a string with no doubled hyphen is unchanged |
| `Slugs.CollapseKeepsWords` | products/products/models.py:65 | collapsing keeps the hyphen-separated words of the string, in order, and its first character |
| `Slugs.CollapseKeepsLast` | products/products/models.py:65 | collapsing keeps the last character, so a run of hyphens at the end becomes one hyphen and does not vanish |
| `Slugs.WordsStrip` | products/products/models.py:68 | `strip('-')` keeps the hyphen-separated words |
| `Slugs.JoinWords` | products/products/models.py:62-70 | a string with no doubled hyphen and no hyphen at either end is exactly its words joined by single hyphens |
| `Slugs.CleanSlugIsJoin` | products/products/models.py:62-70 | the cleanup steps give the words of what the regex keeps, joined by single hyphens, or the fallback when there is no word |
| `Slugs.TwoWordsSlug` | products/products/models.py:62-70 | two hyphen-free words with a run of hyphens between them give the two words joined by one hyphen |
| `Slugs.TrimLeading` | products/products/models.py:68 | the result is a suffix of the input, everything cut off is a hyphen, the result does not start with one, and letters and digits are kept |
| `Slugs.TrimTrailing` | products/products/models.py:68 | the result is a prefix of the input, everything cut off is a hyphen, the result does not end with one, and letters and digits are kept |
| `Slugs.StripHyphens` | products/products/models.py:68 | `strip('-')` leaves no hyphen at either end, returns a contiguous piece of its input with only hyphens around it, and keeps every letter and digit |
| `Slugs.CleanSlugProperties` | products/products/models.py:62-70 | cleanup always yields a well-formed slug: non-empty, `[a-z0-9-]` only, no doubled hyphen, no hyphen at either end. It keeps every letter and digit of its input, and it is the fallback when there is none (the result can also equal the fallback word when the input spells it, for example `product`) |
| `Slugs.SlugOfProperties` | products/products/models.py:57-70 | the slug derived from any name is well-formed. It is the fallback when the transliterated name has no letter or digit; otherwise it holds the same letters and digits, and it is the words of the filtered name joined by single hyphens |
| `Slugs.BaseSlug` | products/products/models.py:116-131 | the lower-case, replace-loop, regex, strip and fallback steps compute `SlugOf(name, fallback)` |
| `Slugs.DecimalString` | products/products/models.py:137 | `str(counter)` is non-empty and made of decimal digits |
| `Slugs.DecimalRoundTrip` | products/products/models.py:137 | reading the digits of `str(n)` back gives `n` |
| `Slugs.DecimalStringInjective` | products/products/models.py:137 | different counters give different suffix texts |
| `Slugs.CandidateInjective` | products/products/models.py:134-138 | the candidates `base`, `base-1`, `base-2`, … are pairwise different, so each loop round tries a new slug |
| `Slugs.CandidateWellFormed` | products/products/models.py:137 | a numeric suffix keeps a well-formed base well-formed |
| `Slugs.UniqueSlug` | products/products/models.py:134-138 | the loop ends for every finite set of taken slugs. The result is not taken, and it is the least free candidate `base-k` (or `base` itself when free), with `k` at most the number of taken slugs. It is well-formed when the base is |
| `Slugs.SecondProductGetsSuffixOne` | products/products/models.py:134-138 | when only the base is taken, the least free candidate is `base-1` |
| `Slugs.LeastFreeUnique` | products/products/models.py:134-138 | the least free candidate is determined by the base and the set of taken slugs |
| `Slugs.FallbacksWellFormed` | products/products/models.py:70 | both fallback words are well-formed slugs |
| `Slugs.Category.Save` | products/products/models.py:44-71 | a slug already set is kept. A missing slug becomes the slug derived from the name alone, with no suffix, and it is well-formed. The name is unchanged |
| `Slugs.Product.Save` | products/products/models.py:103-141 | a slug already set is kept. A missing slug becomes a well-formed slug outside the taken set: the least free candidate built on the slug derived from the name |
| `Cart.IndexOf` | orders/views.py:15 | the membership test: when it finds an index, that line holds the product; it finds none exactly when no line holds the product |
| `Cart.FindAt` | orders/views.py:15-16 | in a valid cart, looking a product up returns the one line that holds it |
| `Cart.CartCount` | orders/context_processors.py:5 | `cart_count` is the sum of the quantities over the entries (a definition; its properties are the sum lemmas and `Cart.CountAtLeastLines`) |
| `Cart.CartTotal` | orders/context_processors.py:6 | `cart_total` is the sum of snapshot price times quantity over the entries; the catalog is not consulted (a definition; its properties are the sum lemmas and `OrderViews.ItemsTotalIsCartTotal`) |
| `Cart.SumAppend` | orders/context_processors.py:5-6 | a sum over the cart grows by the appended line's share |
| `Cart.SumUpdate` | orders/context_processors.py:5-6 | replacing one line changes a sum by the difference between the new line and the old |
| `Cart.SumDelete` | orders/context_processors.py:5-6 | deleting one line takes exactly its share out of a sum |
| `Cart.CountAtLeastLines` | orders/context_processors.py:5 | in a valid cart the item count is at least the number of distinct products |
| `Cart.CartContext` | orders/context_processors.py:3-11 | an empty cart shows count 0 and total 0; a valid cart shows a count of at least one per product, which is 0 exactly when the cart is empty |
| `Orders.ParseStatus` | orders/models.py:6-10 | the code-to-choice table of `STATUS_CHOICES`: only the three codes name a choice, and each names the choice whose code it is |
| `Orders.StatusRoundTrip` | orders/models.py:6-10 | every status survives being stored and read back |
| `Orders.ItemTotal` | orders/models.py:43-44 | `OrderItem.total_price` is the frozen price times the quantity: zero when either is zero, never negative when neither is |
| `Orders.OrderTotal` | orders/models.py:26-27 | `Order.total_price` sums the item totals of that order's items only; it is never negative when no item has a negative price or quantity |
| `Orders.OrderTotalAppend` | orders/models.py:26-27 | adding an item raises its own order's total by exactly the item's total and leaves every other order's total alone |
| `Orders.OrderTotalConcat` | orders/models.py:26-27 | an order's total over two batches of items is the sum of its totals over each |
| `Orders.OrderTotalNoItems` | orders/models.py:26-27 | an order with no items totals 0 |
| `Orders.OrderTotalExample` | orders/tests.py:64-72 | one item of two at 150.00 totals 300.00, and so does its order |
| `Orders.OrderStore.CreateOrder` | orders/views.py:87-91 | one new order with the next id, the given user, phone and address, and status `new`; no item changes |
| `Orders.OrderStore.CreateItem` | orders/views.py:96-101 | one new item appended for an existing order; the orders are unchanged |
| `OrderViews.AfterAdd` | orders/views.py:15-21 | the cart after an add: every entry keeps its place, product and price; a product not in the cart is appended last with quantity 1 at the current price |
| `OrderViews.AfterRemove` | orders/views.py:31-35 | the cart after a remove: at most one entry leaves, and only the product's own entry when it held one unit; otherwise every entry keeps its place, product and price |
| `OrderViews.AddEntry` | orders/views.py:15-21 | adding keeps the cart valid. An existing entry gets one more unit and keeps its price even if the catalog price has changed; a new product gets quantity 1 at the current price. Every other product's entry is unchanged |
| `OrderViews.AddSums` | orders/views.py:15-21 | after an add the item count is exactly one higher, and the total rises by the entry's snapshot price |
| `OrderViews.RemoveEntry` | orders/views.py:31-35 | removing keeps the cart valid. More than one unit: one unit less. One unit: the entry is gone. Absent product: nothing changes. Every other product's entry is unchanged |
| `OrderViews.RemoveCount` | orders/views.py:31-35 | after a remove the item count is one lower if the product was in the cart, and unchanged otherwise |
| `OrderViews.AddTwiceKeepsFirstPrice` | orders/views.py:15-21 | adding a product twice gives one entry of two units at the first price, whatever the price at the second add |
| `OrderViews.SessionCart.constructor` | orders/views.py:12 | a session without a cart starts from the empty cart |
| `OrderViews.CartAdd` | orders/views.py:11-25 | a product outside the catalog is a 404 and leaves the cart unchanged; otherwise the cart becomes the add of that product at its current price, and the item count rises by one |
| `OrderViews.CartRemove` | orders/views.py:28-38 | the cart becomes the remove of that product, and stays valid |
| `OrderViews.FirstMissing` | orders/views.py:46-47 | finds no entry exactly when every product in the cart is in the catalog; otherwise finds the first entry whose product is not |
| `OrderViews.CartDetail` | orders/views.py:41-62 | with every product present: one row per entry in cart order, showing the product's current price and the snapshot price, and the snapshot total the context processor shows. Otherwise: a 404 for the first vanished product |
| `OrderViews.Filled` | orders/views.py:82 | Python's truth test on a submitted field: present and not the empty string (a definition, used by the checkout contracts) |
| `OrderViews.PrefillPhone` | orders/views.py:109-112 | the form's phone is the profile's phone, or empty without a profile (a definition, used by the checkout contracts) |
| `OrderViews.PrefillAddress` | orders/views.py:109-113 | the form's address is the profile's default address, or empty without a profile (a definition, used by the checkout contracts) |
| `OrderViews.OrderItemsFor` | orders/views.py:94-101 | one item per cart entry, in cart order, with the entry's product, quantity and snapshot price |
| `OrderViews.ItemsTotalIsCartTotal` | orders/views.py:94-101 | the items made from a cart total, for their order, the cart's snapshot total |
| `OrderViews.ItemsOfOtherOrder` | orders/views.py:94-101 | the items made for one order add nothing to any other order's total |
| `OrderViews.PlacedOrderTotal` | orders/views.py:87-101 | after a complete checkout the new order's total equals the cart total the context processor showed, and no earlier order's total changes |
| `OrderViews.SnapshotTotal` | orders/views.py:74-76 | the display total of checkout is the context processor's cart total |
| `OrderViews.CreateItems` | orders/views.py:94-101 | items are created in cart order up to the first vanished product, which is reported; the items made before it stay; the orders are unchanged |
| `OrderViews.Checkout` | orders/views.py:65-120 | an empty cart redirects, and a form page or a submission missing phone or address echoes its values with the cart total; none of these writes anything. Otherwise exactly one order with status `new` is created, then one item per entry. A complete run empties the cart, and the new order totals the cart total. A vanished product stops with a 404, leaving the order and the items made before it, and the cart is kept |
| `OrderViews.PartialOrderWitness` | orders/views.py:87-101 | a one-entry cart whose product has vanished leaves one order with no items behind |
| `OrderViews.AtomicCheckout` | orders/views.py:65-120 | the same pages as checkout: redirect for an empty cart, the pre-filled form, the echo of a submission missing a field, an order placed under the next id when every product is present, and a 404 for the first vanished product otherwise. Every outcome except a placed order leaves the order tables and the cart unchanged; a placed order holds one item per entry and totals the cart total, and the cart is emptied |
| `OrderViews.CheckoutExample` | orders/views.py:74-76 | two units at 100.00 and one at 50.00 make 250.00, in the cart and in the order made from it |
| `OrderViews.OrdersOf` | orders/views.py:129-130 | the order list holds only the requester's orders, and all of them |
| `OrderViews.OrderDetail` | orders/views.py:138-139 | an order is shown exactly when its id matches and it belongs to the requester; an order of another user with the same id is a 404 |

## Left out

- Full Unicode `str.lower()`: only ASCII and the Russian capitals are lower-cased. Other cased letters, such as Latin letters with diacritics, Greek, the Kelvin sign or `İ` (whose lower case has two characters), are returned unchanged.
- Floating point: `cart_detail` and the context processor convert prices with `float()`. The model uses exact integer kopecks throughout.
- The `str(product_id)` session keys: the cart is keyed by the integer id.
- Messages, redirects, template rendering, and loading and saving the session: the views return a value that names the response, and the cart is a field of `SessionCart`.
- `@login_required` and the login mixins: the requesting user is a parameter.
- Pagination, `prefetch_related`, and ordering by `created_at`: `OrdersOf` keeps the stored order. `created_at` is not modelled.
- `super().save()`: saving the category or product row is not modelled. The set of slugs stored in the products table is a parameter of `Product.Save`. When a stored product is saved again with its slug cleared, that set includes the product's own stored slug.
- Status values outside `STATUS_CHOICES`: the status column is a plain character field, and the choices are checked only by forms and model validation. The model's `Status` holds the three choices only, and `ParseStatus` answers no status for any other code.
- Field lengths (`max_length`) and the decimal digit limits are not enforced.
- Deleting rows and cascades: the order tables only grow.
- Database failures other than a vanished product.
- The concrete slug of a Cyrillic name (for example, that «Свежая морковь» becomes `svezhaya-morkov`) is not stated. The model proves the general properties of every derived slug instead.
- `Supplier`, `formatted_price`, the product views and their JSON endpoint, the accounts views and forms, the admin and URL configuration, the management commands, `update_slugs.py` and `download_images.py`: none of these is part of the core. They are catalog plumbing, file and network I/O, or configuration.
- Concurrency: two requests of one session racing on the cart, and two products saved at once choosing the same slug.

## Findings

| source | as written | input that shows it | evidently intended | confidence | as-written member | corrected member |
|---|---|---|---|---|---|---|
| orders/views.py:87-101 | the order is created before the item loop, with no transaction; a product lookup that fails inside the loop answers 404 after the order and the earlier items were saved | a one-entry cart whose product was deleted from the catalog, submitted with phone and address | the order and its items are created all or nothing, and a failed checkout leaves no order behind and the cart intact | medium, not executed | `OrderViews.PartialOrderWitness` (on `OrderViews.Checkout`) | `OrderViews.AtomicCheckout` |
