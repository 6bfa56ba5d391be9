/** The storefront home page (app/page.tsx): the product grid with its search box and
    category buttons, the cart the shopper fills from it, and the amounts handed to the
    checkout dialog. The component's state variables become the fields of `Home`; the
    `find`/`map`/`filter`/`reduce` expressions its handlers use become functions. */
module Storefront {
  import opened Wrappers
  import opened Text
  import opened Seqs
  import opened Cart

  /** No two cart lines share a product id. */
  predicate UniqueIds(items: seq<CartItem>) {
    forall i, j :: 0 <= i < j < |items| ==> items[i].Id() != items[j].Id()
  }

  predicate InCart(items: seq<CartItem>, id: string) {
    exists i :: 0 <= i < |items| && items[i].Id() == id
  }

  function Bump(item: CartItem): CartItem {
    item.(quantity := item.quantity + 1)
  }

  /** The new cart after `addToCart(product)`: a line already holding that id gets
      one more of it, and every other line stays as it was; otherwise the product is
      appended with quantity 1. */
  function AddedToCart(items: seq<CartItem>, product: Product): (r: seq<CartItem>)
    ensures InCart(items, product.id) ==>
              |r| == |items|
              && forall i :: 0 <= i < |items| ==>
                   if items[i].Id() == product.id
                   then r[i] == items[i].(quantity := items[i].quantity + 1)
                   else r[i] == items[i]
    ensures !InCart(items, product.id) ==> r == items + [CartItem(product, 1)]
  {
    if Find(items, (item: CartItem) => item.Id() == product.id).Some? then
      MapWhere(items, (item: CartItem) => item.Id() == product.id, Bump)
    else
      items + [CartItem(product, 1)]
  }

  /** The new cart after `removeFromCart(productId)`. */
  function RemovedFromCart(items: seq<CartItem>, productId: string): seq<CartItem> {
    Filter(items, (item: CartItem) => item.Id() != productId)
  }

  /** Adding keeps product ids unique. */
  lemma AddedToCartKeepsIdsUnique(items: seq<CartItem>, product: Product)
    requires UniqueIds(items)
    ensures UniqueIds(AddedToCart(items, product))
  {
  }

  /** After adding, the product is in the cart. */
  lemma AddedToCartContains(items: seq<CartItem>, product: Product)
    ensures InCart(AddedToCart(items, product), product.id)
  {
    var r := AddedToCart(items, product);
    if !InCart(items, product.id) {
      assert r[|items|].Id() == product.id;
    }
  }

  /** Adding raises the subtotal by exactly one unit of the line's price: the price
      stored in the existing line, or the product's own price for a new line. */
  lemma AddedToCartSubtotal(items: seq<CartItem>, product: Product)
    requires UniqueIds(items)
    ensures forall k :: 0 <= k < |items| && items[k].Id() == product.id ==>
              Subtotal(AddedToCart(items, product)) == Subtotal(items) + items[k].product.price
    ensures !InCart(items, product.id) ==>
              Subtotal(AddedToCart(items, product)) == Subtotal(items) + product.price
  {
    forall k | 0 <= k < |items| && items[k].Id() == product.id
      ensures Subtotal(AddedToCart(items, product)) == Subtotal(items) + items[k].product.price
    {
      AddedToCartExisting(items, product, k);
      SubtotalUpdate(items, k, Bump(items[k]));
      BumpLine(items[k]);
    }
    if !InCart(items, product.id) {
      SubtotalConcat(items, [CartItem(product, 1)]);
      SubtotalSingle(CartItem(product, 1));
    }
  }

  lemma BumpLine(item: CartItem)
    ensures Bump(item).Line() == item.Line() + item.product.price
  {
    var p, q := item.product.price, item.quantity as real;
    assert p * (q + 1.0) == p * q + p;
  }

  /** With unique ids, adding an id already present bumps exactly that one line. */
  lemma AddedToCartExisting(items: seq<CartItem>, product: Product, k: nat)
    requires UniqueIds(items) && k < |items| && items[k].Id() == product.id
    ensures AddedToCart(items, product) == items[k := Bump(items[k])]
  {
    var r := AddedToCart(items, product);
    var e := items[k := Bump(items[k])];
    assert |r| == |e|;
    forall i | 0 <= i < |r| ensures r[i] == e[i] {
      if i != k {
        assert items[i].Id() != product.id;
      }
    }
  }

  /** Removing drops exactly the lines with that id and keeps the others in order. */
  lemma RemovedFromCartSpec(items: seq<CartItem>, productId: string)
    ensures forall item :: item in RemovedFromCart(items, productId) <==> item in items && item.Id() != productId
    ensures IsSubsequence(RemovedFromCart(items, productId), items)
    ensures !InCart(RemovedFromCart(items, productId), productId)
  {
    FilterIsSubsequence(items, (item: CartItem) => item.Id() != productId);
    var r := RemovedFromCart(items, productId);
    forall i | 0 <= i < |r| ensures r[i].Id() != productId {
      assert r[i] in r;
    }
  }

  /** Removing an id that is not in the cart leaves the cart unchanged. */
  lemma RemovedFromCartAbsent(items: seq<CartItem>, productId: string)
    requires !InCart(items, productId)
    ensures RemovedFromCart(items, productId) == items
  {
    FilterKeepsAll(items, (item: CartItem) => item.Id() != productId);
  }

  /** `p.name` or `p.description` contains the query, ignoring case. */
  predicate MatchesQuery(p: Product, query: string) {
    Contains(Lower(p.name), Lower(query)) || Contains(Lower(p.description), Lower(query))
  }

  /** The category button state is truthy: a selected, non-empty category id. */
  predicate CategorySelected(category: Option<string>) {
    category.Some? && category.value != ""
  }

  function QueryTest(query: string): Product -> bool {
    (p: Product) => MatchesQuery(p, query)
  }

  function CategoryTest(categoryId: string): Product -> bool {
    (p: Product) => p.categoryId == categoryId
  }

  /** What `filterProducts` leaves in the grid: the search step when the query is not
      empty, then the category step when a category is selected. */
  function FilteredProducts(products: seq<Product>, query: string, category: Option<string>): seq<Product> {
    var afterSearch := if query != "" then Filter(products, QueryTest(query)) else products;
    if CategorySelected(category) then Filter(afterSearch, CategoryTest(category.value))
    else afterSearch
  }

  /** A product is shown exactly when it matches the query (if any) and the category
      (if any); the grid keeps the catalogue order; with neither filter set every
      product is shown. */
  lemma {:induction false} FilteredProductsSpec(products: seq<Product>, query: string, category: Option<string>)
    ensures forall p :: p in FilteredProducts(products, query, category) <==>
              p in products
              && (query != "" ==> MatchesQuery(p, query))
              && (CategorySelected(category) ==> p.categoryId == category.value)
    ensures IsSubsequence(FilteredProducts(products, query, category), products)
    ensures query == "" && !CategorySelected(category) ==> FilteredProducts(products, query, category) == products
  {
    var afterSearch := if query != "" then Filter(products, QueryTest(query)) else products;
    if query != "" {
      FilterIsSubsequence(products, QueryTest(query));
    } else {
      SubsequenceReflexive(products);
    }
    if CategorySelected(category) {
      FilterIsSubsequence(afterSearch, CategoryTest(category.value));
      SubsequenceTransitive(FilteredProducts(products, query, category), afterSearch, products);
    }
  }

  /** An empty query matches every product, so searching for "" hides nothing. */
  lemma EmptyQueryMatchesAll(p: Product)
    ensures MatchesQuery(p, "")
  {
    ContainsEmpty(Lower(p.name));
  }

  /** The amounts passed to the checkout dialog. */
  datatype CheckoutAmounts = CheckoutAmounts(subtotal: real, tax: real, total: real)

  /** Subtotal as the cart's reduce, tax as `subtotal * 0.1`, total as `subtotal * 1.1`. */
  function Checkout(items: seq<CartItem>): (r: CheckoutAmounts)
    ensures r.total == r.subtotal + r.tax
    ensures r.subtotal == Summarize(items).subtotal && r.tax == Summarize(items).tax
            && r.total == Summarize(items).total
  {
    var subtotal := Subtotal(items);
    CheckoutAmounts(subtotal, subtotal * 0.1, subtotal * 1.1)
  }

  /** The state of the home page. */
  class Home {
    var products: seq<Product>
    var cartItems: seq<CartItem>
    var searchQuery: string
    var selectedCategory: Option<string>
    var filteredProducts: seq<Product>

    /** Every filter input the grid depends on is reflected in it (the effect that
        re-runs `filterProducts` has run). */
    ghost predicate Valid()
      reads this
    {
      filteredProducts == FilteredProducts(products, searchQuery, selectedCategory)
      && UniqueIds(cartItems)
    }

    constructor ()
      ensures Valid()
      ensures products == [] && cartItems == [] && searchQuery == ""
      ensures selectedCategory == None && filteredProducts == []
    {
      products, cartItems, searchQuery := [], [], "";
      selectedCategory, filteredProducts := None, [];
    }

    /** `filterProducts`: starts from all products and narrows step by step. */
    method FilterProducts()
      modifies this`filteredProducts
      ensures filteredProducts == FilteredProducts(products, searchQuery, selectedCategory)
    {
      var filtered := products;
      if searchQuery != "" {
        filtered := Filter(filtered, QueryTest(searchQuery));
      }
      if selectedCategory.Some? && selectedCategory.value != "" {
        filtered := Filter(filtered, CategoryTest(selectedCategory.value));
      }
      filteredProducts := filtered;
    }

    /** The fetched products arrive; the grid is recomputed. */
    method SetProducts(fetched: seq<Product>)
      requires Valid()
      modifies this`products, this`filteredProducts
      ensures Valid() && products == fetched
      ensures unchanged(this`cartItems) && unchanged(this`searchQuery) && unchanged(this`selectedCategory)
    {
      products := fetched;
      FilterProducts();
    }

    /** Typing in the search box; the grid is recomputed. */
    method SetSearchQuery(query: string)
      requires Valid()
      modifies this`searchQuery, this`filteredProducts
      ensures Valid() && searchQuery == query
      ensures unchanged(this`products) && unchanged(this`cartItems) && unchanged(this`selectedCategory)
    {
      searchQuery := query;
      FilterProducts();
    }

    /** A category button (or "All Products", `None`); the grid is recomputed. */
    method SelectCategory(category: Option<string>)
      requires Valid()
      modifies this`selectedCategory, this`filteredProducts
      ensures Valid() && selectedCategory == category
      ensures unchanged(this`products) && unchanged(this`cartItems) && unchanged(this`searchQuery)
    {
      selectedCategory := category;
      FilterProducts();
    }

    /** `addToCart(product)`. */
    method AddToCart(product: Product)
      requires Valid()
      modifies this`cartItems
      ensures Valid()
      ensures cartItems == AddedToCart(old(cartItems), product)
      ensures InCart(cartItems, product.id)
    {
      AddedToCartKeepsIdsUnique(cartItems, product);
      AddedToCartContains(cartItems, product);
      cartItems := AddedToCart(cartItems, product);
    }

    /** `removeFromCart(productId)`. */
    method RemoveFromCart(productId: string)
      requires Valid()
      modifies this`cartItems
      ensures Valid()
      ensures cartItems == RemovedFromCart(old(cartItems), productId)
      ensures !InCart(cartItems, productId)
    {
      RemovedFromCartSpec(cartItems, productId);
      cartItems := RemovedFromCart(cartItems, productId);
      assert UniqueIds(cartItems) by {
        var old_ := old(cartItems);
        forall i, j | 0 <= i < j < |cartItems| ensures cartItems[i].Id() != cartItems[j].Id() {
          SubsequenceUniqueIds(cartItems, old_, i, j);
        }
      }
    }

    /** The amounts the checkout dialog is opened with. */
    method CheckoutTotals() returns (amounts: CheckoutAmounts)
      ensures amounts.total == amounts.subtotal + amounts.tax
      ensures 10.0 * amounts.tax == amounts.subtotal
      ensures amounts.subtotal == Subtotal(cartItems)
    {
      amounts := Checkout(cartItems);
    }
  }

  /** Dropping lines from a cart with unique ids leaves the ids unique. */
  lemma {:induction false} SubsequenceUniqueIds(a: seq<CartItem>, b: seq<CartItem>, i: int, j: int)
    requires IsSubsequence(a, b) && UniqueIds(b)
    requires 0 <= i < j < |a|
    ensures a[i].Id() != a[j].Id()
    decreases |b|
  {
    if IsSubsequence(a, b[1..]) {
      assert UniqueIds(b[1..]) by {
        forall x, y | 0 <= x < y < |b[1..]| ensures b[1..][x].Id() != b[1..][y].Id() {
          assert b[1..][x] == b[x + 1] && b[1..][y] == b[y + 1];
        }
      }
      SubsequenceUniqueIds(a, b[1..], i, j);
    } else {
      assert a != [] && a[0] == b[0] && IsSubsequence(a[1..], b[1..]);
      assert UniqueIds(b[1..]) by {
        forall x, y | 0 <= x < y < |b[1..]| ensures b[1..][x].Id() != b[1..][y].Id() {
          assert b[1..][x] == b[x + 1] && b[1..][y] == b[y + 1];
        }
      }
      if i == 0 {
        SubsequenceMembers(a[1..], b[1..], j - 1);
        var k :| 0 <= k < |b[1..]| && b[1..][k] == a[1..][j - 1];
        assert b[k + 1] == a[j];
      } else {
        SubsequenceUniqueIds(a[1..], b[1..], i - 1, j - 1);
      }
    }
  }

  /** Every element of a subsequence is an element of the sequence. */
  lemma {:induction false} SubsequenceMembers<T>(a: seq<T>, b: seq<T>, i: int)
    requires IsSubsequence(a, b) && 0 <= i < |a|
    ensures exists k :: 0 <= k < |b| && b[k] == a[i]
    decreases |b|
  {
    if IsSubsequence(a, b[1..]) {
      SubsequenceMembers(a, b[1..], i);
      var k :| 0 <= k < |b[1..]| && b[1..][k] == a[i];
      assert b[k + 1] == a[i];
    } else if i == 0 {
      assert b[0] == a[0];
    } else {
      SubsequenceMembers(a[1..], b[1..], i - 1);
      var k :| 0 <= k < |b[1..]| && b[1..][k] == a[1..][i - 1];
      assert b[k + 1] == a[i];
    }
  }
}
