/** The cart side panel (components/Cart.tsx): the items a shopper has picked and the
    amounts shown under them. Prices are real numbers, so the amounts below are exact. */
module Cart {

  /** A row of the storefront's `products` table. */
  datatype Product = Product(
    id: string,
    name: string,
    description: string,
    price: real,
    categoryId: string,
    imageUrl: string)

  /** A cart line: the product as it was when first added, and how many of it. */
  datatype CartItem = CartItem(product: Product, quantity: int) {
    function Id(): string { product.id }
    function Line(): real { product.price * quantity as real }
  }

  /** `items.reduce((sum, item) => sum + item.price * item.quantity, 0)`, a left fold. */
  function Subtotal(items: seq<CartItem>): real {
    if items == [] then 0.0
    else Subtotal(items[..|items| - 1]) + items[|items| - 1].Line()
  }

  predicate NonNegative(items: seq<CartItem>) {
    forall i :: 0 <= i < |items| ==> items[i].product.price >= 0.0 && items[i].quantity >= 0
  }

  /** The three amounts of the summary block. */
  datatype Summary = Summary(subtotal: real, tax: real, total: real)

  /** Subtotal, a tax of ten percent of it, and their sum. */
  function Summarize(items: seq<CartItem>): (r: Summary)
    ensures items == [] ==> r == Summary(0.0, 0.0, 0.0)
    ensures 10.0 * r.tax == r.subtotal
    ensures r.total == r.subtotal + r.tax
    ensures NonNegative(items) ==> 0.0 <= r.subtotal <= r.total
  {
    var subtotal := Subtotal(items);
    var tax := subtotal * 0.1;
    SubtotalNonNegative(items);
    Summary(subtotal, tax, subtotal + tax)
  }

  /** With no negative price or quantity, the subtotal is not negative. */
  lemma {:induction false} SubtotalNonNegative(items: seq<CartItem>)
    ensures NonNegative(items) ==> Subtotal(items) >= 0.0
  {
    if items != [] && NonNegative(items) {
      var init := items[..|items| - 1];
      assert NonNegative(init) by {
        forall i | 0 <= i < |init| ensures init[i] == items[i] { }
      }
      SubtotalNonNegative(init);
      var last := items[|items| - 1];
      assert last.product.price * last.quantity as real >= 0.0;
    }
  }

  /** The subtotal of two lists one after the other is the sum of their subtotals. */
  lemma {:induction false} SubtotalConcat(a: seq<CartItem>, b: seq<CartItem>)
    ensures Subtotal(a + b) == Subtotal(a) + Subtotal(b)
    decreases |b|
  {
    if b == [] {
      assert a + b == a;
    } else {
      var b' := b[..|b| - 1];
      assert (a + b)[..|a + b| - 1] == a + b';
      assert (a + b)[|a + b| - 1] == b[|b| - 1];
      SubtotalConcat(a, b');
    }
  }

  /** The subtotal of a single line is that line's amount. */
  lemma SubtotalSingle(item: CartItem)
    ensures Subtotal([item]) == item.Line()
  {
    assert [item][..0] == [];
  }

  /** Replacing one line changes the subtotal by the difference of the two lines. */
  lemma SubtotalUpdate(items: seq<CartItem>, k: nat, item: CartItem)
    requires k < |items|
    ensures Subtotal(items[k := item]) == Subtotal(items) - items[k].Line() + item.Line()
  {
    var before, after := items[..k], items[k + 1..];
    assert items == before + [items[k]] + after;
    assert items[k := item] == before + [item] + after;
    SubtotalConcat(before + [items[k]], after);
    SubtotalConcat(before + [item], after);
    SubtotalConcat(before, [items[k]]);
    SubtotalConcat(before, [item]);
    SubtotalSingle(items[k]);
    SubtotalSingle(item);
  }
}
