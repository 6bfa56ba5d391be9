/** The password-protected admin panel of the Vite storefront (src/pages/Admin.tsx): the
    inquiries and products it keeps in the browser, and the handlers that log in, delete
    an inquiry or a product, and save the product form. Persistence to local and session
    storage is left to the caller; only the in-memory lists are modelled. */
module LocalAdmin {
  import opened Wrappers
  import opened Seqs
  import opened Finishes
  import opened CatalogData
  import opened Forms

  const AdminPassword: string := "admin123"

  /** The image a saved product gets when the image field is left empty. */
  const DefaultImage: string := "/featured_sofa_closeup.jpg"

  /** `Inquiry` of src/types/index.ts. */
  datatype Inquiry = Inquiry(
    id: string,
    name: string,
    email: string,
    phone: string,
    city: string,
    message: string,
    productId: Option<string>,
    createdAt: string)

  /** The submitted product form. `featured` is the checkbox's value, present (as "on")
      only when it is ticked; `price` is the number the price field converts to. */
  datatype ProductForm = ProductForm(
    name: string,
    category: string,
    price: real,
    description: string,
    image: string,
    featured: Option<string>,
    finishes: string)

  /** The product built from a submitted form: the edited product's id when there is one
      and it is not empty, otherwise the time-stamp id `now`; the default image for an
      empty image field; featured exactly when the box was ticked; the finishes parsed
      from the comma-separated field. The form has no code field, so no code is kept. */
  function NewProduct(form: ProductForm, editing: Option<Product>, now: string): (r: Product)
    ensures r.id == (if editing.Some? && editing.value.id != "" then editing.value.id else now)
    ensures r.name == form.name && r.category == form.category && r.price == form.price
    ensures r.description == form.description && r.code.None?
    ensures r.image != "" && (form.image != "" ==> r.image == form.image)
    ensures r.featured <==> form.featured == Some("on")
    ensures r.finishes == ParseFinishes(form.finishes)
    ensures forall k :: 0 <= k < |r.finishes| ==> IsFinish(r.finishes[k])
  {
    ParseFinishesWellFormed(form.finishes);
    Product(
      if editing.Some? && editing.value.id != "" then editing.value.id else now,
      form.name,
      None,
      form.category,
      form.price,
      form.description,
      if form.image != "" then form.image else DefaultImage,
      form.featured == Some("on"),
      ParseFinishes(form.finishes))
  }

  /** The options of the dialog's category select: the ids of `categories`, in order. */
  function CategoryOptions(): (r: seq<string>)
    ensures |r| == |Categories| && r[0] == "beds" && "sofas" in r
    ensures forall c :: c in r <==> IsCategoryId(Categories, c)
  {
    var r := seq(|Categories|, i requires 0 <= i < |Categories| => Categories[i].id);
    assert r[4] == "sofas";
    assert forall c :: c in r <==> IsCategoryId(Categories, c) by {
      forall c ensures c in r <==> IsCategoryId(Categories, c) {
        if IsCategoryId(Categories, c) {
          var k :| 0 <= k < |Categories| && Categories[k].id == c;
          assert r[k] == c;
        }
      }
    }
    r
  }

  /** The form as the edit dialog pre-fills it for `p`, submitted unchanged. The category
      select preselects the product's category, or "sofas" when it has none. */
  function EditForm(p: Product): ProductForm {
    ProductForm(p.name, SelectedOption(CategoryOptions(), if p.category != "" then p.category else "sofas"),
                p.price, p.description, p.image, if p.featured then Some("on") else None,
                FormValue(p.finishes))
  }

  /** Opening a product in the edit dialog and saving without touching a field gives the
      product back, except for its code, provided it has an id, one of the listed
      categories, an image and well-formed finishes. */
  lemma EditFormRoundTrip(p: Product, now: string)
    requires p.id != "" && IsCategoryId(Categories, p.category) && p.image != ""
    requires forall k :: 0 <= k < |p.finishes| ==> IsFinish(p.finishes[k])
    ensures NewProduct(EditForm(p), Some(p), now) == p.(code := None)
  {
    ParseFormValue(p.finishes);
  }

  /** A product whose category is not a listed category comes back from an unchanged
      edit dialog as a bed: the select cannot show it and falls back to its first
      option. One without a category comes back as a sofa. */
  lemma EditFormUnlistedCategory(p: Product, now: string)
    requires !IsCategoryId(Categories, p.category)
    ensures p.category != "" ==> NewProduct(EditForm(p), Some(p), now).category == "beds"
    ensures p.category == "" ==> NewProduct(EditForm(p), Some(p), now).category == "sofas"
  {
  }

  function OtherInquiry(id: string): Inquiry -> bool { (i: Inquiry) => i.id != id }
  function OtherProduct(id: string): Product -> bool { (p: Product) => p.id != id }

  /** The inquiries after deleting `id`. */
  function WithoutInquiry(inquiries: seq<Inquiry>, id: string): seq<Inquiry> {
    Filter(inquiries, OtherInquiry(id))
  }

  /** The products after deleting `id`. */
  function WithoutProduct(products: seq<Product>, id: string): seq<Product> {
    Filter(products, OtherProduct(id))
  }

  /** Deleting an inquiry removes exactly the inquiries with that id and keeps the
      others in their order. */
  lemma DeleteInquirySpec(inquiries: seq<Inquiry>, id: string)
    ensures forall i :: i in WithoutInquiry(inquiries, id) <==> i in inquiries && i.id != id
    ensures IsSubsequence(WithoutInquiry(inquiries, id), inquiries)
  {
    FilterIsSubsequence(inquiries, OtherInquiry(id));
  }

  /** Deleting a product removes exactly the products with that id and keeps the others
      in their order. */
  lemma DeleteProductSpec(products: seq<Product>, id: string)
    ensures forall p :: p in WithoutProduct(products, id) <==> p in products && p.id != id
    ensures IsSubsequence(WithoutProduct(products, id), products)
  {
    FilterIsSubsequence(products, OtherProduct(id));
  }

  /** With distinct ids, deleting the id of the product at position `k` removes that
      one product and nothing else. */
  lemma DeleteOne(products: seq<Product>, id: string, k: nat)
    requires k < |products| && products[k].id == id && DistinctIds(products)
    ensures WithoutProduct(products, id) == products[..k] + products[k + 1..]
  {
    var keep := OtherProduct(id);
    var before, after := products[..k], products[k + 1..];
    FilterPrefix(products, k, keep);
    DropOneLess(products, k);
    FilterKeepsAll(before, keep);
    FilterKeepsAll(after, keep);
  }

  /** The product list after a save: while editing, every product with the edited
      product's id is replaced by the new one; otherwise the new one is appended. */
  function SavedProducts(products: seq<Product>, editing: Option<Product>, product: Product): seq<Product> {
    match editing
    case Some(e) => MapWhere(products, SameId(e.id), Becomes(product))
    case None => products + [product]
  }

  function SameId(id: string): Product -> bool { (p: Product) => p.id == id }
  function Becomes(product: Product): Product -> Product { (p: Product) => product }

  /** Saving while editing the product at position `k` (ids distinct) replaces it in
      place: same length, that position holds the new product, every other product is
      untouched, and, as the new product keeps the edited id, ids stay distinct. */
  lemma SaveEditReplaces(products: seq<Product>, editing: Product, product: Product, k: nat)
    requires DistinctIds(products) && k < |products| && products[k].id == editing.id
    ensures SavedProducts(products, Some(editing), product) == products[k := product]
    ensures product.id == editing.id ==> DistinctIds(SavedProducts(products, Some(editing), product))
  {
    var r := SavedProducts(products, Some(editing), product);
    assert |r| == |products|;
    forall i | 0 <= i < |products| ensures r[i] == products[k := product][i] {
      if i != k {
        assert products[i].id != editing.id;
      }
    }
  }

  /** Saving a new product appends it at the end: one more product, all others where
      they were. */
  lemma SaveNewAppends(products: seq<Product>, product: Product)
    ensures |SavedProducts(products, None, product)| == |products| + 1
    ensures SavedProducts(products, None, product)[..|products|] == products
    ensures SavedProducts(products, None, product)[|products|] == product
  {
    var r := products + [product];
    assert SavedProducts(products, None, product) == r;
    assert r[..|products|] == products;
  }

  /** Appending a product whose id is fresh keeps the ids distinct. */
  lemma SaveNewKeepsIdsDistinct(products: seq<Product>, product: Product)
    requires DistinctIds(products)
    requires forall i :: 0 <= i < |products| ==> products[i].id != product.id
    ensures DistinctIds(SavedProducts(products, None, product))
  {
    var r := products + [product];
    assert SavedProducts(products, None, product) == r;
    forall i, j | 0 <= i < j < |r| ensures r[i].id != r[j].id {
      if j < |products| {
        assert r[i].id == products[i].id && r[j].id == products[j].id;
      } else {
        assert r[i].id == products[i].id && r[j].id == product.id;
      }
    }
  }

  class AdminPanel {
    var isAuthenticated: bool
    var password: string
    var inquiries: seq<Inquiry>
    var products: seq<Product>
    var isAddingProduct: bool
    var editingProduct: Option<Product>

    /** The mount effect: the stored inquiries, the stored products or, when there are
        none, the catalogue, and the session's login flag. */
    constructor (storedInquiries: seq<Inquiry>, storedProducts: seq<Product>, sessionAuth: Option<string>)
      ensures inquiries == storedInquiries
      ensures products == if storedProducts == [] then Products else storedProducts
      ensures isAuthenticated <==> sessionAuth == Some("true")
      ensures password == "" && !isAddingProduct && editingProduct.None?
    {
      isAuthenticated := sessionAuth == Some("true");
      password := "";
      inquiries := storedInquiries;
      products := if storedProducts == [] then Products else storedProducts;
      isAddingProduct := false;
      editingProduct := None;
    }

    /** The password field's change handler. */
    method SetPassword(value: string)
      modifies this`password
      ensures password == value
    {
      password := value;
    }

    /** `handleLogin`: the panel opens exactly when the typed password is the admin
        password; a wrong password leaves the login state as it was. */
    method HandleLogin()
      modifies this`isAuthenticated
      ensures password == AdminPassword ==> isAuthenticated
      ensures password != AdminPassword ==> isAuthenticated == old(isAuthenticated)
    {
      if password == AdminPassword {
        isAuthenticated := true;
      }
    }

    method HandleLogout()
      modifies this`isAuthenticated
      ensures !isAuthenticated
    {
      isAuthenticated := false;
    }

    method HandleDeleteInquiry(id: string)
      modifies this`inquiries
      ensures inquiries == WithoutInquiry(old(inquiries), id)
    {
      inquiries := Filter(inquiries, OtherInquiry(id));
    }

    method HandleDeleteProduct(id: string)
      modifies this`products
      ensures products == WithoutProduct(old(products), id)
    {
      products := Filter(products, OtherProduct(id));
    }

    /** The product dialog is shown while a product is being added or edited. */
    predicate EditorOpen()
      reads this
    {
      isAddingProduct || editingProduct.Some?
    }

    /** The Add Product button opens the dialog with no product to edit, so a save
        appends. */
    method StartAdding()
      modifies this`isAddingProduct, this`editingProduct
      ensures isAddingProduct && editingProduct.None?
      ensures EditorOpen()
    {
      editingProduct := None;
      isAddingProduct := true;
    }

    /** The edit button of a product row opens the dialog for that product. */
    method StartEditing(p: Product)
      modifies this`isAddingProduct, this`editingProduct
      ensures isAddingProduct && editingProduct == Some(p)
      ensures EditorOpen()
    {
      editingProduct := Some(p);
      isAddingProduct := true;
    }

    /** The dialog's close button: the dialog goes away and nothing is saved. */
    method CancelEditing()
      modifies this`isAddingProduct, this`editingProduct
      ensures !isAddingProduct && editingProduct.None?
      ensures !EditorOpen()
    {
      isAddingProduct := false;
      editingProduct := None;
    }

    /** `handleSaveProduct`: builds the product from the form, replaces or appends it,
        and closes the dialog. `now` stands for `Date.now().toString()`. */
    method HandleSaveProduct(form: ProductForm, now: string)
      modifies this`products, this`isAddingProduct, this`editingProduct
      ensures products == SavedProducts(old(products), old(editingProduct), NewProduct(form, old(editingProduct), now))
      ensures !isAddingProduct && editingProduct.None?
      ensures !EditorOpen()
    {
      var newProduct := NewProduct(form, editingProduct, now);
      var updated: seq<Product>;
      if editingProduct.Some? {
        var e := editingProduct.value;
        updated := MapWhere(products, SameId(e.id), Becomes(newProduct));
      } else {
        updated := products + [newProduct];
      }
      products := updated;
      isAddingProduct := false;
      editingProduct := None;
    }
  }
}
