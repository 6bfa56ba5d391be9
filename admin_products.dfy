/** The Convex-backed admin products page (src/pages/admin/Products.tsx): the search box
    over the listed products, the enable/disable button, and the product dialog's submit
    handler, which builds the payload for `create` or `update`. */
module AdminProducts {
  import opened Wrappers
  import opened Text
  import opened Seqs
  import opened Finishes
  import opened ConvexProducts
  import opened Forms

  /** A product is kept when the lower-cased search term occurs in its lower-cased name,
      in its lower-cased code when it has a non-empty one, or in its lower-cased
      category. */
  predicate MatchesSearch(p: Doc, term: string) {
    var t := Lower(term);
    Contains(Lower(p.name), t)
    || (p.code.Some? && p.code.value != "" && Contains(Lower(p.code.value), t))
    || Contains(Lower(p.category), t)
  }

  function SearchTest(term: string): Doc -> bool { (p: Doc) => MatchesSearch(p, term) }

  /** `filteredProducts`. */
  function Searched(products: seq<Doc>, term: string): seq<Doc> {
    Filter(products, SearchTest(term))
  }

  /** The search keeps exactly the matching products, in their order; an empty term keeps
      them all; the case of the term does not matter. */
  lemma SearchedSpec(products: seq<Doc>, term: string)
    ensures forall p :: p in Searched(products, term) <==> p in products && MatchesSearch(p, term)
    ensures IsSubsequence(Searched(products, term), products)
    ensures term == "" ==> Searched(products, term) == products
    ensures Searched(products, Lower(term)) == Searched(products, term)
  {
    FilterIsSubsequence(products, SearchTest(term));
    if term == "" {
      forall i | 0 <= i < |products| ensures MatchesSearch(products[i], term) {
        ContainsEmpty(Lower(products[i].name));
      }
      FilterKeepsAll(products, SearchTest(term));
    }
    LowerIdempotent(term);
    FilterExtensional(products, SearchTest(Lower(term)), SearchTest(term));
  }

  /** Every product is found by its own name. */
  lemma FoundByName(p: Doc)
    ensures MatchesSearch(p, p.name)
  {
    ContainsSelf(Lower(p.name));
  }

  /** The `update` arguments of the enable/disable button: every field of the product as
      it is, except `active`, which is set exactly when the product is disabled. */
  function TogglePayload(p: Doc): (r: UpdateArgs)
    ensures r.active <==> p.active == Some(false)
    ensures r.id == p.id && r.name == p.name && r.code == p.code && r.description == p.description
    ensures r.price == p.price && r.category == p.category && r.featured == p.featured
    ensures r.finishes == p.finishes && r.imageStorageId == p.imageStorageId
  {
    UpdateArgs(p.id, p.name, p.code, p.description, p.price, p.category, p.featured,
               p.active == Some(false), p.finishes, p.imageStorageId)
  }

  /** Pressing the button on the document at position `k` (ids distinct) flips its
      `active` flag, an unset flag counting as enabled, and changes nothing else. */
  lemma ToggleFlipsActive(docs: seq<Doc>, k: nat)
    requires k < |docs|
    requires forall i, j :: 0 <= i < j < |docs| ==> docs[i].id != docs[j].id
    ensures PatchAll(docs, TogglePayload(docs[k])) == docs[k := docs[k].(active := Some(!NotDisabled(docs[k])))]
  {
    var args := TogglePayload(docs[k]);
    var r := PatchAll(docs, args);
    forall i | 0 <= i < |docs| ensures r[i] == docs[k := docs[k].(active := Some(!NotDisabled(docs[k])))][i] {
      if i != k {
        assert docs[i].id != docs[k].id by {
          if i < k {} else {}
        }
      }
    }
  }

  /** Pressing the button twice on a product whose flag is set gives the product back. */
  lemma ToggleTwice(d: Doc)
    requires d.active.Some?
    ensures Patched(Patched(d, TogglePayload(d)), TogglePayload(Patched(d, TogglePayload(d)))) == d
  {
    if d.active.value {
      assert d.active == Some(true);
    } else {
      assert d.active == Some(false);
    }
  }

  /** The submitted product dialog. The check boxes give "on" when ticked and nothing
      otherwise; `finishes` is missing when the field is absent. The code field is
      disabled and is not submitted. */
  datatype SubmitForm = SubmitForm(
    name: string,
    description: string,
    price: real,
    category: string,
    featured: Option<string>,
    active: Option<string>,
    finishes: Option<string>)

  /** What the dialog sends: the arguments of `create` for a new product, or those of
      `update` for the edited one. */
  datatype Submission = CreateCall(createArgs: CreateArgs) | UpdateCall(updateArgs: UpdateArgs)

  /** A storage id counts only when it is present and not empty. */
  function Present(id: Option<string>): Option<string> {
    if id.Some? && id.value != "" then id else None
  }

  /** The finishes the dialog submits: a missing field counts as empty. */
  function FormFinishes(form: SubmitForm): seq<string> {
    ParseFinishes(if form.finishes.Some? then form.finishes.value else "")
  }

  /** The `create` arguments for a new product. */
  function CreatePayload(form: SubmitForm, uploaded: Option<string>): CreateArgs {
    CreateArgs(form.name, form.description, form.price, form.category,
               form.featured == Some("on"), Some(form.active == Some("on")),
               FormFinishes(form), Present(uploaded))
  }

  /** The `update` arguments for the edited product `p`. */
  function UpdatePayload(form: SubmitForm, p: Doc, uploaded: Option<string>): UpdateArgs {
    UpdateArgs(p.id, form.name, p.code, form.description, form.price, form.category,
               form.featured == Some("on"), form.active == Some("on"), FormFinishes(form),
               Present(if uploaded.Some? then uploaded else p.imageStorageId))
  }

  /** `handleSubmit`: the storage id is the product's, replaced by the uploaded file's
      when one was chosen (`uploaded`, the id the upload returned); the payload carries the
      form's fields, the parsed finishes, the storage id only when there is one, and, for
      an edited product, the product's own code. */
  method HandleSubmit(form: SubmitForm, product: Option<Doc>, uploaded: Option<string>)
    returns (r: Submission)
    ensures product.None? ==> r == CreateCall(CreatePayload(form, uploaded))
    ensures product.Some? ==> r == UpdateCall(UpdatePayload(form, product.value, uploaded))
  {
    var imageStorageId: Option<string> := if product.Some? then product.value.imageStorageId else None;
    if uploaded.Some? {
      imageStorageId := uploaded;
    }
    var raw := if form.finishes.Some? && form.finishes.value != "" then form.finishes.value else "";
    var finishes := ParseFinishes(raw);
    var storageId: Option<string> := None;
    if imageStorageId.Some? && imageStorageId.value != "" {
      storageId := imageStorageId;
    }
    if product.Some? {
      r := UpdateCall(UpdateArgs(product.value.id, form.name, product.value.code, form.description,
                                 form.price, form.category, form.featured == Some("on"),
                                 form.active == Some("on"), finishes, storageId));
    } else {
      r := CreateCall(CreateArgs(form.name, form.description, form.price, form.category,
                                 form.featured == Some("on"), Some(form.active == Some("on")),
                                 finishes, storageId));
    }
  }

  /** The payloads say what the dialog promises: finishes are well formed; the storage id
      is the uploaded one when a non-empty one was returned, otherwise the product's own
      when it has one; an update keeps the product's id and code. */
  lemma PayloadSpec(form: SubmitForm, p: Doc, uploaded: Option<string>)
    ensures forall k :: 0 <= k < |FormFinishes(form)| ==> IsFinish(FormFinishes(form)[k])
    ensures form.finishes.None? ==> FormFinishes(form) == []
    ensures uploaded.None? && p.imageStorageId != Some("") ==>
              UpdatePayload(form, p, None).imageStorageId == p.imageStorageId
    ensures uploaded.Some? && uploaded.value != "" ==>
              UpdatePayload(form, p, uploaded).imageStorageId == uploaded
              && CreatePayload(form, uploaded).imageStorageId == uploaded
    ensures UpdatePayload(form, p, uploaded).id == p.id && UpdatePayload(form, p, uploaded).code == p.code
  {
    ParseFinishesWellFormed(if form.finishes.Some? then form.finishes.value else "");
    if form.finishes.None? {
      ParseFinishesPiece("");
      TrimOfTrimmed("");
    }
  }

  /** The options of the dialog's category select, in order. */
  const CategoryOptions: seq<string> := ["sofas", "beds", "chairs", "tables", "sectionals", "mattresses"]

  /** The dialog as it opens for `p`, submitted unchanged. The category select
      preselects the product's category, or "sofas" when it has none. */
  function EditForm(p: Doc): SubmitForm {
    SubmitForm(p.name, p.description, p.price,
               SelectedOption(CategoryOptions, if p.category != "" then p.category else "sofas"),
               if p.featured then Some("on") else None,
               if NotDisabled(p) then Some("on") else None,
               Some(FormValue(p.finishes)))
  }

  /** Saving the edit dialog of a product without changing anything and without choosing
      a file leaves the product as it was, except that an unset `active` flag becomes
      true; its code and stored image survive. */
  lemma UnchangedEditKeepsProduct(p: Doc)
    requires p.category in CategoryOptions
    requires forall k :: 0 <= k < |p.finishes| ==> IsFinish(p.finishes[k])
    requires p.imageStorageId != Some("")
    ensures Patched(p, UpdatePayload(EditForm(p), p, None)) == p.(active := Some(NotDisabled(p)))
  {
    ParseFormValue(p.finishes);
  }

  /** A product whose category is not one of the select's options comes back from an
      unchanged edit dialog as a sofa: the select cannot show it and falls back to its
      first option. */
  lemma UnlistedCategoryBecomesSofas(p: Doc)
    requires p.category !in CategoryOptions
    ensures Patched(p, UpdatePayload(EditForm(p), p, None)).category == "sofas"
  {
  }
}
