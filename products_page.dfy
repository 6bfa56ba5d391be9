/** The catalogue page of the Vite storefront (src/pages/Products.tsx): the grid narrowed
    by the selected category and a price range, and the category buttons, which keep
    the selection in the page's query string. */
module ProductsPage {
  import opened Wrappers
  import opened Seqs
  import opened CatalogData

  /** The price slider's initial range. */
  const DefaultPriceRange: (real, real) := (0.0, 100000.0)

  /** `!selectedCategory`: no category, or the empty string. */
  predicate NoCategory(selected: Option<string>) {
    selected.None? || selected.value == ""
  }

  /** The `useMemo` predicate: the category matches (or none is selected) and the price
      lies in the closed range. */
  predicate Shown(p: Product, selected: Option<string>, priceRange: (real, real)) {
    (NoCategory(selected) || p.category == selected.value)
    && p.price >= priceRange.0 && p.price <= priceRange.1
  }

  function ShownTest(selected: Option<string>, priceRange: (real, real)): Product -> bool {
    (p: Product) => Shown(p, selected, priceRange)
  }

  /** The grid for a given product list. */
  function Grid(catalog: seq<Product>, selected: Option<string>, priceRange: (real, real)): seq<Product> {
    Filter(catalog, ShownTest(selected, priceRange))
  }

  /** `filteredProducts`: the catalogue products the grid shows. */
  function FilteredProducts(selected: Option<string>, priceRange: (real, real)): seq<Product> {
    Grid(Products, selected, priceRange)
  }

  /** Every shown product has the selected category and a price in the range; every
      product meeting both is shown; the grid keeps the list's order. */
  lemma GridSpec(catalog: seq<Product>, selected: Option<string>, priceRange: (real, real))
    ensures forall p :: p in Grid(catalog, selected, priceRange) <==>
              p in catalog
              && (!NoCategory(selected) ==> p.category == selected.value)
              && priceRange.0 <= p.price <= priceRange.1
    ensures IsSubsequence(Grid(catalog, selected, priceRange), catalog)
  {
    FilterIsSubsequence(catalog, ShownTest(selected, priceRange));
  }

  /** On first load (no category, the default range) the whole catalogue is shown. */
  lemma InitialGridIsWholeCatalogue()
    ensures FilteredProducts(None, DefaultPriceRange) == Products
  {
    forall i | 0 <= i < |Products| ensures 0.0 <= Products[i].price <= 100000.0 {
      CatalogPricesInRange(i);
    }
    DefaultRangeKeepsAll(Products);
  }

  /** With no category and the default range, a list whose prices all lie in that range
      is shown whole. */
  lemma DefaultRangeKeepsAll(catalog: seq<Product>)
    requires forall i :: 0 <= i < |catalog| ==> 0.0 <= catalog[i].price <= 100000.0
    ensures Grid(catalog, None, DefaultPriceRange) == catalog
  {
    forall i | 0 <= i < |catalog| ensures ShownTest(None, DefaultPriceRange)(catalog[i]) {
    }
    FilterKeepsAll(catalog, ShownTest(None, DefaultPriceRange));
  }

  /** What a category button leaves behind: the selected category and the query
      string parameters. */
  datatype Selection = Selection(selected: Option<string>, searchParams: map<string, string>)

  /** `handleCategoryChange(categoryId)`. */
  function HandleCategoryChange(categoryId: Option<string>): (r: Selection)
    ensures r.selected == categoryId
    ensures NoCategory(categoryId) ==> r.searchParams == map[]
    ensures !NoCategory(categoryId) ==> r.searchParams == map["category" := categoryId.value]
  {
    Selection(categoryId, if categoryId.Some? && categoryId.value != "" then map["category" := categoryId.value] else map[])
  }

  /** The effect that re-reads the selection from the query string:
      `searchParams.get('category')`. */
  function CategoryFromParams(searchParams: map<string, string>): Option<string> {
    if "category" in searchParams then Some(searchParams["category"]) else None
  }

  /** Re-reading the query string after a category change shows the same grid the
      change selected (the empty id comes back as no category, which filters alike). */
  lemma CategoryChangeSurvivesReload(categoryId: Option<string>, priceRange: (real, real))
    ensures forall catalog :: Grid(catalog, CategoryFromParams(HandleCategoryChange(categoryId).searchParams), priceRange)
                              == Grid(catalog, categoryId, priceRange)
    ensures !NoCategory(categoryId) ==> CategoryFromParams(HandleCategoryChange(categoryId).searchParams) == categoryId
  {
    var back := CategoryFromParams(HandleCategoryChange(categoryId).searchParams);
    assert NoCategory(back) <==> NoCategory(categoryId);
    forall catalog ensures Grid(catalog, back, priceRange) == Grid(catalog, categoryId, priceRange) {
      FilterExtensional(catalog, ShownTest(back, priceRange), ShownTest(categoryId, priceRange));
    }
  }
}
