/** The static catalogue of the Vite storefront (src/data/products.ts): the product and
    category literals and the three lookups over them. */
module CatalogData {
  import opened Wrappers
  import opened Seqs

  /** `Product` of src/types/index.ts, with the `code` the catalogue literals carry and
      the admin form leaves out. */
  datatype Product = Product(
    id: string,
    name: string,
    code: Option<string>,
    category: string,
    price: real,
    description: string,
    image: string,
    featured: bool,
    finishes: seq<string>)

  datatype Category = Category(id: string, name: string, image: string, count: nat)

  /** The `products` literal. */
  const Products: seq<Product> :=
    [SignatureSofa, ModernComfortSofa, DesignerPlatformBed, AccentLoungeChair, PremiumSleepMattress,
     ModularSectional, OakDiningTable, UpholsteredBedFrame, DiningChairSet, CloudSectional]

  // The entries of the literal, one constant each, in the literal's order.
  const SignatureSofa: Product :=
    Product("1", "The Signature Sofa", Some("SF-001"), "sofas", 42000.0,
      "A deep-seat silhouette in performance linen, built for everyday luxury.",
      "/featured_sofa_closeup.jpg", true, ["Linen Beige", "Charcoal Grey", "Warm Taupe", "Midnight Blue"])
  const ModernComfortSofa: Product :=
    Product("2", "Modern Comfort Sofa", Some("SF-002"), "sofas", 38500.0,
      "Deep cushions, crisp upholstery, and a frame engineered for daily comfort.",
      "/spotlight_sofa_card.jpg", false, ["Cream", "Stone Grey", "Sage Green"])
  const DesignerPlatformBed: Product :=
    Product("3", "Designer Platform Bed", Some("BD-001"), "beds", 55000.0,
      "A quiet statement in the bedroom—solid wood, soft upholstery, and refined proportions.",
      "/spotlight_bed_card.jpg", true, ["Oak", "Walnut", "Upholstered Beige"])
  const AccentLoungeChair: Product :=
    Product("4", "Accent Lounge Chair", Some("CH-001"), "chairs", 18000.0,
      "Sculptural support for reading, working, or simply pausing.",
      "/spotlight_chair_card.jpg", true, ["Boucle Cream", "Leather Tan", "Velvet Moss"])
  const PremiumSleepMattress: Product :=
    Product("5", "Premium Sleep Mattress", Some("MT-001"), "mattresses", 22000.0,
      "Supportive layers, breathable covers, and sizes for every room.",
      "/mattress_card.jpg", false, ["Standard", "Premium Pillow Top"])
  const ModularSectional: Product :=
    Product("6", "Modular Sectional", Some("SX-001"), "sectionals", 68000.0,
      "Configurable comfort for modern living spaces.",
      "/category_sectional.jpg", false, ["Linen Natural", "Performance Grey"])
  const OakDiningTable: Product :=
    Product("7", "Oak Dining Table", Some("TB-001"), "tables", 35000.0,
      "Solid oak craftsmanship for memorable gatherings.",
      "/category_table.jpg", false, ["Natural Oak", "Smoked Oak", "Black Oak"])
  const UpholsteredBedFrame: Product :=
    Product("8", "Upholstered Bed Frame", Some("BD-002"), "beds", 48000.0,
      "Soft, padded elegance for restful nights.",
      "/category_bed_card.jpg", false, ["Ivory", "Dove Grey", "Blush Pink"])
  const DiningChairSet: Product :=
    Product("9", "Dining Chair Set", Some("CH-002"), "chairs", 24000.0,
      "Elegant seating for your dining experience.",
      "/category_chair.jpg", false, ["Natural Wood", "Black Ash", "White Oak"])
  const CloudSectional: Product :=
    Product("10", "Cloud Sectional", Some("SX-002"), "sectionals", 75000.0,
      "Sink-in comfort with modular flexibility.",
      "/category_sofa.jpg", false, ["Snow White", "Sand Beige", "Slate Grey"])

  /** The `categories` literal. */
  const Categories: seq<Category> :=
    [
      Category("beds", "Beds", "/category_bed_card.jpg", 12),
      Category("chairs", "Chairs", "/category_chair.jpg", 18),
      Category("mattresses", "Mattresses", "/mattress_card.jpg", 8),
      Category("sectionals", "Sectionals", "/category_sectional.jpg", 6),
      Category("sofas", "Sofas", "/category_sofa.jpg", 14),
      Category("tables", "Tables", "/category_table.jpg", 10)
    ]

  predicate DistinctIds(products: seq<Product>) {
    forall i, j :: 0 <= i < j < |products| ==> products[i].id != products[j].id
  }

  predicate IsCategoryId(categories: seq<Category>, id: string) {
    exists k :: 0 <= k < |categories| && categories[k].id == id
  }

  predicate IsFeatured(p: Product) { p.featured }

  /** `featuredProducts`. */
  function FeaturedProducts(): (r: seq<Product>)
    ensures forall p :: p in r <==> p in Products && p.featured
  {
    Filter(Products, IsFeatured)
  }

  /** `getProductsByCategory(categoryId)`. */
  function GetProductsByCategory(categoryId: string): (r: seq<Product>)
    ensures forall p :: p in r <==> p in Products && p.category == categoryId
  {
    Filter(Products, (p: Product) => p.category == categoryId)
  }

  /** `getProductById(id)`: the first product with that id, or `None` (`undefined`). */
  function GetProductById(id: string): (r: Option<Product>)
    ensures r.None? <==> forall i :: 0 <= i < |Products| ==> Products[i].id != id
    ensures r.Some? ==> r.value in Products && r.value.id == id
  {
    Find(Products, (p: Product) => p.id == id)
  }

  /** No two catalogue products share an id. */
  lemma CatalogIdsDistinct()
    ensures DistinctIds(Products)
  {
    var ids := CatalogIds();
    NumeralsDistinct(ids);
    forall i, j | 0 <= i < j < |Products| ensures Products[i].id != Products[j].id {
      assert Products[i].id == ids[i] && Products[j].id == ids[j];
    }
  }

  /** The catalogue's ids, in order. */
  lemma CatalogIds() returns (ids: seq<string>)
    ensures ids == ["1", "2", "3", "4", "5", "6", "7", "8", "9", "10"]
    ensures |ids| == |Products| && forall i :: 0 <= i < |Products| ==> Products[i].id == ids[i]
  {
    ids := ["1", "2", "3", "4", "5", "6", "7", "8", "9", "10"];
  }

  lemma NumeralsDistinct(ids: seq<string>)
    requires ids == ["1", "2", "3", "4", "5", "6", "7", "8", "9", "10"]
    ensures forall i, j :: 0 <= i < j < |ids| ==> ids[i] != ids[j]
  {
    forall i, j | 0 <= i < j < |ids| ensures ids[i] != ids[j] {
      if j == 9 {
        assert |ids[i]| != |ids[j]|;
      } else {
        assert ids[i][0] != ids[j][0];
      }
    }
  }

  /** Every catalogue product's category is one of the category ids. */
  lemma CatalogCategoriesKnown()
    ensures forall i :: 0 <= i < |Products| ==> IsCategoryId(Categories, Products[i].category)
  {
    assert Products[0].category == Categories[4].id;
    assert Products[1].category == Categories[4].id;
    assert Products[2].category == Categories[0].id;
    assert Products[3].category == Categories[1].id;
    assert Products[4].category == Categories[2].id;
    assert Products[5].category == Categories[3].id;
    assert Products[6].category == Categories[5].id;
    assert Products[7].category == Categories[0].id;
    assert Products[8].category == Categories[1].id;
    assert Products[9].category == Categories[3].id;
  }

  /** Looking up the id of any catalogue product finds that very product. */
  lemma GetProductByIdFindsEach(i: nat)
    requires i < |Products|
    ensures GetProductById(Products[i].id) == Some(Products[i])
  {
    CatalogIdsDistinct();
    var hit := (p: Product) => p.id == Products[i].id;
    var j := FindIndex(Products, hit);
    assert j.Some? && j.value <= i;
    assert Products[j.value].id == Products[i].id;
  }

  /** The featured list and every category list keep the catalogue's order. */
  lemma LookupsKeepCatalogueOrder(categoryId: string)
    ensures IsSubsequence(FeaturedProducts(), Products)
    ensures IsSubsequence(GetProductsByCategory(categoryId), Products)
  {
    FilterIsSubsequence(Products, IsFeatured);
    FilterIsSubsequence(Products, (p: Product) => p.category == categoryId);
  }

  /** Every catalogue price lies between 18000 and 75000. */
  lemma CatalogPricesInRange(i: nat)
    requires i < |Products|
    ensures 18000.0 <= Products[i].price <= 75000.0
  {
  }
}
