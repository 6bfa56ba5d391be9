/** The Convex product functions (convex/products.ts): the `products` table with its
    listing query and the create, update and remove mutations, each of which first asks
    for the caller's identity. The table is a sequence of documents in creation order;
    the file storage is the set of stored file ids. The identity, the clock, the random
    number and the ids Convex hands out are parameters. */
module ConvexProducts {
  import opened Wrappers
  import opened Seqs
  import opened Text

  const NotAuthenticated: string := "Not authenticated"

  /** A `products` document. `code` and `active` may be missing on documents written
      before those fields existed, which is why readers test `active === false`. */
  datatype Doc = Doc(
    id: string,
    name: string,
    code: Option<string>,
    description: string,
    price: real,
    category: string,
    imageStorageId: Option<string>,
    featured: bool,
    active: Option<bool>,
    finishes: seq<string>,
    createdAt: int)

  /** A document as `list` returns it, with the URL of its stored image. */
  datatype Listed = Listed(doc: Doc, imageUrl: Option<string>)

  /** The arguments of `create`. */
  datatype CreateArgs = CreateArgs(
    name: string,
    description: string,
    price: real,
    category: string,
    featured: bool,
    active: Option<bool>,
    finishes: seq<string>,
    imageStorageId: Option<string>)

  /** The arguments of `update`; the optional ones are left alone when missing. */
  datatype UpdateArgs = UpdateArgs(
    id: string,
    name: string,
    code: Option<string>,
    description: string,
    price: real,
    category: string,
    featured: bool,
    active: bool,
    finishes: seq<string>,
    imageStorageId: Option<string>)

  /** Kept by `onlyActive`: every document not explicitly disabled. */
  predicate NotDisabled(d: Doc) { d.active != Some(false) }

  /** Kept by `onlyFeatured`. */
  predicate IsFeaturedDoc(d: Doc) { d.featured }

  predicate Unfiltered(d: Doc) { true }

  function ActiveTest(onlyActive: bool): Doc -> bool {
    if onlyActive then NotDisabled else Unfiltered
  }

  function FeaturedTest(onlyFeatured: bool): Doc -> bool {
    if onlyFeatured then IsFeaturedDoc else Unfiltered
  }

  /** The documents `list` returns, newest first, before the image URLs are added. */
  function ListedDocs(docs: seq<Doc>, onlyActive: bool, onlyFeatured: bool): seq<Doc> {
    Filter(Filter(Reverse(docs), ActiveTest(onlyActive)), FeaturedTest(onlyFeatured))
  }

  /** `list` returns exactly the documents that pass the requested filters, newest first:
      with `onlyActive` those not disabled (an unset flag counts as active), with
      `onlyFeatured` those featured; the two filters together are one filter by both. */
  lemma {:induction false} ListedDocsSpec(docs: seq<Doc>, onlyActive: bool, onlyFeatured: bool)
    ensures forall d :: d in ListedDocs(docs, onlyActive, onlyFeatured) <==>
              d in docs && (onlyActive ==> d.active != Some(false)) && (onlyFeatured ==> d.featured)
    ensures IsSubsequence(ListedDocs(docs, onlyActive, onlyFeatured), Reverse(docs))
    ensures ListedDocs(docs, false, false) == Reverse(docs)
  {
    ReverseMembers(docs);
    var r := Reverse(docs);
    var first := Filter(r, ActiveTest(onlyActive));
    FilterIsSubsequence(r, ActiveTest(onlyActive));
    FilterIsSubsequence(first, FeaturedTest(onlyFeatured));
    SubsequenceTransitive(ListedDocs(docs, onlyActive, onlyFeatured), first, r);
    FilterKeepsAll(r, Unfiltered);
    FilterKeepsAll(r, Unfiltered);
  }

  /** `listFeatured`: featured documents whose active flag is set to true, in creation
      order. */
  function ListFeatured(docs: seq<Doc>): seq<Doc> {
    Filter(docs, (d: Doc) => d.featured && d.active == Some(true))
  }

  /** Every document `listFeatured` returns is also listed by `list` with both filters;
      the converse fails only for documents whose active flag is unset. */
  lemma ListFeaturedWithinList(docs: seq<Doc>)
    ensures forall d :: d in ListFeatured(docs) ==> d in ListedDocs(docs, true, true)
    ensures forall d :: d in ListedDocs(docs, true, true) && d.active.Some? ==> d in ListFeatured(docs)
  {
    ListedDocsSpec(docs, true, true);
    var both := (d: Doc) => d.featured && d.active == Some(true);
    forall d | d in ListedDocs(docs, true, true) && d.active.Some?
      ensures d in ListFeatured(docs)
    {
      assert d in docs && d.featured && d.active != Some(false);
      var v := d.active.value;
      assert d.active == Some(v);
      assert v;
      assert both(d);
    }
  }

  /** `ctx.db.get(id)`: the document with that id, if any. */
  function Get(docs: seq<Doc>, id: string): (r: Option<Doc>)
    ensures r.None? <==> forall i :: 0 <= i < |docs| ==> docs[i].id != id
    ensures r.Some? ==> r.value in docs && r.value.id == id
  {
    Find(docs, (d: Doc) => d.id == id)
  }

  function Min(a: int, b: int): int { if a <= b then a else b }

  /** `s.substring(start, end)` for `0 <= start <= end`: both bounds clamped to the
      length. */
  function Substring(s: string, start: nat, end: nat): (r: string)
    requires start <= end
    ensures |r| == Min(end, |s|) - Min(start, |s|)
    ensures forall i :: 0 <= i < |r| ==> r[i] == s[Min(start, |s|) + i]
  {
    s[Min(start, |s|)..Min(end, |s|)]
  }

  /** The product code `create` makes: the first three characters of the category in
      upper case, a dash, and four characters of the random number's base-36 text
      (`randomText` is the whole text, "0." included, so the four characters are the first
      four after the point), in upper case. */
  function MakeCode(category: string, randomText: string): (r: string)
    ensures |r| == Min(3, |category|) + 1 + Min(6, |randomText|) - Min(2, |randomText|)
    ensures |r| <= 8
    ensures forall i :: 0 <= i < Min(3, |category|) ==> r[i] == UpperChar(category[i])
    ensures r[Min(3, |category|)] == '-'
    ensures forall i :: 0 <= i < |r| ==> !IsLowerLetter(r[i])
  {
    Upper(Substring(category, 0, 3)) + "-" + Upper(Substring(randomText, 2, 6))
  }

  /** The document `create` inserts. */
  function CreatedDoc(args: CreateArgs, id: string, code: string, now: int): (r: Doc)
    ensures r.active == Some(args.active.GetOr(true))
    ensures r.code == Some(code) && r.createdAt == now && r.id == id
    ensures r.name == args.name && r.description == args.description && r.price == args.price
    ensures r.category == args.category && r.featured == args.featured
    ensures r.finishes == args.finishes && r.imageStorageId == args.imageStorageId
  {
    Doc(id, args.name, Some(code), args.description, args.price, args.category,
        args.imageStorageId, args.featured, Some(if args.active.Some? then args.active.value else true),
        args.finishes, now)
  }

  /** The document after `ctx.db.patch(id, data)` with the update's fields: every given
      field replaced, the missing optional ones and `createdAt` kept. */
  function Patched(d: Doc, args: UpdateArgs): Doc {
    d.(name := args.name,
       code := if args.code.Some? then args.code else d.code,
       description := args.description,
       price := args.price,
       category := args.category,
       featured := args.featured,
       active := Some(args.active),
       finishes := args.finishes,
       imageStorageId := if args.imageStorageId.Some? then args.imageStorageId else d.imageStorageId)
  }

  function PatchAll(docs: seq<Doc>, args: UpdateArgs): seq<Doc> {
    MapWhere(docs, (d: Doc) => d.id == args.id, (d: Doc) => Patched(d, args))
  }

  /** An update changes only the document with the given id. That document takes every
      field the update gives (a given code or image replaces the old one), and keeps its
      id, position and creation time, and its code and image when the update carries
      none; applying the same update twice is the same as applying it once. */
  lemma PatchAllSpec(docs: seq<Doc>, args: UpdateArgs)
    ensures |PatchAll(docs, args)| == |docs|
    ensures forall i :: 0 <= i < |docs| && docs[i].id == args.id ==>
              var d := PatchAll(docs, args)[i];
              d.name == args.name && d.description == args.description && d.price == args.price
              && d.category == args.category && d.featured == args.featured
              && d.active == Some(args.active) && d.finishes == args.finishes
              && (args.code.Some? ==> d.code == args.code)
              && (args.imageStorageId.Some? ==> d.imageStorageId == args.imageStorageId)
    ensures forall i :: 0 <= i < |docs| && docs[i].id != args.id ==> PatchAll(docs, args)[i] == docs[i]
    ensures forall i :: 0 <= i < |docs| ==>
              PatchAll(docs, args)[i].id == docs[i].id && PatchAll(docs, args)[i].createdAt == docs[i].createdAt
    ensures forall i :: 0 <= i < |docs| && args.code.None? ==> PatchAll(docs, args)[i].code == docs[i].code
    ensures forall i :: 0 <= i < |docs| && args.imageStorageId.None? ==>
              PatchAll(docs, args)[i].imageStorageId == docs[i].imageStorageId
    ensures PatchAll(PatchAll(docs, args), args) == PatchAll(docs, args)
  {
  }

  class ProductsTable {
    var docs: seq<Doc>
    var storage: set<string>

    constructor (docs0: seq<Doc>, storage0: set<string>)
      ensures docs == docs0 && storage == storage0
    {
      docs := docs0;
      storage := storage0;
    }

    /** `list`: the documents newest first, filtered as asked, each with the URL
        `urlOf` gives for its stored image (`ctx.storage.getUrl`), or none. */
    method List(onlyActive: bool, onlyFeatured: bool, urlOf: string -> Option<string>)
      returns (r: seq<Listed>)
      ensures |r| == |ListedDocs(docs, onlyActive, onlyFeatured)|
      ensures forall i :: 0 <= i < |r| ==> r[i].doc == ListedDocs(docs, onlyActive, onlyFeatured)[i]
      ensures forall i :: 0 <= i < |r| ==>
                r[i].imageUrl == (if r[i].doc.imageStorageId.Some? then urlOf(r[i].doc.imageStorageId.value) else None)
    {
      var results := Reverse(docs);
      if onlyActive {
        results := Filter(results, NotDisabled);
      } else {
        FilterKeepsAll(results, Unfiltered);
      }
      if onlyFeatured {
        results := Filter(results, IsFeaturedDoc);
      } else {
        FilterKeepsAll(results, Unfiltered);
      }
      r := seq(|results|, i requires 0 <= i < |results| =>
                 Listed(results[i], if results[i].imageStorageId.Some? then urlOf(results[i].imageStorageId.value) else None));
    }

    /** `create`: refuses an anonymous caller and changes nothing; otherwise inserts a
        document with the generated code, `active` defaulting to true and the creation
        time `now`, and returns its id. */
    method Create(args: CreateArgs, identity: Option<string>, randomText: string, now: int, newId: string)
      returns (r: Result<string, string>)
      requires forall i :: 0 <= i < |docs| ==> docs[i].id != newId
      modifies this`docs
      ensures identity.None? ==> r == Err(NotAuthenticated) && docs == old(docs)
      ensures identity.Some? ==>
                r == Ok(newId) && docs == old(docs) + [CreatedDoc(args, newId, MakeCode(args.category, randomText), now)]
    {
      if identity.None? {
        return Err(NotAuthenticated);
      }
      var code := MakeCode(args.category, randomText);
      docs := docs + [CreatedDoc(args, newId, code, now)];
      r := Ok(newId);
    }

    /** `update`: refuses an anonymous caller; a missing document makes the patch fail;
        otherwise the document with that id is patched. */
    method Update(args: UpdateArgs, identity: Option<string>) returns (r: Result<(), string>)
      modifies this`docs
      ensures identity.None? ==> r == Err(NotAuthenticated) && docs == old(docs)
      ensures identity.Some? && Get(old(docs), args.id).None? ==> r.Err? && docs == old(docs)
      ensures identity.Some? && Get(old(docs), args.id).Some? ==> r == Ok(()) && docs == PatchAll(old(docs), args)
    {
      if identity.None? {
        return Err(NotAuthenticated);
      }
      if Get(docs, args.id).None? {
        return Err("Document not found");
      }
      docs := PatchAll(docs, args);
      r := Ok(());
    }

    /** `remove`: refuses an anonymous caller; otherwise deletes the stored image of the
        document if it has one, then the document. Deleting a missing document fails. */
    method Remove(id: string, identity: Option<string>) returns (r: Result<(), string>)
      modifies this`docs, this`storage
      ensures identity.None? ==> r == Err(NotAuthenticated) && docs == old(docs) && storage == old(storage)
      ensures identity.Some? && Get(old(docs), id).None? ==> r.Err? && docs == old(docs) && storage == old(storage)
      ensures identity.Some? && Get(old(docs), id).Some? ==>
                r == Ok(())
                && docs == Filter(old(docs), (d: Doc) => d.id != id)
                && storage == (match Get(old(docs), id).value.imageStorageId
                               case Some(s) => old(storage) - {s}
                               case None => old(storage))
    {
      if identity.None? {
        return Err(NotAuthenticated);
      }
      var product := Get(docs, id);
      if product.None? {
        return Err("Document not found");
      }
      if product.value.imageStorageId.Some? {
        storage := storage - {product.value.imageStorageId.value};
      }
      docs := Filter(docs, (d: Doc) => d.id != id);
      r := Ok(());
    }

    /** `generateUploadUrl`: refuses an anonymous caller, otherwise hands back the upload
        URL the storage issues (`issued`). */
    method GenerateUploadUrl(identity: Option<string>, issued: string) returns (r: Result<string, string>)
      ensures identity.None? ==> r == Err(NotAuthenticated)
      ensures identity.Some? ==> r == Ok(issued)
    {
      if identity.None? {
        return Err(NotAuthenticated);
      }
      r := Ok(issued);
    }
  }

  /** After a successful `create`, the new document is found by its id and is listed by
      `list` with `onlyActive` exactly when it was not created disabled. */
  lemma CreatedIsListed(docs: seq<Doc>, args: CreateArgs, newId: string, code: string, now: int)
    requires forall i :: 0 <= i < |docs| ==> docs[i].id != newId
    ensures Get(docs + [CreatedDoc(args, newId, code, now)], newId) == Some(CreatedDoc(args, newId, code, now))
    ensures CreatedDoc(args, newId, code, now) in ListedDocs(docs + [CreatedDoc(args, newId, code, now)], true, false)
            <==> args.active != Some(false)
  {
    var d := CreatedDoc(args, newId, code, now);
    var all := docs + [d];
    ListedDocsSpec(all, true, false);
    var j := FindIndex(all, (x: Doc) => x.id == newId);
    assert all[|docs|] == d;
    assert j.Some? && j.value == |docs|;
  }
}
