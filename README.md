# dtraders storefront rules in Dafny

dtraders is a furniture shop made of two front ends.

- A Next.js storefront backed by Supabase. It has a product grid with search and category buttons, a cart with a checkout summary, an admin orders page, a products API route and a command-line script that promotes a user to admin.
- A Vite storefront. It has a static catalogue, a catalogue page filtered by category and price, and a password-protected admin panel kept in the browser. It also has a Convex-backed admin products page with Clerk sign-in.

The model covers the small sequential rules behind these screens:

- cart arithmetic and cart updates;
- the order status workflow;
- id-keyed list editing and the finishes text field;
- catalogue filters and lookups;
- the Convex product and user functions;
- the request rules of the products API;
- the `.env` reader and the email check of the admin script.

Prices are real numbers, so the tax and total identities are exact. Hosted services are modelled as follows:

- The Supabase and Convex tables become sequences of records in creation order.
- Clerk identities, database errors, clocks and random text become parameters.
- Browser storage is left out.

Stateful pages are classes whose fields are the page's state variables. Their handlers are methods that reassign those fields. The `find`/`filter`/`map`/`reduce` expressions the handlers use are functions.

Modules, one per source file plus three shared ones:

- `Wrappers`: `Option` and `Result`.
- `Text`: the JavaScript string operations used. These are ASCII `toLowerCase`/`toUpperCase`, `trim` with the full ECMAScript white-space set (including the Unicode space separators such as U+3000), `includes`, `startsWith`, and `split`/`join` on one character.
- `Seqs`: order-preserving filter, subsequence, find-first, map-where and reverse.
- `Forms`: the value an untouched `<select>` submits, which is its default when that is an option and its first option otherwise.
- `Cart` (components/Cart.tsx) and `Storefront` (app/page.tsx).
- `Orders` (app/admin/orders/page.tsx).
- `CatalogData` (src/data/products.ts) and `ProductsPage` (src/pages/Products.tsx).
- `Finishes` (the finishes field of both admin forms) and `LocalAdmin` (src/pages/Admin.tsx).
- `ConvexProducts` (convex/products.ts) and `AdminProducts` (src/pages/admin/Products.tsx).
- `ConvexUsers` (convex/users.ts).
- `ApiProducts` (app/api/products/route.ts).
- `MakeAdmin` (scripts/make-admin.js).

## Model

| member | source | states |
|---|---|---|
| Cart.Summarize | components/Cart.tsx:22-24 | an empty cart sums to 0; tax is exactly a tenth of the subtotal; total = subtotal + tax; with non-negative prices and quantities 0 ≤ subtotal ≤ total |
| Cart.SubtotalNonNegative | components/Cart.tsx:22 | non-negative prices and quantities give a non-negative subtotal |
| Cart.SubtotalConcat | components/Cart.tsx:22 | the subtotal of two item lists one after the other is the sum of their subtotals |
| Cart.SubtotalSingle | components/Cart.tsx:22 | a one-line cart sums to that line's price × quantity |
| Cart.SubtotalUpdate | components/Cart.tsx:22 | replacing one line changes the subtotal by the difference of the two line amounts |
| Storefront.AddedToCart | app/page.tsx:76-87 | a product already in the cart raises only that line's quantity by 1, length and other lines unchanged; a new product is appended with quantity 1 |
| Storefront.AddedToCartKeepsIdsUnique | app/page.tsx:76-87 | unique product ids in the cart stay unique after adding |
| Storefront.AddedToCartContains | app/page.tsx:76-87 | after adding, the product's id is in the cart |
| Storefront.AddedToCartSubtotal | app/page.tsx:76-87 | adding raises the subtotal by exactly one unit price: the stored line's price, or the product's price for a new line |
| Storefront.AddedToCartExisting | app/page.tsx:77-83 | with unique ids, adding a present id is the cart with that one line's quantity bumped |
| Storefront.BumpLine | app/page.tsx:81 | one more unit adds the unit price to the line amount |
| Storefront.RemovedFromCartSpec | app/page.tsx:89-91 | removal keeps exactly the lines with another id, in order, and the id is gone afterwards |
| Storefront.RemovedFromCartAbsent | app/page.tsx:89-91 | removing an id not in the cart leaves it unchanged |
| Storefront.FilteredProductsSpec | app/page.tsx:54-66 | a product is shown iff it matches the query case-insensitively in name or description (when there is a query) and has the selected category (when one is selected); the result is a subsequence; with neither filter it is the whole list |
| Storefront.EmptyQueryMatchesAll | app/page.tsx:56-60 | the empty query matches every product |
| Storefront.Checkout | app/page.tsx:277-279 | the checkout amounts are those of the cart summary, and total = subtotal + tax |
| Storefront.Home.constructor | app/page.tsx:18-25 | the page starts with no products, an empty cart, no query and no category |
| Storefront.Home.FilterProducts | app/page.tsx:54-66 | the grid becomes the search-then-category filtering of the products |
| Storefront.Home.SetProducts | app/page.tsx:38-46 | new products re-filter the grid and touch nothing else |
| Storefront.Home.SetSearchQuery | app/page.tsx:23-40 | a new query re-filters the grid and touches nothing else |
| Storefront.Home.SelectCategory | app/page.tsx:24-40 | a new category re-filters the grid and touches nothing else |
| Storefront.Home.AddToCart | app/page.tsx:76-87 | the cart becomes the added-to cart, ids stay unique, and the product is in it |
| Storefront.Home.RemoveFromCart | app/page.tsx:89-91 | the cart becomes the filtered cart, ids stay unique, and the id is gone |
| Storefront.Home.CheckoutTotals | app/page.tsx:277-279 | the amounts handed to checkout: subtotal of the cart, tax a tenth of it, total their sum |
| Storefront.SubsequenceUniqueIds | app/page.tsx:89-91 | dropping lines from a cart with unique ids keeps them unique |
| Orders.OfferedActions | app/admin/orders/page.tsx:143-173 | pending offers confirm and cancel, confirmed offers complete and cancel, completed offers only cancel, cancelled offers nothing |
| Orders.NoActionLeadsToPending | app/admin/orders/page.tsx:143-173 | no button leads back to pending |
| Orders.ActionsMoveForward | app/admin/orders/page.tsx:143-173 | every offered action moves strictly forward in pending < confirmed < completed < cancelled |
| Orders.RunMovesForward | app/admin/orders/page.tsx:143-173 | any sequence of button presses visits at most four statuses, never returns to pending, and stops at cancelled |
| Orders.WithStatus | app/admin/orders/page.tsx:55-57 | a saved status change sets the status of the orders with that id; length, order, other orders and other fields are unchanged |
| Orders.WithStatusTwice | app/admin/orders/page.tsx:55-57 | two changes of one id equal the second alone |
| Orders.WithStatusAbsent | app/admin/orders/page.tsx:55-57 | an unknown id changes nothing |
| Orders.OrdersPage.constructor | app/admin/orders/page.tsx:15 | the page holds the fetched orders, each status one of the four values |
| Orders.OrdersPage.UpdateOrderStatus | app/admin/orders/page.tsx:46-59 | on a database error the list is unchanged, otherwise it is the status-changed list |
| CatalogData.FeaturedProducts | src/data/products.ts:155 | exactly the featured catalogue products |
| CatalogData.GetProductsByCategory | src/data/products.ts:157-159 | exactly the catalogue products of that category |
| CatalogData.GetProductById | src/data/products.ts:161-163 | none iff no product has the id, otherwise a catalogue product with that id |
| CatalogData.CatalogIdsDistinct | src/data/products.ts:3-153 | no two catalogue products share an id |
| CatalogData.CatalogCategoriesKnown | src/data/products.ts:3-153 | every product's category is one of the category ids |
| CatalogData.GetProductByIdFindsEach | src/data/products.ts:161-163 | looking up any catalogue product's id finds that very product |
| CatalogData.LookupsKeepCatalogueOrder | src/data/products.ts:155-159 | the featured and per-category lists keep catalogue order |
| CatalogData.CatalogPricesInRange | src/data/products.ts:3-153 | every catalogue price lies in the default price range of the catalogue page |
| ProductsPage.GridSpec | src/pages/Products.tsx:20-26 | a product is shown iff it has the selected category (or none is selected) and its price lies in the closed range; the grid keeps catalogue order |
| ProductsPage.InitialGridIsWholeCatalogue | src/pages/Products.tsx:13-26 | with no category and the initial range the whole catalogue is shown |
| ProductsPage.HandleCategoryChange | src/pages/Products.tsx:28-35 | the category is selected; no category clears the query string, a category sets `category` to its id |
| ProductsPage.CategoryChangeSurvivesReload | src/pages/Products.tsx:15-35 | re-reading the query string after a change gives the same grid |
| Finishes.TrimAll | src/pages/Admin.tsx:82 | each piece trimmed, same number of pieces |
| Finishes.ParseFinishesWellFormed | src/pages/Admin.tsx:82 | every parsed finish is non-empty, trimmed and comma-free |
| Finishes.TrimKeepsOut | src/pages/Admin.tsx:82 | trimming adds no character |
| Finishes.ParseFinishesAppend | src/pages/admin/Products.tsx:218 | the texts on either side of a comma parse independently, in input order |
| Finishes.ParseFinishesPiece | src/pages/admin/Products.tsx:218 | comma-free text parses to its trimmed form, or to nothing when that is empty |
| Finishes.ParseFinishesLeadingSpace | src/pages/admin/Products.tsx:218 | a leading space changes nothing |
| Finishes.FormValueCons | src/pages/admin/Products.tsx:354-355 | the edit form's default joins the finishes with ", " |
| Finishes.ParseFormValueStep | src/pages/admin/Products.tsx:354-355 | parsing the joined finishes yields the first one, then the rest |
| Finishes.ParseFormValue | src/pages/admin/Products.tsx:354-355 | parsing the joined default gives back any list of well-formed finishes |
| LocalAdmin.NewProduct | src/pages/Admin.tsx:74-83 | the edited product's id or the time-stamp id; the form's fields; no code; the default image for an empty image field; featured iff the box was ticked; parsed, well-formed finishes |
| Forms.SelectedOption | src/pages/Admin.tsx:396-400 | the submitted value is one of the options: the default when it is one, the first option otherwise |
| LocalAdmin.CategoryOptions | src/pages/Admin.tsx:401-405 | the category select offers exactly the category ids, "beds" first, "sofas" among them |
| LocalAdmin.EditFormRoundTrip | src/pages/Admin.tsx:74-83 | saving an unchanged edit form gives the product back, apart from its code, for a product with an id, an image, well-formed finishes and a category the select offers |
| LocalAdmin.EditFormUnlistedCategory | src/pages/Admin.tsx:396-406 | an unchanged edit form turns a category the select does not offer into "beds", and a missing one into "sofas" |
| LocalAdmin.DeleteInquirySpec | src/pages/Admin.tsx:56-61 | removes exactly the inquiries with that id and keeps the rest in order |
| LocalAdmin.DeleteProductSpec | src/pages/Admin.tsx:63-68 | removes exactly the products with that id and keeps the rest in order |
| LocalAdmin.DeleteOne | src/pages/Admin.tsx:63-68 | with distinct ids, deleting the id at position k removes only that product |
| LocalAdmin.SaveEditReplaces | src/pages/Admin.tsx:84-87 | saving while editing replaces the product in place, length unchanged, ids stay distinct |
| LocalAdmin.SaveNewAppends | src/pages/Admin.tsx:88-89 | saving a new product appends it at the end, others unchanged |
| LocalAdmin.SaveNewKeepsIdsDistinct | src/pages/Admin.tsx:88-89 | appending a product with a fresh id keeps ids distinct |
| LocalAdmin.AdminPanel.constructor | src/pages/Admin.tsx:19-36 | the stored inquiries; the stored products or, when there are none, the catalogue; logged in iff the session flag is "true" |
| LocalAdmin.AdminPanel.SetPassword | src/pages/Admin.tsx:38-48 | the typed password is kept |
| LocalAdmin.AdminPanel.HandleLogin | src/pages/Admin.tsx:38-48 | the password "admin123" logs in; any other leaves the login state as it was |
| LocalAdmin.AdminPanel.HandleLogout | src/pages/Admin.tsx:50-54 | logs out |
| LocalAdmin.AdminPanel.HandleDeleteInquiry | src/pages/Admin.tsx:56-61 | the inquiry list loses exactly that id |
| LocalAdmin.AdminPanel.HandleDeleteProduct | src/pages/Admin.tsx:63-68 | the product list loses exactly that id |
| LocalAdmin.AdminPanel.StartAdding | src/pages/Admin.tsx:255-258 | the Add Product button opens the dialog with no product to edit |
| LocalAdmin.AdminPanel.StartEditing | src/pages/Admin.tsx:294-297 | the Edit button opens the dialog (adding flag set) on the chosen product |
| LocalAdmin.AdminPanel.CancelEditing | src/pages/Admin.tsx:372-375 | the close button clears both dialog flags, so the dialog is gone and nothing is saved |
| LocalAdmin.AdminPanel.HandleSaveProduct | src/pages/Admin.tsx:70-97 | the list is replaced-in-place or appended-to, and both dialog flags are cleared, closing it |
| ConvexProducts.ListedDocsSpec | convex/products.ts:4-30 | `list` returns exactly the documents passing the requested filters (active unless explicitly false; featured), newest first, as a subsequence; with no filter, all documents newest first |
| ConvexProducts.ListFeaturedWithinList | convex/products.ts:32-50 | `listFeatured` returns only documents `list` shows with both filters, and conversely for documents whose active flag is set |
| ConvexProducts.Get | convex/products.ts:55 | none iff no document has the id, otherwise a document with it |
| ConvexProducts.Substring | convex/products.ts:87-88 | `slice`/`substring` with both bounds clamped to the length |
| ConvexProducts.MakeCode | convex/products.ts:87-89 | the code is the upper-cased first three characters of the category, a dash, then the random part; at most 8 characters; no lower-case letter |
| ConvexProducts.CreatedDoc | convex/products.ts:91-96 | the inserted document carries the arguments, the code and the time, with `active` as given or true when omitted |
| ConvexProducts.PatchAllSpec | convex/products.ts:117-118 | an update changes only the document with that id; that document takes the update's name, description, price, category, featured flag, active flag and finishes, and its code and image when given, keeps them otherwise, keeps id and creation time; updating twice equals once |
| ConvexProducts.ProductsTable.constructor | convex/schema.ts:5-16 | the table holds the given documents and stored files |
| ConvexProducts.ProductsTable.List | convex/products.ts:4-30 | the filtered documents newest first, each with its image URL when it has a stored image |
| ConvexProducts.ProductsTable.Create | convex/products.ts:71-98 | anonymous callers fail with "Not authenticated" and nothing changes; otherwise the created document is appended |
| ConvexProducts.ProductsTable.Update | convex/products.ts:100-120 | anonymous callers fail; a missing document fails; otherwise the table is patched |
| ConvexProducts.ProductsTable.Remove | convex/products.ts:122-134 | anonymous callers fail; otherwise the stored image is deleted when there is one and the document is removed |
| ConvexProducts.ProductsTable.GenerateUploadUrl | convex/products.ts:136-141 | anonymous callers fail, others get the upload URL |
| ConvexProducts.CreatedIsListed | convex/products.ts:71-98 | a created document is found by its id and listed among the active ones |
| AdminProducts.SearchedSpec | src/pages/admin/Products.tsx:16-20 | keeps a product iff the lower-cased term occurs in the lower-cased name, non-empty code or category; order kept; an empty term keeps all; the term's case is irrelevant |
| AdminProducts.FoundByName | src/pages/admin/Products.tsx:16-20 | every product is found by its own name |
| AdminProducts.TogglePayload | src/pages/admin/Products.tsx:114-127 | sends active = true iff the product's active is false, and copies every other field |
| AdminProducts.ToggleFlipsActive | src/pages/admin/Products.tsx:114-127 | with distinct ids the toggle flips only that product's flag, unset counting as enabled |
| AdminProducts.ToggleTwice | src/pages/admin/Products.tsx:114-127 | toggling twice gives the product back |
| AdminProducts.HandleSubmit | src/pages/admin/Products.tsx:192-236 | a new product sends the create payload, an edited one the update payload |
| AdminProducts.PayloadSpec | src/pages/admin/Products.tsx:198-227 | finishes well formed, a missing field gives none; the uploaded image replaces the stored one, which is kept otherwise; updates keep id and code |
| AdminProducts.UnchangedEditKeepsProduct | src/pages/admin/Products.tsx:192-236 | saving an unchanged edit dialog leaves a product whose category the select offers as it was, an unset active flag becoming true |
| AdminProducts.UnlistedCategoryBecomesSofas | src/pages/admin/Products.tsx:316-327 | an unchanged edit dialog turns a category the select does not offer into "sofas", its first option |
| ConvexUsers.StoreLookup | convex/users.ts:12-27 | the user found by `clerkId` when there is one; otherwise, for a non-empty cleaned identity email, the first user with that cleaned email, none iff no user has it; otherwise none |
| ConvexUsers.CurrentUser | convex/users.ts:48-71 | nothing without an identity; the `clerkId` match first; otherwise, for a non-empty identity email, the first user with its cleaned email, none iff no user has it; otherwise none |
| ConvexUsers.CurrentUserAgreesWithStore | convex/users.ts:12-67 | `currentUser` settles on the same user as `store`'s lookup, unless the email is white space only |
| ConvexUsers.Refreshed | convex/users.ts:24-35 | a found user is re-keyed to the subject, takes the identity's name and lower-cased email when given, and keeps id and role |
| ConvexUsers.PatchUserTwice | convex/users.ts:25-34 | a second patch of the same document overrides the first |
| ConvexUsers.StoredWhenFound | convex/users.ts:29-36 | a found user is patched in place and its id returned |
| ConvexUsers.StoredWhenMissing | convex/users.ts:38-44 | otherwise a new admin user with the lower-cased email is appended and its id returned |
| ConvexUsers.UsersTable.constructor | convex/schema.ts:17-22 | the table holds the given users |
| ConvexUsers.UsersTable.FindForStore | convex/users.ts:12-27 | the lookup result, re-keying a user found by email |
| ConvexUsers.UsersTable.Store | convex/users.ts:4-46 | without an identity returns null and writes nothing; otherwise the table and the returned id are those of the upsert |
| ConvexUsers.ByClerkIdAt | convex/users.ts:13-16 | the index lookup returns the first user with that `clerkId` |
| ConvexUsers.StoreThenCurrentUser | convex/users.ts:4-71 | after a successful `store`, `currentUser` finds the stored user by `clerkId` |
| ConvexUsers.StoreTwice | convex/users.ts:4-46 | a second `store` with the same identity changes nothing |
| ConvexUsers.StoredUserUnique | convex/users.ts:4-46 | after `store`, the user found is the refreshed one and the only one with its id |
| ApiProducts.UnsignedDigits | app/api/products/route.ts:50 | a digit string followed by anything that cannot continue a number reads as the digits' value |
| ApiProducts.ParseUnsignedText | app/api/products/route.ts:50 | leading white space is skipped and a text starting with a digit or a point reads as its unsigned decimal |
| ApiProducts.ParseSignedText | app/api/products/route.ts:50 | a `-` sign negates the decimal that follows, a `+` keeps it, no decimal gives `NaN` |
| ApiProducts.ParseDigits | app/api/products/route.ts:50 | `parseFloat` of a digit string, after leading white space and before a non-number tail, is its value |
| ApiProducts.ImageOrNull | app/api/products/route.ts:51 | a truthy image URL is kept, anything else becomes null |
| ApiProducts.StockQuantity | app/api/products/route.ts:52 | the stock is 1 iff `in_stock` is truthy, else 0 |
| ApiProducts.Post | app/api/products/route.ts:35-69 | 400 with the missing-fields message when name, description or category id is falsy or the price is missing or null; 400 with the database message on an insert error; otherwise 200 and the row is added |
| ApiProducts.PostAcceptsZeroPrice | app/api/products/route.ts:35-40 | a price of 0 passes, a missing or null price does not |
| ApiProducts.PostRequest | app/api/products/route.ts:10-77 | a body that cannot be read or destructured answers 500 with the error's message and writes nothing; nothing else answers 500; otherwise POST's outcome |
| ApiProducts.PutRequest | app/api/products/route.ts:79-154 | a body that cannot be read or destructured answers 500 with the error's message and leaves the table; nothing else answers 500; otherwise PUT's outcome |
| ApiProducts.PutPatch | app/api/products/route.ts:113-125 | name, description and category id are patched iff truthy, with the body's value; the price iff truthy, with its `parseFloat`; the image iff present, with the image or null when it is falsy; the stock iff present, with 1 or 0 by the stock flag's truthiness; the time stamp always |
| ApiProducts.PatchRows | app/api/products/route.ts:113-125 | only rows with the id are patched, length unchanged |
| ApiProducts.PutSpec | app/api/products/route.ts:100-146 | 400 without a truthy id; 200 iff the id is truthy, the update succeeds and a row has the id; 404 iff no row has it; the table changes only on 200 and only at matching rows; each matching row takes the value given for every field the body carries, keeps every other field and gets the new time stamp; a falsy price or name is never written |
| ApiProducts.PutTwice | app/api/products/route.ts:113-125 | sending the same update twice leaves the table as sending it once |
| MakeAdmin.ParseAssignment | scripts/make-admin.js:22-24 | `key=value` gives the trimmed key and the trimmed value, later `=` signs kept |
| MakeAdmin.ParseBareKey | scripts/make-admin.js:22-24 | a line without `=` maps its trimmed text to the empty string |
| MakeAdmin.LoadAppend | scripts/make-admin.js:20-27 | reading two blocks of lines is reading the first, then the second |
| MakeAdmin.LoadEnv | scripts/make-admin.js:14-30 | the loop builds the dictionary of the file's lines, line by line |
| MakeAdmin.LoadKeys | scripts/make-admin.js:20-27 | a key is present iff some line enters it; empty and `#` lines enter nothing |
| MakeAdmin.LoadKeeps | scripts/make-admin.js:20-27 | lines that do not enter a key leave its value |
| MakeAdmin.LoadThrough | scripts/make-admin.js:24 | after a line enters a key, the key holds that line's value |
| MakeAdmin.LastLineWins | scripts/make-admin.js:24 | the last line entering a key decides its value |
| MakeAdmin.ValidEmailIffShape | scripts/make-admin.js:128-129 | the pattern test accepts exactly run `@` run `.` run, runs non-empty and free of white space and `@` |
| MakeAdmin.ValidEmailHasShape | scripts/make-admin.js:128-129 | every accepted address has the shape |
| MakeAdmin.ShapeIsValidEmail | scripts/make-admin.js:128-129 | every address of the shape is accepted |
| MakeAdmin.FirstAtSign | scripts/make-admin.js:128 | an `@` preceded only by plain characters is the first `@` |
| MakeAdmin.Start | scripts/make-admin.js:34-134 | exit 1 with the settings message when either Supabase setting is missing or empty, then exit 1 with the missing-email message when there is no email argument, then exit 1 with the invalid-format message when it is not of the shape; otherwise go on with that email and both settings |
| Text.Lower | src/pages/admin/Products.tsx:17-19 | `toLowerCase` leaves no upper-case ASCII letter |
| Text.LowerIdempotent | src/pages/admin/Products.tsx:17-19 | lower-casing twice is lower-casing once |
| Text.Trim | src/pages/Admin.tsx:82 | the result has no white space at either end |
| Text.TrimSpec | src/pages/Admin.tsx:82 | the result is a slice of the input and everything cut off on either side is white space |
| Text.TrimStartCuts | src/pages/Admin.tsx:82 | what `trimStart` drops is a prefix of white space and the rest is kept |
| Text.TrimEndCuts | src/pages/Admin.tsx:82 | what `trimEnd` drops is a suffix of white space and the rest is kept |
| Text.TrimIdempotent | src/pages/Admin.tsx:82 | trimming twice is trimming once |
| Text.JoinSplit | scripts/make-admin.js:22-24 | joining the pieces of a split gives back the text |
| Text.SplitJoin | src/pages/admin/Products.tsx:354-355 | splitting the join of separator-free pieces gives them back |
| Text.SplitAppend | src/pages/admin/Products.tsx:218 | splitting distributes over a separator occurrence |

## Left out

- Network, database and storage calls of Supabase, Convex and Clerk. Tables are sequences and their failures are parameters.
  - The Supabase update in app/admin/orders/page.tsx and the POST/PUT database errors are optional error strings.
  - A Convex patch or delete of a missing document is modelled as an error.
- Browser storage. The local admin panel takes the stored lists and the session flag as constructor arguments; writes back to `localStorage`/`sessionStorage` are not modelled.
- Toasts, confirmation dialogs, loading flags, the inquiry details dialog, and the WhatsApp message and link building. These are presentation; they rely on float formatting and `window.open`.
- `Date.now`, `new Date()` and `Math.random` become parameters (`now`, `randomText`, new ids).
- JavaScript floating point. Prices are exact reals, so `subtotal * 1.1` equals `subtotal + subtotal * 0.1` exactly.
- Unicode case mapping. `toLowerCase`/`toUpperCase` change only ASCII letters here.
- ApiProducts.ParseFloat: exponents (`1e3`) and `Infinity` are not recognised. `parseFloat` of an array, for example `[5]`, is `NaN` here, not its text's number.
- ApiProducts.PostRecord: the id and time stamps the database assigns become parameters. The row the insert returns is the inserted row.
- ApiProducts.PostRequest, ApiProducts.PutRequest: the `catch` is reached only by a body that cannot be read or destructured. An exception thrown inside the Supabase client, which the same `catch` would turn into a 500, is not modelled.
- ApiProducts.Put: rows match when the body's id is the row's id as a string. Numeric ids compared by the database are not modelled.
- ConvexProducts.ProductsTable.Create: requires the new id to be fresh, standing in for Convex's id allocation.
- ConvexUsers.UsersTable.Store: requires the new id to be fresh, standing in for Convex's id allocation.
- ConvexProducts.ListFeatured: Convex returns creation order here; the index order of the hosted query is not modelled.
- ConvexUsers.UsersTable.Store: an insert without an identity email is an error result, standing in for the exception that `identity.email!` leads to.
- ConvexUsers.CurrentUserAgreesWithStore: excludes an identity email made only of white space. Then `currentUser` still falls back to the email lookup, while `store` does not.
- AdminProducts.HandleSubmit: the upload itself is left out. `uploaded` is the storage id the upload returned; an empty id counts as none.
- `makeUserAdmin` in scripts/make-admin.js (listing auth users, updating or inserting the `users` row, console output) is a sequence of Supabase calls and is not modelled.
- The Next.js CheckoutModal, the API routes other than products, `convex/inquiries.ts`, seed scripts, routing, layouts and animation components are not part of this model.
