# Serena Ventus CMS — a Dafny model of the content API

The Serena Ventus landing site keeps its pages, products and content blocks in
a small CMS. Its backend is a set of Encore handlers over PostgreSQL, and its
admin screen is a React page that creates and edits those records. This
project models the core of that CMS as pure functions over an abstract table
and proves what the handlers promise. The core covers:

- **Partial updates** (`updateProduct`, `updatePage`, `updateContentBlock`).
  Each checks every request field against `undefined`. A present field gets
  `column = $k`, with `k` the next placeholder, and its value is pushed as
  parameter `k`. `updated_at = NOW()` comes last, and the id is the final
  placeholder. The SQL is modelled in two layers:
  - a builder that yields clauses and parameters with the numbering invariant;
  - PostgreSQL's binding and execution of the statement over a table.

  The result of the two layers is proved equal to a typed reference `Patch`
  of the rows with that id.
- **Creation** (`createProduct`, `createPage`, `createContentBlock`):
  - a slug check (products and pages);
  - `x || null` on optional strings and `|| false` / `|| 0` / `|| []` defaults;
  - a serial id, and the insertion time for both timestamps (taken as the column defaults, see Left out).
- **Public reads**:
  - `listProducts`: published; optional featured filter and LIMIT; `sort_order ASC, created_at DESC`.
  - `listContentBlocks`: published; optional page and type filters; same order.
  - `listPages`: published; ordered by slug.
  - `getProduct`: a published product by slug, or not found.

  Each is an assembled SELECT whose meaning is proved to be "filter, sort by
  key, take the prefix".
- **The row-to-API mapping**, where `x || undefined` turns both NULL and `""` into absent.
- **The admin screen's request shaping**:
  - comma-list parsing (`split(',')` and `trim()`);
  - `|| undefined` on text inputs and `parseFloat || 0` / `parseInt || 1` on numeric ones;
  - the Publish and Feature buttons, which send one negated flag;
  - the block filters.

Modules follow the source: `Common`, `Seqs`, `Ordering` and `Sql` (values,
schemas, the UPDATE builder and executor, the SELECT evaluator) are shared.
Then come `ProductModel`/`ProductUpdate`/`ProductCreate`/`ProductLookup`/`ProductListing`,
`PageModel`/`PageUpdate`/`PageCreate`/`PageListing`,
`BlockModel`/`BlockUpdate`/`BlockCreate`/`BlockListing`, `FormText` and
`Admin`, and the end-to-end lemmas in `ProductFlows` and `BlockFlows`.

Time (`NOW()`) is a parameter `now`. JSON columns hold a structured `Json`
value that stands for its text. A table is its rows in storage order plus the
next serial id.

## Model

| member | source | states |
|---|---|---|
| ProductUpdate.SetListShape | backend/cms/admin/update_product.ts:30-82 | The SET list holds exactly the present fields, each once, in the fixed field order. The k-th clause is `$k` and parameter k is its value, with notes and images JSON-encoded. There is one parameter per placeholder, the next free placeholder is n+1, and the list is empty exactly when no field is present. |
| ProductUpdate.SetListEmpty | backend/cms/admin/update_product.ts:69-86 | A field counts as present whenever it is not undefined, so false, 0 and "" are written; only a change set with every field absent builds no clause. |
| ProductUpdate.ExecuteSetList | backend/cms/admin/update_product.ts:88-113 | The finished UPDATE appends `updated_at = NOW()` and binds the id to the last placeholder. Running it changes exactly the rows with that id into their Patch and returns the first such row. |
| ProductUpdate.AssignedColumn | backend/cms/admin/update_product.ts:34-88 | After the assignments a column holds the requested value when its field was present, the current time for `updated_at`, and its old value otherwise. |
| ProductUpdate.UpdateProduct | backend/cms/admin/update_product.ts:84-134 | An empty change set fails with InvalidArgument "no fields to update" and leaves the table alone. Otherwise the rows with the id are patched and the serial kept. The answer is NotFound "product not found" when no row has the id, else the patched row mapped with `\|\| undefined`. |
| ProductUpdate.UpdateTouchesOne | backend/cms/admin/update_product.ts:90-134 | In a table with unique ids the update changes only the row with the id and answers with the row now stored. |
| ProductUpdate.SetListBuilt | backend/cms/admin/update_product.ts:30-82 | Through all ten field checks the builder keeps its numbering invariant, and it collects exactly the present fields as (column, parameter) pairs. |
| ProductUpdate.SetListMeaning | backend/cms/admin/update_product.ts:34-94 | The present fields' assignments followed by `updated_at = NOW()`, applied to any row, give exactly the typed Patch of that row. |
| ProductUpdate.PatchIdempotent | backend/cms/admin/update_product.ts:34-88 | Patching with a change set at one time and again at a later time is patching once at the later time. |
| ProductUpdate.UpdateTwice | backend/cms/admin/update_product.ts:29-134 | Sending the same update a second time, at any later time, gives the table and answer of sending it once at that time: the fields keep the values of the first send and only updated_at moves on. |
| ProductUpdate.UpdatesCommute | backend/cms/admin/update_product.ts:90-96 | Updates of two different ids give the same table in either order, each stamped with its own time. |
| ProductUpdate.UpdateKeepsValid | backend/cms/admin/update_product.ts:9-24 | The request cannot name id or slug, so an update keeps ids and slugs unique. |
| ProductUpdate.GetDetermines | backend/cms/admin/update_product.ts:94 | Two product rows that agree on every column returned by RETURNING are the same row. |
| PageUpdate.SetListShape | backend/cms/admin/update_page.ts:22-54 | Exactly the present fields among title, subtitle, content, metaTitle, metaDescription and published appear, in that order. They use placeholders $1..$n with content JSON-encoded, and the list is empty exactly when no field is present. |
| PageUpdate.ExecuteSetList | backend/cms/admin/update_page.ts:60-81 | The UPDATE stamps `updated_at`, matches the id in the last placeholder, turns exactly the rows with that id into their Patch, and returns the first. |
| PageUpdate.UpdatePage | backend/cms/admin/update_page.ts:56-98 | Empty change set: InvalidArgument "no fields to update", table unchanged. Otherwise the rows with the id are patched, and the answer is NotFound "page not found" or the patched page mapped with `\|\| undefined`. |
| PageUpdate.UpdateTouchesOne | backend/cms/admin/update_page.ts:62-98 | With unique ids only the page with the id changes, and the answer is the stored row. |
| PageUpdate.SetListBuilt | backend/cms/admin/update_page.ts:22-54 | Through all six field checks the builder keeps its numbering invariant and collects exactly the present fields. |
| PageUpdate.SetListEmpty | backend/cms/admin/update_page.ts:26-58 | A page field counts as present whenever it is not undefined; only a change set with every field absent builds no clause. |
| PageUpdate.AssignedColumn | backend/cms/admin/update_page.ts:26-60 | After the assignments a page column holds the requested value when its field was present, the current time for `updated_at`, and its old value otherwise. |
| PageUpdate.GetDetermines | backend/cms/admin/update_page.ts:66 | Two page rows that agree on every column returned by RETURNING are the same row. |
| PageUpdate.SetListMeaning | backend/cms/admin/update_page.ts:26-66 | The present fields' assignments followed by `updated_at = NOW()` give exactly the typed page Patch. |
| PageUpdate.PatchIdempotent | backend/cms/admin/update_page.ts:26-60 | Patching a page again with the same change set at a later time is patching once at that time. |
| PageUpdate.UpdateTwice | backend/cms/admin/update_page.ts:21-98 | Sending the same page update again at any later time gives the table and answer of sending it once at that time; only updated_at moves on. |
| PageUpdate.UpdatesCommute | backend/cms/admin/update_page.ts:62-68 | Updates of different pages, each at its own time, give the same table in either order. |
| PageUpdate.UpdateKeepsValid | backend/cms/admin/update_page.ts:9-16 | An update cannot change a slug or an id, so it keeps both unique. |
| BlockUpdate.SetListShape | backend/cms/admin/update_content_block.ts:22-54 | Exactly the present fields among type, title, content, pageSlug, sortOrder and published appear, in that order. They use consecutive placeholders with content JSON-encoded, and the list is empty exactly when no field is present. |
| BlockUpdate.ExecuteSetList | backend/cms/admin/update_content_block.ts:60-80 | The UPDATE stamps `updated_at`, matches the id in the last placeholder and patches exactly the blocks with that id. |
| BlockUpdate.UpdateContentBlock | backend/cms/admin/update_content_block.ts:56-96 | Empty change set: InvalidArgument "no fields to update". Otherwise the blocks with the id are patched, and the answer is NotFound "content block not found" or the patched block with NULL/"" title and page read as absent. |
| BlockUpdate.UpdateTouchesOne | backend/cms/admin/update_content_block.ts:62-96 | With unique ids only the block with the id changes, and the answer is the stored row. |
| BlockUpdate.SetListBuilt | backend/cms/admin/update_content_block.ts:22-54 | Through all six field checks the builder keeps its numbering invariant and collects exactly the present fields. |
| BlockUpdate.SetListEmpty | backend/cms/admin/update_content_block.ts:26-58 | A block field counts as present whenever it is not undefined; only a change set with every field absent builds no clause. |
| BlockUpdate.AssignedColumn | backend/cms/admin/update_content_block.ts:26-60 | After the assignments a block column holds the requested value when its field was present, the current time for `updated_at`, and its old value otherwise. |
| BlockUpdate.GetDetermines | backend/cms/admin/update_content_block.ts:66 | Two block rows that agree on every column returned by RETURNING are the same row. |
| BlockUpdate.SetListMeaning | backend/cms/admin/update_content_block.ts:26-66 | The present fields' assignments followed by `updated_at = NOW()` give exactly the typed block Patch. |
| BlockUpdate.PatchIdempotent | backend/cms/admin/update_content_block.ts:26-60 | Patching a block again with the same change set at a later time is patching once at that time. |
| BlockUpdate.UpdateTwice | backend/cms/admin/update_content_block.ts:21-96 | Sending the same block update again at any later time gives the table and answer of sending it once at that time; only updated_at moves on. |
| BlockUpdate.UpdatesCommute | backend/cms/admin/update_content_block.ts:62-68 | Updates of different blocks, each at its own time, give the same table in either order. |
| BlockUpdate.UpdateKeepsValid | backend/cms/admin/update_content_block.ts:9-16 | The request cannot name the id, so an update keeps block ids unique and below the serial. |
| Sql.Finish | backend/cms/admin/update_product.ts:84-96 | Finishing fails with InvalidArgument "no fields to update" exactly when there is no clause. |
| Sql.ExecuteBuilt | backend/cms/admin/update_product.ts:88-113 | A well-built SET list plus the stamp and the id placeholder binds without error. Executing it rewrites exactly the rows keyed by the id, keeps the serial, and returns the first rewritten row or nothing. |
| Sql.SelectMeans | backend/cms/list_products.ts:19-54 | A bound SELECT whose WHERE agrees with a predicate returns the LIMIT-cut, key-ordered list of the rows that satisfy it. |
| Common.OrAbsent | backend/cms/get_product.ts:42-45 | `x \|\| undefined` on an optional string gives absent for NULL and "", and the string itself otherwise. |
| Common.StringArrayRoundTrip | backend/cms/admin/create_product.ts:53 | A string list stored as its JSON array reads back as the same list. |
| ProductModel.NotesRoundTrip | backend/cms/admin/create_product.ts:53 | Scent notes stored as their JSON object read back as the same notes. |
| ProductModel.ToProductNoEmpty | backend/cms/get_product.ts:38-53 | A mapped product never carries an empty description, long description or size. |
| ProductModel.ToProductCollapse | backend/cms/get_product.ts:38-53 | Two rows map to the same Product exactly when they differ at most by NULL versus "" in the optional strings. |
| PageModel.ToPageCollapse | backend/cms/list_pages.ts:31-43 | Two page rows map to the same Page exactly when they differ at most by NULL versus "" in subtitle and meta fields. |
| BlockModel.ToBlockCollapse | backend/cms/list_content_blocks.ts:51-63 | Two block rows map to the same ContentBlock exactly when they differ at most by NULL versus "" in title and page. |
| ProductCreate.CreateProduct | backend/cms/admin/create_product.ts:27-76 | A taken slug (published or not) fails with AlreadyExists "product with this slug already exists" and inserts nothing. Otherwise exactly one row is appended, the serial advances, and the answer is that row mapped. |
| ProductCreate.CreatedProduct | backend/cms/admin/create_product.ts:52-76 | The new product has the next id and the request's name, slug and price. Description, long description and size are stored as NULL and answered absent exactly when absent or "" in the request, and otherwise answered as sent. Notes and images (default []) read back as sent. featured and published are true only when sent true, and sortOrder defaults to 0. |
| ProductCreate.CreateKeepsValid | backend/cms/admin/create_product.ts:28-34 | The slug check keeps slugs unique, and the serial keeps ids unique. |
| PageCreate.CreatePage | backend/cms/admin/create_page.ts:19-60 | A taken slug fails with AlreadyExists "page with this slug already exists" and inserts nothing; otherwise one row is appended and returned mapped. |
| PageCreate.CreatedPage | backend/cms/admin/create_page.ts:40-60 | The new page has the next id and the request's slug, title and content. Subtitle, meta title and meta description are stored as NULL and answered absent exactly when absent or "" in the request, and otherwise answered as sent. published is true only when sent true. |
| PageCreate.CreateKeepsValid | backend/cms/admin/create_page.ts:20-26 | Creating keeps page ids and slugs unique. |
| BlockCreate.CreateContentBlock | backend/cms/admin/create_content_block.ts:18-48 | Creation never fails and never checks for duplicates: exactly one row is appended, the serial advances, and the answer is that row mapped. |
| BlockCreate.CreatedBlock | backend/cms/admin/create_content_block.ts:29-48 | The new block has the next id and the request's type and content. Title and page are stored as NULL and answered absent exactly when absent or "" in the request, and otherwise answered as sent. sortOrder defaults to 0 and published to false. |
| ProductLookup.GetProduct | backend/cms/get_product.ts:29-53 | The answer is NotFound "product not found" exactly when no row has the slug and is published, so an unpublished match is indistinguishable from a missing one. Otherwise it is a published row with that slug, mapped. |
| ProductLookup.GetUnique | backend/cms/get_product.ts:29-36 | With unique slugs the product found is the one stored under the slug. |
| ProductListing.ListProducts | backend/cms/list_products.ts:18-73 | A negative limit makes the statement fail. Otherwise the answer is the reference listing (visible rows, in listing order, cut to the limit) mapped one-to-one. |
| ProductListing.ListingBound | backend/cms/list_products.ts:25-37 | The featured filter is `$1` when present, and the limit takes the next placeholder, so there is one parameter per placeholder. |
| ProductListing.ListingWhere | backend/cms/list_products.ts:19-30 | A row satisfies the assembled WHERE exactly when it is published and, when a featured value is given, has that value. |
| ProductListing.ListedSound | backend/cms/list_products.ts:19-37 | Everything listed is published and of the requested featured state. It comes in sort_order ascending, created_at descending order, and there are at most `limit` items. |
| ProductListing.ListedComplete | backend/cms/list_products.ts:19-32 | Without a limit every visible row is listed, as often as it is stored. |
| ProductListing.ListedTop | backend/cms/list_products.ts:32-37 | With a limit, a visible row left out orders no earlier than anything listed: ordering is applied before LIMIT. |
| ProductListing.LimitedListing | backend/cms/list_products.ts:34-37 | A limited listing is a prefix of the full one, of at most `limit` rows. |
| PageListing.ListPages | backend/cms/list_pages.ts:25-43 | The answer is the published pages ordered by slug, mapped one-to-one; it depends only on the table. |
| PageListing.ListedExactly | backend/cms/list_pages.ts:25-28 | A page is listed as often as it is stored when published, and never otherwise. |
| PageListing.ListedStrict | backend/cms/list_pages.ts:28 | With unique slugs the listing is in strictly increasing slug order: no later slug sorts at or before an earlier one. |
| BlockListing.ListContentBlocks | backend/cms/list_content_blocks.ts:18-63 | The answer is the published blocks matching each given filter, in sort_order ascending, created_at descending order, mapped one-to-one. |
| BlockListing.ListingBound | backend/cms/list_content_blocks.ts:25-35 | The page filter is `$1` when given, the type filter takes the next free placeholder, and there is one parameter per placeholder. |
| BlockListing.ListingWhere | backend/cms/list_content_blocks.ts:19-35 | A block satisfies the WHERE exactly when it is published and matches each given filter; a NULL page never matches. |
| BlockListing.ListedExactly | backend/cms/list_content_blocks.ts:19-35 | Exactly the visible blocks are listed, each as often as it is stored. |
| BlockListing.ListedOrder | backend/cms/list_content_blocks.ts:37 | Listed blocks come in sort_order ascending, created_at descending order. |
| BlockListing.PageFilterSkipsUnassigned | backend/cms/list_content_blocks.ts:27-30 | Filtering by page returns only blocks of that page, never a block without one. |
| ProductFlows.CreateThenGet | backend/cms/admin/create_product.ts:27-76 | A product created published is then found under its slug, exactly as the create answered. |
| ProductFlows.GetInListing | backend/cms/get_product.ts:29-32 | A product the lookup finds is in the full public listing. |
| ProductFlows.UnpublishHides | backend/cms/admin/update_product.ts:74-77 | Updating a product to unpublished makes the lookup under its slug answer "product not found". |
| BlockFlows.CreatedBlockListed | backend/cms/admin/create_content_block.ts:29-31 | A created block is listed under a page filter only if it was created published on that non-empty page. |
| BlockFlows.EmptyPageDiffers | backend/cms/admin/create_content_block.ts:30 | Creating stores an empty page as NULL, while updating stores "". Both read back without a page, yet only the updated block is listed under the page filter "". |
| FormText.Split | frontend/pages/AdminPage.tsx:233-237 | `split(',')` yields at least one piece, and no piece contains a comma. |
| FormText.JoinSplit | frontend/pages/AdminPage.tsx:233-237 | Joining the pieces with commas gives the input back. |
| FormText.SplitJoin | frontend/pages/AdminPage.tsx:233-237 | Splitting comma-free pieces joined with commas gives those pieces back. |
| FormText.Trim | frontend/pages/AdminPage.tsx:233-237 | `trim()` leaves no JavaScript white space at either end and removes only white space from the ends. |
| FormText.TrimIdempotent | frontend/pages/AdminPage.tsx:233-237 | Trimming twice is trimming once. |
| FormText.ParseList | frontend/pages/AdminPage.tsx:233-237 | An empty input gives []; otherwise every item is trimmed and comma-free. |
| FormText.SplitCount | frontend/pages/AdminPage.tsx:233-237 | `split(',')` gives one piece more than the input has commas. |
| FormText.ParseListCount | frontend/pages/AdminPage.tsx:233-237 | An empty input gives no items, and any other input one item more than it has commas. |
| FormText.ParseListJoin | frontend/pages/AdminPage.tsx:233-237 | Trimmed, comma-free items typed joined by commas parse back to exactly those items. |
| FormText.NonEmpty | frontend/pages/AdminPage.tsx:107-110 | `v \|\| undefined` on a text input: absent exactly when empty, the text otherwise. |
| FormText.NonEmptyStored | frontend/pages/AdminPage.tsx:226-228 | The form's `\|\| undefined` and the handlers' `\|\| null` agree, so the text sent is the text stored. |
| FormText.ParsedOr | frontend/pages/AdminPage.tsx:225-231 | `parse \|\| d` gives d for NaN and for a parsed 0, and the parsed number otherwise. |
| Admin.PageRequest | frontend/pages/AdminPage.tsx:101-112 | The new-page request carries slug and title as typed, empty optional inputs as absent, the parsed content, and the checkbox as a boolean always sent. Nothing is sent when the content does not parse. |
| Admin.PageFormCreated | frontend/pages/AdminPage.tsx:101-112 | A page created from the form answers with the form's texts and checkbox, and appears in the public page list exactly when the box was ticked. |
| Admin.PriceField | frontend/pages/AdminPage.tsx:225 | The price sent is the parsed price, or 0 when it does not parse. |
| Admin.ProductRequest | frontend/pages/AdminPage.tsx:222-238 | The new-product request carries name and slug as typed, empty optional texts as absent, the parsed price or 0, the sort order as `parseInt(…) \|\| 1` gives it, both checkboxes always, and the image list empty exactly when its input is. |
| Admin.ProductFormCreated | frontend/pages/AdminPage.tsx:222-238 | A product created from the form answers with its texts, checkboxes, the price and sort order as the form computes them, and with notes and images that read back as parsed from their inputs. |
| Admin.NotesField | frontend/pages/AdminPage.tsx:232-236 | Each of the three note lists is its input parsed as a comma list: [] for an empty input, the trimmed pieces otherwise. |
| Admin.TypedNotesStored | frontend/pages/AdminPage.tsx:233 | Notes typed as trimmed names separated by commas are stored as exactly those names. |
| Admin.PublishToggle | frontend/pages/AdminPage.tsx:167 | The Publish button sends only the negated published flag of the page shown. |
| Admin.PublishToggleSets | frontend/pages/AdminPage.tsx:164-169 | Pressing it stores the opposite of the flag the admin saw, stamps the row and changes nothing else. |
| Admin.PublishToggleTwice | frontend/pages/AdminPage.tsx:167 | At the API: sending the toggle request for a page, then for the page that update answered with, restores the flag; only updated_at changes. The screen itself cannot do this (see Findings). |
| Admin.DraftsNeverShown | frontend/pages/AdminPage.tsx:84-95 | The pages tab lists `listPages`, so every page it shows is published: the "Draft" label never appears and the button only ever unpublishes. |
| Admin.UnpublishLeavesList | frontend/pages/AdminPage.tsx:164-169 | Pressing the button on a shown page unpublishes it, and the refetched list no longer holds a page with that id. |
| Admin.AdminPages | frontend/pages/AdminPage.tsx:84-95 | The corrected list holds every stored page, drafts included, and nothing else. |
| Admin.ToggledStaysShown | frontend/pages/AdminPage.tsx:164-169 | With the corrected list, a shown page stays shown after a press, with its flag flipped, so a second press can undo the first. |
| Admin.ProductDraftsNeverShown | frontend/pages/AdminPage.tsx:203-214 | The products tab lists `listProducts({})`, so every product it shows is published and the "Draft" label never appears. |
| Admin.FeatureToggle | frontend/pages/AdminPage.tsx:300 | The Feature button sends only the negated featured flag of the product shown. |
| Admin.FeatureToggleSets | frontend/pages/AdminPage.tsx:297-302 | Pressing it stores the opposite of the flag the admin saw, stamps the row and changes nothing else. |
| Admin.FeatureToggleTwice | frontend/pages/AdminPage.tsx:297-302 | Pressing it twice, on the product each press answers with, restores the flag. |
| Admin.FetchBlocks | frontend/pages/AdminPage.tsx:322-328 | The blocks tab's fetch is the public listing under the filters `pageSlug \|\| undefined` and `type \|\| undefined`: an empty input adds no filter. |
| Admin.FetchBlocksShows | frontend/pages/AdminPage.tsx:325-328 | The blocks tab shows a stored block exactly when it is published and each filter input is empty or matches it; an empty input adds no filter. |
| Admin.SortOrderAsWritten | frontend/pages/AdminPage.tsx:231 | `parseInt(sortOrder) \|\| 1` as written gives 1 for NaN, for 0 and for 1, and the parsed number otherwise. |
| Admin.ZeroSortOrderLost | frontend/pages/AdminPage.tsx:231 | A product created from the form with "0" typed as its sort order is sent, stored and answered with sort order 1. |
| Admin.SortOrderField | frontend/pages/AdminPage.tsx:231 | The corrected field keeps any parsed number, 0 included, and uses 1 only for NaN. |
| Admin.SortOrderReadings | frontend/pages/AdminPage.tsx:231 | The as-written and corrected fields differ exactly on a typed 0. |
| Admin.ProductRequestFixed | frontend/pages/AdminPage.tsx:222-238 | The corrected request sends the corrected sort order and is otherwise the request as written. |
| Admin.FixedSortOrderStored | frontend/pages/AdminPage.tsx:231 | With the corrected request any typed sort order, 0 included, is stored as typed, and the product is otherwise the one the form as written creates. |

## Left out

- Database execution and the Encore API wiring are modelled functionally: a table is a row sequence with a serial counter, and errors are a datatype. Driver failures other than the statement errors modelled (a negative LIMIT) are not modelled.
- `NOW()` is the parameter `now`. Dates are integers. The clock's monotonicity plays no role in any property.
- `JSON.stringify`/`JSON.parse` are not modelled as text. A JSON column holds a structured value, and reading it back is a decoder over that value.
- ProductCreate.CreateProduct: the `!product` branch (internal error "failed to create product") is not modelled, because `INSERT … RETURNING` always returns the inserted row.
- PageCreate.CreatePage: the same unreachable internal-error branch ("failed to create page") is not modelled.
- BlockCreate.CreateContentBlock: the same unreachable internal-error branch ("failed to create content block") is not modelled.
- The slug check and the insert are two statements, and a concurrent create can slip between them. Concurrency and transactions are not modelled. Nor are any database UNIQUE constraints, which are not part of this model.
- `price` is a floating-point number in the source and an integer here. `parseFloat` and `parseInt` are given as their results (None for NaN), not as parsers of text.
- Admin.PageRequest: `JSON.parse(form.content || '{}')` is given as its result (None when it throws). The `'{}'` default for an empty textarea is therefore not modelled.
- Requests are taken as well-typed. Explicit `null` members, non-integer limits and values of the wrong JSON type are not modelled.
- `ORDER BY slug` is taken as code-point order (the C collation); locale collations are not modelled. Rows with equal keys may come in any order, and the model fixes one such order.
- ProductListing.ListProducts: a limit that is not an integer is not modelled; PostgreSQL would reject or round it.
- React rendering, state hooks and alerts are not modelled. The reload after a change appears only as the next `listPages` answer. That covers the rest of AdminPage.tsx, `useCMS` and the public pages. The `Media` type is unused by the handlers.
- `created_at` and `updated_at` on insert: the INSERT statements name neither column, so their values come from column defaults in a database schema that is not part of this model. The model assumes both default to the insertion time `now`. ProductCreate.CreatedProduct, PageCreate.CreatedPage and BlockCreate.CreatedBlock state that assumption, not something the handlers promise.

## Findings

| source | as written | input that shows it | evidently intended | confidence | as-written member | corrected member |
|---|---|---|---|---|---|---|
| frontend/pages/AdminPage.tsx:231 | `sortOrder: parseInt(form.sortOrder) \|\| 1` treats a parsed 0 as missing | typing `0` in the sort order input stores sort order 1 | a typed number is sent as is, and 1 is used only when the input is not a number | medium, not executed | Admin.ZeroSortOrderLost | Admin.FixedSortOrderStored |
| frontend/pages/AdminPage.tsx:87 | the pages tab loads its list from `listPages`, which returns published pages only (backend/cms/list_pages.ts:27) | press Unpublish on any shown page: the refetched list no longer holds it, and no draft is ever listed. The products tab has the same defect: it loads `listProducts({})` (line 206), which is published-only (backend/cms/list_products.ts:22), so a product created with the form's default `published: false` never appears and the "Draft" label at line 285 is never shown | the admin lists show drafts too, so the Publish button and the "Draft" labels (lines 152, 177, 285) can be reached | medium, not executed | Admin.UnpublishLeavesList | Admin.ToggledStaysShown |
