# Auto-parts shop: the verifiable core

This project models the core logic of a small Flask auto-parts shop in Dafny and
proves properties of it. The shop has a catalogue of products with categories,
brands and countries, a per-user cart, news, site settings, SEO meta tags and an
admin panel. The database is modelled as tables: each table is a sequence of rows
in scan order, so SQLAlchemy's `.first()` is the first matching row. A new row gets
the id one above the largest id in use, as SQLite does.

The modules follow the source files:

- `Slug` (`app/utilities/helpers.py`) models `transliterate` and `generate_slug`.
  - `transliterate` runs the Cyrillic-to-Latin table loop, then the
    regular-expression chain, then the `"item"` fallback.
  - `generate_slug` runs the counter loop that looks for a free slug.
- `Imaging` models the integer centre-crop box. `helpers.py` and `save_picture` in
  `admin_routes.py` share it.
- `Models` (`app/models.py`) models the entities and their helpers:
  - category names, slugs and product counts;
  - thumbnail URLs;
  - the `Setting` upsert, modelled as a `SettingTable` class;
  - the two-tier `SeoMeta` lookup.
- `Cart` (`app/cart_routes.py`) specifies add, update and remove as functions. The
  `CartStore` class applies them to its item list in place.
- `Storefront` (`app/routes.py`) models the `catalog` route: brand-parameter parsing
  and the category, price and brand filters. It also models `search` and the
  `api_search` suggestions.
- `Seo` (`app/utilities/template_utils.py`) models `get_seo_meta`, its placeholder
  substitution loop, and the per-page wrappers.
- `Admin` (`app/admin_routes.py`) models the admin panel's rules:
  - the toggle-admin self-guard;
  - the delete guards;
  - the required-field checks;
  - parsing of `parent_id`;
  - rebuilding a product's category list.

  The `Store` class applies each rule to its tables in place.
- `Text`, `Seqs` and `Wrappers` hold shared pieces: Python string operations
  (`strip`, `split`, `join`, `rfind`, `replace`, `lower` and `int()`), list filters
  and lookups, and `Option`.

Form fields and query parameters are `Option<string>`: `None` means the field was
not sent. Python truthiness is written out: a string is true when non-empty, and an
id when non-zero.

## Model

| member | source | states |
|---|---|---|
| Slug.TableShape | app/utilities/helpers.py:19-30 | every key of the transliteration table is one non-ASCII letter, every value is ASCII, and the hard and soft signs map to nothing |
| Slug.ReplaceExtendsTable | app/utilities/helpers.py:32-33 | replacing one more non-ASCII key in already-mapped text is the same as mapping with the table extended by that entry, so the replace loop is a per-character map |
| Slug.ApplyTable | app/utilities/helpers.py:32-33 | the loop of `str.replace` calls over the table yields exactly the per-character map of the input |
| Slug.MapCharsAscii | app/utilities/helpers.py:19-33 | ASCII text passes through the table unchanged |
| Slug.SignsVanish | app/utilities/helpers.py:24 | a hard or soft sign disappears and joins its neighbours |
| Slug.RunBecomesOneHyphen | app/utilities/helpers.py:37 | a maximal run of whitespace becomes a single `-` |
| Slug.NormalizeIsSlug | app/utilities/helpers.py:37-49 | the normalisation chain always yields a non-empty string of `a-z`, digits, `-` and `_` with no `--` and no `-` at either end |
| Slug.NormalizeSlug | app/utilities/helpers.py:37-49 | such a slug passes through the chain unchanged |
| Slug.TransliterationShape | app/utilities/helpers.py:12-13 | empty input gives `""`; any other input gives a well-formed slug, `"item"` when everything was removed |
| Slug.TransliterationIdempotent | app/utilities/helpers.py:8-51 | transliterating a transliteration changes nothing, for non-empty input |
| Slug.Transliterate | app/utilities/helpers.py:8-51 | the method (table loop, then the chain) computes the transliteration function |
| Slug.SuffixedInjective | app/utilities/helpers.py:67 | different counters give different candidates `base-k` |
| Slug.TakenCandidatesBound | app/utilities/helpers.py:64-68 | if the first `n` candidates are all taken, then `n` is at most the number of existing slugs, so the loop stops |
| Slug.GenerateSlug | app/utilities/helpers.py:54-70 | with no existing slugs the base is returned; otherwise the result is not taken; it is the base when the base is free; otherwise it is `base-k` for the smallest free `k`, with `k` at most the number of existing slugs |
| Imaging.CenterCrop | app/utilities/helpers.py:126-134 | no crop exactly for a square picture; otherwise a square of the shorter side inside the picture, centred up to one pixel, spanning the whole shorter axis |
| Imaging.CenteredSquareIsCrop | app/admin_routes.py:62-70 | any centred square of the shorter side inside the picture is the box `save_picture` computes |
| Models.ParentOf | app/models.py:43 | the parent is the category whose id is `parent_id`; there is none exactly when `parent_id` is missing or names no category |
| Models.FullName | app/models.py:54-58 | the full name ends with the name; it is the name alone without a parent, else the parent's name, ` → ` and the name |
| Models.FullNameOfTopLevel | app/models.py:51-64 | a category that `is_parent` has its own name and slug as full name and full slug |
| Models.FullSlugSplits | app/models.py:60-64 | splitting the full slug on `/` gives `[parent slug, slug]` or `[slug]` |
| Models.TotalProductsCount | app/models.py:66-71 | the counting loop returns the category's own product count plus that of each direct child |
| Models.TotalIgnoresOtherCategories | app/models.py:66-71 | a product linked to neither the category nor a direct child, for example only to a grandchild, does not change the count |
| Models.TotalCountsOwnLink | app/models.py:66-71 | a product linked to the category adds exactly one to its count |
| Models.ThumbnailUrl | app/models.py:118-133 | the split, modify and join method computes `ThumbnailOf` |
| Models.ThumbnailShape | app/models.py:161-176 | `News.get_thumbnail_url` (the same code as the product's). A missing URL stays missing. The URL changes exactly when the last `.` comes after the last `/`. Then `_thumb` is inserted right before that `.` and every other character is kept. |
| Models.LookupSetting | app/models.py:191-195 | `Setting.get` and `get_site_setting`: the value of the first row with the key, or the default when no row has it |
| Models.GetAfterSet | app/models.py:197-209 | after `set(k, v)`, `get(k)` returns `v` |
| Models.SetKeepsOthers | app/models.py:197-209 | `set(k, v)` does not change `get` of any other key |
| Models.SetDescription | app/models.py:197-209 | on the first row with the key, `set` stores the value and replaces the description only with a truthy one; for an absent key it appends one row holding key, value and the description given |
| Models.SetKeepsKeysUnique | app/models.py:182 | with unique keys, `set` keeps them unique; it adds a row only when the key was absent |
| Models.SettingTable.Set | app/models.py:197-209 | updates the row in place or adds one; the returned row has the key and the value, and `Get` of the key afterwards gives the value |
| Models.GetForPage | app/models.py:230-239 | the row found has the page type and is either a general row (no page id) or, for a truthy page id, the page's own row; there is none exactly when the type has neither; the row found is the first of its kind in scan order |
| Models.SpecificRowWins | app/models.py:233-239 | a truthy page id with its own row gets that row; otherwise the general row is used |
| Models.ZeroIdIsAbsent | app/models.py:233 | a page id of 0 is treated as no page id |
| Cart.Add | app/cart_routes.py:19-56 | 404 exactly when no product has the id; failed exactly when the product exists and `int()` rejects the quantity; any outcome but success leaves the cart unchanged; success needs an existing product |
| Cart.Update | app/cart_routes.py:61-81 | any failure leaves the cart unchanged; "not found" exactly when the user owns no item with that id |
| Cart.Remove | app/cart_routes.py:86-93 | succeeds exactly when the user owns such an item, then removes one item; otherwise changes nothing |
| Cart.AddOverStock | app/cart_routes.py:26-28 | a quantity above the stock is rejected with the cart unchanged |
| Cart.AddToExisting | app/cart_routes.py:36-42 | with an item for the product, add succeeds exactly when both the quantity and old + quantity are within stock, and then sets the quantity to the sum |
| Cart.AddCreates | app/cart_routes.py:43-50 | without such an item, add appends exactly one item (user, product, quantity) with a fresh id |
| Cart.AddHasNoLowerBound | app/cart_routes.py:23-26 | a zero or negative quantity within stock is accepted and stored |
| Cart.AddWithinStock | app/cart_routes.py:26 | after a successful add, the user's item for the product holds no more than the stock |
| Cart.AddKeepsOnePerProduct | app/cart_routes.py:31-50 | add keeps at most one item per user and product |
| Cart.UpdateSetsQuantity | app/cart_routes.py:67-77 | update succeeds exactly for a parsed quantity between 1 and the stock, and sets exactly that quantity |
| Cart.UpdateKeepsOnePerProduct | app/cart_routes.py:77 | update keeps at most one item per user and product |
| Cart.RemoveDeletesOne | app/cart_routes.py:92 | remove deletes exactly the addressed item; the others stay in order |
| Cart.RemoveKeepsOnePerProduct | app/cart_routes.py:92 | remove keeps at most one item per user and product |
| Cart.AddLeavesOtherCarts | app/cart_routes.py:31-34 | add does not change any other user's items |
| Cart.UpdateLeavesOtherCarts | app/cart_routes.py:62-65 | update touches only the current user's items |
| Cart.RemoveLeavesOtherCarts | app/cart_routes.py:87-90 | remove touches only the current user's items |
| Cart.CartStore.AddToCart | app/cart_routes.py:19-56 | the store's items and outcome are those of `Add` on the old items |
| Cart.CartStore.AddParsed | app/cart_routes.py:26-50 | the stock checks and the merge applied in place, as `AddCounted` |
| Cart.CartStore.UpdateCartItem | app/cart_routes.py:61-81 | the store's items and outcome are those of `Update` on the old items |
| Cart.CartStore.RemoveFromCart | app/cart_routes.py:86-93 | the store's items and outcome are those of `Remove` on the old items |
| Storefront.ParseBrandFilters | app/routes.py:26-33 | the loop over the query parameters collects exactly `BrandFilters` |
| Storefront.BrandFiltersMembers | app/routes.py:26-33 | an id is collected exactly when some `brand_…` parameter with value `on` has a second `_`-piece that `int()` parses to it |
| Storefront.BrandParamOfId | app/routes.py:28-31 | `brand_<n>=on` yields `n` for every integer `n` |
| Storefront.BrandParamNeedsOn | app/routes.py:28 | parameters whose value is not `on` contribute nothing |
| Storefront.ScopeOf | app/routes.py:39-48 | no filter exactly when the category id is missing or 0; "not found" exactly when no category has the id |
| Storefront.ScopeMembers | app/routes.py:39-48 | for a top-level category, a product passes exactly when it is linked to it or to a direct child; for a child category, exactly when linked to it |
| Storefront.Catalog | app/routes.py:36-58 | an unknown category gives 404; otherwise the listing is the products that pass scope, both inclusive price bounds (each only when given) and the brand list (only when non-empty), in table order |
| Storefront.CatalogOrderIrrelevant | app/routes.py:36-58 | applying the four filters in the opposite order gives the same listing |
| Storefront.ILikeIgnoresCase | app/routes.py:105-106 | case-insensitive matching does not depend on the ASCII case of the text or of the pattern |
| Storefront.ContainsLowered | app/routes.py:105-106 | a verbatim substring still matches after case folding |
| Storefront.Search | app/routes.py:98-110 | a blank query returns every product; otherwise a product is found exactly when its name or article contains the stripped query, ignoring case |
| Storefront.SearchBlank | app/routes.py:98-101 | a missing or whitespace-only query returns every product |
| Storefront.SearchFindsVerbatim | app/routes.py:103-107 | a product whose name or article contains the query verbatim is found |
| Storefront.Suggested | app/routes.py:118-126 | a stripped query shorter than 2 gives nothing; otherwise at most 8 products, a prefix of the name matches, and all of them when there are at most 8 |
| Storefront.SuggestedCount | app/routes.py:124-126 | for a query of 2 or more characters there are exactly as many suggestions as matching products, capped at 8 |
| Storefront.SuggestedMatch | app/routes.py:124-126 | every suggestion is a product whose name matches the query |
| Storefront.SuggestionOf | app/routes.py:131-138 | a suggestion copies id, name, article and price; its image is the product's when set, else the placeholder image; its URL is the product page's |
| Storefront.ProductUrlNamesProduct | app/routes.py:137 | the suggestion URL is `/product/` followed by text that parses back to the id |
| Storefront.ApiSearch | app/routes.py:116-140 | the endpoint returns one suggestion per suggested product, in order |
| Seo.SeoMetaFor | app/utilities/template_utils.py:10-42 | without a row: the `site_name` setting (default the shop's name), the `site_description` and `site_keywords` settings (default `''`) and `index, follow`; with a row: all three texts present and the row's robots when truthy, else `index, follow`; robots is never empty |
| Seo.DefaultsWithoutRow | app/utilities/template_utils.py:16-22 | with no row for the page type and none of the three settings stored, the title is the shop's name, description and keywords are empty and robots is `index, follow` |
| Seo.GetSeoMeta | app/utilities/template_utils.py:10-42 | the lookup and the substitution loop compute `SeoMetaFor` |
| Seo.FalsyEntriesIgnored | app/utilities/template_utils.py:32 | context entries with falsy values change nothing |
| Seo.SubstituteAbsent | app/utilities/template_utils.py:31-35 | text with no `{key}` of a truthy entry is returned unchanged |
| Seo.SubstituteEmpty | app/utilities/template_utils.py:26-28 | a missing text, read as `''`, stays empty |
| Seo.SubstituteWholePlaceholder | app/utilities/template_utils.py:33 | a text that is exactly `{key}` of a truthy first entry becomes `str(value)` |
| Seo.MissingTextsAreEmpty | app/utilities/template_utils.py:26-28 | a row with no title, description or keywords and no robots gives three empty texts and `index, follow` |
| Seo.MainPageSeo | app/utilities/template_utils.py:45-47 | computes the meta of the `main` page type with no page id and no context |
| Seo.MainPageKeepsTexts | app/utilities/template_utils.py:26-35 | with a `main` row, the page shows the row's texts exactly as stored, since no context is passed to replace any placeholder |
| Seo.CatalogPageSeo | app/utilities/template_utils.py:50-57 | the `catalog` general row, with the category's name and full name as context only when a category is given |
| Seo.CatalogTitleNamesCategory | app/utilities/template_utils.py:53-55 | a `{category_name}` title shows the category's name |
| Seo.ProductPageSeo | app/utilities/template_utils.py:60-67 | computes the meta of the `product` page type for the product's id, with name, article, short description, brand name and price as context |
| Seo.ProductTitleNamesProduct | app/utilities/template_utils.py:60-67 | a `{product_name}` title shows the product's name |
| Seo.NewsPageSeo | app/utilities/template_utils.py:70-76 | the item's own row when an item is given, with its title as context |
| Seo.SearchPageSeo | app/utilities/template_utils.py:79-81 | computes the meta of the `search` page type with the query and the count as context |
| Seo.SearchTitleShowsQuery | app/utilities/template_utils.py:79-81 | a `{query}` title shows the query |
| Admin.AdminToggled | app/admin_routes.py:100-110 | "not found" exactly when no user has the id; refused exactly when it is the current user's own id; otherwise done; the table is unchanged unless done |
| Admin.ToggleFlipsOnlyTheFlag | app/admin_routes.py:107 | a successful toggle negates `is_admin` of that user and changes nothing else |
| Admin.ToggleSparesCurrentUser | app/admin_routes.py:104-105 | the current user's own row is never changed |
| Admin.ToggleTwice | app/admin_routes.py:103-108 | toggling the same user twice restores the table |
| Admin.Orphaned | app/models.py:43 | deleting a parent clears the `parent_id` of exactly its children; ids, names, slugs and every other parent are kept |
| Admin.CategoryDeleted | app/admin_routes.py:288-298 | "not found" exactly when the id is absent; refused exactly when some product is linked to the category itself; otherwise one row fewer; the table is unchanged unless done |
| Admin.CategoryDeletedExactly | app/admin_routes.py:295 | after a deletion no row has the id or names it as parent, and every other category is still there with its parent cleared only if it was the deleted one |
| Admin.CategoryDeletedKeepsReferences | app/admin_routes.py:291-297 | if every parent and every product link named an existing category before, the same holds after the delete |
| Admin.CategoryDeletedKeepsParents | app/admin_routes.py:291-297 | every parent still exists after a category delete |
| Admin.CategoryDeletedKeepsLinks | app/admin_routes.py:291-297 | every product link still names an existing category after a category delete |
| Admin.BrandDeleted | app/admin_routes.py:323-333 | "not found" exactly when absent; refused exactly when a product has the brand; otherwise exactly that row is removed |
| Admin.CountryDeleted | app/admin_routes.py:358-368 | "not found" exactly when absent; refused exactly when a product is from the country; otherwise exactly that row is removed |
| Admin.BrandDeletedKeepsOwners | app/admin_routes.py:327-330 | every product's brand still exists after a brand delete |
| Admin.CountryDeletedKeepsOwners | app/admin_routes.py:362-365 | every product's country still exists after a country delete |
| Admin.ParentIdOf | app/admin_routes.py:274-278 | a parent is set only from a present value other than `'0'` that `int()` parses, and it is that number |
| Admin.ParseParent | app/admin_routes.py:274-278 | the `if`/`try` steps on `parent_id` compute `ParentIdOf` |
| Admin.ParentIdOfNumber | app/admin_routes.py:274-276 | any non-zero integer written in decimal is stored as the parent |
| Admin.ZeroSpellings | app/admin_routes.py:274 | `'0'` gives a top-level category, while `'00'` stores parent 0 |
| Admin.CategoryCreated | app/admin_routes.py:266-285 | as intended: a row is added exactly when the name is non-empty; it is appended with that name, the given slug, the parsed parent and a fresh id |
| Admin.CreatedParentUnchecked | app/admin_routes.py:276 | the parent is not checked: a new category can name a parent that does not exist |
| Admin.BrandCreated | app/admin_routes.py:309-320 | as intended: a brand is appended exactly when the name is non-empty, with the given slug and a fresh id |
| Admin.CountryCreated | app/admin_routes.py:344-355 | a country is appended exactly when the name is non-empty, with a fresh id |
| Admin.NewsCreated | app/admin_routes.py:380-395 | as intended: an item is appended exactly when title and content are both non-empty, with them, the given slug, no image and a fresh id |
| Admin.NewsEdited | app/admin_routes.py:398-414 | "not found" exactly when absent; refused exactly when title or content is empty; the table is unchanged unless done |
| Admin.NewsEditedExactly | app/admin_routes.py:405-407 | an edit sets title and content of that item; its id, slug and image and all other items are unchanged |
| Admin.RebuildCategories | app/admin_routes.py:220-228 | the clear-and-append loop yields `CategoryLinks` of the submitted values |
| Admin.CategoryLinksMembers | app/admin_routes.py:162-169 | an id is linked exactly when some submitted value parses to it and a category with that id exists |
| Admin.LinkOfMembers | app/admin_routes.py:164-168 | one submitted value links an id exactly when it parses to that id and the category exists |
| Admin.ProductCreated | app/admin_routes.py:133-171 | as intended: a failed upload adds nothing; otherwise exactly one product is appended with a fresh id, the given slug, the form's name, article, descriptions, price, stock, brand and country, `/static/uploads/` plus the saved file name as image (none without a picture) and exactly the rebuilt category list |
| Admin.ProductEdited | app/admin_routes.py:181-228 | "not found" exactly when absent; failed exactly on a failed upload; the table is unchanged unless done |
| Admin.ProductEditedExactly | app/admin_routes.py:197-228 | after an edit the product keeps its id and slug, carries the form's fields and exactly the rebuilt category list, shows `/static/uploads/` plus the saved file name after an upload and its old image without one, and the other products are unchanged |
| Admin.ProductChangesKeepLinks | app/admin_routes.py:162-169 | creating or editing a product keeps every product link pointing at an existing category |
| Admin.CategoryCreatedAsWritten | app/admin_routes.py:268-285 | as written: refused exactly without a name; with one the slug-less row fails to commit; the table never changes |
| Admin.BrandCreatedAsWritten | app/admin_routes.py:311-320 | as written: refused exactly without a name; with one the slug-less row fails to commit; the table never changes |
| Admin.NewsCreatedAsWritten | app/admin_routes.py:382-395 | as written: refused exactly without title or content; otherwise the slug-less row fails to commit; the table never changes |
| Admin.ProductCreatedAsWritten | app/admin_routes.py:133-159 | as written: every validated submission fails, by upload or at the commit of the slug-less row, and the table never changes |
| Admin.CreationFailsAsWritten | app/admin_routes.py:273 | for a category, a brand, a news item and a product, the handler as written adds nothing where the intended one adds the row |
| Admin.FreshSlug | app/utilities/helpers.py:54-70 | `generate_slug` over a table's slugs gives a slug no row has, and the base slug whenever that is free |
| Admin.Store.ToggleAdmin | app/admin_routes.py:100-110 | applies `AdminToggled` to the users table in place |
| Admin.Store.DeleteCategory | app/admin_routes.py:288-298 | applies `CategoryDeleted` to the categories table in place |
| Admin.Store.DeleteBrand | app/admin_routes.py:323-333 | applies `BrandDeleted` to the brands table in place |
| Admin.Store.DeleteCountry | app/admin_routes.py:358-368 | applies `CountryDeleted` to the countries table in place |
| Admin.Store.CreateCategory | app/admin_routes.py:266-285 | as intended: generates the slug from the name, free among the categories' slugs, then applies `CategoryCreated` in place |
| Admin.Store.CreateBrand | app/admin_routes.py:309-320 | as intended: generates the slug from the name, free among the brands' slugs, then applies `BrandCreated` in place |
| Admin.Store.CreateCountry | app/admin_routes.py:344-355 | applies `CountryCreated` to the countries table in place |
| Admin.Store.CreateNews | app/admin_routes.py:380-395 | as intended: generates the slug from the title, free among the news slugs, then applies `NewsCreated` in place |
| Admin.Store.EditNews | app/admin_routes.py:398-414 | applies `NewsEdited` to the news table in place |
| Admin.Store.CreateProduct | app/admin_routes.py:122-178 | as intended: generates the slug from the name, free among the products' slugs, then applies `ProductCreated` in place, with the category loop |
| Admin.Store.EditProduct | app/admin_routes.py:181-241 | applies `ProductEdited` to the products table in place, with the category loop |

## Findings

| source | as written | input that shows it | evidently intended | confidence | as-written member | corrected member |
|---|---|---|---|---|---|---|
| app/admin_routes.py:273 | `Category(name=name)` sets no slug, yet `slug` is NOT NULL with no default (app/models.py:38), so the commit fails | form `name=Oils`, no parent | slug from `generate_slug(name, existing slugs)` | high, not executed | Admin.CategoryCreatedAsWritten | Admin.Store.CreateCategory |
| app/admin_routes.py:314 | `Brand(name=name)` sets no slug (app/models.py:77) | form `name=Bosch` | slug from `generate_slug` | high, not executed | Admin.BrandCreatedAsWritten | Admin.Store.CreateBrand |
| app/admin_routes.py:387 | `News(title=title, content=content)` sets no slug (app/models.py:153) | `title=Sale`, `content=Today` | slug from `generate_slug` | high, not executed | Admin.NewsCreatedAsWritten | Admin.Store.CreateNews |
| app/admin_routes.py:135-144 | `Product(...)` sets no slug (app/models.py:102) | any valid product form without a picture | slug from `generate_slug` | high, not executed | Admin.ProductCreatedAsWritten | Admin.Store.CreateProduct |

## Left out

- Image and file I/O are not modelled: PIL open, thumbnail, resize and save, `uuid` file names and directories. An upload is a parameter: no picture, a saved file name, or a failure. Only the crop-box arithmetic is kept.
- Pagination (`paginate`, the `per_page` sizes) is library code. Listings are modelled whole.
- Catalogue results are modelled without duplicates. The category filter is a join on the association table, so a product linked to both a parent and its child may appear twice in the listing.
- `ilike` is modelled as a substring test after ASCII lower-casing, as SQLite folds. `%` and `_` in the query are matched literally, whereas SQL treats them as wildcards.
- Floats are not modelled. Prices and the `price_from`/`price_to` filters are integers; the filters only compare. The float in the JSON `price` and `str()` of a float price in SEO text are left out, and `Show` prints integers.
- Password hashing, login, `admin_required`, flash messages, redirects, templates and the WTForms declarations are left out. Form validation is taken as done: `ProductForm` holds validated values.
- Unique constraints on brand names, country names and product articles (app/models.py:76, 89, 103) are not modelled. The handlers do not check them before committing. So creating a second brand or country with an existing name, or saving a product whose article another product has, makes the commit fail and stores nothing. The model adds or updates the row and reports `Done` there. A generated slug is free among the table's slugs by construction, so the slug constraints cannot fail in the model.
- CreateCategory (`Admin.Store.CreateCategory`, `Admin.CategoryCreated`) models `create_category` as evidently intended, with a slug from `generate_slug`. As written, the handler never sets the NOT NULL `slug` column and its commit fails; `Admin.CategoryCreatedAsWritten` models that (see Findings).
- CreateBrand (`Admin.Store.CreateBrand`, `Admin.BrandCreated`) models `create_brand` the same way; `Admin.BrandCreatedAsWritten` models the handler as written.
- CreateNews (`Admin.Store.CreateNews`, `Admin.NewsCreated`) models `create_news` the same way; `Admin.NewsCreatedAsWritten` models the handler as written.
- CreateProduct (`Admin.Store.CreateProduct`, `Admin.ProductCreated`) models `create_product` the same way; `Admin.ProductCreatedAsWritten` models the handler as written.
- `Text.ParseInt` accepts ASCII digits only, whereas Python's `int()` also accepts other Unicode decimal digits, such as Arabic-Indic ones.
- `delete_product`, `delete_news`, the dashboard and the list pages are not modelled. They have no rule beyond a plain delete or read.
- Storefront.BrandParam: the brand id is the second `_`-separated piece of the key, as the code computes it. So `brand_1_2=on` yields brand 1, not "everything after the first `_`".
- Admin.CategoryLinks: a value submitted twice is linked twice. In the database, the association table's composite key would make that commit fail. A multiple-select form does not send duplicates.
- Admin.ProductEdited: a failed upload leaves the product unchanged. The handler assigns the fields before the upload, but returns without a commit, so the request's session discards them.
- Admin.ProductCreated: the product row and its categories are committed separately in the source. The model makes the two commits one step. The category loop between them can still fail on an id beyond 64 bits (next lines): the source then keeps the product without categories, while the model links the other categories.
- Admin.CategoryLinks: does not model SQLite's signed 64-bit INTEGER. A `category_ids` value beyond that range passes `int()`. `Category.query.get` then raises `OverflowError`, which the loop's `except (ValueError, TypeError)` does not catch (app/admin_routes.py:163-169). `create_product` has already committed the product at line 159, so the product stays without categories and the request fails. `edit_product` loses the whole edit. The model's `LinkOf` gives no link for that value, and `Admin.ProductCreated` and `Admin.ProductEdited` report `Done`.
- Cart.Add: does not model the 64-bit range either. A quantity such as `-99999999999999999999` passes the stock check (app/cart_routes.py:26), but the commit at line 52 fails. The model stores it and reports `Done`, and `Cart.AddHasNoLowerBound` states that unbounded case.
- Storefront.Catalog: `<int:…>` route ids and the `category` and `brand_*` parameters beyond the signed 64-bit range make the query raise, which gives a server error. The model answers `NotFound` or an empty listing, as for any other id no row has. The same holds for `Storefront.ScopeOf`, `Storefront.BrandFilters` and the id lookups of the cart and admin actions.
- Cart.Add: an `int()` failure on the quantity is the `Failed` outcome; the handler would answer with a server error.
- `transliterate(None)` is modelled as the empty string, and `\s` as the whitespace characters of `Text.IsSpace`.
- Concurrency between requests is not modelled. Each action is one atomic step.
