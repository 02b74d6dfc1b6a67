/** The public catalogue of `routes.py`: the `/catalog` filters (category, price range,
    brands named by `brand_<id>=on` parameters), the `/search` page and the
    `/api/search` suggestions. A query is a filter over the product table in scan
    order; pagination is left out, so a route's result is the whole filtered list. */
module Storefront {
  import opened Wrappers
  import opened Seqs
  import opened Text
  import opened Models

  // ---------------------------------------------------------------------------
  // brand_<id>=on parameters

  /** The brand id one query parameter names: `brand_<id>` switched `on`, where `<id>`
      is the second `_`-separated piece of the key and must parse with `int()`;
      a missing piece or a failed parse skips the parameter. */
  function BrandParam(key: string, value: string): Option<int> {
    if "brand_" <= key && value == "on" then
      var parts := Split(key, '_');
      if |parts| < 2 then None else ParseInt(parts[1])
    else None
  }

  /** The brand ids one parameter contributes: none or one. */
  function Named(arg: (string, string)): seq<int> {
    match BrandParam(arg.0, arg.1)
    case Some(id) => [id]
    case None => []
  }

  /** The brand ids named by `args`, in parameter order. */
  function BrandFilters(args: seq<(string, string)>): seq<int>
    decreases |args|
  {
    if args == [] then [] else BrandFilters(args[..|args| - 1]) + Named(args[|args| - 1])
  }

  /** The loop over `request.args.items()` that collects `brand_filters`. */
  method ParseBrandFilters(args: seq<(string, string)>) returns (brandFilters: seq<int>)
    ensures brandFilters == BrandFilters(args)
  {
    brandFilters := [];
    for i := 0 to |args|
      invariant brandFilters == BrandFilters(args[..i])
    {
      assert args[..i + 1][..i] == args[..i];
      var key := args[i].0;
      var value := args[i].1;
      if "brand_" <= key && value == "on" {
        var parts := Split(key, '_');
        if |parts| >= 2 {
          var parsed := ParseInt(parts[1]);
          if parsed.Some? {
            brandFilters := brandFilters + [parsed.value];
          }
        }
      }
    }
    assert args[..|args|] == args;
  }

  /** Parameter `arg` names brand `id`. */
  predicate Selects(arg: (string, string), id: int) {
    BrandParam(arg.0, arg.1) == Some(id)
  }

  /** An id is collected exactly when some parameter names it. */
  lemma {:induction false} BrandFiltersMembers(args: seq<(string, string)>, id: int)
    ensures id in BrandFilters(args) <==> exists i :: 0 <= i < |args| && Selects(args[i], id)
    decreases |args|
  {
    if args != [] {
      var init := args[..|args| - 1];
      var last := args[|args| - 1];
      BrandFiltersMembers(init, id);
      assert BrandFilters(args) == BrandFilters(init) + Named(last);
      assert (id in BrandFilters(args)) == (id in BrandFilters(init) || Selects(last, id));
      SomeElement(args, init, (a: (string, string)) => Selects(a, id));
    }
  }

  /** An element of `s` meets `p` when one of its first elements or its last one
      does. */
  lemma SomeElement<T>(s: seq<T>, init: seq<T>, p: T -> bool)
    requires s != [] && init == s[..|s| - 1]
    ensures (exists i :: 0 <= i < |s| && p(s[i])) ==
            ((exists i :: 0 <= i < |init| && p(init[i])) || p(s[|s| - 1]))
  {
    if exists i :: 0 <= i < |s| && p(s[i]) {
      var i :| 0 <= i < |s| && p(s[i]);
      if i < |init| {
        assert init[i] == s[i];
      }
    }
    if exists i :: 0 <= i < |init| && p(init[i]) {
      var i :| 0 <= i < |init| && p(init[i]);
      assert s[i] == init[i];
    }
  }

  /** `brand_<n>=on` selects brand `n`, for every integer `n` printed by `str`. */
  lemma BrandParamOfId(n: int)
    ensures BrandParam("brand_" + IntToString(n), "on") == Some(n)
  {
    var d := IntToString(n);
    IntToStringHasNoUnderscore(n);
    SplitBrandKey(d);
    assert "brand_" <= "brand_" + d;
    ParseIntRoundTrip(n);
  }

  /** A `brand_<d>` key without a further `_` splits into `brand` and `d`. */
  lemma SplitBrandKey(d: string)
    requires '_' !in d
    ensures Split("brand_" + d, '_') == ["brand", d]
  {
    assert "brand_" + d == "brand" + ['_'] + d;
    SplitAroundLast("brand", '_', d);
    RFindAbsent("brand", '_');
    SplitStep("brand", '_', 5, -1);
    assert "brand"[..5] == "brand";
  }

  /** A parameter that is not switched `on` selects nothing, whatever its key. */
  lemma BrandParamNeedsOn(args: seq<(string, string)>)
    requires forall i :: 0 <= i < |args| ==> args[i].1 != "on"
    ensures BrandFilters(args) == []
  {
    if BrandFilters(args) != [] {
      var id := BrandFilters(args)[0];
      BrandFiltersMembers(args, id);
    }
  }

  // ---------------------------------------------------------------------------
  // /catalog

  /** What the category parameter lets through: every product, the products linked to
      one of `ids`, or nothing at all because the category does not exist (404). */
  datatype Scope = AllCategories | Linked(ids: seq<int>) | UnknownCategory

  /** The category scope of `/catalog?category=<categoryId>`: no filter for a missing
      or zero id; for a top-level category, itself and its direct children; for a
      subcategory, itself. */
  function ScopeOf(categories: seq<Category>, categoryId: Option<int>): (scope: Scope)
    ensures scope.AllCategories? <==> !IdTruthy(categoryId)
    ensures scope.UnknownCategory? <==>
            IdTruthy(categoryId) && forall i :: 0 <= i < |categories| ==> categories[i].id != categoryId.value
  {
    if !IdTruthy(categoryId) then AllCategories
    else
      match First(categories, (c: Category) => c.id == categoryId.value)
      case None => UnknownCategory
      case Some(category) =>
        if IsParent(category) then Linked(Ids(ChildrenOf(categories, category.id), CategoryId) + [categoryId.value])
        else Linked([categoryId.value])
  }

  /** `p` is linked to one of `ids`. */
  predicate LinkedTo(p: Product, ids: seq<int>) {
    exists k :: 0 <= k < |p.categories| && p.categories[k] in ids
  }

  predicate InScope(p: Product, scope: Scope) {
    match scope
    case AllCategories => true
    case Linked(ids) => LinkedTo(p, ids)
    case UnknownCategory => false
  }

  /** Under a top-level category a product is listed when it is linked to that
      category or to one of its direct children; under a subcategory, only when it is
      linked to that subcategory. */
  lemma ScopeMembers(categories: seq<Category>, category: Category, p: Product)
    requires category in categories
    requires forall c :: c in categories && c.id == category.id ==> c == category
    ensures category.id != 0 ==>
      var scope := ScopeOf(categories, Some(category.id));
      (InScope(p, scope) <==>
        category.id in p.categories ||
        (IsParent(category) &&
         exists c :: c in categories && c.parentId == Some(category.id) && c.id in p.categories))
  {
    if category.id != 0 {
      var found := First(categories, (c: Category) => c.id == category.id);
      assert found == Some(category);
      var children := ChildrenOf(categories, category.id);
      forall x ensures x in Ids(children, CategoryId) <==> exists c :: c in children && c.id == x {
        InIds(children, CategoryId, x);
      }
    }
  }

  /** The price bounds are inclusive, and an absent bound does not filter; a bound of
      0 is present. */
  predicate PriceOk(p: Product, priceFrom: Option<int>, priceTo: Option<int>) {
    (priceFrom.None? || p.price >= priceFrom.value) &&
    (priceTo.None? || p.price <= priceTo.value)
  }

  /** An empty brand list does not filter. */
  predicate BrandOk(p: Product, brandFilters: seq<int>) {
    brandFilters == [] || p.brandId in brandFilters
  }

  /** All of the catalogue's conditions at once. */
  function CatalogKeep(scope: Scope, priceFrom: Option<int>, priceTo: Option<int>,
                       brandFilters: seq<int>): Product -> bool {
    (p: Product) => InScope(p, scope) && PriceOk(p, priceFrom, priceTo) && BrandOk(p, brandFilters)
  }

  /** Narrowing a query filtered by `p` with `q` filters by their conjunction `r`. */
  lemma Narrowed(s: seq<Product>, p: Product -> bool, q: Product -> bool, r: Product -> bool)
    requires forall x :: (p(x) && q(x)) == r(x)
    ensures Filter(Filter(s, p), q) == Filter(s, r)
  {
    FilterFilter(s, p, q);
    FilterSameKeep(s, (x: Product) => p(x) && q(x), r);
  }

  /** `catalog()`: the query narrowed filter by filter, or `None` for the 404 of an
      unknown category. The listing is the products meeting every condition, in table
      order. */
  method Catalog(products: seq<Product>, categories: seq<Category>, categoryId: Option<int>,
                 priceFrom: Option<int>, priceTo: Option<int>, brandFilters: seq<int>)
    returns (listing: Option<seq<Product>>)
    ensures listing.None? <==> ScopeOf(categories, categoryId).UnknownCategory?
    ensures listing.Some? ==>
      listing.value == Filter(products, CatalogKeep(ScopeOf(categories, categoryId), priceFrom, priceTo, brandFilters))
  {
    ghost var scope := ScopeOf(categories, categoryId);
    var query := products;
    if IdTruthy(categoryId) {
      var category := First(categories, (c: Category) => c.id == categoryId.value);
      if category.None? {
        return None;
      }
      var ids: seq<int>;
      if IsParent(category.value) {
        ids := Ids(ChildrenOf(categories, category.value.id), CategoryId) + [categoryId.value];
      } else {
        ids := [categoryId.value];
      }
      assert scope == Linked(ids);
      FilterSameKeep(products, (p: Product) => LinkedTo(p, ids), CatalogKeep(scope, None, None, []));
      query := Filter(query, (p: Product) => LinkedTo(p, ids));
    } else {
      FilterAllKept(products, CatalogKeep(scope, None, None, []));
    }
    assert query == Filter(products, CatalogKeep(scope, None, None, []));
    if priceFrom.Some? {
      Narrowed(products, CatalogKeep(scope, None, None, []), (p: Product) => p.price >= priceFrom.value,
               CatalogKeep(scope, priceFrom, None, []));
      query := Filter(query, (p: Product) => p.price >= priceFrom.value);
    } else {
      FilterSameKeep(products, CatalogKeep(scope, None, None, []), CatalogKeep(scope, priceFrom, None, []));
    }
    assert query == Filter(products, CatalogKeep(scope, priceFrom, None, []));
    if priceTo.Some? {
      Narrowed(products, CatalogKeep(scope, priceFrom, None, []), (p: Product) => p.price <= priceTo.value,
               CatalogKeep(scope, priceFrom, priceTo, []));
      query := Filter(query, (p: Product) => p.price <= priceTo.value);
    } else {
      FilterSameKeep(products, CatalogKeep(scope, priceFrom, None, []), CatalogKeep(scope, priceFrom, priceTo, []));
    }
    assert query == Filter(products, CatalogKeep(scope, priceFrom, priceTo, []));
    if brandFilters != [] {
      Narrowed(products, CatalogKeep(scope, priceFrom, priceTo, []), (p: Product) => p.brandId in brandFilters,
               CatalogKeep(scope, priceFrom, priceTo, brandFilters));
      query := Filter(query, (p: Product) => p.brandId in brandFilters);
    }
    listing := Some(query);
  }

  /** Applying the four filters in the reverse order lists the same products. */
  lemma CatalogOrderIrrelevant(products: seq<Product>, scope: Scope, priceFrom: Option<int>,
                               priceTo: Option<int>, brandFilters: seq<int>)
    ensures Filter(Filter(Filter(Filter(products,
              CatalogKeep(AllCategories, None, None, brandFilters)),
              CatalogKeep(AllCategories, None, priceTo, [])),
              CatalogKeep(AllCategories, priceFrom, None, [])),
              CatalogKeep(scope, None, None, []))
            == Filter(products, CatalogKeep(scope, priceFrom, priceTo, brandFilters))
  {
    Narrowed(products, CatalogKeep(AllCategories, None, None, brandFilters),
             CatalogKeep(AllCategories, None, priceTo, []), CatalogKeep(AllCategories, None, priceTo, brandFilters));
    Narrowed(products, CatalogKeep(AllCategories, None, priceTo, brandFilters),
             CatalogKeep(AllCategories, priceFrom, None, []), CatalogKeep(AllCategories, priceFrom, priceTo, brandFilters));
    Narrowed(products, CatalogKeep(AllCategories, priceFrom, priceTo, brandFilters),
             CatalogKeep(scope, None, None, []), CatalogKeep(scope, priceFrom, priceTo, brandFilters));
  }

  // ---------------------------------------------------------------------------
  // /search and /api/search

  /** The search text: the `q` parameter, `''` when absent, with surrounding
      whitespace stripped. */
  function SearchText(q: Option<string>): string {
    Strip(q.GetOr(""), IsSpace)
  }

  /** `text ILIKE '%pattern%'`: a case-insensitive substring test, with SQLite's
      ASCII-only case folding. */
  predicate ILike(text: string, pattern: string) {
    Contains(LowerAscii(text), LowerAscii(pattern))
  }

  /** Lowering a string twice lowers it once. */
  lemma LowerAsciiIdempotent(s: string)
    ensures LowerAscii(LowerAscii(s)) == LowerAscii(s)
  {
    LowerAsciiNoCapitals(LowerAscii(s));
  }

  /** The match does not depend on the case of either side. */
  lemma ILikeIgnoresCase(text: string, pattern: string)
    ensures ILike(text, pattern) == ILike(LowerAscii(text), pattern)
    ensures ILike(text, pattern) == ILike(text, LowerAscii(pattern))
  {
    LowerAsciiIdempotent(text);
    LowerAsciiIdempotent(pattern);
  }

  /** A case-exact occurrence is also a case-insensitive one. */
  lemma {:induction false} ContainsLowered(s: string, p: string)
    requires Contains(s, p)
    ensures Contains(LowerAscii(s), LowerAscii(p))
    decreases |s|
  {
    var ls := LowerAscii(s);
    var lp := LowerAscii(p);
    if p <= s {
      assert lp == ls[..|lp|];
    } else {
      ContainsLowered(s[1..], p);
      assert ls[1..] == LowerAscii(s[1..]);
    }
  }

  /** The condition `/search` applies to a non-empty search text. */
  function NameOrArticle(query: string): Product -> bool {
    (p: Product) => ILike(p.name, query) || ILike(p.article, query)
  }

  /** `search()`: every product for an empty search text, otherwise the products whose
      name or article contains it, ignoring case. */
  function Search(products: seq<Product>, q: Option<string>): (found: seq<Product>)
    ensures SearchText(q) == [] ==> found == products
    ensures SearchText(q) != [] ==>
      forall p :: p in found <==> p in products && (ILike(p.name, SearchText(q)) || ILike(p.article, SearchText(q)))
  {
    var query := SearchText(q);
    if query == [] then products else Filter(products, NameOrArticle(query))
  }

  /** A missing or all-whitespace `q` lists every product. */
  lemma SearchBlank(products: seq<Product>, q: Option<string>)
    requires q.None? || AllChars(q.value, IsSpace)
    ensures Search(products, q) == products
  {
    if q.Some? {
      StripAllDropped(q.value, IsSpace);
    }
  }

  /** A product whose name or article contains the search text verbatim is found. */
  lemma SearchFindsVerbatim(products: seq<Product>, q: Option<string>, p: Product)
    requires p in products
    requires Contains(p.name, SearchText(q)) || Contains(p.article, SearchText(q))
    ensures p in Search(products, q)
  {
    if Contains(p.name, SearchText(q)) {
      ContainsLowered(p.name, SearchText(q));
    } else {
      ContainsLowered(p.article, SearchText(q));
    }
  }

  /** One suggestion of `/api/search`; the price is kept as the model's integer price. */
  datatype Suggestion = Suggestion(id: int, name: string, article: string, price: int,
                                   imageUrl: string, url: string)

  const Placeholder: string := "/static/images/placeholder.png"

  /** `url_for('main.product_detail', product_id=id)`. */
  function ProductUrl(id: int): string {
    "/product/" + IntToString(id)
  }

  /** The product's URL names it: the path segment after `/product/` parses back to
      its id. */
  lemma ProductUrlNamesProduct(id: int)
    ensures var u := ProductUrl(id); |u| > 9 && u[..9] == "/product/" && ParseInt(u[9..]) == Some(id)
  {
    var u := ProductUrl(id);
    assert u[9..] == IntToString(id);
    ParseIntRoundTrip(id);
  }

  /** The suggestion for one product; a missing or empty image falls back to the
      placeholder picture. */
  function SuggestionOf(p: Product): (s: Suggestion)
    ensures s.id == p.id && s.name == p.name && s.article == p.article && s.price == p.price
    ensures s.imageUrl != ""
    ensures Truthy(p.imageUrl) ==> s.imageUrl == p.imageUrl.value
    ensures !Truthy(p.imageUrl) ==> s.imageUrl == Placeholder
    ensures s.url == ProductUrl(p.id)
  {
    var image := if Truthy(p.imageUrl) then p.imageUrl.value else Placeholder;
    Suggestion(p.id, p.name, p.article, p.price, image, ProductUrl(p.id))
  }

  function NameMatches(query: string): Product -> bool {
    (p: Product) => ILike(p.name, query)
  }

  /** The products `/api/search` suggests: none for a search text shorter than two
      characters, otherwise the first eight whose name matches it. */
  function Suggested(products: seq<Product>, q: Option<string>): (picked: seq<Product>)
    ensures |picked| <= 8
    ensures |SearchText(q)| < 2 ==> picked == []
    ensures |SearchText(q)| >= 2 ==> picked <= Filter(products, NameMatches(SearchText(q)))
    ensures |SearchText(q)| >= 2 && |Filter(products, NameMatches(SearchText(q)))| <= 8 ==>
              picked == Filter(products, NameMatches(SearchText(q)))
  {
    var query := SearchText(q);
    if |query| < 2 then [] else Take(Filter(products, NameMatches(query)), 8)
  }

  /** For a search text of two or more characters there are as many suggestions as
      matching products, up to eight. */
  lemma SuggestedCount(products: seq<Product>, q: Option<string>)
    requires |SearchText(q)| >= 2
    ensures var matching := Filter(products, NameMatches(SearchText(q)));
            |Suggested(products, q)| == if |matching| < 8 then |matching| else 8
  {
  }

  /** Every suggested product is in the table and its name matches the search text. */
  lemma SuggestedMatch(products: seq<Product>, q: Option<string>)
    ensures forall p :: p in Suggested(products, q) ==> p in products && ILike(p.name, SearchText(q))
  {
    var picked := Suggested(products, q);
    if |SearchText(q)| >= 2 {
      var all := Filter(products, NameMatches(SearchText(q)));
      assert picked <= all;
      forall p | p in picked ensures p in all {
        var i :| 0 <= i < |picked| && picked[i] == p;
        assert all[i] == p;
      }
    }
  }

  /** `api_search()`: no suggestions for a short search text, otherwise one per
      product found, in order. */
  method ApiSearch(products: seq<Product>, q: Option<string>) returns (results: seq<Suggestion>)
    ensures |results| == |Suggested(products, q)|
    ensures forall i :: 0 <= i < |results| ==> results[i] == SuggestionOf(Suggested(products, q)[i])
  {
    var query := Strip(q.GetOr(""), IsSpace);
    if |query| < 2 {
      return [];
    }
    var found := Take(Filter(products, NameMatches(query)), 8);
    results := BuildSuggestions(found);
  }

  /** The loop of `api_search()` that builds the JSON list. */
  method BuildSuggestions(found: seq<Product>) returns (results: seq<Suggestion>)
    ensures |results| == |found|
    ensures forall i :: 0 <= i < |found| ==> results[i] == SuggestionOf(found[i])
  {
    results := [];
    for i := 0 to |found|
      invariant |results| == i
      invariant forall k :: 0 <= k < i ==> results[k] == SuggestionOf(found[k])
    {
      results := results + [SuggestionOf(found[i])];
    }
  }
}
