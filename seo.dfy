/** The SEO helpers of `template_utils.py`: `get_seo_meta`, which picks the `SeoMeta`
    row for a page and fills its `{key}` placeholders from a context, falling back to
    site settings when there is no row, and the per-page wrappers that build that
    context. Site settings and SEO rows are tables in scan order. */
module Seo {
  import opened Wrappers
  import opened Seqs
  import opened Text
  import opened Models

  /** A context value: the shop passes text and numbers. */
  datatype Value = Str(s: string) | Num(n: int)

  /** Python truthiness of a context value. */
  predicate IsTruthy(v: Value) {
    match v
    case Str(s) => s != ""
    case Num(n) => n != 0
  }

  /** `str(value)`. */
  function Show(v: Value): string {
    match v
    case Str(s) => s
    case Num(n) => IntToString(n)
  }

  /** The `get_seo_meta` keyword arguments, in the order they are passed. */
  type Context = seq<(string, Value)>

  /** The placeholder `{key}`. */
  function Placeholder(key: string): (p: string)
    ensures |p| == |key| + 2 && p[0] == '{' && p[|p| - 1] == '}'
  {
    "{" + key + "}"
  }

  /** The text after the substitution loop has seen the entries of `context` in order:
      each entry with a truthy value replaces every `{key}` by `str(value)`. */
  function Substitute(text: string, context: Context): string
    decreases |context|
  {
    if context == [] then text
    else
      var (key, value) := context[|context| - 1];
      var before := Substitute(text, context[..|context| - 1]);
      if IsTruthy(value) then Replace(before, Placeholder(key), Show(value)) else before
  }

  /** The meta tags a page gets. The default title and texts come from settings, whose
      value may be missing, so those three are optional. */
  datatype Meta = Meta(title: Option<string>, description: Option<string>,
                       keywords: Option<string>, robots: string)

  const DefaultTitle: string := "Автозапчасти Shop"
  const DefaultRobots: string := "index, follow"

  /** The meta tags `get_seo_meta(pageType, pageId, **context)` returns: with no row for
      the page, the site name, description and keywords settings (title defaulting to
      the shop's name, the texts to `''`); with a row, its texts with missing ones read
      as `''` and placeholders substituted, and its robots value or `index, follow`. */
  function SeoMetaFor(seoRows: seq<SeoMeta>, settings: seq<Setting>, pageType: string,
                      pageId: Option<int>, context: Context): (meta: Meta)
    ensures meta.robots != ""
    ensures GetForPage(seoRows, pageType, pageId).Some? ==>
              meta.title.Some? && meta.description.Some? && meta.keywords.Some?
    ensures GetForPage(seoRows, pageType, pageId).None? ==>
              meta == Meta(LookupSetting(settings, "site_name", Some(DefaultTitle)),
                           LookupSetting(settings, "site_description", Some("")),
                           LookupSetting(settings, "site_keywords", Some("")),
                           DefaultRobots)
    ensures GetForPage(seoRows, pageType, pageId).Some? ==>
              var seo := GetForPage(seoRows, pageType, pageId).value;
              meta.robots == if Truthy(seo.robots) then seo.robots.value else DefaultRobots
  {
    match GetForPage(seoRows, pageType, pageId)
    case None =>
      Meta(LookupSetting(settings, "site_name", Some(DefaultTitle)),
           LookupSetting(settings, "site_description", Some("")),
           LookupSetting(settings, "site_keywords", Some("")),
           DefaultRobots)
    case Some(seo) =>
      Meta(Some(Substitute(seo.title.GetOr(""), context)),
           Some(Substitute(seo.description.GetOr(""), context)),
           Some(Substitute(seo.keywords.GetOr(""), context)),
           if Truthy(seo.robots) then seo.robots.value else DefaultRobots)
  }

  /** `get_seo_meta`: the row lookup and the loop over the context that replaces the
      placeholders in the title, description and keywords. */
  method GetSeoMeta(seoRows: seq<SeoMeta>, settings: seq<Setting>, pageType: string,
                    pageId: Option<int>, context: Context) returns (meta: Meta)
    ensures meta == SeoMetaFor(seoRows, settings, pageType, pageId, context)
  {
    var seo := GetForPage(seoRows, pageType, pageId);
    if seo.None? {
      return Meta(LookupSetting(settings, "site_name", Some(DefaultTitle)),
                  LookupSetting(settings, "site_description", Some("")),
                  LookupSetting(settings, "site_keywords", Some("")),
                  DefaultRobots);
    }
    var title := seo.value.title.GetOr("");
    var description := seo.value.description.GetOr("");
    var keywords := seo.value.keywords.GetOr("");
    for i := 0 to |context|
      invariant title == Substitute(seo.value.title.GetOr(""), context[..i])
      invariant description == Substitute(seo.value.description.GetOr(""), context[..i])
      invariant keywords == Substitute(seo.value.keywords.GetOr(""), context[..i])
    {
      assert context[..i + 1][..i] == context[..i];
      var (key, value) := context[i];
      if IsTruthy(value) {
        title := Replace(title, Placeholder(key), Show(value));
        description := Replace(description, Placeholder(key), Show(value));
        keywords := Replace(keywords, Placeholder(key), Show(value));
      }
    }
    assert context[..|context|] == context;
    var robots := if Truthy(seo.value.robots) then seo.value.robots.value else DefaultRobots;
    meta := Meta(Some(title), Some(description), Some(keywords), robots);
  }

  // ---------------------------------------------------------------------------
  // Properties of the substitution

  /** The entries whose value is truthy. */
  function TruthyEntries(context: Context): Context {
    Filter(context, (e: (string, Value)) => IsTruthy(e.1))
  }

  /** Entries with a falsy value change nothing: substituting the truthy entries alone
      gives the same text. */
  lemma {:induction false} FalsyEntriesIgnored(text: string, context: Context)
    ensures Substitute(text, context) == Substitute(text, TruthyEntries(context))
    decreases |context|
  {
    if context != [] {
      var init := context[..|context| - 1];
      var last := context[|context| - 1];
      FalsyEntriesIgnored(text, init);
      assert context == init + [last];
      TruthyEntriesSnoc(init, last);
      if IsTruthy(last.1) {
        var kept := TruthyEntries(init) + [last];
        assert kept[..|kept| - 1] == TruthyEntries(init);
      }
    }
  }

  /** The truthy entries of a context with one more entry. */
  lemma TruthyEntriesSnoc(init: Context, last: (string, Value))
    ensures TruthyEntries(init + [last]) ==
            if IsTruthy(last.1) then TruthyEntries(init) + [last] else TruthyEntries(init)
  {
    FilterAppend(init, [last], (e: (string, Value)) => IsTruthy(e.1));
    assert [last][1..] == [];
  }

  /** Text holding no `{key}` of any truthy entry comes back unchanged. */
  lemma {:induction false} SubstituteAbsent(text: string, context: Context)
    requires forall i :: 0 <= i < |context| && IsTruthy(context[i].1) ==>
               !Contains(text, Placeholder(context[i].0))
    ensures Substitute(text, context) == text
    decreases |context|
  {
    if context != [] {
      var init := context[..|context| - 1];
      assert forall i :: 0 <= i < |init| ==> init[i] == context[i];
      SubstituteAbsent(text, init);
      var (key, value) := context[|context| - 1];
      if IsTruthy(value) {
        ReplaceAbsent(text, Placeholder(key), Show(value));
      }
    }
  }

  /** A missing text stays empty whatever the context. */
  lemma {:induction false} SubstituteEmpty(context: Context)
    ensures Substitute("", context) == ""
    decreases |context|
  {
    if context != [] {
      SubstituteEmpty(context[..|context| - 1]);
    }
  }

  /** A text that is exactly the first entry's placeholder becomes that entry's value,
      when the value is truthy and has no `{` that a later entry could match. */
  lemma {:induction false} SubstituteWholePlaceholder(context: Context)
    requires |context| >= 1 && IsTruthy(context[0].1) && '{' !in Show(context[0].1)
    ensures Substitute(Placeholder(context[0].0), context) == Show(context[0].1)
    decreases |context|
  {
    var (key, value) := context[0];
    var p := Placeholder(key);
    if |context| == 1 {
      assert context[..0] == [];
      assert Substitute(p, context) == Replace(Substitute(p, []), p, Show(value));
      assert p[|p|..] == [];
      assert Replace(p, p, Show(value)) == Show(value) + Replace([], p, Show(value));
    } else {
      var init := context[..|context| - 1];
      assert init[0] == context[0];
      SubstituteWholePlaceholder(init);
      var (k, v) := context[|context| - 1];
      if IsTruthy(v) {
        NoCharNoPattern(Show(value), Placeholder(k));
        ReplaceAbsent(Show(value), Placeholder(k), Show(v));
      }
    }
  }

  /** Without a row for the page and without the three settings, the page gets the
      shop's name as title, empty texts and `index, follow`. */
  lemma DefaultsWithoutRow(seoRows: seq<SeoMeta>, settings: seq<Setting>, pageType: string,
                           pageId: Option<int>, context: Context)
    requires forall i :: 0 <= i < |seoRows| ==> seoRows[i].pageType != pageType
    requires forall i :: 0 <= i < |settings| ==>
               settings[i].key !in ["site_name", "site_description", "site_keywords"]
    ensures SeoMetaFor(seoRows, settings, pageType, pageId, context) ==
            Meta(Some(DefaultTitle), Some(""), Some(""), DefaultRobots)
  {
  }

  /** With a row whose title, description and keywords are missing, every text is
      empty, and an empty robots value falls back to `index, follow`. */
  lemma MissingTextsAreEmpty(seoRows: seq<SeoMeta>, settings: seq<Setting>, pageType: string,
                             pageId: Option<int>, context: Context)
    requires GetForPage(seoRows, pageType, pageId).Some?
    requires var seo := GetForPage(seoRows, pageType, pageId).value;
             seo.title.None? && seo.description.None? && seo.keywords.None? && !Truthy(seo.robots)
    ensures SeoMetaFor(seoRows, settings, pageType, pageId, context) ==
            Meta(Some(""), Some(""), Some(""), DefaultRobots)
  {
    SubstituteEmpty(context);
  }

  // ---------------------------------------------------------------------------
  // Page wrappers

  /** `get_main_page_seo()`: the `main` row, no context. */
  method MainPageSeo(seoRows: seq<SeoMeta>, settings: seq<Setting>) returns (meta: Meta)
    ensures meta == SeoMetaFor(seoRows, settings, "main", None, [])
  {
    meta := GetSeoMeta(seoRows, settings, "main", None, []);
  }

  /** The main page passes no context, so a `main` row's texts are shown as stored,
      placeholders included, with a missing text read as `''`. */
  lemma MainPageKeepsTexts(seoRows: seq<SeoMeta>, settings: seq<Setting>)
    requires GetForPage(seoRows, "main", None).Some?
    ensures var seo := GetForPage(seoRows, "main", None).value;
            var meta := SeoMetaFor(seoRows, settings, "main", None, []);
            meta.title == Some(seo.title.GetOr("")) &&
            meta.description == Some(seo.description.GetOr("")) &&
            meta.keywords == Some(seo.keywords.GetOr(""))
  {
  }

  /** The context of the catalogue page: the category's name and full name, only when
      a category is given. */
  function CatalogContext(categories: seq<Category>, category: Option<Category>): Context
  {
    if category.Some? then
      [("category_name", Str(category.value.name)),
       ("category_full_name", Str(FullName(categories, category.value)))]
    else []
  }

  /** `get_catalog_page_seo(category)`: the general `catalog` row, with the category's
      names as context. */
  method CatalogPageSeo(seoRows: seq<SeoMeta>, settings: seq<Setting>, categories: seq<Category>,
                        category: Option<Category>) returns (meta: Meta)
    ensures meta == SeoMetaFor(seoRows, settings, "catalog", None, CatalogContext(categories, category))
  {
    var context := [];
    if category.Some? {
      context := context + [("category_name", Str(category.value.name))];
      context := context + [("category_full_name", Str(FullName(categories, category.value)))];
    }
    assert context == CatalogContext(categories, category);
    meta := GetSeoMeta(seoRows, settings, "catalog", None, context);
  }

  /** A catalogue title `{category_name}` shows the category's name, when the name is
      non-empty and has no `{`. */
  lemma CatalogTitleNamesCategory(categories: seq<Category>, c: Category)
    requires c.name != "" && '{' !in c.name
    ensures Substitute(Placeholder("category_name"), CatalogContext(categories, Some(c))) == c.name
  {
    SubstituteWholePlaceholder(CatalogContext(categories, Some(c)));
  }

  /** The context of a product page; a missing short description or brand reads as
      `''`. */
  function ProductContext(brands: seq<Brand>, product: Product): (context: Context)
    ensures |context| == 5 && context[0] == ("product_name", Str(product.name))
    ensures context[4] == ("product_price", Num(product.price))
  {
    var brand := First(brands, (b: Brand) => b.id == product.brandId);
    [("product_name", Str(product.name)),
     ("product_article", Str(product.article)),
     ("product_short_desc", Str(product.shortDesc.GetOr(""))),
     ("product_brand", Str(if brand.Some? then brand.value.name else "")),
     ("product_price", Num(product.price))]
  }

  /** `get_product_page_seo(product)`: the product's own row if there is one, else the
      general `product` row. */
  method ProductPageSeo(seoRows: seq<SeoMeta>, settings: seq<Setting>, brands: seq<Brand>,
                        product: Product) returns (meta: Meta)
    ensures meta == SeoMetaFor(seoRows, settings, "product", Some(product.id), ProductContext(brands, product))
  {
    meta := GetSeoMeta(seoRows, settings, "product", Some(product.id), ProductContext(brands, product));
  }

  /** A product title `{product_name}` shows the product's name, when the name is
      non-empty and has no `{`. */
  lemma ProductTitleNamesProduct(brands: seq<Brand>, product: Product)
    requires product.name != "" && '{' !in product.name
    ensures Substitute(Placeholder("product_name"), ProductContext(brands, product)) == product.name
  {
    SubstituteWholePlaceholder(ProductContext(brands, product));
  }

  /** The context of a news page: the item's title, only when an item is given. */
  function NewsContext(newsItem: Option<News>): Context
  {
    if newsItem.Some? then [("news_title", Str(newsItem.value.title))] else []
  }

  /** `get_news_page_seo(news_item)`: the item's own row if given and present, else the
      general `news` row. */
  method NewsPageSeo(seoRows: seq<SeoMeta>, settings: seq<Setting>, newsItem: Option<News>)
    returns (meta: Meta)
    ensures meta == SeoMetaFor(seoRows, settings, "news",
                               if newsItem.Some? then Some(newsItem.value.id) else None,
                               NewsContext(newsItem))
  {
    var context := [];
    if newsItem.Some? {
      context := context + [("news_title", Str(newsItem.value.title))];
    }
    meta := GetSeoMeta(seoRows, settings, "news",
                       if newsItem.Some? then Some(newsItem.value.id) else None, context);
  }

  /** The context of the search page. */
  function SearchContext(query: string, count: int): Context
  {
    [("query", Str(query)), ("count", Num(count))]
  }

  /** `get_search_page_seo(query, count)`. */
  method SearchPageSeo(seoRows: seq<SeoMeta>, settings: seq<Setting>, query: string, count: int)
    returns (meta: Meta)
    ensures meta == SeoMetaFor(seoRows, settings, "search", None, SearchContext(query, count))
  {
    meta := GetSeoMeta(seoRows, settings, "search", None, [("query", Str(query)), ("count", Num(count))]);
  }

  /** A search title `{query}` shows the query, when it is non-empty and has no `{`. */
  lemma SearchTitleShowsQuery(query: string, count: int)
    requires query != "" && '{' !in query
    ensures Substitute(Placeholder("query"), SearchContext(query, count)) == query
  {
    SubstituteWholePlaceholder(SearchContext(query, count));
  }
}
