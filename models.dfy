/** The shop's tables as records, and the helpers defined on them in `models.py`:
    category names, slugs and counts, the thumbnail URL, the `Setting` key/value store
    and the `SeoMeta` lookup. A table is a sequence of rows in the database's scan order,
    so `.first()` is the first matching row. */
module Models {
  import opened Wrappers
  import opened Seqs
  import opened Text

  // ---------------------------------------------------------------------------
  // Rows

  datatype User = User(id: int, username: string, isAdmin: bool)

  datatype Category = Category(id: int, name: string, slug: string, parentId: Option<int>)

  datatype Brand = Brand(id: int, name: string, slug: string)

  datatype Country = Country(id: int, name: string)

  /** `categories` lists the ids of the product's categories, in the order the links
      were made. */
  datatype Product = Product(
    id: int, name: string, slug: string, article: string,
    shortDesc: Option<string>, fullDesc: Option<string>, imageUrl: Option<string>,
    price: int, stock: int, brandId: int, countryId: int, categories: seq<int>)

  datatype CartItem = CartItem(id: int, userId: int, productId: int, quantity: int)

  datatype News = News(id: int, title: string, slug: string, content: string,
                       imageUrl: Option<string>)

  datatype Setting = Setting(key: string, value: Option<string>, description: Option<string>)

  datatype SeoMeta = SeoMeta(pageType: string, pageId: Option<int>,
                             title: Option<string>, description: Option<string>,
                             keywords: Option<string>, robots: Option<string>)

  /** Python truthiness of an optional string: neither `None` nor `""`. */
  predicate Truthy(s: Option<string>) {
    s.Some? && s.value != ""
  }

  /** Python truthiness of an optional integer: neither `None` nor `0`. */
  predicate IdTruthy(id: Option<int>) {
    id.Some? && id.value != 0
  }

  /** The id SQLite gives a new row: one more than the largest id in use, or 1. */
  function NextId(ids: seq<int>): (next: int)
    ensures next >= 1
    ensures forall i :: 0 <= i < |ids| ==> ids[i] < next
    decreases |ids|
  {
    if ids == [] then 1
    else
      var rest := NextId(ids[1..]);
      assert forall i :: 1 <= i < |ids| ==> ids[i] == ids[1..][i - 1];
      if ids[0] < rest then rest else ids[0] + 1
  }

  /** The ids of a table's rows, in table order, read with `id`. */
  function Ids<T>(rows: seq<T>, id: T -> int): (ids: seq<int>)
    ensures |ids| == |rows| && forall i :: 0 <= i < |rows| ==> ids[i] == id(rows[i])
  {
    seq(|rows|, i requires 0 <= i < |rows| => id(rows[i]))
  }

  /** An id is among a table's ids exactly when some row has it. */
  lemma InIds<T>(rows: seq<T>, id: T -> int, x: int)
    ensures x in Ids(rows, id) <==> exists r :: r in rows && id(r) == x
  {
    var ids := Ids(rows, id);
    if x in ids {
      var i :| 0 <= i < |ids| && ids[i] == x;
      assert rows[i] in rows;
    }
    if exists r :: r in rows && id(r) == x {
      var r :| r in rows && id(r) == x;
      var i :| 0 <= i < |rows| && rows[i] == r;
      assert ids[i] == x;
    }
  }

  /** The primary key of each table, passed to `Ids`. */
  function CategoryId(c: Category): int { c.id }
  function BrandId(b: Brand): int { b.id }
  function CountryId(c: Country): int { c.id }
  function NewsId(n: News): int { n.id }
  function ProductId(p: Product): int { p.id }

  // ---------------------------------------------------------------------------
  // Category helpers

  /** `Category.is_parent`: a top-level category has no `parent_id`. */
  predicate IsParent(c: Category) {
    c.parentId.None?
  }

  /** The `parent` relationship: the category whose id is `c.parent_id`, if one exists. */
  function ParentOf(categories: seq<Category>, c: Category): (parent: Option<Category>)
    ensures parent.Some? ==> c.parentId == Some(parent.value.id) && parent.value in categories
    ensures parent.None? <==>
              c.parentId.None? ||
              forall i :: 0 <= i < |categories| ==> categories[i].id != c.parentId.value
  {
    match c.parentId
    case None => None
    case Some(pid) => First(categories, (x: Category) => x.id == pid)
  }

  const Arrow: string := " \U{2192} "

  /** `Category.get_full_name`: the parent's name, an arrow and the own name. */
  function FullName(categories: seq<Category>, c: Category): (name: string)
    ensures |name| >= |c.name| && name[|name| - |c.name|..] == c.name
    ensures ParentOf(categories, c).None? ==> name == c.name
    ensures ParentOf(categories, c).Some? ==>
              var p := ParentOf(categories, c).value;
              |name| == |p.name| + |Arrow| + |c.name| && name[..|p.name|] == p.name &&
              name[|p.name|..|p.name| + |Arrow|] == Arrow
  {
    match ParentOf(categories, c)
    case Some(p) => p.name + Arrow + c.name
    case None => c.name
  }

  /** `Category.get_full_slug`: the parent's slug, a slash and the own slug. */
  function FullSlug(categories: seq<Category>, c: Category): string {
    match ParentOf(categories, c)
    case Some(p) => p.slug + "/" + c.slug
    case None => c.slug
  }

  /** A top-level category is named and addressed by itself alone. */
  lemma FullNameOfTopLevel(categories: seq<Category>, c: Category)
    requires IsParent(c)
    ensures FullName(categories, c) == c.name
    ensures FullSlug(categories, c) == c.slug
  {
  }

  /** For slash-free slugs the full slug splits back into the parent's slug and the
      own slug, or into the own slug alone when there is no parent. */
  lemma FullSlugSplits(categories: seq<Category>, c: Category)
    requires '/' !in c.slug
    requires ParentOf(categories, c).Some? ==> '/' !in ParentOf(categories, c).value.slug
    ensures ParentOf(categories, c).Some? ==>
              Split(FullSlug(categories, c), '/') == [ParentOf(categories, c).value.slug, c.slug]
    ensures ParentOf(categories, c).None? ==> Split(FullSlug(categories, c), '/') == [c.slug]
  {
    match ParentOf(categories, c)
    case Some(p) =>
      var parts := [p.slug, c.slug];
      assert parts[..1] == [p.slug];
      assert Join(parts, '/') == FullSlug(categories, c);
      SplitJoin(parts, '/');
    case None =>
      SplitJoin([c.slug], '/');
  }

  // ---------------------------------------------------------------------------
  // Product counts

  /** `category.products`: the products linked to category `id`. */
  function ProductsOf(products: seq<Product>, id: int): seq<Product> {
    Filter(products, (p: Product) => id in p.categories)
  }

  /** `category.children`: the categories whose parent is `id`. */
  function ChildrenOf(categories: seq<Category>, id: int): seq<Category> {
    Filter(categories, (x: Category) => x.parentId == Some(id))
  }

  /** The products linked to each of `children`, added up. */
  function ChildrenProductCount(children: seq<Category>, products: seq<Product>): nat
    decreases |children|
  {
    if children == [] then 0
    else ChildrenProductCount(children[..|children| - 1], products) +
         |ProductsOf(products, children[|children| - 1].id)|
  }

  /** The value of `get_total_products_count`: own products plus the products of the
      direct children, each link counted once. */
  function TotalProducts(categories: seq<Category>, products: seq<Product>, c: Category): nat {
    |ProductsOf(products, c.id)| + ChildrenProductCount(ChildrenOf(categories, c.id), products)
  }

  /** `Category.get_total_products_count`, the counting loop over the children. */
  method TotalProductsCount(categories: seq<Category>, products: seq<Product>, c: Category)
    returns (count: nat)
    ensures count == TotalProducts(categories, products, c)
  {
    var children := ChildrenOf(categories, c.id);
    count := |ProductsOf(products, c.id)|;
    for i := 0 to |children|
      invariant count == |ProductsOf(products, c.id)| +
                         ChildrenProductCount(children[..i], products)
    {
      assert children[..i + 1][..i] == children[..i];
      count := count + |ProductsOf(products, children[i].id)|;
    }
    assert children[..|children|] == children;
  }

  /** Linking a product only to categories that are neither `c` nor one of its direct
      children (a grandchild, say) leaves the total unchanged. */
  lemma TotalIgnoresOtherCategories(categories: seq<Category>, products: seq<Product>,
                                    c: Category, p: Product)
    requires c.id !in p.categories
    requires forall x :: x in categories && x.parentId == Some(c.id) ==> x.id !in p.categories
    ensures TotalProducts(categories, products + [p], c) == TotalProducts(categories, products, c)
  {
    FilterAppend(products, [p], (q: Product) => c.id in q.categories);
    var children := ChildrenOf(categories, c.id);
    forall i | 0 <= i < |children| ensures children[i].id !in p.categories {
      assert children[i] in children;
    }
    ChildrenCountIgnores(children, products, p);
  }

  lemma {:induction false} ChildrenCountIgnores(children: seq<Category>, products: seq<Product>,
                                                p: Product)
    requires forall i :: 0 <= i < |children| ==> children[i].id !in p.categories
    ensures ChildrenProductCount(children, products + [p]) ==
            ChildrenProductCount(children, products)
    decreases |children|
  {
    if children != [] {
      var last := children[|children| - 1];
      ChildrenCountIgnores(children[..|children| - 1], products, p);
      FilterAppend(products, [p], (q: Product) => last.id in q.categories);
    }
  }

  /** Linking a product to `c` itself raises the total by exactly one, whatever the
      product's other links, as long as none of them is to a direct child. */
  lemma TotalCountsOwnLink(categories: seq<Category>, products: seq<Product>,
                           c: Category, p: Product)
    requires c.id in p.categories
    requires forall x :: x in categories && x.parentId == Some(c.id) ==> x.id !in p.categories
    ensures TotalProducts(categories, products + [p], c) ==
            TotalProducts(categories, products, c) + 1
  {
    FilterAppend(products, [p], (q: Product) => c.id in q.categories);
    var children := ChildrenOf(categories, c.id);
    forall i | 0 <= i < |children| ensures children[i].id !in p.categories {
      assert children[i] in children;
    }
    ChildrenCountIgnores(children, products, p);
  }

  // ---------------------------------------------------------------------------
  // Thumbnail URL

  /** What `get_thumbnail_url` yields: `_thumb` inserted before the last `.` of the last
      path segment; the URL itself when it is absent or empty or that segment has no `.`. */
  function ThumbnailOf(imageUrl: Option<string>): Option<string> {
    match imageUrl
    case None => None
    case Some(u) =>
      var dot := RFind(u, '.');
      if u != "" && dot > RFind(u, '/') then Some(u[..dot] + "_thumb" + u[dot..])
      else imageUrl
  }

  /** The thumbnail URL differs from the image URL exactly when the last segment has a
      `.`; then the directory, the base name and the extension are kept, `_thumb` sits
      just before the last `.`, and deleting it gives the image URL back. */
  lemma ThumbnailShape(imageUrl: Option<string>)
    ensures ThumbnailOf(imageUrl).None? <==> imageUrl.None?
    ensures ThumbnailOf(imageUrl) != imageUrl <==>
              imageUrl.Some? && RFind(imageUrl.value, '.') > RFind(imageUrl.value, '/')
    ensures ThumbnailOf(imageUrl) != imageUrl ==>
              var u := imageUrl.value;
              var t := ThumbnailOf(imageUrl).value;
              var dot := RFind(u, '.');
              |t| == |u| + 6 && t[..dot] == u[..dot] && t[dot..dot + 6] == "_thumb" &&
              t[dot + 6..] == u[dot..] && t[..dot] + t[dot + 6..] == u
  {
    if imageUrl.Some? {
      var u := imageUrl.value;
      var dot := RFind(u, '.');
      if dot > RFind(u, '/') {
        var t := u[..dot] + "_thumb" + u[dot..];
        assert t[..dot] == u[..dot];
        assert t[dot + 6..] == u[dot..];
        assert t[dot..dot + 6] == "_thumb";
        assert u[..dot] + u[dot..] == u;
        assert |t| == |u| + 6;
      }
    }
  }

  /** `Product.get_thumbnail_url` and `News.get_thumbnail_url`, which are the same code:
      split the path at `/`, split the file name at `.`, extend the next-to-last
      name piece and join both lists again. */
  method ThumbnailUrl(imageUrl: Option<string>) returns (url: Option<string>)
    ensures url == ThumbnailOf(imageUrl)
  {
    if imageUrl.Some? && imageUrl.value != "" {
      var u := imageUrl.value;
      var pathParts := Split(u, '/');
      if |pathParts| > 0 {
        var filename := pathParts[|pathParts| - 1];
        var nameParts := Split(filename, '.');
        ghost var slash := RFind(u, '/');
        ghost var dot := RFind(u, '.');
        FileNameHasDot(u, slash, dot, filename, nameParts);
        if |nameParts| > 1 {
          ghost var split := nameParts;
          nameParts := nameParts[|nameParts| - 2 := nameParts[|nameParts| - 2] + "_thumb"];
          var thumbnailFilename := Join(nameParts, '.');
          ThumbnailFileNameStep(u, filename, split, slash, dot, thumbnailFilename);
          ThumbnailPathStep(u, pathParts, filename, slash, dot, thumbnailFilename);
          pathParts := pathParts[|pathParts| - 1 := thumbnailFilename];
          return Some(Join(pathParts, '/'));
        }
      }
    }
    return imageUrl;
  }

  /** The new file name is the old one with `_thumb` inserted at the URL's last dot,
      shifted into the last segment. */
  lemma ThumbnailFileNameStep(u: string, filename: string, nameParts: seq<string>,
                              slash: int, dot: int, thumbnailFilename: string)
    requires filename == Split(u, '/')[|Split(u, '/')| - 1]
    requires nameParts == Split(filename, '.') && slash == RFind(u, '/') && dot == RFind(u, '.')
    requires |nameParts| > 1
    requires thumbnailFilename ==
             Join(nameParts[|nameParts| - 2 := nameParts[|nameParts| - 2] + "_thumb"], '.')
    ensures 0 <= slash + 1 <= dot <= |u| && filename == u[slash + 1..]
    ensures thumbnailFilename ==
            filename[..dot - (slash + 1)] + "_thumb" + filename[dot - (slash + 1)..]
  {
    FileNameHasDot(u, slash, dot, filename, nameParts);
    ThumbFileName(filename, dot - (slash + 1), nameParts, thumbnailFilename);
  }

  /** Putting the new file name back as the last segment yields the URL with `_thumb`
      inserted at its last dot. */
  lemma ThumbnailPathStep(u: string, pathParts: seq<string>, filename: string,
                          slash: int, dot: int, thumbnailFilename: string)
    requires pathParts == Split(u, '/') && slash == RFind(u, '/') && 0 <= slash + 1 <= dot <= |u|
    requires filename == u[slash + 1..]
    requires thumbnailFilename ==
             filename[..dot - (slash + 1)] + "_thumb" + filename[dot - (slash + 1)..]
    ensures Join(pathParts[|pathParts| - 1 := thumbnailFilename], '/') ==
            u[..dot] + "_thumb" + u[dot..]
  {
    ReplaceLastPiece(u, '/', thumbnailFilename, slash);
    SpliceInSuffix(u, slash + 1, dot, filename, "_thumb");
  }

  /** The file name, the last path segment, splits into more than one piece at `.`
      exactly when the URL's last dot comes after its last slash, and then its own last
      dot is that one. */
  lemma FileNameHasDot(u: string, slash: int, dot: int, filename: string, nameParts: seq<string>)
    requires slash == RFind(u, '/') && dot == RFind(u, '.')
    requires filename == Split(u, '/')[|Split(u, '/')| - 1] && nameParts == Split(filename, '.')
    ensures filename == u[slash + 1..]
    ensures |nameParts| > 1 <==> dot > slash
    ensures dot > slash ==> RFind(filename, '.') == dot - (slash + 1)
  {
    SplitLastPiece(u, '/', |u|, slash);
    assert u[slash + 1..|u|] == u[slash + 1..];
    RFindSuffix(u, slash + 1, '.');
    SplitCount(filename, '.', RFind(filename, '.'));
  }

  /** Extending the next-to-last dot-piece of the file name inserts `_thumb` before its
      last dot, at `d`. */
  lemma ThumbFileName(filename: string, d: int, nameParts: seq<string>, thumbnailFilename: string)
    requires d == RFind(filename, '.') && d >= 0
    requires nameParts == Split(filename, '.') && |nameParts| >= 2
    requires thumbnailFilename ==
             Join(nameParts[|nameParts| - 2 := nameParts[|nameParts| - 2] + "_thumb"], '.')
    ensures thumbnailFilename == filename[..d] + "_thumb" + filename[d..]
  {
    AppendToNextToLastPiece(filename, '.', "_thumb", d);
  }

  /** Inserting `t` into the suffix from `k` at its offset `dot - k` inserts it into
      the whole text at `dot`. */
  lemma SpliceInSuffix(u: string, k: int, dot: int, suffix: string, t: string)
    requires 0 <= k <= dot <= |u| && suffix == u[k..]
    ensures u[..k] + (suffix[..dot - k] + t + suffix[dot - k..]) == u[..dot] + t + u[dot..]
  {
    assert u[..dot] == u[..k] + suffix[..dot - k];
    assert u[dot..] == suffix[dot - k..];
  }

  // ---------------------------------------------------------------------------
  // Settings

  /** No two settings share a key (the column is unique). */
  predicate UniqueKeys(rows: seq<Setting>) {
    forall i, j :: 0 <= i < j < |rows| ==> rows[i].key != rows[j].key
  }

  function HasKey(key: string): Setting -> bool {
    (s: Setting) => s.key == key
  }

  predicate NoKeyBefore(rows: seq<Setting>, i: int, key: string) {
    forall j :: 0 <= j < i && j < |rows| ==> rows[j].key != key
  }

  /** `Setting.get` and `get_site_setting`: the value of the first setting with that key,
      else `default`. */
  function LookupSetting(rows: seq<Setting>, key: string, default: Option<string>)
    : (value: Option<string>)
    ensures (forall i :: 0 <= i < |rows| ==> rows[i].key != key) ==> value == default
    ensures forall i :: 0 <= i < |rows| && rows[i].key == key && NoKeyBefore(rows, i, key) ==>
                          value == rows[i].value
  {
    var i := FirstIndex(rows, HasKey(key));
    if i < |rows| then rows[i].value else default
  }

  /** The rows after `Setting.set(key, value, description)`: the first row with the key
      takes the new value, and the description only when one is given; otherwise a new
      row is appended. */
  function SetRows(rows: seq<Setting>, key: string, value: string, description: Option<string>)
    : seq<Setting>
  {
    var i := FirstIndex(rows, HasKey(key));
    if i < |rows| then
      rows[i := rows[i].(value := Some(value),
                         description := if Truthy(description) then description
                                        else rows[i].description)]
    else rows + [Setting(key, Some(value), description)]
  }

  /** After a `set`, `get` of that key returns the value set. */
  lemma GetAfterSet(rows: seq<Setting>, key: string, value: string, description: Option<string>,
                    default: Option<string>)
    ensures LookupSetting(SetRows(rows, key, value, description), key, default) == Some(value)
  {
    var i := FirstIndex(rows, HasKey(key));
    var after := SetRows(rows, key, value, description);
    if i == |rows| {
      assert after[|rows|].key == key;
    }
    assert after[i].key == key;
    assert forall j :: 0 <= j < i ==> after[j] == rows[j];
  }

  /** `set` overwrites the description of an existing row only with a truthy one; a
      new row takes the description given. */
  lemma SetDescription(rows: seq<Setting>, key: string, value: string, description: Option<string>)
    ensures forall i :: 0 <= i < |rows| && rows[i].key == key && NoKeyBefore(rows, i, key) ==>
              var after := SetRows(rows, key, value, description);
              |after| == |rows| && after[i].value == Some(value) &&
              after[i].description == if Truthy(description) then description else rows[i].description
    ensures (forall j :: 0 <= j < |rows| ==> rows[j].key != key) ==>
              SetRows(rows, key, value, description) == rows + [Setting(key, Some(value), description)]
  {
    var i := FirstIndex(rows, HasKey(key));
    forall k | 0 <= k < |rows| && rows[k].key == key && NoKeyBefore(rows, k, key)
      ensures k == i
    {
      assert HasKey(key)(rows[k]);
    }
    if forall j :: 0 <= j < |rows| ==> rows[j].key != key {
      assert forall j :: 0 <= j < |rows| ==> !HasKey(key)(rows[j]);
    }
  }

  /** A `set` leaves every other key's lookup unchanged. */
  lemma SetKeepsOthers(rows: seq<Setting>, key: string, value: string,
                       description: Option<string>, other: string, default: Option<string>)
    requires other != key
    ensures LookupSetting(SetRows(rows, key, value, description), other, default) ==
            LookupSetting(rows, other, default)
  {
    var after := SetRows(rows, key, value, description);
    var k := FirstIndex(rows, HasKey(other));
    assert forall j :: 0 <= j < |rows| ==> after[j].key == rows[j].key;
    if k < |rows| {
      assert after[k].key == other;
      assert after[k].value == rows[k].value;
    } else {
      assert forall j :: 0 <= j < |after| ==> after[j].key != other;
    }
  }

  /** A `set` keeps keys unique, and a key set twice holds the second value. */
  lemma SetKeepsKeysUnique(rows: seq<Setting>, key: string, value: string,
                           description: Option<string>)
    requires UniqueKeys(rows)
    ensures UniqueKeys(SetRows(rows, key, value, description))
    ensures |SetRows(rows, key, value, description)| ==
            if exists i :: 0 <= i < |rows| && rows[i].key == key then |rows| else |rows| + 1
  {
    var after := SetRows(rows, key, value, description);
    var i := FirstIndex(rows, HasKey(key));
    assert forall j :: 0 <= j < |rows| ==> after[j].key == rows[j].key;
    if i == |rows| {
      assert after[|rows|].key == key;
    } else {
      assert rows[i].key == key;
    }
  }

  /** The settings table (`Setting.query`), updated in place by `Setting.set`. */
  class SettingTable {
    var rows: seq<Setting>

    constructor (initial: seq<Setting>)
      ensures rows == initial
    {
      rows := initial;
    }

    /** `Setting.get(key, default)`. */
    function Get(key: string, default: Option<string>): Option<string>
      reads this
    {
      LookupSetting(rows, key, default)
    }

    /** `Setting.set(key, value, description)`: update the row with the key in place,
        or add one; return that row. */
    method Set(key: string, value: string, description: Option<string>) returns (setting: Setting)
      modifies this
      ensures rows == SetRows(old(rows), key, value, description)
      ensures setting.key == key && setting.value == Some(value)
      ensures Get(key, None) == Some(value)
    {
      var i := FirstIndex(rows, HasKey(key));
      if i < |rows| {
        setting := rows[i].(value := Some(value));
        if Truthy(description) {
          setting := setting.(description := description);
        }
        rows := rows[i := setting];
      } else {
        setting := Setting(key, Some(value), description);
        rows := rows + [setting];
      }
      GetAfterSet(old(rows), key, value, description, None);
    }
  }

  // ---------------------------------------------------------------------------
  // SEO rows

  /** `SeoMeta.get_for_page`: the row for this very page when a non-zero id is given and
      such a row exists, else the first row for the page type with no id. */
  function GetForPage(rows: seq<SeoMeta>, pageType: string, pageId: Option<int>)
    : (seo: Option<SeoMeta>)
    ensures seo.Some? ==> seo.value in rows && seo.value.pageType == pageType
    ensures seo.Some? ==> seo.value.pageId.None? || (IdTruthy(pageId) && seo.value.pageId == pageId)
    ensures seo.None? <==>
              forall i :: 0 <= i < |rows| ==>
                rows[i].pageType != pageType ||
                (rows[i].pageId.Some? && !(IdTruthy(pageId) && rows[i].pageId == pageId))
    ensures seo.Some? ==>
              exists i :: 0 <= i < |rows| && rows[i] == seo.value &&
                forall j :: 0 <= j < i ==>
                  !(rows[j].pageType == pageType && rows[j].pageId == seo.value.pageId)
  {
    var specific :=
      if IdTruthy(pageId) then First(rows, (m: SeoMeta) => m.pageType == pageType && m.pageId == pageId)
      else None;
    if specific.Some? then specific
    else First(rows, (m: SeoMeta) => m.pageType == pageType && m.pageId.None?)
  }

  /** A row for the very page wins over the page type's general row; without one, the
      general row is used. */
  lemma SpecificRowWins(rows: seq<SeoMeta>, pageType: string, pageId: Option<int>)
    ensures IdTruthy(pageId) &&
            (exists i :: 0 <= i < |rows| && rows[i].pageType == pageType && rows[i].pageId == pageId)
            ==> GetForPage(rows, pageType, pageId).Some? &&
                GetForPage(rows, pageType, pageId).value.pageId == pageId
    ensures (!IdTruthy(pageId) ||
             forall i :: 0 <= i < |rows| ==> rows[i].pageType != pageType || rows[i].pageId != pageId)
            ==> GetForPage(rows, pageType, pageId) == GetForPage(rows, pageType, None)
  {
  }

  /** A page id of 0 is treated like no page id at all. */
  lemma ZeroIdIsAbsent(rows: seq<SeoMeta>, pageType: string)
    ensures GetForPage(rows, pageType, Some(0)) == GetForPage(rows, pageType, None)
  {
    SpecificRowWins(rows, pageType, Some(0));
  }
}
