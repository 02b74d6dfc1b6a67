/** The store rules of the admin panel (`admin_routes.py`): the self-guard of
    `toggle_admin`, the delete guards for categories, brands and countries, the
    required-field checks of the create and edit forms, the parsing of a new
    category's parent, and the rebuilding of a product's category list. Each action is
    a function from the tables before to an outcome and the table after, and the
    `Store` class applies it in place. */
module Admin {
  import opened Wrappers
  import opened Seqs
  import opened Text
  import opened Models
  import Slug

  /** What an action reports: it changed the store, the addressed row does not exist
      (404), a guard or a required field refused it, or the picture upload failed. */
  datatype Outcome = Done | NotFound | Refused | Failed

  /** An outcome and the table the action leaves. */
  datatype Change<T> = Change(outcome: Outcome, rows: seq<T>)

  // ---------------------------------------------------------------------------
  // toggle_admin

  /** `toggle_admin(userId)` by the logged-in user `currentId`: an admin cannot change
      their own rights; any other user's `is_admin` is negated. */
  function AdminToggled(users: seq<User>, currentId: int, userId: int): (r: Change<User>)
    ensures r.outcome != Done ==> r.rows == users
    ensures r.outcome == NotFound <==> forall i :: 0 <= i < |users| ==> users[i].id != userId
    ensures r.outcome == Refused <==>
              userId == currentId && exists i :: 0 <= i < |users| && users[i].id == userId
    ensures r.outcome != Failed
  {
    var i := FirstIndex(users, (u: User) => u.id == userId);
    if i == |users| then Change(NotFound, users)
    else if users[i].id == currentId then Change(Refused, users)
    else Change(Done, users[i := users[i].(isAdmin := !users[i].isAdmin)])
  }

  /** A successful toggle negates the flag of the first user with that id and changes
      nothing else. */
  lemma ToggleFlipsOnlyTheFlag(users: seq<User>, currentId: int, userId: int)
    requires AdminToggled(users, currentId, userId).outcome == Done
    ensures var rows := AdminToggled(users, currentId, userId).rows;
            |rows| == |users| &&
            exists i :: 0 <= i < |users| && users[i].id == userId &&
              rows[i] == User(users[i].id, users[i].username, !users[i].isAdmin) &&
              forall j :: 0 <= j < |users| && j != i ==> rows[j] == users[j]
  {
    var i := FirstIndex(users, (u: User) => u.id == userId);
    assert users[i].id == userId;
  }

  /** The logged-in user's own row is never touched, so an admin keeps their rights. */
  lemma ToggleSparesCurrentUser(users: seq<User>, currentId: int, userId: int, j: nat)
    requires j < |users| && users[j].id == currentId
    ensures AdminToggled(users, currentId, userId).rows[j] == users[j]
  {
    var i := FirstIndex(users, (u: User) => u.id == userId);
    if i < |users| && users[i].id != currentId {
      assert i != j;
    }
  }

  /** Toggling the same user twice restores the table. */
  lemma ToggleTwice(users: seq<User>, currentId: int, userId: int)
    ensures var once := AdminToggled(users, currentId, userId).rows;
            AdminToggled(once, currentId, userId).rows == users
  {
    var keep := (u: User) => u.id == userId;
    var i := FirstIndex(users, keep);
    var once := AdminToggled(users, currentId, userId).rows;
    if i < |users| && users[i].id != currentId {
      assert forall j :: 0 <= j < |users| ==> keep(once[j]) == keep(users[j]);
      FirstIndexSameKeep(users, once, keep);
      assert once[i := once[i].(isAdmin := !once[i].isAdmin)] == users;
    }
  }

  // ---------------------------------------------------------------------------
  // Deleting categories, brands and countries

  /** No two rows share an id (the primary key). */
  predicate UniqueCategoryIds(categories: seq<Category>) {
    forall i, j :: 0 <= i < j < |categories| ==> categories[i].id != categories[j].id
  }

  /** The categories after `id` is deleted: the ORM clears the parent of each of its
      children. */
  function Orphaned(categories: seq<Category>, id: int): (r: seq<Category>)
    ensures |r| == |categories|
    ensures forall j :: 0 <= j < |r| ==> r[j].id == categories[j].id && r[j].parentId != Some(id)
    ensures forall j :: 0 <= j < |r| ==>
              r[j].name == categories[j].name && r[j].slug == categories[j].slug &&
              (categories[j].parentId != Some(id) ==> r[j].parentId == categories[j].parentId)
  {
    seq(|categories|, j requires 0 <= j < |categories| =>
      if categories[j].parentId == Some(id) then categories[j].(parentId := None) else categories[j])
  }

  /** `delete_category(categoryId)`: refused while any product is linked to the
      category itself (its children's products are not looked at); otherwise the row
      is removed and its children become top-level. */
  function CategoryDeleted(categories: seq<Category>, products: seq<Product>, categoryId: int)
    : (r: Change<Category>)
    ensures r.outcome != Done ==> r.rows == categories
    ensures r.outcome == NotFound <==> forall i :: 0 <= i < |categories| ==> categories[i].id != categoryId
    ensures r.outcome == Refused <==>
              (exists i :: 0 <= i < |categories| && categories[i].id == categoryId) &&
              (exists p :: p in products && categoryId in p.categories)
    ensures r.outcome == Done ==> |r.rows| == |categories| - 1
  {
    var i := FirstIndex(categories, (c: Category) => c.id == categoryId);
    if i == |categories| then Change(NotFound, categories)
    else if ProductsOf(products, categoryId) != [] then
      assert ProductsOf(products, categoryId)[0] in ProductsOf(products, categoryId);
      Change(Refused, categories)
    else
      assert forall p :: p in ProductsOf(products, categoryId) <==> p in products && categoryId in p.categories;
      Change(Done, Orphaned(RemoveAt(categories, i), categoryId))
  }

  /** After a deletion no row has the deleted id or names it as parent, and every
      other category is still there, its parent cleared when it was the deleted one. */
  lemma CategoryDeletedExactly(categories: seq<Category>, products: seq<Product>, categoryId: int)
    requires UniqueCategoryIds(categories)
    requires CategoryDeleted(categories, products, categoryId).outcome == Done
    ensures var rows := CategoryDeleted(categories, products, categoryId).rows;
            forall j :: 0 <= j < |rows| ==> rows[j].id != categoryId && rows[j].parentId != Some(categoryId)
    ensures var rows := CategoryDeleted(categories, products, categoryId).rows;
            forall k :: 0 <= k < |categories| && categories[k].id != categoryId ==>
              exists j :: 0 <= j < |rows| && rows[j].id == categories[k].id &&
                          rows[j].name == categories[k].name && rows[j].slug == categories[k].slug &&
                          rows[j].parentId == (if categories[k].parentId == Some(categoryId) then None
                                               else categories[k].parentId)
  {
    var i := FirstIndex(categories, (c: Category) => c.id == categoryId);
    var rest := RemoveAt(categories, i);
    var rows := Orphaned(rest, categoryId);
    forall j | 0 <= j < |rows| ensures rows[j].id != categoryId {
      if j < i {
        assert rows[j].id == categories[j].id;
      } else {
        assert rows[j].id == categories[j + 1].id;
      }
    }
    forall k | 0 <= k < |categories| && categories[k].id != categoryId
      ensures exists j :: 0 <= j < |rows| && rows[j].id == categories[k].id &&
                          rows[j].name == categories[k].name && rows[j].slug == categories[k].slug &&
                          rows[j].parentId == (if categories[k].parentId == Some(categoryId) then None
                                               else categories[k].parentId)
    {
      var j := if k < i then k else k - 1;
      assert rest[j] == categories[k];
    }
  }

  /** Every parent a category names exists. */
  predicate ParentsExist(categories: seq<Category>) {
    forall j :: 0 <= j < |categories| && categories[j].parentId.Some? ==>
      exists k :: 0 <= k < |categories| && categories[k].id == categories[j].parentId.value
  }

  /** Every category a product is linked to exists. */
  predicate LinksExist(products: seq<Product>, categories: seq<Category>) {
    forall p, x :: p in products && x in p.categories ==>
      exists k :: 0 <= k < |categories| && categories[k].id == x
  }

  /** Deleting a category keeps every parent reference and every product link
      pointing at an existing category. */
  lemma CategoryDeletedKeepsReferences(categories: seq<Category>, products: seq<Product>, categoryId: int)
    requires UniqueCategoryIds(categories)
    requires ParentsExist(categories) && LinksExist(products, categories)
    ensures var rows := CategoryDeleted(categories, products, categoryId).rows;
            ParentsExist(rows) && LinksExist(products, rows)
  {
    if CategoryDeleted(categories, products, categoryId).outcome == Done {
      CategoryDeletedKeepsParents(categories, products, categoryId);
      CategoryDeletedKeepsLinks(categories, products, categoryId);
    }
  }

  /** The parent half of `CategoryDeletedKeepsReferences`. */
  lemma CategoryDeletedKeepsParents(categories: seq<Category>, products: seq<Product>, categoryId: int)
    requires UniqueCategoryIds(categories) && ParentsExist(categories)
    requires CategoryDeleted(categories, products, categoryId).outcome == Done
    ensures ParentsExist(CategoryDeleted(categories, products, categoryId).rows)
  {
    var rows := CategoryDeleted(categories, products, categoryId).rows;
    CategoryDeletedExactly(categories, products, categoryId);
    var i := FirstIndex(categories, (c: Category) => c.id == categoryId);
    var rest := RemoveAt(categories, i);
    forall j | 0 <= j < |rows| && rows[j].parentId.Some?
      ensures exists k :: 0 <= k < |rows| && rows[k].id == rows[j].parentId.value
    {
      var q := rows[j].parentId.value;
      var src := if j < i then j else j + 1;
      assert rest[j] == categories[src];
      assert categories[src].parentId == Some(q) && q != categoryId;
      var k :| 0 <= k < |categories| && categories[k].id == q;
      assert categories[k].id != categoryId;
    }
  }

  /** The product-link half of `CategoryDeletedKeepsReferences`. */
  lemma CategoryDeletedKeepsLinks(categories: seq<Category>, products: seq<Product>, categoryId: int)
    requires UniqueCategoryIds(categories) && LinksExist(products, categories)
    requires CategoryDeleted(categories, products, categoryId).outcome == Done
    ensures LinksExist(products, CategoryDeleted(categories, products, categoryId).rows)
  {
    var rows := CategoryDeleted(categories, products, categoryId).rows;
    CategoryDeletedExactly(categories, products, categoryId);
    forall p, x | p in products && x in p.categories
      ensures exists k :: 0 <= k < |rows| && rows[k].id == x
    {
      assert p in ProductsOf(products, categoryId) <==> categoryId in p.categories;
      var k :| 0 <= k < |categories| && categories[k].id == x;
    }
  }

  /** `delete_brand(brandId)`: refused while any product has the brand; otherwise
      exactly that row is removed. */
  function BrandDeleted(brands: seq<Brand>, products: seq<Product>, brandId: int): (r: Change<Brand>)
    ensures r.outcome != Done ==> r.rows == brands
    ensures r.outcome == NotFound <==> forall i :: 0 <= i < |brands| ==> brands[i].id != brandId
    ensures r.outcome == Refused <==>
              (exists i :: 0 <= i < |brands| && brands[i].id == brandId) &&
              (exists p :: p in products && p.brandId == brandId)
    ensures r.outcome == Done ==>
              exists i :: 0 <= i < |brands| && brands[i].id == brandId && r.rows == brands[..i] + brands[i + 1..]
  {
    var i := FirstIndex(brands, (b: Brand) => b.id == brandId);
    if i == |brands| then Change(NotFound, brands)
    else
      var users := Filter(products, (p: Product) => p.brandId == brandId);
      if users != [] then
        assert users[0] in users;
        Change(Refused, brands)
      else
        assert forall p :: p in users <==> p in products && p.brandId == brandId;
        Change(Done, RemoveAt(brands, i))
  }

  /** `delete_country(countryId)`: refused while any product comes from the country;
      otherwise exactly that row is removed. */
  function CountryDeleted(countries: seq<Country>, products: seq<Product>, countryId: int)
    : (r: Change<Country>)
    ensures r.outcome != Done ==> r.rows == countries
    ensures r.outcome == NotFound <==> forall i :: 0 <= i < |countries| ==> countries[i].id != countryId
    ensures r.outcome == Refused <==>
              (exists i :: 0 <= i < |countries| && countries[i].id == countryId) &&
              (exists p :: p in products && p.countryId == countryId)
    ensures r.outcome == Done ==>
              exists i :: 0 <= i < |countries| && countries[i].id == countryId &&
                          r.rows == countries[..i] + countries[i + 1..]
  {
    var i := FirstIndex(countries, (c: Country) => c.id == countryId);
    if i == |countries| then Change(NotFound, countries)
    else
      var users := Filter(products, (p: Product) => p.countryId == countryId);
      if users != [] then
        assert users[0] in users;
        Change(Refused, countries)
      else
        assert forall p :: p in users <==> p in products && p.countryId == countryId;
        Change(Done, RemoveAt(countries, i))
  }

  /** Every product's brand exists. */
  predicate BrandsExist(products: seq<Product>, brands: seq<Brand>) {
    forall p :: p in products ==> exists k :: 0 <= k < |brands| && brands[k].id == p.brandId
  }

  /** Every product's country exists. */
  predicate CountriesExist(products: seq<Product>, countries: seq<Country>) {
    forall p :: p in products ==> exists k :: 0 <= k < |countries| && countries[k].id == p.countryId
  }

  /** The guard keeps every product's brand in place. */
  lemma BrandDeletedKeepsOwners(brands: seq<Brand>, products: seq<Product>, brandId: int)
    requires BrandsExist(products, brands)
    ensures BrandsExist(products, BrandDeleted(brands, products, brandId).rows)
  {
    var b := BrandDeleted(brands, products, brandId);
    if b.outcome == Done {
      var i := FirstIndex(brands, (x: Brand) => x.id == brandId);
      forall p | p in products ensures exists k :: 0 <= k < |b.rows| && b.rows[k].id == p.brandId {
        assert p in Filter(products, (q: Product) => q.brandId == brandId) <==> p.brandId == brandId;
        var k :| 0 <= k < |brands| && brands[k].id == p.brandId;
        assert k != i;
        assert b.rows[if k < i then k else k - 1] == brands[k];
      }
    }
  }

  /** The guard keeps every product's country in place. */
  lemma CountryDeletedKeepsOwners(countries: seq<Country>, products: seq<Product>, countryId: int)
    requires CountriesExist(products, countries)
    ensures CountriesExist(products, CountryDeleted(countries, products, countryId).rows)
  {
    var c := CountryDeleted(countries, products, countryId);
    if c.outcome == Done {
      var i := FirstIndex(countries, (x: Country) => x.id == countryId);
      forall p | p in products ensures exists k :: 0 <= k < |c.rows| && c.rows[k].id == p.countryId {
        assert p in Filter(products, (q: Product) => q.countryId == countryId) <==> p.countryId == countryId;
        var k :| 0 <= k < |countries| && countries[k].id == p.countryId;
        assert k != i;
        assert c.rows[if k < i then k else k - 1] == countries[k];
      }
    }
  }

  // ---------------------------------------------------------------------------
  // Creating rows

  /** The parent of a new category from the form's `parent_id`: none for a missing,
      empty or `'0'` value and for one `int()` rejects; otherwise the parsed id, stored
      without checking that such a category exists. */
  function ParentIdOf(field: Option<string>): (parent: Option<int>)
    ensures parent.Some? ==> field.Some? && field.value != "0" && ParseInt(field.value) == parent
  {
    if Truthy(field) && field.value != "0" then ParseInt(field.value) else None
  }

  /** Any non-zero id printed by `str` is taken as the parent. */
  lemma ParentIdOfNumber(n: int)
    requires n != 0
    ensures ParentIdOf(Some(IntToString(n))) == Some(n)
  {
    ParseIntRoundTrip(n);
    if n < 0 {
      assert IntToString(n)[0] == '-';
    } else if n < 10 {
      assert IntToString(n) == [DigitChar(n)];
    }
  }

  /** `'0'` means top-level, but other spellings of zero, such as `'00'` or `' 0'`,
      are stored as parent 0, which names no category. */
  lemma ZeroSpellings()
    ensures ParentIdOf(Some("0")) == None
    ensures ParentIdOf(Some("00")) == Some(0)
  {
    var z := "00";
    assert z[0] == '0' && z[1] == '0' && z[..1] == "0" && z[..1][..0] == [];
    assert AllChars(z, IsDigitOrUnderscore) && NoAdjacent(z, '_');
    assert DigitsValue(z[..1]) == 0;
    assert DigitsValue(z) == 0;
    ParseDigits(z);
    assert ParseInt(z) == Some(0);
    assert Truthy(Some(z)) && z != "0";
  }

  /** `create_category()` as intended: a category with a non-empty name is added under
      the parsed parent, with a fresh id and the slug generated for it; an empty or
      missing name adds nothing. */
  function CategoryCreated(categories: seq<Category>, name: Option<string>, parentField: Option<string>,
                           slug: string): (r: Change<Category>)
    ensures r.outcome != Done ==> r.rows == categories
    ensures r.outcome == Done <==> Truthy(name)
    ensures r.outcome == Done ==>
              |r.rows| == |categories| + 1 && r.rows[..|categories|] == categories &&
              r.rows[|categories|].name == name.value && r.rows[|categories|].slug == slug &&
              r.rows[|categories|].parentId == ParentIdOf(parentField) &&
              forall i :: 0 <= i < |categories| ==> categories[i].id != r.rows[|categories|].id
  {
    if !Truthy(name) then Change(Refused, categories)
    else
      var ids := Ids(categories, CategoryId);
      Change(Done, categories + [Category(NextId(ids), name.value, slug, ParentIdOf(parentField))])
  }

  /** The parent is not checked: a new category can name a parent that does not
      exist. */
  lemma CreatedParentUnchecked()
    ensures !ParentsExist(CategoryCreated([], Some("Oils"), Some("7"), "oils").rows)
  {
    assert ParseInt("7") == Some(7) by {
      ParseIntRoundTrip(7);
      assert IntToString(7) == "7";
    }
    var rows := CategoryCreated([], Some("Oils"), Some("7"), "oils").rows;
    assert rows[0].parentId == Some(7);
  }

  /** `create_brand()` as intended: a brand with a non-empty name is added with a fresh
      id and the slug generated for it. */
  function BrandCreated(brands: seq<Brand>, name: Option<string>, slug: string): (r: Change<Brand>)
    ensures r.outcome != Done ==> r.rows == brands
    ensures r.outcome == Done <==> Truthy(name)
    ensures r.outcome == Done ==>
              |r.rows| == |brands| + 1 && r.rows[..|brands|] == brands &&
              r.rows[|brands|].name == name.value && r.rows[|brands|].slug == slug &&
              forall i :: 0 <= i < |brands| ==> brands[i].id != r.rows[|brands|].id
  {
    if !Truthy(name) then Change(Refused, brands)
    else
      var ids := Ids(brands, BrandId);
      Change(Done, brands + [Brand(NextId(ids), name.value, slug)])
  }

  /** `create_country()`: a country with a non-empty name is added with a fresh id. */
  function CountryCreated(countries: seq<Country>, name: Option<string>): (r: Change<Country>)
    ensures r.outcome != Done ==> r.rows == countries
    ensures r.outcome == Done <==> Truthy(name)
    ensures r.outcome == Done ==>
              |r.rows| == |countries| + 1 && r.rows[..|countries|] == countries &&
              r.rows[|countries|].name == name.value &&
              forall i :: 0 <= i < |countries| ==> countries[i].id != r.rows[|countries|].id
  {
    if !Truthy(name) then Change(Refused, countries)
    else
      var ids := Ids(countries, CountryId);
      Change(Done, countries + [Country(NextId(ids), name.value)])
  }

  // ---------------------------------------------------------------------------
  // News

  /** `create_news()` as intended: added, with the slug generated for it, only when both
      title and content are non-empty. */
  function NewsCreated(news: seq<News>, title: Option<string>, content: Option<string>, slug: string)
    : (r: Change<News>)
    ensures r.outcome != Done ==> r.rows == news
    ensures r.outcome == Done <==> Truthy(title) && Truthy(content)
    ensures r.outcome == Done ==>
              |r.rows| == |news| + 1 && r.rows[..|news|] == news &&
              r.rows[|news|].title == title.value && r.rows[|news|].content == content.value &&
              r.rows[|news|].slug == slug && r.rows[|news|].imageUrl.None? &&
              forall i :: 0 <= i < |news| ==> news[i].id != r.rows[|news|].id
  {
    if !(Truthy(title) && Truthy(content)) then Change(Refused, news)
    else
      var ids := Ids(news, NewsId);
      Change(Done, news + [News(NextId(ids), title.value, slug, content.value, None)])
  }

  /** `edit_news(newsId)`: title and content are replaced only when both are
      non-empty. */
  function NewsEdited(news: seq<News>, newsId: int, title: Option<string>, content: Option<string>)
    : (r: Change<News>)
    ensures r.outcome != Done ==> r.rows == news
    ensures r.outcome == NotFound <==> forall i :: 0 <= i < |news| ==> news[i].id != newsId
    ensures r.outcome == Refused <==>
              (exists i :: 0 <= i < |news| && news[i].id == newsId) && !(Truthy(title) && Truthy(content))
  {
    var i := FirstIndex(news, (n: News) => n.id == newsId);
    if i == |news| then Change(NotFound, news)
    else if !(Truthy(title) && Truthy(content)) then Change(Refused, news)
    else Change(Done, news[i := news[i].(title := title.value, content := content.value)])
  }

  /** An edit changes the title and content of the addressed item and nothing else:
      its id, slug and image stay, and so do all other items. */
  lemma NewsEditedExactly(news: seq<News>, newsId: int, title: Option<string>, content: Option<string>)
    requires NewsEdited(news, newsId, title, content).outcome == Done
    ensures var rows := NewsEdited(news, newsId, title, content).rows;
            |rows| == |news| &&
            exists i :: 0 <= i < |news| && news[i].id == newsId &&
              rows[i] == News(newsId, title.value, news[i].slug, content.value, news[i].imageUrl) &&
              forall j :: 0 <= j < |news| && j != i ==> rows[j] == news[j]
  {
    var i := FirstIndex(news, (n: News) => n.id == newsId);
    assert news[i].id == newsId;
  }

  // ---------------------------------------------------------------------------
  // Products and their categories

  /** The id of an existing category that one submitted `category_ids` value names, if
      `int()` accepts it and `Category.query.get` finds it. */
  function LinkOf(categories: seq<Category>, submitted: string): seq<int> {
    match ParseInt(submitted)
    case Some(id) =>
      if First(categories, (c: Category) => c.id == id).Some? then [id] else []
    case None => []
  }

  /** The product's category list after the form: the ids of the submitted values that
      parse and name an existing category, in submitted order. */
  function CategoryLinks(categories: seq<Category>, submitted: seq<string>): seq<int>
    decreases |submitted|
  {
    if submitted == [] then []
    else CategoryLinks(categories, submitted[..|submitted| - 1]) + LinkOf(categories, submitted[|submitted| - 1])
  }

  /** The loop of `create_product`/`edit_product` that appends a category for each
      submitted value. */
  method RebuildCategories(categories: seq<Category>, submitted: seq<string>) returns (links: seq<int>)
    ensures links == CategoryLinks(categories, submitted)
  {
    links := [];
    for i := 0 to |submitted|
      invariant links == CategoryLinks(categories, submitted[..i])
    {
      assert submitted[..i + 1][..i] == submitted[..i];
      var id := ParseInt(submitted[i]);
      if id.Some? {
        var category := First(categories, (c: Category) => c.id == id.value);
        if category.Some? {
          links := links + [id.value];
        }
      }
    }
    assert submitted[..|submitted|] == submitted;
  }

  /** `s` names `id`: it parses to `id`. */
  predicate Names(s: string, id: int) {
    ParseInt(s) == Some(id)
  }

  /** An id is linked exactly when it names an existing category and some submitted
      value parses to it. */
  lemma {:induction false} CategoryLinksMembers(categories: seq<Category>, submitted: seq<string>, id: int)
    ensures id in CategoryLinks(categories, submitted) <==>
            (exists k :: 0 <= k < |categories| && categories[k].id == id) &&
            (exists i :: 0 <= i < |submitted| && Names(submitted[i], id))
    decreases |submitted|
  {
    if submitted != [] {
      var init := submitted[..|submitted| - 1];
      var last := submitted[|submitted| - 1];
      CategoryLinksMembers(categories, init, id);
      LinkOfMembers(categories, last, id);
      SomeSubmitted(submitted, init, (s: string) => Names(s, id));
    }
  }

  /** One submitted value links `id` exactly when it parses to `id` and that category
      exists. */
  lemma LinkOfMembers(categories: seq<Category>, submitted: string, id: int)
    ensures id in LinkOf(categories, submitted) <==>
            Names(submitted, id) && exists k :: 0 <= k < |categories| && categories[k].id == id
  {
  }

  /** An element of `s` meets `p` when one of its first elements or its last one
      does. */
  lemma SomeSubmitted(s: seq<string>, init: seq<string>, p: string -> bool)
    requires s != [] && init == s[..|s| - 1]
    ensures (exists i :: 0 <= i < |s| && p(s[i])) ==
            ((exists i :: 0 <= i < |init| && p(init[i])) || p(s[|s| - 1]))
  {
    if exists i :: 0 <= i < |s| && p(s[i]) {
      var i :| 0 <= i < |s| && p(s[i]);
      if i < |init| {
        assert init[i] == s[i];
      }
    }
    if exists i :: 0 <= i < |init| && p(init[i]) {
      var i :| 0 <= i < |init| && p(init[i]);
      assert s[i] == init[i];
    }
  }

  /** The validated fields of the product form. */
  datatype ProductForm = ProductForm(name: string, article: string, shortDesc: Option<string>,
                                     fullDesc: Option<string>, price: int, stock: int,
                                     brandId: int, countryId: int)

  /** The picture part of the form: none sent, saved under a file name, or failed. */
  datatype Upload = NoUpload | Saved(fileName: string) | UploadFailed

  /** The image URL after an upload; without one, `current` stays. */
  function ImageAfter(upload: Upload, current: Option<string>): Option<string> {
    match upload
    case Saved(f) => Some("/static/uploads/" + f)
    case _ => current
  }

  /** The product carries the form's name, article, descriptions, price, stock, brand
      and country. */
  predicate HoldsForm(p: Product, form: ProductForm) {
    p.name == form.name && p.article == form.article && p.shortDesc == form.shortDesc &&
    p.fullDesc == form.fullDesc && p.price == form.price && p.stock == form.stock &&
    p.brandId == form.brandId && p.countryId == form.countryId
  }

  /** `create_product()` as intended, with a validated form: a failed upload adds
      nothing; otherwise a product with a fresh id, the generated slug, the form's
      fields, the saved picture and the submitted categories. */
  function ProductCreated(products: seq<Product>, categories: seq<Category>, form: ProductForm,
                          upload: Upload, slug: string, submitted: seq<string>): (r: Change<Product>)
    ensures r.outcome != Done ==> r.rows == products
    ensures r.outcome == Done <==> !upload.UploadFailed?
    ensures r.outcome == Done ==>
              |r.rows| == |products| + 1 && r.rows[..|products|] == products &&
              forall i :: 0 <= i < |products| ==> products[i].id != r.rows[|products|].id
    ensures r.outcome == Done ==>
              var p := r.rows[|products|];
              HoldsForm(p, form) && p.slug == slug &&
              p.categories == CategoryLinks(categories, submitted) &&
              (upload.Saved? ==> p.imageUrl == Some("/static/uploads/" + upload.fileName)) &&
              (upload.NoUpload? ==> p.imageUrl.None?)
  {
    if upload.UploadFailed? then Change(Failed, products)
    else
      var ids := Ids(products, ProductId);
      var p := Product(NextId(ids), form.name, slug, form.article, form.shortDesc, form.fullDesc,
                       ImageAfter(upload, None), form.price, form.stock, form.brandId, form.countryId,
                       CategoryLinks(categories, submitted));
      Change(Done, products + [p])
  }

  /** `edit_product(productId)` with a validated form: a failed upload changes nothing;
      otherwise the form's fields replace the product's, a new picture replaces its
      image, and its categories are rebuilt from the submitted ids. */
  function ProductEdited(products: seq<Product>, categories: seq<Category>, productId: int,
                         form: ProductForm, upload: Upload, submitted: seq<string>): (r: Change<Product>)
    ensures r.outcome != Done ==> r.rows == products
    ensures r.outcome == NotFound <==> forall i :: 0 <= i < |products| ==> products[i].id != productId
    ensures r.outcome == Failed <==>
              (exists i :: 0 <= i < |products| && products[i].id == productId) && upload.UploadFailed?
    ensures r.outcome != Refused
  {
    var i := FirstIndex(products, (p: Product) => p.id == productId);
    if i == |products| then Change(NotFound, products)
    else if upload.UploadFailed? then Change(Failed, products)
    else
      var old_ := products[i];
      var p := Product(old_.id, form.name, old_.slug, form.article, form.shortDesc, form.fullDesc,
                       ImageAfter(upload, old_.imageUrl), form.price, form.stock, form.brandId,
                       form.countryId, CategoryLinks(categories, submitted));
      Change(Done, products[i := p])
  }

  /** After an edit the product keeps its id and slug, carries the form's fields and
      exactly the rebuilt category list, whatever it was linked to before, and shows a
      newly saved picture or else its old one; the other products are as they were. */
  lemma ProductEditedExactly(products: seq<Product>, categories: seq<Category>, productId: int,
                             form: ProductForm, upload: Upload, submitted: seq<string>)
    requires ProductEdited(products, categories, productId, form, upload, submitted).outcome == Done
    ensures var rows := ProductEdited(products, categories, productId, form, upload, submitted).rows;
            |rows| == |products| &&
            exists i :: 0 <= i < |products| && products[i].id == productId &&
              rows[i].id == productId && rows[i].slug == products[i].slug &&
              rows[i].categories == CategoryLinks(categories, submitted) && HoldsForm(rows[i], form) &&
              (upload.Saved? ==> rows[i].imageUrl == Some("/static/uploads/" + upload.fileName)) &&
              (upload.NoUpload? ==> rows[i].imageUrl == products[i].imageUrl) &&
              forall j :: 0 <= j < |products| && j != i ==> rows[j] == products[j]
  {
    var i := FirstIndex(products, (p: Product) => p.id == productId);
    assert products[i].id == productId;
  }

  /** Rebuilt category lists only name existing categories, so creating or editing a
      product keeps every product link pointing at an existing category. */
  lemma ProductChangesKeepLinks(products: seq<Product>, categories: seq<Category>, productId: int,
                                form: ProductForm, upload: Upload, slug: string, submitted: seq<string>)
    requires LinksExist(products, categories)
    ensures LinksExist(ProductCreated(products, categories, form, upload, slug, submitted).rows, categories)
    ensures LinksExist(ProductEdited(products, categories, productId, form, upload, submitted).rows, categories)
  {
    var links := CategoryLinks(categories, submitted);
    forall x | x in links ensures exists k :: 0 <= k < |categories| && categories[k].id == x {
      CategoryLinksMembers(categories, submitted, x);
    }
    var created := ProductCreated(products, categories, form, upload, slug, submitted).rows;
    forall p, x | p in created && x in p.categories
      ensures exists k :: 0 <= k < |categories| && categories[k].id == x
    {
      if p !in products {
        assert p == created[|created| - 1];
      }
    }
    var edited := ProductEdited(products, categories, productId, form, upload, submitted).rows;
    forall p, x | p in edited && x in p.categories
      ensures exists k :: 0 <= k < |categories| && categories[k].id == x
    {
      var j :| 0 <= j < |edited| && edited[j] == p;
      if p !in products {
        assert p.categories == links;
      }
    }
  }

  // ---------------------------------------------------------------------------
  // The create handlers as written

  // `create_category`, `create_brand`, `create_news` and `create_product` build the new
  // row without a slug and never call `generate_slug`, yet `slug` is a NOT NULL column
  // with no default. So the commit is refused, the request fails and the session's
  // changes are discarded: as written, nothing is ever created by these handlers.

  /** `create_category()` as written: refused without a name; with one, the commit of
      the slug-less row fails. */
  function CategoryCreatedAsWritten(categories: seq<Category>, name: Option<string>,
                                    parentField: Option<string>): (r: Change<Category>)
    ensures r.rows == categories
    ensures r.outcome == Refused <==> !Truthy(name)
    ensures r.outcome == Failed <==> Truthy(name)
  {
    if !Truthy(name) then Change(Refused, categories) else Change(Failed, categories)
  }

  /** `create_brand()` as written. */
  function BrandCreatedAsWritten(brands: seq<Brand>, name: Option<string>): (r: Change<Brand>)
    ensures r.rows == brands
    ensures r.outcome == Refused <==> !Truthy(name)
    ensures r.outcome == Failed <==> Truthy(name)
  {
    if !Truthy(name) then Change(Refused, brands) else Change(Failed, brands)
  }

  /** `create_news()` as written. */
  function NewsCreatedAsWritten(news: seq<News>, title: Option<string>, content: Option<string>)
    : (r: Change<News>)
    ensures r.rows == news
    ensures r.outcome == Refused <==> !(Truthy(title) && Truthy(content))
    ensures r.outcome == Failed <==> Truthy(title) && Truthy(content)
  {
    if !(Truthy(title) && Truthy(content)) then Change(Refused, news) else Change(Failed, news)
  }

  /** `create_product()` as written, with a validated form: whatever the upload does,
      nothing is stored. A failed upload re-renders the form; otherwise the picture is
      saved and the commit of the slug-less row fails. */
  function ProductCreatedAsWritten(products: seq<Product>, upload: Upload): (r: Change<Product>)
    ensures r.rows == products && r.outcome == Failed
  {
    Change(Failed, products)
  }

  /** Inputs that show the difference: the handlers as written add nothing where the
      intended ones add the row. */
  lemma CreationFailsAsWritten(form: ProductForm)
    ensures CategoryCreatedAsWritten([], Some("Oils"), None).outcome == Failed
    ensures CategoryCreated([], Some("Oils"), None, "oils").outcome == Done
    ensures BrandCreatedAsWritten([], Some("Bosch")).outcome == Failed
    ensures BrandCreated([], Some("Bosch"), "bosch").outcome == Done
    ensures NewsCreatedAsWritten([], Some("Sale"), Some("Today")).outcome == Failed
    ensures NewsCreated([], Some("Sale"), Some("Today"), "sale").outcome == Done
    ensures ProductCreatedAsWritten([], NoUpload).outcome == Failed
    ensures ProductCreated([], [], form, NoUpload, "item", []).outcome == Done
  {
  }

  /** The `parent_id` step of `create_category()`: a present value other than `'0'` is
      parsed, and a value `int()` refuses leaves the category top-level. */
  method ParseParent(parentField: Option<string>) returns (parent: Option<int>)
    ensures parent == ParentIdOf(parentField)
  {
    parent := None;
    if Truthy(parentField) && parentField.value != "0" {
      var parsed := ParseInt(parentField.value);
      if parsed.Some? {
        parent := parsed;
      }
    }
  }

  /** `generate_slug(text, existing)` with the slugs of a table's rows as `existing`:
      a slug no row has, the base slug of `text` whenever that one is free. */
  method FreshSlug<T>(rows: seq<T>, slugOf: T -> string, text: string) returns (slug: string)
    ensures forall i :: 0 <= i < |rows| ==> slugOf(rows[i]) != slug
    ensures (forall i :: 0 <= i < |rows| ==> slugOf(rows[i]) != Slug.Transliteration(text)) ==>
              slug == Slug.Transliteration(text)
  {
    var taken := seq(|rows|, i requires 0 <= i < |rows| => slugOf(rows[i]));
    slug := Slug.GenerateSlug(text, taken);
    forall i | 0 <= i < |rows| ensures slugOf(rows[i]) != slug {
      assert taken[i] == slugOf(rows[i]) && taken[i] in taken;
    }
    var base := Slug.Transliteration(text);
    if forall i :: 0 <= i < |rows| ==> slugOf(rows[i]) != base {
      assert forall i :: 0 <= i < |taken| ==> taken[i] != base;
      assert base !in taken;
    }
  }

  // ---------------------------------------------------------------------------
  // The store

  /** The shop's tables, changed in place by the admin actions. */
  class Store {
    var users: seq<User>
    var products: seq<Product>
    var categories: seq<Category>
    var brands: seq<Brand>
    var countries: seq<Country>
    var news: seq<News>

    constructor (users0: seq<User>, products0: seq<Product>, categories0: seq<Category>,
                 brands0: seq<Brand>, countries0: seq<Country>, news0: seq<News>)
      ensures users == users0 && products == products0 && categories == categories0
      ensures brands == brands0 && countries == countries0 && news == news0
    {
      users, products, categories := users0, products0, categories0;
      brands, countries, news := brands0, countries0, news0;
    }

    /** `toggle_admin(userId)` by the logged-in user `currentId`. */
    method ToggleAdmin(currentId: int, userId: int) returns (outcome: Outcome)
      modifies this`users
      ensures outcome == AdminToggled(old(users), currentId, userId).outcome
      ensures users == AdminToggled(old(users), currentId, userId).rows
    {
      var i := FirstIndex(users, (u: User) => u.id == userId);
      if i == |users| {
        return NotFound;
      }
      var user := users[i];
      if user.id == currentId {
        return Refused;
      }
      users := users[i := user.(isAdmin := !user.isAdmin)];
      return Done;
    }

    /** `delete_category(categoryId)`. */
    method DeleteCategory(categoryId: int) returns (outcome: Outcome)
      modifies this`categories
      ensures outcome == CategoryDeleted(old(categories), products, categoryId).outcome
      ensures categories == CategoryDeleted(old(categories), products, categoryId).rows
    {
      var i := FirstIndex(categories, (c: Category) => c.id == categoryId);
      if i == |categories| {
        return NotFound;
      }
      if ProductsOf(products, categoryId) != [] {
        return Refused;
      }
      categories := Orphaned(RemoveAt(categories, i), categoryId);
      return Done;
    }

    /** `delete_brand(brandId)`. */
    method DeleteBrand(brandId: int) returns (outcome: Outcome)
      modifies this`brands
      ensures outcome == BrandDeleted(old(brands), products, brandId).outcome
      ensures brands == BrandDeleted(old(brands), products, brandId).rows
    {
      var i := FirstIndex(brands, (b: Brand) => b.id == brandId);
      if i == |brands| {
        return NotFound;
      }
      if Filter(products, (p: Product) => p.brandId == brandId) != [] {
        return Refused;
      }
      brands := RemoveAt(brands, i);
      return Done;
    }

    /** `delete_country(countryId)`. */
    method DeleteCountry(countryId: int) returns (outcome: Outcome)
      modifies this`countries
      ensures outcome == CountryDeleted(old(countries), products, countryId).outcome
      ensures countries == CountryDeleted(old(countries), products, countryId).rows
    {
      var i := FirstIndex(countries, (c: Country) => c.id == countryId);
      if i == |countries| {
        return NotFound;
      }
      if Filter(products, (p: Product) => p.countryId == countryId) != [] {
        return Refused;
      }
      countries := RemoveAt(countries, i);
      return Done;
    }

    /** `create_category()` with the form's `name` and `parent_id`, as intended: the slug
        is `generate_slug` of the name, avoiding every existing category slug. */
    method CreateCategory(name: Option<string>, parentField: Option<string>)
      returns (outcome: Outcome, slug: string)
      modifies this`categories
      ensures outcome == CategoryCreated(old(categories), name, parentField, slug).outcome
      ensures categories == CategoryCreated(old(categories), name, parentField, slug).rows
      ensures outcome == Done ==>
                (forall i :: 0 <= i < |old(categories)| ==> old(categories)[i].slug != slug) &&
                ((forall i :: 0 <= i < |old(categories)| ==>
                    old(categories)[i].slug != Slug.Transliteration(name.value)) ==>
                   slug == Slug.Transliteration(name.value))
    {
      if !Truthy(name) {
        return Refused, "";
      }
      slug := FreshSlug(categories, (x: Category) => x.slug, name.value);
      var parent := ParseParent(parentField);
      categories := categories + [Category(NextId(Ids(categories, CategoryId)), name.value, slug, parent)];
      return Done, slug;
    }

    /** `create_brand()` with the form's `name`, as intended: the slug is
        `generate_slug` of the name, avoiding every existing brand slug. */
    method CreateBrand(name: Option<string>) returns (outcome: Outcome, slug: string)
      modifies this`brands
      ensures outcome == BrandCreated(old(brands), name, slug).outcome
      ensures brands == BrandCreated(old(brands), name, slug).rows
      ensures outcome == Done ==>
                (forall i :: 0 <= i < |old(brands)| ==> old(brands)[i].slug != slug) &&
                ((forall i :: 0 <= i < |old(brands)| ==>
                    old(brands)[i].slug != Slug.Transliteration(name.value)) ==>
                   slug == Slug.Transliteration(name.value))
    {
      if !Truthy(name) {
        return Refused, "";
      }
      slug := FreshSlug(brands, (x: Brand) => x.slug, name.value);
      var ids := Ids(brands, BrandId);
      brands := brands + [Brand(NextId(ids), name.value, slug)];
      return Done, slug;
    }

    /** `create_country()` with the form's `name`. */
    method CreateCountry(name: Option<string>) returns (outcome: Outcome)
      modifies this`countries
      ensures outcome == CountryCreated(old(countries), name).outcome
      ensures countries == CountryCreated(old(countries), name).rows
    {
      if !Truthy(name) {
        return Refused;
      }
      var ids := Ids(countries, CountryId);
      countries := countries + [Country(NextId(ids), name.value)];
      return Done;
    }

    /** `create_news()` with the form's `title` and `content`, as intended: the slug is
        `generate_slug` of the title, avoiding every existing news slug. */
    method CreateNews(title: Option<string>, content: Option<string>)
      returns (outcome: Outcome, slug: string)
      modifies this`news
      ensures outcome == NewsCreated(old(news), title, content, slug).outcome
      ensures news == NewsCreated(old(news), title, content, slug).rows
      ensures outcome == Done ==>
                (forall i :: 0 <= i < |old(news)| ==> old(news)[i].slug != slug) &&
                ((forall i :: 0 <= i < |old(news)| ==>
                    old(news)[i].slug != Slug.Transliteration(title.value)) ==>
                   slug == Slug.Transliteration(title.value))
    {
      if !(Truthy(title) && Truthy(content)) {
        return Refused, "";
      }
      slug := FreshSlug(news, (x: News) => x.slug, title.value);
      var ids := Ids(news, NewsId);
      news := news + [News(NextId(ids), title.value, slug, content.value, None)];
      return Done, slug;
    }

    /** `edit_news(newsId)` with the form's `title` and `content`. */
    method EditNews(newsId: int, title: Option<string>, content: Option<string>)
      returns (outcome: Outcome)
      modifies this`news
      ensures outcome == NewsEdited(old(news), newsId, title, content).outcome
      ensures news == NewsEdited(old(news), newsId, title, content).rows
    {
      var i := FirstIndex(news, (n: News) => n.id == newsId);
      if i == |news| {
        return NotFound;
      }
      if !(Truthy(title) && Truthy(content)) {
        return Refused;
      }
      news := news[i := news[i].(title := title.value, content := content.value)];
      return Done;
    }

    /** `create_product()` with a validated form, as intended: the slug is
        `generate_slug` of the name, avoiding every existing product slug. */
    method CreateProduct(form: ProductForm, upload: Upload, submitted: seq<string>)
      returns (outcome: Outcome, slug: string)
      modifies this`products
      ensures outcome == ProductCreated(old(products), categories, form, upload, slug, submitted).outcome
      ensures products == ProductCreated(old(products), categories, form, upload, slug, submitted).rows
      ensures outcome == Done ==>
                (forall i :: 0 <= i < |old(products)| ==> old(products)[i].slug != slug) &&
                ((forall i :: 0 <= i < |old(products)| ==>
                    old(products)[i].slug != Slug.Transliteration(form.name)) ==>
                   slug == Slug.Transliteration(form.name))
    {
      if upload.UploadFailed? {
        return Failed, "";
      }
      slug := FreshSlug(products, (x: Product) => x.slug, form.name);
      var ids := Ids(products, ProductId);
      var product := Product(NextId(ids), form.name, slug, form.article, form.shortDesc, form.fullDesc,
                             ImageAfter(upload, None), form.price, form.stock, form.brandId,
                             form.countryId, []);
      var links := RebuildCategories(categories, submitted);
      products := products + [product.(categories := links)];
      return Done, slug;
    }

    /** `edit_product(productId)` with a validated form. */
    method EditProduct(productId: int, form: ProductForm, upload: Upload, submitted: seq<string>)
      returns (outcome: Outcome)
      modifies this`products
      ensures outcome == ProductEdited(old(products), categories, productId, form, upload, submitted).outcome
      ensures products == ProductEdited(old(products), categories, productId, form, upload, submitted).rows
    {
      var i := FirstIndex(products, (p: Product) => p.id == productId);
      if i == |products| {
        return NotFound;
      }
      if upload.UploadFailed? {
        return Failed;
      }
      var product := products[i].(name := form.name, article := form.article,
                                  shortDesc := form.shortDesc, fullDesc := form.fullDesc,
                                  price := form.price, stock := form.stock,
                                  brandId := form.brandId, countryId := form.countryId);
      product := product.(imageUrl := ImageAfter(upload, product.imageUrl));
      var links := RebuildCategories(categories, submitted);
      product := product.(categories := links);
      products := products[i := product];
      return Done;
    }
  }
}
