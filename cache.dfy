/** The in-memory snapshot of the shop: every collection with its products and
    every blog with its articles, each filed under its handle, rebuilt in full by
    a refresh and built lazily on first use.

    The store's answers are inputs. The three listings are `Reply` values; the
    per-collection product listings and the per-blog article listings answer the
    requests in the order they are sent (the `i`-th collection's request gets
    the `i`-th answer, and a request with no answer left fails). The clock is
    the `now` parameter. */
module Cache {

  import opened Wrappers
  import opened Shopify

  datatype ProductRef = ProductRef(id: int, title: string, handle: string)
  datatype ArticleRef = ArticleRef(id: int, title: string, handle: string, blogHandle: string)
  datatype CollectionEntry = CollectionEntry(id: int, title: string, handle: string, products: seq<ProductRef>)
  datatype BlogEntry = BlogEntry(id: int, title: string, handle: string, articles: seq<ArticleRef>)
  datatype ShopData = ShopData(collections: map<string, CollectionEntry>, blogs: map<string, BlogEntry>)

  // ---------------------------------------------------------------------------
  // a dictionary filled one entry at a time
  // ---------------------------------------------------------------------------

  /** `dict[key(e)] = e` for every entry in order, starting from `{}`. */
  function Keyed<E>(entries: seq<E>, key: E -> string): (m: map<string, E>)
    ensures m.Keys == set i | 0 <= i < |entries| :: key(entries[i])
    decreases |entries|
  {
    if |entries| == 0 then map[]
    else
      var n := |entries| - 1;
      var m := Keyed(entries[..n], key)[key(entries[n]) := entries[n]];
      assert m.Keys == (set i | 0 <= i < n :: key(entries[..n][i])) + {key(entries[n])};
      assert forall i | 0 <= i < n :: entries[..n][i] == entries[i];
      m
  }

  /** The entry filed under a key is the last entry with that key. */
  lemma {:induction false} KeyedLastWins<E>(entries: seq<E>, key: E -> string, j: nat)
    requires j < |entries|
    requires forall k :: j < k < |entries| ==> key(entries[k]) != key(entries[j])
    ensures Keyed(entries, key)[key(entries[j])] == entries[j]
    decreases |entries|
  {
    var n := |entries| - 1;
    if j < n {
      assert forall k :: j < k < n ==> entries[..n][k] == entries[k];
      KeyedLastWins(entries[..n], key, j);
      assert key(entries[n]) != key(entries[j]);
    }
  }

  /** Every value is one of the entries and is filed under its own key. */
  lemma {:induction false} KeyedFiled<E>(entries: seq<E>, key: E -> string)
    ensures forall k :: k in Keyed(entries, key) ==> key(Keyed(entries, key)[k]) == k
    ensures forall k :: k in Keyed(entries, key) ==> exists i :: 0 <= i < |entries| && Keyed(entries, key)[k] == entries[i]
    decreases |entries|
  {
    if |entries| > 0 {
      var n := |entries| - 1;
      KeyedFiled(entries[..n], key);
      var prev := Keyed(entries[..n], key);
      forall k | k in Keyed(entries, key)
        ensures exists i :: 0 <= i < |entries| && Keyed(entries, key)[k] == entries[i]
      {
        if k != key(entries[n]) {
          var i :| 0 <= i < n && prev[k] == entries[..n][i];
          assert Keyed(entries, key)[k] == entries[i];
        }
      }
    }
  }

  // ---------------------------------------------------------------------------
  // the entries
  // ---------------------------------------------------------------------------

  /** A collection's entry: its own fields and its products reduced to
      `{id, title, handle}`, in listing order. */
  function CollectionEntryOf(c: Collection, products: seq<Product>): (e: CollectionEntry)
  {
    CollectionEntry(c.id, c.title, c.handle,
      seq(|products|, i requires 0 <= i < |products| => ProductRef(products[i].id, products[i].title, products[i].handle)))
  }

  /** A blog's entry: its own fields and its articles reduced to
      `{id, title, handle, blog_handle}`, in listing order. */
  function BlogEntryOf(b: Blog, articles: seq<Article>): (e: BlogEntry)
  {
    BlogEntry(b.id, b.title, b.handle,
      seq(|articles|, i requires 0 <= i < |articles| => ArticleRef(articles[i].id, articles[i].title, articles[i].handle, b.handle)))
  }

  /** The entry of a collection carries its fields and one reference per product,
      in order; the entry of a blog tags every article with the blog's handle. */
  lemma EntriesProject(c: Collection, products: seq<Product>, b: Blog, articles: seq<Article>)
    ensures var e := CollectionEntryOf(c, products);
      && e.id == c.id && e.title == c.title && e.handle == c.handle
      && |e.products| == |products|
      && forall i :: 0 <= i < |products| ==>
           e.products[i] == ProductRef(products[i].id, products[i].title, products[i].handle)
    ensures var e := BlogEntryOf(b, articles);
      && e.id == b.id && e.title == b.title && e.handle == b.handle
      && |e.articles| == |articles|
      && forall i :: 0 <= i < |articles| ==>
           && (e.articles[i].id, e.articles[i].title, e.articles[i].handle) == (articles[i].id, articles[i].title, articles[i].handle)
           && e.articles[i].blogHandle == b.handle
  {
  }

  function CollectionKey(e: CollectionEntry): string { e.handle }
  function BlogKey(e: BlogEntry): string { e.handle }

  /** The first `n` answers all arrived and succeeded. */
  predicate Answered<T>(answers: seq<Reply<T>>, n: nat) {
    n <= |answers| && forall i :: 0 <= i < n ==> answers[i].Ok?
  }

  function CollectionEntries(cols: seq<Collection>, answers: seq<Reply<seq<Product>>>): (es: seq<CollectionEntry>)
    requires Answered(answers, |cols|)
  {
    seq(|cols|, i requires 0 <= i < |cols| => CollectionEntryOf(cols[i], answers[i].value))
  }

  function BlogEntries(blogs: seq<Blog>, answers: seq<Reply<seq<Article>>>): (es: seq<BlogEntry>)
    requires Answered(answers, |blogs|)
  {
    seq(|blogs|, i requires 0 <= i < |blogs| => BlogEntryOf(blogs[i], answers[i].value))
  }

  /** The data a refresh builds from the collection and blog listings: `Failed`
      as soon as one product or article request fails. */
  function Built(cols: seq<Collection>, blogs: seq<Blog>,
                 productAnswers: seq<Reply<seq<Product>>>, articleAnswers: seq<Reply<seq<Article>>>): (r: Reply<ShopData>)
  {
    if !Answered(productAnswers, |cols|) || !Answered(articleAnswers, |blogs|) then Failed
    else Ok(ShopData(Keyed(CollectionEntries(cols, productAnswers), CollectionKey),
                     Keyed(BlogEntries(blogs, articleAnswers), BlogKey)))
  }

  /** `refreshShopCache` as a value: `Failed` when any of the listings fails,
      otherwise the data built from the collections and blogs. The product
      listing is fetched but its content is not used. */
  function Refreshed(products: Reply<seq<Product>>, collections: Reply<seq<Collection>>, blogs: Reply<seq<Blog>>,
                     productAnswers: seq<Reply<seq<Product>>>, articleAnswers: seq<Reply<seq<Article>>>): (r: Reply<ShopData>)
    ensures r.Ok? ==> products.Ok? && collections.Ok? && blogs.Ok?
    ensures r.Ok? ==> |collections.value| <= |productAnswers| && |blogs.value| <= |articleAnswers|
  {
    if products.Failed? || collections.Failed? || blogs.Failed? then Failed
    else Built(collections.value, blogs.value, productAnswers, articleAnswers)
  }

  // ---------------------------------------------------------------------------
  // what a refresh builds
  // ---------------------------------------------------------------------------

  /** A refresh succeeds exactly when every listing and every per-item request
      succeeds. */
  lemma RefreshSucceeds(products: Reply<seq<Product>>, collections: Reply<seq<Collection>>, blogs: Reply<seq<Blog>>,
                        productAnswers: seq<Reply<seq<Product>>>, articleAnswers: seq<Reply<seq<Article>>>)
    ensures Refreshed(products, collections, blogs, productAnswers, articleAnswers).Ok? <==>
      && products.Ok? && collections.Ok? && blogs.Ok?
      && |collections.value| <= |productAnswers| && |blogs.value| <= |articleAnswers|
      && (forall i :: 0 <= i < |collections.value| ==> productAnswers[i].Ok?)
      && (forall i :: 0 <= i < |blogs.value| ==> articleAnswers[i].Ok?)
  {
  }

  /** The collections are keyed by exactly the listed handles; each is filed
      under its own handle, and a handle listed twice keeps the later entry. */
  lemma {:induction false} CollectionsByHandle(cols: seq<Collection>, blogs: seq<Blog>,
                                              productAnswers: seq<Reply<seq<Product>>>, articleAnswers: seq<Reply<seq<Article>>>)
    requires Built(cols, blogs, productAnswers, articleAnswers).Ok?
    ensures var data := Built(cols, blogs, productAnswers, articleAnswers).value;
      && data.collections.Keys == (set i | 0 <= i < |cols| :: cols[i].handle)
      && (forall h :: h in data.collections ==> data.collections[h].handle == h)
      && forall j :: 0 <= j < |cols| && (forall k :: j < k < |cols| ==> cols[k].handle != cols[j].handle) ==>
           data.collections[cols[j].handle] == CollectionEntryOf(cols[j], productAnswers[j].value)
  {
    var es := CollectionEntries(cols, productAnswers);
    var m := Keyed(es, CollectionKey);
    assert forall i :: 0 <= i < |cols| ==> CollectionKey(es[i]) == cols[i].handle;
    assert m.Keys == set i | 0 <= i < |cols| :: cols[i].handle;
    KeyedFiled(es, CollectionKey);
    forall j | 0 <= j < |cols| && (forall k :: j < k < |cols| ==> cols[k].handle != cols[j].handle)
      ensures m[cols[j].handle] == CollectionEntryOf(cols[j], productAnswers[j].value)
    {
      KeyedLastWins(es, CollectionKey, j);
    }
  }

  /** The blogs are keyed by exactly the listed handles; each is filed under its
      own handle, a handle listed twice keeps the later entry, and every article
      names the handle its blog is filed under. */
  lemma {:induction false} BlogsByHandle(cols: seq<Collection>, blogs: seq<Blog>,
                                        productAnswers: seq<Reply<seq<Product>>>, articleAnswers: seq<Reply<seq<Article>>>)
    requires Built(cols, blogs, productAnswers, articleAnswers).Ok?
    ensures var data := Built(cols, blogs, productAnswers, articleAnswers).value;
      && data.blogs.Keys == (set i | 0 <= i < |blogs| :: blogs[i].handle)
      && (forall h :: h in data.blogs ==> data.blogs[h].handle == h)
      && (forall h, a :: h in data.blogs && a in data.blogs[h].articles ==> a.blogHandle == h)
      && forall j :: 0 <= j < |blogs| && (forall k :: j < k < |blogs| ==> blogs[k].handle != blogs[j].handle) ==>
           data.blogs[blogs[j].handle] == BlogEntryOf(blogs[j], articleAnswers[j].value)
  {
    var es := BlogEntries(blogs, articleAnswers);
    var m := Keyed(es, BlogKey);
    assert forall i :: 0 <= i < |blogs| ==> BlogKey(es[i]) == blogs[i].handle;
    assert m.Keys == set i | 0 <= i < |blogs| :: blogs[i].handle;
    KeyedFiled(es, BlogKey);
    forall h, a | h in m && a in m[h].articles ensures a.blogHandle == h {
      var i :| 0 <= i < |es| && m[h] == es[i];
      var k :| 0 <= k < |m[h].articles| && m[h].articles[k] == a;
    }
    forall j | 0 <= j < |blogs| && (forall k :: j < k < |blogs| ==> blogs[k].handle != blogs[j].handle)
      ensures m[blogs[j].handle] == BlogEntryOf(blogs[j], articleAnswers[j].value)
    {
      KeyedLastWins(es, BlogKey, j);
    }
  }

  // ---------------------------------------------------------------------------
  // the refresh loops and the cache
  // ---------------------------------------------------------------------------

  /** The first loop of `refreshShopCache`: one product request per collection,
      each filling `data.collections[col.handle]`. */
  method CollectCollections(cols: seq<Collection>, productAnswers: seq<Reply<seq<Product>>>)
    returns (r: Option<map<string, CollectionEntry>>)
    ensures r.Some? <==> Answered(productAnswers, |cols|)
    ensures r.Some? ==> r.value == Keyed(CollectionEntries(cols, productAnswers), CollectionKey)
  {
    var collections: map<string, CollectionEntry> := map[];
    for i := 0 to |cols|
      invariant Answered(productAnswers, i)
      invariant collections == Keyed(CollectionEntries(cols[..i], productAnswers), CollectionKey)
    {
      if i >= |productAnswers| || productAnswers[i].Failed? {
        return None;
      }
      var colProducts := productAnswers[i].value;
      var entry := CollectionEntryOf(cols[i], colProducts);
      assert CollectionEntries(cols[..i + 1], productAnswers)
        == CollectionEntries(cols[..i], productAnswers) + [entry];
      collections := collections[cols[i].handle := entry];
    }
    assert cols[..|cols|] == cols;
    r := Some(collections);
  }

  /** The second loop: one article request per blog, each filling
      `data.blogs[blog.handle]`. */
  method CollectBlogs(blogs: seq<Blog>, articleAnswers: seq<Reply<seq<Article>>>)
    returns (r: Option<map<string, BlogEntry>>)
    ensures r.Some? <==> Answered(articleAnswers, |blogs|)
    ensures r.Some? ==> r.value == Keyed(BlogEntries(blogs, articleAnswers), BlogKey)
  {
    var blogMap: map<string, BlogEntry> := map[];
    for i := 0 to |blogs|
      invariant Answered(articleAnswers, i)
      invariant blogMap == Keyed(BlogEntries(blogs[..i], articleAnswers), BlogKey)
    {
      if i >= |articleAnswers| || articleAnswers[i].Failed? {
        return None;
      }
      var articles := articleAnswers[i].value;
      var entry := BlogEntryOf(blogs[i], articles);
      assert BlogEntries(blogs[..i + 1], articleAnswers)
        == BlogEntries(blogs[..i], articleAnswers) + [entry];
      blogMap := blogMap[blogs[i].handle := entry];
    }
    assert blogs[..|blogs|] == blogs;
    r := Some(blogMap);
  }

  /** The two loops of `refreshShopCache`, in order. */
  method BuildShopData(cols: seq<Collection>, blogs: seq<Blog>,
                       productAnswers: seq<Reply<seq<Product>>>, articleAnswers: seq<Reply<seq<Article>>>)
    returns (r: Reply<ShopData>)
    ensures r == Built(cols, blogs, productAnswers, articleAnswers)
  {
    var collections := CollectCollections(cols, productAnswers);
    if collections.None? {
      return Failed;
    }
    var blogMap := CollectBlogs(blogs, articleAnswers);
    if blogMap.None? {
      return Failed;
    }
    r := Ok(ShopData(collections.value, blogMap.value));
  }

  /** The module's cache and the time of its last refresh (`null` until then). */
  class ShopCache {
    var cache: Option<ShopData>
    var lastRefresh: Option<int>

    constructor ()
      ensures cache == None && lastRefresh == None
    {
      cache := None;
      lastRefresh := None;
    }

    /** `refreshShopCache`: on success the whole cache is replaced by the fresh
        data, which is returned; a failure throws and leaves the cache as it
        was. */
    method RefreshShopCache(products: Reply<seq<Product>>, collections: Reply<seq<Collection>>, blogs: Reply<seq<Blog>>,
                            productAnswers: seq<Reply<seq<Product>>>, articleAnswers: seq<Reply<seq<Article>>>, now: int)
      returns (r: Reply<ShopData>)
      modifies this
      ensures r == Refreshed(products, collections, blogs, productAnswers, articleAnswers)
      ensures r.Ok? ==> cache == Some(r.value) && lastRefresh == Some(now)
      ensures r.Failed? ==> cache == old(cache) && lastRefresh == old(lastRefresh)
    {
      if products.Failed? || collections.Failed? || blogs.Failed? {
        return Failed;
      }
      r := BuildShopData(collections.value, blogs.value, productAnswers, articleAnswers);
      if r.Ok? {
        cache := Some(r.value);
        lastRefresh := Some(now);
      }
    }

    /** `getShopCache`: the stored data when there is some, without a request;
        otherwise a refresh. `fetched` says whether the store was asked. */
    method GetShopCache(products: Reply<seq<Product>>, collections: Reply<seq<Collection>>, blogs: Reply<seq<Blog>>,
                        productAnswers: seq<Reply<seq<Product>>>, articleAnswers: seq<Reply<seq<Article>>>, now: int)
      returns (r: Reply<ShopData>, fetched: bool)
      modifies this
      ensures fetched <==> old(cache).None?
      ensures old(cache).Some? ==>
        r == Ok(old(cache).value) && cache == old(cache) && lastRefresh == old(lastRefresh)
      ensures old(cache).None? ==>
        && r == Refreshed(products, collections, blogs, productAnswers, articleAnswers)
        && (r.Ok? ==> cache == Some(r.value) && lastRefresh == Some(now))
        && (r.Failed? ==> cache == None && lastRefresh == old(lastRefresh))
    {
      if cache.None? {
        r := RefreshShopCache(products, collections, blogs, productAnswers, articleAnswers, now);
        fetched := true;
      } else {
        r := Ok(cache.value);
        fetched := false;
      }
    }
  }
}
