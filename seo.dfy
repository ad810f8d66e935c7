/** The `/optimize-product` route: check the request, read the product, ask the
    text-generation service for new SEO content, clean and parse its answer,
    write the content, mark the product, and answer.

    The service's answer is an input (`Failed` when the request fails) and
    `JSON.parse` is a parameter; the store is the `Store` object of the gateway
    model. */
module Seo {

  import opened Wrappers
  import opened Text
  import opened Shopify

  /** The fields of the service's JSON answer the route reads (`None` when
      absent). */
  datatype SeoJson = SeoJson(
    keyword: Option<string>,
    title: Option<string>,
    slug: Option<string>,
    metaTitle: Option<string>,
    metaDescription: Option<string>,
    descriptionHtml: Option<string>)

  /** A metafield of the update payload. */
  datatype SeoField = SeoField(key: string, namespace: string, value: Option<string>, valueType: string)

  /** The data the route passes to `updateProduct`. */
  datatype ProductUpdate = ProductUpdate(
    title: Option<string>,
    bodyHtml: Option<string>,
    handle: Option<string>,
    metafields: seq<SeoField>)

  /** The route's answer: a status and either an error or the parsed fields with
      a success message. */
  datatype Body =
    | Error(error: string)
    | Success(json: SeoJson, message: string)
  datatype Response = Response(status: int, body: Body)

  const SuccessMessage: string := "Produit optimis\U{E9} avec succ\U{E8}s"

  /** The answer's text as the route parses it: trimmed, every `` ```json `` in
      any case removed, every `` ``` `` removed, trimmed again. */
  function Cleaned(raw: string): (r: string)
  {
    Trim(Strip(Strip(Trim(raw), ["```json"], true), [Fence], false))
  }

  /** The cleaning steps of the route, in order. */
  method CleanOutput(raw: string) returns (output: string)
    ensures output == Cleaned(raw)
  {
    output := Trim(raw);
    output := Strip(output, ["```json"], true);
    output := Strip(output, [Fence], false);
    output := Trim(output);
  }

  /** What the route parses holds no code fence. */
  lemma CleanedHasNoFence(raw: string)
    ensures !Contains(Cleaned(raw), Fence)
  {
    var s := Strip(Strip(Trim(raw), ["```json"], true), [Fence], false);
    StripFenceFree(Strip(Trim(raw), ["```json"], true), [Fence]);
    if Contains(Trim(s), Fence) {
      ContainsTrimmed(s, Fence);
    }
  }

  /** The `` ```json `` opening an answer is removed and the rest kept. */
  lemma OpeningFenceRemoved(body: string)
    requires '`' !in body
    ensures Strip("```json" + body + Fence, ["```json"], true) == body + Fence
  {
    var json := "```json";
    assert json + body + Fence == json + (body + Fence);
    MatchLenFirst(json + (body + Fence), [json], true, 0);
    StripDropsMatch(json, body + Fence, [json], true);
    BacktickFreeKept(body, Fence, [json], true);
    forall k | 0 <= k < |Fence| ensures MatchLen(Fence[k..], [json], true) == 0 {
      MatchLenZero(Fence[k..], [json], true);
    }
    StripKeeps(Fence, [json], true);
  }

  /** The closing `` ``` `` is removed and the body kept. */
  lemma ClosingFenceRemoved(body: string)
    requires '`' !in body
    ensures Strip(body + Fence, [Fence], false) == body
  {
    BacktickFreeKept(body, Fence, [Fence], false);
    MatchLenFirst(Fence, [Fence], false, 0);
    assert Fence + "" == Fence;
    StripDropsMatch(Fence, "", [Fence], false);
    assert body + "" == body;
  }

  /** An answer wrapped in a `` ```json `` fence is read as the text inside it,
      trimmed, when that text holds no backtick. */
  lemma CleanedFencedJson(body: string)
    requires '`' !in body
    ensures Cleaned("```json" + body + Fence) == Trim(body)
  {
    var raw := "```json" + body + Fence;
    assert raw[0] == '`' && raw[|raw| - 1] == '`';
    TrimOfTrimmed(raw);
    OpeningFenceRemoved(body);
    ClosingFenceRemoved(body);
  }

  /** The update payload built from the answer. */
  function Payload(json: SeoJson): (u: ProductUpdate)
    ensures u.title == json.title && u.bodyHtml == json.descriptionHtml && u.handle == json.slug
    ensures |u.metafields| == 2
    ensures u.metafields[0] == SeoField("meta_title", "seo", json.metaTitle, "single_line_text_field")
    ensures u.metafields[1] == SeoField("meta_description", "seo", json.metaDescription, "multi_line_text_field")
  {
    ProductUpdate(json.title, json.descriptionHtml, json.slug, [
      SeoField("meta_title", "seo", json.metaTitle, "single_line_text_field"),
      SeoField("meta_description", "seo", json.metaDescription, "multi_line_text_field")])
  }

  /** JavaScript truthiness of the request's `productId`: a missing id and the
      number 0 are the only ones turned away. */
  predicate ProductIdGiven(productId: Option<int>): (given: bool)
    ensures !given <==> productId == None || productId == Some(0)
  {
    productId.Some? && productId.value != 0
  }

  /** The shop's verdict on each request the route sends, in order (`true`
      accepts it): the read of the product, the content PUT, then the read, the
      tags PUT and the marker POST of `markAsOptimized`. */
  datatype ShopVerdicts = ShopVerdicts(read: bool, content: bool, reread: bool, tags: bool, marker: bool)

  /** How many of the route's three writes (content, tags, marker) the shop
      applies once the route reaches them: each is sent only after the request
      before it was accepted. */
  function Applied(v: ShopVerdicts): (n: nat)
    ensures n <= 3
    ensures n == 3 <==> v.content && v.reread && v.tags && v.marker
    ensures n == 0 <==> !v.content
  {
    if !v.content then 0
    else if !v.reread || !v.tags then 1
    else if !v.marker then 2
    else 3
  }

  /** The product after the route's writes: the content of the payload, then the
      merged tags. */
  function Optimized(p: Product, update: ProductUpdate): (r: Product)
    ensures r.id == p.id
    ensures r.tags == Some(MergeTags(p.tags))
  {
    var patched := Patched(p, update.title, update.bodyHtml, update.handle);
    patched.(tags := Some(MergeTags(patched.tags)))
  }

  /** After the route's writes the product carries the payload's title, body and
      handle, and keeps its own where the payload leaves one undefined. */
  lemma OptimizedContent(p: Product, update: ProductUpdate)
    ensures var r := Optimized(p, update);
      && r.title == (if update.title.Some? then update.title.value else p.title)
      && r.bodyHtml == (if update.bodyHtml.Some? then update.bodyHtml.value else p.bodyHtml)
      && r.handle == (if update.handle.Some? then update.handle.value else p.handle)
  {
  }

  /** The product once the first `n` of the route's writes are applied. */
  function Written(p: Product, update: ProductUpdate, n: nat): Product {
    if n == 0 then p
    else if n == 1 then Patched(p, update.title, update.bodyHtml, update.handle)
    else Optimized(p, update)
  }

  /** The first `n` of the route's writes, in the order sent: the content PUT,
      the PUT of the merged tags `tags`, the marker POST. */
  function RouteWrites(id: int, update: ProductUpdate, tags: string, n: nat): seq<Write> {
    var content := PutProduct(id, update.title, update.bodyHtml, update.handle);
    if n == 0 then []
    else if n == 1 then [content]
    else if n == 2 then [content, PutTags(id, tags)]
    else [content, PutTags(id, tags), PostMetafield(Marker(id))]
  }

  lemma UpdateTwice<K, V>(m: map<K, V>, k: K, a: V, b: V)
    ensures m[k := a][k := b] == m[k := b]
  {
  }

  lemma UpdateSame<K, V>(m: map<K, V>, k: K)
    requires k in m
    ensures m[k := m[k]] == m
  {
  }

  /** The writes of the route: `updateProduct`, and only once it has completed,
      `markAsOptimized`. The shop keeps the writes it accepted before the first
      one it rejected; the marker is added only when all of them were accepted. */
  method WriteOptimization(store: Store, id: int, update: ProductUpdate, v: ShopVerdicts) returns (ok: bool)
    requires id in store.products
    modifies store
    ensures ok == (Applied(v) == 3)
    ensures store.products == old(store.products)[id := Written(old(store.products)[id], update, Applied(v))]
    ensures store.metafields == old(store.metafields) + (if ok then [Marker(id)] else [])
    ensures store.writes == old(store.writes) + RouteWrites(id, update, MergeTags(old(store.products)[id].tags), Applied(v))
    ensures ok ==> IsAlreadyOptimized(OwnedBy(store.metafields, id))
  {
    ghost var before := store.products;
    ghost var log := store.writes;
    var updated := store.UpdateProduct(id, update.title, update.bodyHtml, update.handle, v.content);
    if !updated {
      UpdateSame(before, id);
      return false;
    }
    ok := store.MarkAsOptimized(id, v.reread, v.tags, v.marker);
    if v.reread && v.tags {
      TaggedAfterPatch(before, id, update);
      WritesAfterContent(log, id, update, MergeTags(before[id].tags));
    }
  }

  /** The tags PUT and the marker POST follow the content PUT in the log. */
  lemma WritesAfterContent(log: seq<Write>, id: int, update: ProductUpdate, tags: string)
    ensures var content := PutProduct(id, update.title, update.bodyHtml, update.handle);
      && (log + [content]) + [PutTags(id, tags)] == log + RouteWrites(id, update, tags, 2)
      && (log + [content]) + [PutTags(id, tags), PostMetafield(Marker(id))] == log + RouteWrites(id, update, tags, 3)
  {
    var content := PutProduct(id, update.title, update.bodyHtml, update.handle);
    AppendAfter(log, content, [PutTags(id, tags)]);
    AppendAfter(log, content, [PutTags(id, tags), PostMetafield(Marker(id))]);
  }

  lemma AppendAfter<T>(log: seq<T>, a: T, rest: seq<T>)
    ensures (log + [a]) + rest == log + ([a] + rest)
  {
  }

  /** The tags PUT on the patched product gives the optimized product. */
  lemma TaggedAfterPatch(before: map<int, Product>, id: int, update: ProductUpdate)
    requires id in before
    ensures var mid := before[id := Patched(before[id], update.title, update.bodyHtml, update.handle)];
      mid[id := mid[id].(tags := Some(MergeTags(mid[id].tags)))] == before[id := Optimized(before[id], update)]
  {
    var mid := before[id := Patched(before[id], update.title, update.bodyHtml, update.handle)];
    UpdateTwice(before, id, mid[id], Optimized(before[id], update));
  }

  /** The route reaches its writes: a product id is given, the shop has the
      product and answered its read, and the service's answer parsed. */
  predicate ReachesWrites(products: map<int, Product>, productId: Option<int>, v: ShopVerdicts,
                          answer: Reply<string>, parse: string -> Option<SeoJson>)
  {
    && ProductIdGiven(productId) && productId.value in products && v.read
    && answer.Ok? && parse(Cleaned(answer.value)).Some?
  }

  /** The route handler. Any rejected request or failed step after validation
      answers 500; the writes already accepted stay in the shop. */
  method OptimizeProduct(store: Store, productId: Option<int>, answer: Reply<string>,
                         parse: string -> Option<SeoJson>, v: ShopVerdicts)
    returns (response: Response)
    modifies store
    ensures !ProductIdGiven(productId) ==> response == Response(400, Error("Missing productId"))
    ensures ProductIdGiven(productId) && productId.value !in old(store.products) ==>
      response == Response(404, Error("Product not found"))
    ensures response.status in {200, 400, 404, 500}
    ensures response.status == 500 ==> response.body == Error("Optimize error")
    ensures (&& ProductIdGiven(productId) && productId.value in old(store.products)
             && !(ReachesWrites(old(store.products), productId, v, answer, parse) && Applied(v) == 3)) ==>
      response == Response(500, Error("Optimize error"))
    ensures response.status == 200 <==>
      ReachesWrites(old(store.products), productId, v, answer, parse) && Applied(v) == 3
    ensures !ReachesWrites(old(store.products), productId, v, answer, parse) ==>
      store.products == old(store.products) && store.metafields == old(store.metafields) && store.writes == old(store.writes)
    ensures ReachesWrites(old(store.products), productId, v, answer, parse) ==>
      var id := productId.value;
      var json := parse(Cleaned(answer.value)).value;
      var update := Payload(json);
      var n := Applied(v);
      && store.products == old(store.products)[id := Written(old(store.products)[id], update, n)]
      && store.metafields == old(store.metafields) + (if n == 3 then [Marker(id)] else [])
      && store.writes == old(store.writes) + RouteWrites(id, update, MergeTags(old(store.products)[id].tags), n)
      && (n == 3 ==> response == Response(200, Success(json, SuccessMessage)))
      && (n == 3 ==> IsAlreadyOptimized(OwnedBy(store.metafields, id)))
  {
    if !ProductIdGiven(productId) {
      return Response(400, Error("Missing productId"));
    }
    var id := productId.value;
    if id !in store.products {
      return Response(404, Error("Product not found"));
    }
    if !v.read || answer.Failed? {
      return Response(500, Error("Optimize error"));
    }
    var output := CleanOutput(answer.value);
    var json := parse(output);
    if json.None? {
      return Response(500, Error("Optimize error"));
    }
    var update := Payload(json.value);
    var ok := WriteOptimization(store, id, update, v);
    if !ok {
      return Response(500, Error("Optimize error"));
    }
    response := Response(200, Success(json.value, SuccessMessage));
  }
}
