/** The store-side rules of the Shopify gateway: the "optimized" tag merge, the
    metafield marker and the predicate that reads it, the partial product
    update, and the collection lookups. The store's REST API is a `Store` object
    whose fields hold what the server holds and a log of the writes it applied. */
module Shopify {

  import opened Wrappers
  import opened Text

  datatype Product = Product(id: int, title: string, bodyHtml: string, handle: string, tags: Option<string>)
  datatype Collection = Collection(id: int, title: string, handle: string)
  /** A membership record of `/collects.json`: the product belongs to the collection. */
  datatype Collect = Collect(productId: int, collectionId: int)
  datatype Blog = Blog(id: int, title: string, handle: string)
  datatype Article = Article(id: int, title: string, handle: string)
  datatype Metafield = Metafield(namespace: string, key: string, value: string, valueType: string, ownerId: int)

  // ---------------------------------------------------------------------------
  // the "optimized" tag
  // ---------------------------------------------------------------------------

  const Sentinel: string := "optimized"

  /** `parts.map(t => t.trim())`. */
  function TrimAll(parts: seq<string>): (r: seq<string>)
    ensures |r| == |parts|
    ensures forall i :: 0 <= i < |r| ==> r[i] == Trim(parts[i])
  {
    seq(|parts|, i requires 0 <= i < |parts| => Trim(parts[i]))
  }

  lemma NotInSlice(s: string, c: char, a: nat, b: nat)
    requires a <= b <= |s|
    requires c !in s
    ensures c !in s[a..b]
  {
    forall i | 0 <= i < b - a ensures s[a..b][i] != c {
      assert s[a..b][i] == s[a + i];
    }
  }

  /** The tag list `markAsOptimized` reads from a product's `tags` string: nothing
      when the string is missing or empty, otherwise its comma-separated parts,
      trimmed. No tag holds a comma or surrounding white space. */
  function TagList(tags: Option<string>): (list: seq<string>)
    ensures !Truthy(tags) ==> list == []
    ensures Truthy(tags) ==> |list| == |Split(tags.value, ',')| >= 1
    ensures Truthy(tags) ==> forall i :: 0 <= i < |list| ==> list[i] == Trim(Split(tags.value, ',')[i])
    ensures forall i :: 0 <= i < |list| ==> ',' !in list[i] && IsTrimmed(list[i])
  {
    if Truthy(tags) then
      var parts := Split(tags.value, ',');
      var list := TrimAll(parts);
      assert forall i :: 0 <= i < |list| ==> ',' !in list[i] by {
        forall i | 0 <= i < |list| ensures ',' !in list[i] {
          NotInSlice(parts[i], ',', TrimOffset(parts[i]), TrimOffset(parts[i]) + |list[i]|);
        }
      }
      list
    else []
  }

  /** The tag list after the merge: the existing tags in their order, then the
      sentinel once at the end when it was not among them. */
  function MergedTags(list: seq<string>): (r: seq<string>)
    ensures |list| <= |r| <= |list| + 1
    ensures r[..|list|] == list
    ensures Sentinel in r
    ensures |r| == |list| <==> Sentinel in list
    ensures multiset(r)[Sentinel] == if Sentinel in list then multiset(list)[Sentinel] else 1
  {
    if Sentinel in list then list
    else
      assert multiset(list)[Sentinel] == 0;
      list + [Sentinel]
  }

  /** The tags string `markAsOptimized` writes back. A missing or empty tags string
      becomes the sentinel alone. */
  function MergeTags(tags: Option<string>): (r: string)
    ensures !Truthy(tags) ==> r == Sentinel
  {
    Join(MergedTags(TagList(tags)), ", ")
  }

  lemma TrimAllAppend(a: seq<string>, b: seq<string>)
    ensures TrimAll(a + b) == TrimAll(a) + TrimAll(b)
  {
  }

  /** One tag behind an optional leading space reads back as itself. */
  lemma LeadTag(x: string, lead: string)
    requires ',' !in x && IsTrimmed(x)
    requires lead == "" || lead == " "
    ensures ',' !in lead + x
    ensures TrimAll([lead + x]) == [x]
  {
    if lead == "" {
      assert lead + x == x;
      TrimOfTrimmed(x);
    } else {
      TrimAfterSpace(x);
    }
  }

  lemma JoinCommaCons(list: seq<string>, lead: string)
    requires |list| >= 2
    ensures lead + Join(list, ", ") == (lead + list[0]) + [','] + (" " + Join(list[1..], ", "))
  {
  }

  /** The tags read back from a joined list, behind an optional leading space,
      are the list. */
  lemma {:induction false} TagsOfJoin(list: seq<string>, lead: string)
    requires |list| >= 1
    requires forall i :: 0 <= i < |list| ==> ',' !in list[i] && IsTrimmed(list[i])
    requires lead == "" || lead == " "
    ensures TrimAll(Split(lead + Join(list, ", "), ',')) == list
    decreases |list|
  {
    var x := list[0];
    LeadTag(x, lead);
    if |list| == 1 {
      SplitNoSep(lead + x, ',');
    } else {
      var j := Join(list[1..], ", ");
      JoinCommaCons(list, lead);
      SplitAfter(lead + x, " " + j, ',');
      assert forall i :: 0 <= i < |list[1..]| ==> list[1..][i] == list[i + 1];
      TagsOfJoin(list[1..], " ");
      TrimAllAppend([lead + x], Split(" " + j, ','));
      assert [x] + list[1..] == list;
    }
  }

  /** Reading back a joined tag list gives the list: the tags of a tag string the
      merge wrote are the tags it merged. */
  lemma TagListOfJoin(list: seq<string>)
    requires |list| >= 1
    requires forall i :: 0 <= i < |list| ==> ',' !in list[i] && IsTrimmed(list[i])
    requires Join(list, ", ") != ""
    ensures TagList(Some(Join(list, ", "))) == list
  {
    TagsOfJoin(list, "");
    assert "" + Join(list, ", ") == Join(list, ", ");
  }

  /** Every part of a join is at most as long as the join. */
  lemma {:induction false} JoinLongerThanParts(parts: seq<string>, sep: string, i: nat)
    requires i < |parts|
    ensures |Join(parts, sep)| >= |parts[i]|
    decreases |parts|
  {
    if i > 0 {
      JoinLongerThanParts(parts[1..], sep, i - 1);
    }
  }

  /** The merge keeps the tags clean: no comma, no surrounding white space. */
  lemma MergedTagsClean(list: seq<string>)
    requires forall i :: 0 <= i < |list| ==> ',' !in list[i] && IsTrimmed(list[i])
    ensures forall i :: 0 <= i < |MergedTags(list)| ==> ',' !in MergedTags(list)[i] && IsTrimmed(MergedTags(list)[i])
  {
    var merged := MergedTags(list);
    forall i | 0 <= i < |merged| ensures ',' !in merged[i] && IsTrimmed(merged[i]) {
      if i < |list| {
        assert merged[i] == merged[..|list|][i];
      }
    }
  }

  /** Merging a tag string the merge already wrote changes nothing, so the
      sentinel never appears twice. */
  lemma MergeTagsIdempotent(tags: Option<string>)
    ensures TagList(Some(MergeTags(tags))) == MergedTags(TagList(tags))
    ensures MergeTags(Some(MergeTags(tags))) == MergeTags(tags)
  {
    var merged := MergedTags(TagList(tags));
    var k :| 0 <= k < |merged| && merged[k] == Sentinel;
    JoinLongerThanParts(merged, ", ", k);
    MergedTagsClean(TagList(tags));
    TagListOfJoin(merged);
  }

  // ---------------------------------------------------------------------------
  // the metafield marker
  // ---------------------------------------------------------------------------

  /** The marker `markAsOptimized` posts for a product. */
  function Marker(productId: int): (m: Metafield)
    ensures IsMarker(m) && m.ownerId == productId
  {
    Metafield("ai_seo", "optimized", "true", "single_line_text_field", productId)
  }

  predicate IsMarker(m: Metafield) {
    m.namespace == "ai_seo" && m.key == "optimized" && m.value == "true"
  }

  /** `isAlreadyOptimized` on a product's metafield listing: some metafield is
      the marker. */
  function IsAlreadyOptimized(fields: seq<Metafield>): (r: bool)
    ensures r <==> exists i :: 0 <= i < |fields| && IsMarker(fields[i])
    decreases |fields|
  {
    if |fields| == 0 then false
    else if IsMarker(fields[0]) then true
    else
      var r := IsAlreadyOptimized(fields[1..]);
      assert forall i :: 1 <= i < |fields| ==> fields[i] == fields[1..][i - 1];
      r
  }

  /** The metafields listed under `/products/{id}/metafields.json`: those the
      product owns, in the order they were created. */
  function OwnedBy(fields: seq<Metafield>, id: int): (r: seq<Metafield>)
    ensures |r| <= |fields|
    ensures forall i :: 0 <= i < |r| ==> r[i].ownerId == id && r[i] in fields
    decreases |fields|
  {
    if |fields| == 0 then []
    else
      var init := fields[..|fields| - 1];
      var last := fields[|fields| - 1];
      OwnedBy(init, id) + (if last.ownerId == id then [last] else [])
  }

  /** After the marker is posted for a product, the product reads as optimized. */
  lemma MarkedIsOptimized(fields: seq<Metafield>, id: int)
    ensures IsAlreadyOptimized(OwnedBy(fields + [Marker(id)], id))
  {
    var all := fields + [Marker(id)];
    assert all[..|all| - 1] == fields;
    var owned := OwnedBy(all, id);
    assert owned[|owned| - 1] == Marker(id);
  }

  /** Posting metafields never takes a marker away. */
  lemma {:induction false} OptimizedStaysOptimized(fields: seq<Metafield>, more: seq<Metafield>, id: int)
    requires IsAlreadyOptimized(OwnedBy(fields, id))
    ensures IsAlreadyOptimized(OwnedBy(fields + more, id))
    decreases |more|
  {
    if |more| == 0 {
      assert fields + more == fields;
    } else {
      var init := fields + more[..|more| - 1];
      var all := fields + more;
      assert all[..|all| - 1] == init;
      OptimizedStaysOptimized(fields, more[..|more| - 1], id);
      var i :| 0 <= i < |OwnedBy(init, id)| && IsMarker(OwnedBy(init, id)[i]);
      assert OwnedBy(all, id)[i] == OwnedBy(init, id)[i];
    }
  }

  // ---------------------------------------------------------------------------
  // the store
  // ---------------------------------------------------------------------------

  /** A write request the gateway sends to the store; the store logs the ones it
      applies, in the order applied. */
  datatype Write =
    | PutProduct(id: int, title: Option<string>, bodyHtml: Option<string>, handle: Option<string>)
    | PutTags(id: int, tags: string)
    | PostMetafield(field: Metafield)

  /** The product after a PUT of `{id, title, body_html, handle}`: a field the
      body leaves undefined is dropped by JSON serialisation and keeps its value;
      nothing else about the product changes. */
  function Patched(p: Product, title: Option<string>, bodyHtml: Option<string>, handle: Option<string>): (r: Product)
    ensures r.id == p.id && r.tags == p.tags
    ensures title.Some? ==> r.title == title.value
    ensures bodyHtml.Some? ==> r.bodyHtml == bodyHtml.value
    ensures handle.Some? ==> r.handle == handle.value
    ensures title.None? ==> r.title == p.title
    ensures bodyHtml.None? ==> r.bodyHtml == p.bodyHtml
    ensures handle.None? ==> r.handle == p.handle
  {
    p.(title := if title.Some? then title.value else p.title,
       bodyHtml := if bodyHtml.Some? then bodyHtml.value else p.bodyHtml,
       handle := if handle.Some? then handle.value else p.handle)
  }

  /** The shop behind the REST API: its products and metafields, and every write
      it has applied, in order. Whether the shop accepts a request is an input
      of each operation (`true` accepts it); a rejected request rejects the
      gateway's promise, so the operation stops there. A request about a product
      the shop does not have is rejected as well (404). */
  class Store {
    var products: map<int, Product>
    var metafields: seq<Metafield>
    var writes: seq<Write>

    constructor (products: map<int, Product>, metafields: seq<Metafield>)
      ensures this.products == products && this.metafields == metafields && writes == []
    {
      this.products := products;
      this.metafields := metafields;
      writes := [];
    }

    /** The listing `isAlreadyOptimized` fetches for a product. */
    function MetafieldsOf(id: int): seq<Metafield>
      reads this
    {
      OwnedBy(metafields, id)
    }

    /** `updateProduct`: one PUT of the title, body and handle, which the shop
        accepts or not. The `metafields` a caller passes are not part of the
        request. */
    method UpdateProduct(id: int, title: Option<string>, bodyHtml: Option<string>, handle: Option<string>, accepted: bool)
      returns (ok: bool)
      modifies this
      ensures ok == (id in old(products) && accepted)
      ensures ok ==> products == old(products)[id := Patched(old(products)[id], title, bodyHtml, handle)]
      ensures ok ==> writes == old(writes) + [PutProduct(id, title, bodyHtml, handle)]
      ensures !ok ==> products == old(products) && writes == old(writes)
      ensures metafields == old(metafields)
    {
      if id !in products || !accepted {
        return false;
      }
      products := products[id := Patched(products[id], title, bodyHtml, handle)];
      writes := writes + [PutProduct(id, title, bodyHtml, handle)];
      ok := true;
    }

    /** `markAsOptimized`: read the product, PUT the merged tags, then POST a new
        marker metafield without looking for an existing one, and answer true.
        `read`, `tagged` and `posted` are the shop's verdicts on the GET, the PUT
        and the POST: a rejected GET or PUT leaves everything as it was, and a
        rejected POST leaves the tags written but adds no marker. */
    method MarkAsOptimized(id: int, read: bool, tagged: bool, posted: bool) returns (ok: bool)
      modifies this
      ensures ok == (id in old(products) && read && tagged && posted)
      ensures id in old(products) && read && tagged ==>
        products == old(products)[id := old(products)[id].(tags := Some(MergeTags(old(products)[id].tags)))]
      ensures id in old(products) && read && tagged && !posted ==>
        writes == old(writes) + [PutTags(id, MergeTags(old(products)[id].tags))]
      ensures ok ==>
        writes == old(writes) + [PutTags(id, MergeTags(old(products)[id].tags)), PostMetafield(Marker(id))]
      ensures !(id in old(products) && read && tagged) ==> products == old(products) && writes == old(writes)
      ensures ok ==> metafields == old(metafields) + [Marker(id)]
      ensures ok ==> IsAlreadyOptimized(MetafieldsOf(id))
      ensures !ok ==> metafields == old(metafields)
    {
      if id !in products || !read || !tagged {
        return false;
      }
      var product := products[id];
      var joined := MergeTags(product.tags);
      products := products[id := product.(tags := Some(joined))];
      if !posted {
        writes := writes + [PutTags(id, joined)];
        return false;
      }
      var marker := Marker(id);
      MarkedIsOptimized(metafields, id);
      // the shop applies the tags PUT, then the marker POST, in the order logged
      metafields := metafields + [marker];
      writes := writes + [PutTags(id, joined), PostMetafield(marker)];
      ok := true;
    }
  }

  // ---------------------------------------------------------------------------
  // collections
  // ---------------------------------------------------------------------------

  /** `getProductCollection`, given the answer to the collect listing (`None`
      when it lists no `collects`) and the shop's verdict `accepted` on the
      collection fetch: no collection when the listing is missing or empty;
      otherwise the collection named by the first collect. The call fails when
      either request is rejected, and the fetch is rejected when the shop has no
      such collection. */
  function ProductCollection(collects: Reply<Option<seq<Collect>>>, collections: map<int, Collection>, accepted: bool)
    : (r: Reply<Option<Collection>>)
    ensures r == Ok(None) <==> collects.Ok? && (collects.value.None? || |collects.value.value| == 0)
    ensures r.Ok? && r.value.Some? ==>
      && collects.Ok? && collects.value.Some? && |collects.value.value| > 0
      && collects.value.value[0].collectionId in collections
      && r.value.value == collections[collects.value.value[0].collectionId]
    ensures r.Failed? <==>
      || collects.Failed?
      || (&& collects.value.Some? && |collects.value.value| > 0
          && (collects.value.value[0].collectionId !in collections || !accepted))
  {
    if collects.Failed? then Failed
    else if collects.value.None? || |collects.value.value| == 0 then Ok(None)
    else
      var collectionId := collects.value.value[0].collectionId;
      if collectionId in collections && accepted then Ok(Some(collections[collectionId])) else Failed
  }

  /** `getAllCollections`, given the answers to its two listings: the custom
      collections, then the smart ones; a rejected listing rejects the call. */
  function AllCollections(custom: Reply<seq<Collection>>, smart: Reply<seq<Collection>>): (r: Reply<seq<Collection>>)
    ensures r.Ok? <==> custom.Ok? && smart.Ok?
    ensures r.Ok? ==> |r.value| == |custom.value| + |smart.value|
    ensures r.Ok? ==> r.value[..|custom.value|] == custom.value && r.value[|custom.value|..] == smart.value
  {
    if custom.Failed? || smart.Failed? then Failed else Ok(custom.value + smart.value)
  }
}
