/** The deterministic part of `optimizeProduct`: the main keyword derived from
    the product's collection (or its own title), the values placed in the prompt,
    and the renaming of the fields the text-generation service answers with.
    The prompt text and the service are outside the model: the service's answer
    is an input and `JSON.parse` is a parameter. */
module Ai {

  import opened Wrappers
  import opened Text
  import opened Shopify

  /** The alternatives of `/collection|promo|officiel|produits|nouveautés/gi`. */
  const MarketingWords: seq<string> := ["collection", "promo", "officiel", "produits", "nouveaut\U{E9}s"]

  /** `s.split(" ")[0]`: the text before the first space. */
  function FirstWord(s: string): (w: string)
    ensures ' ' !in w
  {
    Split(s, ' ')[0]
  }

  /** The first word is the longest space-free prefix. */
  lemma {:induction false} FirstWordIsPrefix(s: string)
    ensures IsPrefix(FirstWord(s), s)
    ensures |FirstWord(s)| < |s| ==> s[|FirstWord(s)|] == ' '
    decreases |s|
  {
    if |s| > 0 && s[0] != ' ' {
      FirstWordIsPrefix(s[1..]);
      assert FirstWord(s) == [s[0]] + FirstWord(s[1..]);
    }
  }

  /** The collection title without the marketing words (matched anywhere, in any
      case) and without surrounding white space. */
  function CleanTitle(title: string): (c: string)
    ensures IsTrimmed(c)
  {
    Trim(Strip(title, MarketingWords, true))
  }

  /** No marketing word, in any case, occurs anywhere in `t`. */
  predicate FreeOfMarketingWords(t: string) {
    forall k, i :: 0 <= k < |t| && 0 <= i < |MarketingWords| ==> !MatchesAt(t[k..], MarketingWords[i], true)
  }

  /** A title without marketing words is only trimmed. */
  lemma CleanTitleKeeps(t: string)
    requires FreeOfMarketingWords(t)
    ensures CleanTitle(t) == Trim(t)
  {
    forall k | 0 <= k < |t| ensures MatchLen(t[k..], MarketingWords, true) == 0 {
      MatchLenZero(t[k..], MarketingWords, true);
    }
    StripKeeps(t, MarketingWords, true);
  }

  /** A marketing word, written in any case, in front of a title without
      marketing words is removed, and the rest of the title is kept. */
  lemma CleanTitleDropsWord(w: string, p: string, t: string)
    requires w in MarketingWords
    requires |p| == |w| && MatchesAt(p, w, true)
    requires FreeOfMarketingWords(t)
    ensures CleanTitle(p + t) == Trim(t)
  {
    var j :| 0 <= j < |MarketingWords| && MarketingWords[j] == w;
    var s := p + t;
    forall x | 0 <= x < |w| ensures SameChar(s[x], w[x], true) {
      assert s[x] == p[x];
    }
    // each earlier word differs from `w` at a character both spell
    forall i | 0 <= i < j && |MarketingWords[i]| > 0 ensures !MatchesAt(s, MarketingWords[i], true) {
      var d := if i == 1 && j == 3 then 3 else 0;
      assert s[d] == p[d];
      assert Canon(MarketingWords[i][d]) != Canon(w[d]);
    }
    MatchLenFirst(s, MarketingWords, true, j);
    StripDropsMatch(p, t, MarketingWords, true);
    CleanTitleKeeps(t);
  }

  /** The keyword a collection title suggests. */
  function Candidate(title: string): (w: string)
    ensures ' ' !in w
  {
    FirstWord(CleanTitle(title))
  }

  /** The main keyword: the collection's candidate when it has at least three
      UTF-16 code units, otherwise the first word of the product title, whatever
      its length. */
  function Keyword(collection: Option<Collection>, productTitle: string): (k: string)
    ensures ' ' !in k
  {
    var candidate := if collection.Some? then Candidate(collection.value.title) else "";
    if candidate == "" || Utf16Length(candidate) < 3 then FirstWord(productTitle) else candidate
  }

  /** A kept keyword is at least three code units long, holds no space, and is
      the beginning of the cleaned collection title. */
  lemma KeptKeyword(collection: Collection, productTitle: string)
    requires Utf16Length(Candidate(collection.title)) >= 3
    ensures var k := Keyword(Some(collection), productTitle);
      && k == Candidate(collection.title)
      && Utf16Length(k) >= 3 && |k| >= 2
      && IsPrefix(k, CleanTitle(collection.title))
      && !IsSpace(k[0])
  {
    var c := CleanTitle(collection.title);
    FirstWordIsPrefix(c);
    assert c[0] == Candidate(collection.title)[0];
  }

  /** A candidate shorter than three code units (the empty one included) falls
      back to the first word of the product title. */
  lemma ShortKeywordFallsBack(collection: Collection, productTitle: string)
    requires Utf16Length(Candidate(collection.title)) < 3
    ensures Keyword(Some(collection), productTitle) == FirstWord(productTitle)
  {
  }

  /** The values the prompt shows about the collection and the keyword. */
  datatype PromptContext = PromptContext(collectionName: string, collectionHandle: string, keyword: string)

  function Context(collection: Option<Collection>, productTitle: string): (c: PromptContext)
    ensures collection.None? ==> c.collectionName == "" && c.collectionHandle == ""
    ensures collection.Some? ==> c.collectionName == collection.value.title && c.collectionHandle == collection.value.handle
    ensures c.keyword == Keyword(collection, productTitle)
  {
    if collection.Some? then
      PromptContext(collection.value.title, collection.value.handle, Keyword(collection, productTitle))
    else
      PromptContext("", "", Keyword(collection, productTitle))
  }

  /** Without a collection the prompt names none and the keyword is the first
      word of the product title. */
  lemma NoCollectionContext(productTitle: string)
    ensures Context(None, productTitle) == PromptContext("", "", FirstWord(productTitle))
  {
  }

  // ---------------------------------------------------------------------------
  // the answer
  // ---------------------------------------------------------------------------

  /** The fields of the service's JSON answer that are read (`None` when absent). */
  datatype ModelJson = ModelJson(
    title: Option<string>,
    descriptionHtml: Option<string>,
    metaDescription: Option<string>,
    handle: Option<string>)

  /** The object `optimizeProduct` returns. */
  datatype Optimization = Optimization(
    title: Option<string>,
    bodyHtml: Option<string>,
    metaDescription: Option<string>,
    handle: Option<string>)

  /** The renaming of the answer: `description_html` becomes `body_html`, the
      other fields keep their names, no value changes. */
  function ToOptimization(j: ModelJson): (o: Optimization)
    ensures o.title == j.title && o.bodyHtml == j.descriptionHtml
    ensures o.metaDescription == j.metaDescription && o.handle == j.handle
  {
    Optimization(j.title, j.descriptionHtml, j.metaDescription, j.handle)
  }

  function FromOptimization(o: Optimization): ModelJson {
    ModelJson(o.title, o.bodyHtml, o.metaDescription, o.handle)
  }

  /** The renaming loses nothing: both directions are inverse. */
  lemma RenamingIsBijective(j: ModelJson, o: Optimization)
    ensures FromOptimization(ToOptimization(j)) == j
    ensures ToOptimization(FromOptimization(o)) == o
  {
  }

  /** `optimizeProduct` after the service answered (`Failed` when the request
      fails): the prompt context, and the renamed answer unless parsing the
      answer's content throws. */
  datatype Run = Run(context: PromptContext, outcome: Reply<Optimization>)

  function OptimizeProduct(productTitle: string, collection: Option<Collection>,
                           answer: Reply<string>, parse: string -> Option<ModelJson>): (r: Run)
    ensures r.context == Context(collection, productTitle)
    ensures r.outcome.Ok? <==> answer.Ok? && parse(answer.value).Some?
    ensures r.outcome.Ok? ==> FromOptimization(r.outcome.value) == parse(answer.value).value
  {
    var context := Context(collection, productTitle);
    if answer.Failed? then Run(context, Failed)
    else match parse(answer.value)
      case None => Run(context, Failed)
      case Some(j) => Run(context, Ok(ToOptimization(j)))
  }
}
