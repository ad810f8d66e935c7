# Shopify AI SEO gateway — a verified model of its deterministic core

The gateway sits between a Shopify shop's Admin REST API, a text-generation
service and a daily scheduler. This project models the deterministic rules
inside that glue, in Dafny, and proves what they promise:

- **Store rules** (`shopify.dfy`):
  - the `"optimized"` tag merge of `markAsOptimized`;
  - the marker metafield it posts, and the `isAlreadyOptimized` predicate that reads it back;
  - the partial product update;
  - the collection lookups.

  The shop is a `Store` object with its products, its metafields and a log of the writes it has applied. A write the shop rejects is not in the log.
- **Rate limiter** (`ratelimit.dfy`): the per-client interceptor that spaces requests at least 500 ms apart.
- **Pagination** (`paging.dfy`):
  - the `Link` header parsing that finds the `rel="next"` URL and makes it relative to the API root;
  - the `while (url)` loops of `getAllProducts` and `getArticlesByBlog`, proved equal to a crawl function. The crawl's outcome and its requests are characterised by lemmas.
- **Keyword and answer mapping** (`ai.dfy`):
  - the keyword derived from a collection title, with its fallback to the product title;
  - the renaming of the service's answer.
- **Automatic blog service** (`autoblog.dfy`):
  - the active shop;
  - the single live cron task;
  - the `"HH:MM"` → `"MM HH * * *"` rule;
  - the guards of one run.
- **Daily article job** (`blogs.dfy`):
  - the configuration file with its default;
  - the enable gate of `startCron`;
  - fence stripping;
  - the `last_run` update.
- **`/optimize-product` route** (`seo.dfy`): validation (400/404), fence stripping, the update payload, the order of the writes, and the 500 path, including a write the shop rejects after earlier writes were applied.
- **Shop cache** (`cache.dfy`): the handle-keyed dictionaries that a refresh builds, and the lazy `getShopCache`.
- **Shared pieces**:
  - `wrappers.dfy` holds `Option`, `Reply` (`Failed` | `Ok`) and JavaScript truthiness of an optional string.
  - `text.dfy` models the JavaScript string operations used: `trim`, `split`, `join`, `includes`, UTF-16 length, and the global `replace` of literal alternatives, with or without `/i`.

All I/O is an input:
- Every server answer that the model reads is a `Reply`, and a failed request is `Failed`. An answer that runs out means the request failed. A request whose answer is not read (the store's writes, the collection fetch of `getProductCollection`) takes the shop's verdict, accept or reject, as its input.
- Paginated listings are a sequence of pages, where the `k`-th request gets the `k`-th page.
- `JSON.parse` is a function parameter that answers `None` when it throws.
- `Math.random` is a `pick` index, taken modulo the list length.
- The clock is a `now` parameter.
- The configuration file is an optional record with a log of its writes.

## Model

| member | source | states |
|---|---|---|
| `Shopify.TagList` | services/shopify.js:98 | the tag list read from `product.tags`: empty when the string is missing or empty; otherwise one tag per comma-split part, each part trimmed; no tag holds a comma or surrounding white space |
| `Shopify.TrimAll` | services/shopify.js:98 | `.map(t => t.trim())`: one trimmed part for each part, in order |
| `Shopify.MergedTags` | services/shopify.js:100 | the existing tags keep their order as a prefix; `"optimized"` is present afterwards; the list grows by one exactly when the sentinel was absent, and the sentinel then occurs once |
| `Shopify.MergeTags` | services/shopify.js:98-103 | a missing or empty tags string is written back as `"optimized"` alone |
| `Shopify.TagListOfJoin` | services/shopify.js:98-103 | reading back a tag list joined with `", "` gives the same list, when no tag holds a comma or surrounding white space |
| `Shopify.MergeTagsIdempotent` | services/shopify.js:98-103 | merging an already merged tags string writes it back unchanged, so the sentinel is never duplicated |
| `Shopify.Marker` | services/shopify.js:106-115 | the posted metafield is an `ai_seo`/`optimized`/`"true"` marker owned by the product |
| `Shopify.IsAlreadyOptimized` | services/shopify.js:120-129 | true exactly when some metafield of the listing has namespace `ai_seo`, key `optimized` and value `"true"` |
| `Shopify.OwnedBy` | services/shopify.js:124 | the product's metafield listing holds only metafields the product owns, taken from the shop's metafields |
| `Shopify.MarkedIsOptimized` | services/shopify.js:106-128 | once the marker is posted, the product's listing reads as already optimized |
| `Shopify.OptimizedStaysOptimized` | services/shopify.js:106-128 | posting more metafields never makes an optimized product read as not optimized |
| `Shopify.Patched` | services/shopify.js:81-88 | after the PUT the product has the given title, body and handle; a field the body leaves undefined keeps its old value; the id and the tags do not change |
| `Shopify.Store.UpdateProduct` | services/shopify.js:77-89 | the call succeeds exactly when the shop has the product and accepts the PUT; then it applies one PUT of title, body and handle and changes nothing else; a rejected PUT writes nothing |
| `Shopify.Store.MarkAsOptimized` | services/shopify.js:91-118 | the answer is true exactly when the GET, the tags PUT and the marker POST are all accepted; then the product has the merged tags, exactly one marker is appended after the tags PUT, and the product reads as optimized; a rejected GET or PUT writes nothing; a rejected POST leaves the tags written and adds no marker |
| `Shopify.ProductCollection` | services/shopify.js:64-75 | a failure when the collect listing is rejected; no collection when the listing is missing or empty; otherwise the collection of the first collect, and a failure when the shop has no such collection or rejects its fetch |
| `Shopify.AllCollections` | services/shopify.js:131-139 | succeeds exactly when both listings are answered; then the custom collections, followed by the smart ones |
| `RateLimit.DelayFor` | services/shopify.js:42-46 | no wait when 500 ms have passed since the last call; otherwise a wait of exactly the remaining time |
| `RateLimit.Client.Throttle` | services/shopify.js:38-50 | the wait is `DelayFor` of the last call and the arrival time; the recorded call time is the time after the wait, at least 500 ms after the previous one |
| `RateLimit.DispatchSpacing` | services/shopify.js:38-50 | requests passed one after another through one client leave at least 500 ms apart, and none leaves before it arrived |
| `Paging.FindSegment` | services/shopify.js:154-155 | the index of the first header segment that contains `rel="next"`, or none when no segment contains it |
| `Paging.CloseAngle` | services/shopify.js:156 | the lazy `(.+?)>` stops at the first `>`, and no line terminator lies before it |
| `Paging.AngleGroup` | services/shopify.js:156 | a captured URL is non-empty and holds no line terminator |
| `Paging.StripApiPrefix` | services/shopify.js:157 | removing the `https://<host>/admin/api/2024-01` prefix leaves a suffix of the URL |
| `Paging.NextPath` | services/shopify.js:152-158 | no next page when the header is missing, empty or lacks `rel="next"`; a next path only comes from a header naming `rel="next"` |
| `Paging.NextSegmentExists` | services/shopify.js:153-156 | when the header names `rel="next"`, some segment is found, and reading the next path throws exactly when that segment has no bracketed URL |
| `Paging.StripApiPrefixOf` | services/shopify.js:157 | an absolute API URL with the 2024-01 root is turned back into the path it was built from |
| `Paging.NextPathOfHeader` | services/shopify.js:152-158 | a header whose last segment is `<https://host/admin/api/2024-01PATH>; rel="next"` gives back exactly `PATH` as the next request |
| `Paging.CrawlPage` | services/shopify.js:148-158 | a page that has a readable header adds its items in front of the rest of the crawl, and its next path is the next request |
| `Paging.CrawlEnds` | services/shopify.js:184-188 | a crawl whose request fails, is unanswered, or gets a page without the listing requests nothing more |
| `Paging.Crawl` | services/shopify.js:145-161 | the outcome of a `while (url)` loop: nothing to gather when the entry path is not truthy; a successful crawl from a truthy path had its first request answered |
| `Paging.Visits` | services/shopify.js:145-161 | the requests of a `while (url)` loop: none exactly when the entry path is not truthy, the entry path first, and at most one request beyond the answers it has |
| `Paging.VisitsNonEmpty` | services/shopify.js:148 | no requested path is empty, since `while (url)` stops at an empty next path |
| `Paging.VisitsChain` | services/shopify.js:148-158 | no requested path is empty, and each later request is the next path read from the page answering the request before |
| `Paging.CrawlSucceeds` | services/shopify.js:148-161 | a crawl succeeds exactly when its last request was answered, and that answer lacks the listing or has no next page |
| `Paging.CrawlGathers` | services/shopify.js:145-161 | a successful crawl returns every page's items, concatenated in request order |
| `Paging.CrawlIgnoresLater` | services/shopify.js:148-159 | answers beyond the last request do not change the outcome |
| `Paging.GetAllProducts` | services/shopify.js:141-162 | the `while (url)` loop returns the crawl from `/products.json?limit=250` and sends exactly its requests |
| `Paging.GetArticlesByBlog` | services/shopify.js:180-203 | the same for `/articles.json?blog_id=…&limit=250`, where a page without `articles` breaks the loop |
| `Text.Trim` | services/ai.js:14 | `trim` returns the middle of the string, with no white space or line terminator at either end |
| `Text.Split` | services/shopify.js:98 | `split` on one character gives at least one part, and no part holds the separator |
| `Text.Join` | services/shopify.js:103 | `join` of no parts is empty |
| `Text.JoinFirst` | services/shopify.js:103 | a join begins with its first part, followed by the separator when more parts follow |
| `Text.JoinAppend` | services/shopify.js:103 | joining one more part adds the separator and that part at the end |
| `Text.SplitJoin` | services/shopify.js:98 | `split` on one character loses nothing: joining the parts with it gives back the string |
| `Text.JoinSplit` | services/shopify.js:103 | splitting a join of separator-free parts gives back the parts |
| `Text.Contains` | services/shopify.js:153 | `includes` needs the pattern to fit in the text, and holds when the text begins with it |
| `Text.ContainsAt` | services/shopify.js:153 | `includes` holds exactly when the pattern occurs at some position of the text |
| `Text.Utf16Length` | services/ai.js:20 | `.length` counts UTF-16 code units: between one and two per character, and zero only for the empty string |
| `Text.Strip` | routes/seo.js:63-64 | the global `replace` with `""` of an alternation, left to right: it never lengthens the text, and with no alternative it changes nothing |
| `Text.MatchLenZero` | services/ai.js:13 | no alternative matches at a position exactly when every non-empty alternative fails to match there |
| `Text.MatchLenFirst` | services/ai.js:13 | the alternation matches the first alternative that matches, as the regular expression tries them in order |
| `Text.StripKeepsPrefix` | routes/seo.js:63-64 | text in front of which no match starts is kept, character for character, before what the replacement makes of the rest |
| `Text.StripKeeps` | routes/seo.js:63-64 | a text where no match starts anywhere comes back unchanged |
| `Text.StripDropsMatch` | routes/seo.js:63-64 | a match at the front is removed whole, and the replacement goes on after it |
| `Text.BacktickFreeKept` | routes/seo.js:63-64 | text without backticks is kept by the fence removals, whose alternatives all begin with a backtick |
| `Text.StripFenceFree` | routes/blogs.js:63-64 | removing every `` ```json `` and `` ``` `` (or every `` ``` `` alone) leaves no triple backtick |
| `Ai.FirstWord` | services/ai.js:16-21 | `split(" ")[0]` holds no space |
| `Ai.FirstWordIsPrefix` | services/ai.js:16-21 | the first word is the longest space-free beginning of the string |
| `Ai.CleanTitle` | services/ai.js:12-14 | the title without the marketing words has no surrounding white space |
| `Ai.CleanTitleKeeps` | services/ai.js:12-14 | a title holding none of the marketing words, in any case, is only trimmed |
| `Ai.CleanTitleDropsWord` | services/ai.js:12-14 | a marketing word written in any case in front of such a title is removed, and the rest of the title is kept and trimmed |
| `Ai.Keyword` | services/ai.js:3-22 | the keyword never holds a space, whichever branch chose it |
| `Ai.ShortKeywordFallsBack` | services/ai.js:19-21 | a collection candidate shorter than three UTF-16 code units, the empty one included, gives way to the first word of the product title |
| `Ai.KeptKeyword` | services/ai.js:12-22 | a kept collection keyword is the candidate; it has at least three UTF-16 code units, holds no space, begins the cleaned title, and does not begin with white space |
| `Ai.Context` | services/ai.js:4-17 | the prompt names the collection's title and handle when there is one and empty strings otherwise; the keyword is the derived one |
| `Ai.NoCollectionContext` | services/ai.js:4-22 | without a collection, the keyword is the product title's first word |
| `Ai.ToOptimization` | services/ai.js:112-117 | `description_html` becomes `body_html`; title, meta description and handle are copied unchanged |
| `Ai.RenamingIsBijective` | services/ai.js:112-117 | the renaming and its reverse are inverses, so no field is lost |
| `Ai.OptimizeProduct` | services/ai.js:3-118 | a result exists exactly when the service answered and its content parsed; the result is the renamed parse; the prompt context is the derived one |
| `AutoBlog.CronExpression` | services/auto-blog.js:100-102 | the daily cron expression for a time always ends with the three wildcard fields `" * * *"` |
| `AutoBlog.CronOfClock` | services/auto-blog.js:97-102 | a time `hh:mm` becomes the cron expression `"mm hh * * *"` |
| `AutoBlog.CronFields` | services/auto-blog.js:102 | read field by field, the expression is minute, hour and three wildcards |
| `AutoBlog.DefaultCron` | services/auto-blog.js:97-102 | the default time gives `"00 09 * * *"` |
| `AutoBlog.Service.constructor` | services/auto-blog.js:8-12 | no active shop and no task at start |
| `AutoBlog.Service.UpdateActiveShopForCron` | services/auto-blog.js:17-21 | sets both the active URL and the token, and nothing else |
| `AutoBlog.Service.StartAutoBlog` | services/auto-blog.js:97-107 | destroys the held task, then schedules a live task for the time's expression and holds it; at most one live task exists afterwards |
| `AutoBlog.Service.StopAutoBlog` | services/auto-blog.js:112-115 | destroys the held task, if any; the reference to it is kept; no task is live afterwards |
| `AutoBlog.Service.GenerateAutoBlogArticle` | services/auto-blog.js:26-92 | no request without an active shop; the blog listing comes first; it stops when there is no blog or the request fails; with a blog listed, the shop-data request is always sent second; the target is the first blog; no article without collections; the topic is the title of a listed collection; the schedule date is null |
| `Blogs.Unfenced` | routes/blogs.js:63-64 | the text given to `JSON.parse` holds no triple backtick |
| `Blogs.UnfencedJson` | routes/blogs.js:63-64 | an answer wrapped in a `` ```json `` fence, whose body holds no backtick, is parsed as exactly that body |
| `Blogs.DailyJob.LoadConfig` | routes/blogs.js:18-27 | an absent file is first written with `{enabled: false, time: "09:00", last_run: null}` and returns it; an existing file is returned with no write |
| `Blogs.DailyJob.SaveConfig` | routes/blogs.js:30-32 | the whole file is replaced by the argument |
| `Blogs.DailyJob.StartCron` | routes/blogs.js:87-97 | nothing is scheduled when the job is disabled; otherwise the time's cron expression is scheduled and held |
| `Blogs.DailyJob.GenerateDailyArticle` | routes/blogs.js:38-84 | the topic is the title of a listed collection; the draft maps `title` and `content_html`; on success the saved configuration is the loaded one with `last_run` set to now; on any failure nothing is saved |
| `Seo.CleanOutput` | routes/seo.js:60-65 | the three cleaning steps produce the cleaned text |
| `Seo.CleanedHasNoFence` | routes/seo.js:60-67 | the text given to `JSON.parse` holds no triple backtick |
| `Seo.OpeningFenceRemoved` | routes/seo.js:63 | the `` ```json `` opening an answer whose body holds no backtick is removed, and the rest kept |
| `Seo.ClosingFenceRemoved` | routes/seo.js:64 | the closing `` ``` `` after such a body is removed, and the body kept |
| `Seo.CleanedFencedJson` | routes/seo.js:60-65 | an answer wrapped in a `` ```json `` fence, whose body holds no backtick, is parsed as exactly that body, trimmed |
| `Seo.ProductIdGiven` | routes/seo.js:8-9 | the `!productId` guard turns away exactly a missing id and the number 0 |
| `Seo.Payload` | routes/seo.js:70-88 | title ← `title`, body ← `description_html`, handle ← `slug`, and the two `seo` metafields ← `meta_title` and `meta_description` |
| `Seo.Applied` | routes/seo.js:69-90 | how many of the three writes the shop applies: all three exactly when the content PUT and `markAsOptimized`'s GET, tags PUT and POST are all accepted, and none when the content PUT is rejected |
| `Seo.Optimized` | routes/seo.js:70-90 | after the route's writes, the product keeps its id and carries the merged tags of its original tags |
| `Seo.OptimizedContent` | routes/seo.js:70-90 | after the route's writes, the product's title, body and handle are the payload's, and its own where the payload leaves one undefined |
| `Seo.WriteOptimization` | routes/seo.js:69-90 | the shop holds the content PUT, then the tags PUT, then the marker POST, cut off at the first rejected request; a rejected content PUT changes nothing; a rejected `markAsOptimized` GET or tags PUT leaves only the content written; a rejected POST leaves the content and the tags but no marker; the call succeeds only when all were accepted, and the product then reads as optimized |
| `Seo.OptimizeProduct` | routes/seo.js:4-105 | 400 without a product id and 404 without the product, with no write either way; 500 when the product read is rejected or the service or the parse fails, with no write; 500 when a write is rejected, with the writes accepted before it kept; otherwise, once a product id is given and the product exists, every case but full success answers exactly 500; 200 exactly when every request is accepted, with the parsed fields and the success message echoed and the product marked |
| `Cache.Keyed` | services/cache.js:31-47 | a dictionary filled entry by entry is keyed by exactly the entries' keys |
| `Cache.KeyedLastWins` | services/cache.js:31-47 | a key given twice keeps the later entry |
| `Cache.KeyedFiled` | services/cache.js:31-47 | every value is one of the entries and is filed under its own key |
| `Cache.EntriesProject` | services/cache.js:31-57 | an entry keeps its own fields, with one reference per product or article, in order; each article carries its blog's handle |
| `Cache.Refreshed` | services/cache.js:15-65 | `refreshShopCache` yields data only when the product, collection and blog listings were all answered, and every collection and blog had its own answer |
| `Cache.RefreshSucceeds` | services/cache.js:18-58 | a refresh succeeds exactly when every listing and every per-item request succeeds |
| `Cache.CollectionsByHandle` | services/cache.js:28-41 | the collections are keyed by exactly the listed handles; each is filed under its own handle; a repeated handle keeps the later collection's entry |
| `Cache.BlogsByHandle` | services/cache.js:44-58 | the same for blogs, and every article's `blog_handle` is the handle its blog is filed under |
| `Cache.CollectCollections` | services/cache.js:28-41 | the collection loop fills exactly the keyed dictionary, or fails at the first failed product request |
| `Cache.CollectBlogs` | services/cache.js:44-58 | the blog loop fills exactly the keyed dictionary, or fails at the first failed article request |
| `Cache.BuildShopData` | services/cache.js:22-58 | both loops, in order, build the refreshed data |
| `Cache.ShopCache.RefreshShopCache` | services/cache.js:15-65 | on success the whole cache is replaced by the fresh data, which is returned, and the refresh time is recorded; on failure nothing changes |
| `Cache.ShopCache.GetShopCache` | services/cache.js:70-75 | the store is asked exactly when the cache is empty; a filled cache is returned unchanged |

## Left out

- HTTP, the axios client and its interceptor installation, console logging, `server.js`, and the `shop-data` and `auto-blog` routes.
  - Every answer from the shop, the text-generation service and the gateway's own endpoints is an input. For the store's writes, the input is the shop's verdict (accept or reject) on each request.
  - The prompt text is not modelled.
  - Replies are not tied to the URL requested. A paginated listing's `k`-th page answers its `k`-th request.
- Each store helper builds a new client, so the rate limiter's spacing holds only within one helper call. `RateLimit.Client` models one client. Timers never fire early, and the time they fire late is the `overshoot` input. Concurrent requests on one client are not modelled.
- The following scheduler behaviour is not modelled:
  - `node-cron`'s validation of the expression and when tasks fire;
  - `Math.random` (modelled as the `pick` input);
  - `Date`/`toISOString` (modelled as `now`);
  - the file system, which is an optional record. A file whose record lacks fields is not modelled.
- Wiring defects of the calls are not modelled; the data logic is:
  - `getProductById(productId)`, `updateProduct(productId, …)` and `markAsOptimized(productId)` without their request argument, so each argument lands one slot early (routes/seo.js:11-90);
  - `getAllCollections()` with no argument, which falls back to the environment's credentials (routes/blogs.js:43);
  - `getProductsByCollection(id)` and `createBlogArticle(AUTO_BLOG_ID, …)` with shifted arguments (routes/blogs.js:43-73);
  - `getAllProducts()`, `getProductsByCollection(col.id)` and `getArticlesByBlog(blog.id)` without a request (services/cache.js:18-45);
  - the require path of routes/blogs.js:9.

  Each such call is an input answer.
- `Seo.OptimizeProduct` answers 404 for a product the shop does not have: it follows the route's `!product` branch. With the real client, the fetch of an unknown product rejects, which the route turns into a 500.
- `Shopify.Store.UpdateProduct` drops the `metafields` the route passes: the request body has no such field. The model therefore records no metafield write for them.
- `Seo.OptimizeProduct` keeps only the fields of the parsed answer that the route reads.
  - Extra JSON fields echoed by the spread are not modelled, and neither is a parsed `success` or `message` field that the spread would override.
  - The `details` of the 500 answer are not modelled.
- `Seo.OptimizeProduct`: a `productId` given as a string is modelled only through its truthiness (`Some` and non-zero).
- `getProductsByCollection`, `getAllBlogs` and `createBlogArticle` are single requests and appear only as their answers.
- `Paging.Crawl` ends, as `Failed`, once its answers run out. The source's `while (url)` loop has no guard against a shop that keeps sending a `rel="next"` link, and then never ends. The model's termination is therefore not a property of the source.
- `Paging.GetAllProducts` assumes every product page holds `products`. In the source, a page without them would add an `undefined` item.
- The exported `lastRefresh` binding of services/cache.js:81 is a copy of the initial `null`. The model keeps the live time in `Cache.ShopCache`.
- `Ai.CleanTitle`: the `/i` flag folds ASCII and Latin-1 letters only. This is exact for the patterns used, but full Unicode case folding is not modelled.
