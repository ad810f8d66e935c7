/** The daily article job of the blog routes: its configuration file, the cron entry
    that runs it every day, and one run of the job.

    The configuration file is an optional record (absent until first written)
    with a log of every write to it. Requests to the store and to the
    text-generation service are inputs (`Reply` answers), the random choice of a
    collection is `pick`, the clock's ISO time is `now`, and `JSON.parse` is a
    parameter. */
module Blogs {

  import opened Wrappers
  import opened Text
  import opened Shopify
  import opened AutoBlog

  /** The stored configuration `{enabled, time, last_run}`. */
  datatype Config = Config(enabled: bool, time: string, lastRun: Option<string>)

  const DefaultConfig: Config := Config(false, "09:00", None)

  /** The fields of the service's JSON answer the job reads. */
  datatype ArticleJson = ArticleJson(title: Option<string>, contentHtml: Option<string>)

  /** The article the job asks the store to create. */
  datatype Draft = Draft(title: Option<string>, bodyHtml: Option<string>)

  /** The answer's text as the job parses it: trimmed, then every `` ```json `` and
      `` ``` `` removed (case matters). No fence is left in it. */
  function Unfenced(raw: string): (r: string)
    ensures !Contains(r, Fence)
  {
    StripFenceFree(Trim(raw), ["```json", Fence]);
    Strip(Trim(raw), ["```json", Fence], false)
  }

  /** An answer wrapped in a `` ```json `` fence is read as the text inside it
      when that text holds no backtick. */
  lemma UnfencedJson(body: string)
    requires '`' !in body
    ensures Unfenced("```json" + body + Fence) == body
  {
    var pats := ["```json", Fence];
    var raw := "```json" + body + Fence;
    assert raw[0] == '`' && raw[|raw| - 1] == '`';
    TrimOfTrimmed(raw);
    assert raw == "```json" + (body + Fence);
    MatchLenFirst(raw, pats, false, 0);
    StripDropsMatch("```json", body + Fence, pats, false);
    BacktickFreeKept(body, Fence, pats, false);
    MatchLenFirst(Fence, pats, false, 1);
    assert Fence + "" == Fence;
    StripDropsMatch(Fence, "", pats, false);
    assert body + "" == body;
  }

  class DailyJob {
    var file: Option<Config>
    var fileWrites: seq<Config>
    var cronTask: Option<nat>
    var scheduled: seq<string>

    constructor (file: Option<Config>)
      ensures this.file == file && fileWrites == [] && cronTask == None && scheduled == []
    {
      this.file := file;
      fileWrites := [];
      cronTask := None;
      scheduled := [];
    }

    /** `loadConfig`: create the file with the default record when it is absent,
        then read it. */
    method LoadConfig() returns (c: Config)
      modifies this
      ensures old(file).None? ==> c == DefaultConfig && fileWrites == old(fileWrites) + [DefaultConfig]
      ensures old(file).Some? ==> c == old(file).value && fileWrites == old(fileWrites)
      ensures file == Some(c)
      ensures cronTask == old(cronTask) && scheduled == old(scheduled)
    {
      if file.None? {
        file := Some(DefaultConfig);
        fileWrites := fileWrites + [DefaultConfig];
      }
      c := file.value;
    }

    /** `saveConfig`: replace the whole file. */
    method SaveConfig(data: Config)
      modifies this
      ensures file == Some(data) && fileWrites == old(fileWrites) + [data]
      ensures cronTask == old(cronTask) && scheduled == old(scheduled)
    {
      file := Some(data);
      fileWrites := fileWrites + [data];
    }

    /** `startCron`: schedule the daily job at the configured time, unless the
        job is disabled. A task scheduled before is neither destroyed nor
        replaced in the scheduler. */
    method StartCron()
      modifies this
      ensures var c := if old(file).Some? then old(file).value else DefaultConfig;
        && file == Some(c)
        && (!c.enabled ==> scheduled == old(scheduled) && cronTask == old(cronTask))
        && (c.enabled ==> scheduled == old(scheduled) + [CronExpression(c.time)] && cronTask == Some(|old(scheduled)|))
      ensures fileWrites == old(fileWrites) + (if old(file).None? then [DefaultConfig] else [])
    {
      var config := LoadConfig();
      if !config.enabled {
        return;
      }
      scheduled := scheduled + [CronExpression(config.time)];
      cronTask := Some(|scheduled| - 1);
    }

    /** `generateDailyArticle`: load the configuration, pick a collection, fetch
        its products, ask for an article about the collection's title, create
        it, and record the time of the run. Any failure is caught: the run then
        returns nothing and the configuration is not saved. `draft` is what was
        sent to the store, when the run got that far. */
    method GenerateDailyArticle(collections: Reply<seq<Collection>>, pick: nat, products: Reply<seq<Product>>,
                                answer: Reply<string>, parse: string -> Option<ArticleJson>,
                                created: Reply<Article>, now: string)
      returns (topic: Option<string>, draft: Option<Draft>, article: Option<Article>)
      modifies this
      ensures var loaded := if old(file).Some? then old(file).value else DefaultConfig;
        var loadWrites := old(fileWrites) + (if old(file).None? then [DefaultConfig] else []);
        && (article.Some? ==> file == Some(loaded.(lastRun := Some(now))) && fileWrites == loadWrites + [loaded.(lastRun := Some(now))])
        && (article.None? ==> file == Some(loaded) && fileWrites == loadWrites)
      ensures topic.Some? <==> collections.Ok? && |collections.value| > 0
      ensures topic.Some? ==> exists i :: 0 <= i < |collections.value| && topic.value == collections.value[i].title
      ensures draft.Some? <==> topic.Some? && products.Ok? && answer.Ok? && parse(Unfenced(answer.value)).Some?
      ensures draft.Some? ==> draft.value == Draft(parse(Unfenced(answer.value)).value.title, parse(Unfenced(answer.value)).value.contentHtml)
      ensures article.Some? <==> draft.Some? && created.Ok?
      ensures article.Some? ==> article.value == created.value
      ensures cronTask == old(cronTask) && scheduled == old(scheduled)
    {
      topic, draft, article := None, None, None;
      var config := LoadConfig();
      if collections.Failed? || |collections.value| == 0 {
        return;
      }
      var chosen := collections.value[pick % |collections.value|];
      topic := Some(chosen.title);
      if products.Failed? || answer.Failed? {
        return;
      }
      var json := parse(Unfenced(answer.value));
      if json.None? {
        return;
      }
      draft := Some(Draft(json.value.title, json.value.contentHtml));
      if created.Failed? {
        return;
      }
      config := config.(lastRun := Some(now));
      SaveConfig(config);
      article := Some(created.value);
    }
  }
}
