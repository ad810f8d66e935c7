/** The automatic blog service: which shop the scheduled job writes for, the
    daily task it keeps with `node-cron`, and the guarded steps of one run.

    The scheduler is a registry of tasks, each with its cron expression and
    whether it is still live; `cronTask` is the index of the entry the service
    holds. The service's own HTTP calls are inputs: each answer is a `Reply`, and
    the random choice of a collection is `pick`. */
module AutoBlog {

  import opened Wrappers
  import opened Text
  import opened Shopify

  const DefaultTime: string := "09:00"

  /** The daily cron expression for a time `"HH:MM"`: `"MM HH * * *"`. A time
      without a colon leaves the minute `undefined`. */
  function CronExpression(time: string): (e: string)
    ensures |e| >= 6 && e[|e| - 6..] == " * * *"
  {
    var parts := Split(time, ':');
    var hour := parts[0];
    var minute := if |parts| > 1 then parts[1] else "undefined";
    minute + " " + hour + " * * *"
  }

  /** A time `hh:mm` becomes `"mm hh * * *"`. */
  lemma CronOfClock(hh: string, mm: string)
    requires ':' !in hh && ':' !in mm
    ensures CronExpression(hh + ":" + mm) == mm + " " + hh + " * * *"
  {
    SplitAfter(hh, mm, ':');
    SplitNoSep(mm, ':');
    assert hh + ":" + mm == hh + [':'] + mm;
  }

  /** Read back by a cron parser, the expression's five fields are the minute,
      the hour and three wildcards. */
  lemma CronFields(hh: string, mm: string)
    requires ' ' !in hh && ' ' !in mm
    ensures Split(mm + " " + hh + " * * *", ' ') == [mm, hh, "*", "*", "*"]
  {
    var e := mm + " " + hh + " * * *";
    var w1 := "*" + [' '] + "*";
    var w2 := "*" + [' '] + w1;
    var w3 := hh + [' '] + w2;
    assert e == mm + [' '] + w3;
    SplitNoSep("*", ' ');
    SplitAfter("*", "*", ' ');
    SplitAfter("*", w1, ' ');
    SplitAfter(hh, w2, ' ');
    SplitAfter(mm, w3, ' ');
  }

  /** The default time runs the job every day at nine. */
  lemma DefaultCron()
    ensures CronExpression(DefaultTime) == "00 09 * * *"
  {
    CronOfClock("09", "00");
    assert DefaultTime == "09" + ":" + "00";
  }

  /** A task of the scheduler. */
  datatype CronTask = CronTask(expression: string, live: bool)

  /** A request the job sends to the server, with the shop's URL and token. */
  datatype Call =
    | GetBlogs(url: string, token: string)
    | GetShopData(url: string, token: string)
    | PostCreate(url: string, token: string, blogId: int, topic: string, scheduleDate: Option<string>)

  class Service {
    var activeUrl: Option<string>
    var activeToken: Option<string>
    var cronTask: Option<nat>
    var tasks: seq<CronTask>

    /** The scheduler holds at most one live task, and it is the service's. */
    predicate Valid()
      reads this
    {
      && (cronTask.Some? ==> cronTask.value < |tasks|)
      && (forall i :: 0 <= i < |tasks| && tasks[i].live ==> cronTask == Some(i))
    }

    constructor ()
      ensures Valid()
      ensures activeUrl == None && activeToken == None && cronTask == None && tasks == []
    {
      activeUrl := None;
      activeToken := None;
      cronTask := None;
      tasks := [];
    }

    /** `updateActiveShopForCron`. */
    method UpdateActiveShopForCron(url: Option<string>, token: Option<string>)
      modifies this
      ensures activeUrl == url && activeToken == token
      ensures cronTask == old(cronTask) && tasks == old(tasks)
    {
      activeUrl := url;
      activeToken := token;
    }

    /** `startAutoBlog(time = "09:00")`: destroy the current task, then schedule a
        new one and hold it. */
    method StartAutoBlog(time: Option<string>)
      requires Valid()
      modifies this
      ensures Valid()
      ensures |tasks| == |old(tasks)| + 1
      ensures tasks[|tasks| - 1] == CronTask(CronExpression(if time.Some? then time.value else DefaultTime), true)
      ensures forall i :: 0 <= i < |old(tasks)| ==>
        tasks[i] == if old(cronTask) == Some(i) then old(tasks)[i].(live := false) else old(tasks)[i]
      ensures cronTask == Some(|tasks| - 1)
      ensures activeUrl == old(activeUrl) && activeToken == old(activeToken)
    {
      if cronTask.Some? {
        tasks := tasks[cronTask.value := tasks[cronTask.value].(live := false)];
      }
      var t := if time.Some? then time.value else DefaultTime;
      tasks := tasks + [CronTask(CronExpression(t), true)];
      cronTask := Some(|tasks| - 1);
    }

    /** `stopAutoBlog`: destroy the current task, if any; the service still holds
        it. */
    method StopAutoBlog()
      requires Valid()
      modifies this
      ensures Valid()
      ensures |tasks| == |old(tasks)|
      ensures forall i :: 0 <= i < |tasks| ==>
        tasks[i] == if cronTask == Some(i) then old(tasks)[i].(live := false) else old(tasks)[i]
      ensures cronTask == old(cronTask)
      ensures activeUrl == old(activeUrl) && activeToken == old(activeToken)
      ensures forall i :: 0 <= i < |tasks| ==> !tasks[i].live
    {
      if cronTask.Some? {
        tasks := tasks[cronTask.value := tasks[cronTask.value].(live := false)];
      }
    }

    /** `generateAutoBlogArticle`: the requests one run sends, given the answers
        to the blog listing (`None` when it lists no `blogs`), to the shop data
        (its collections) and the random pick. A failed request ends the run;
        the error is caught and nothing is returned. */
    method GenerateAutoBlogArticle(blogs: Reply<Option<seq<Blog>>>, collections: Reply<seq<Collection>>, pick: nat)
      returns (calls: seq<Call>)
      ensures !Truthy(activeUrl) || !Truthy(activeToken) ==> calls == []
      ensures Truthy(activeUrl) && Truthy(activeToken) ==>
        && |calls| >= 1 && calls[0] == GetBlogs(activeUrl.value, activeToken.value)
        && (blogs.Failed? || blogs.value.None? || |blogs.value.value| == 0 ==> |calls| == 1)
      ensures (&& Truthy(activeUrl) && Truthy(activeToken)
               && blogs.Ok? && blogs.value.Some? && |blogs.value.value| > 0) ==> |calls| >= 2
      ensures |calls| >= 2 ==>
        && blogs.Ok? && blogs.value.Some? && |blogs.value.value| > 0
        && calls[1] == GetShopData(activeUrl.value, activeToken.value)
        && (collections.Failed? || |collections.value| == 0 ==> |calls| == 2)
      ensures |calls| <= 3
      ensures |calls| == 3 ==>
        && collections.Ok? && |collections.value| > 0
        && calls[2].PostCreate?
        && calls[2] == PostCreate(activeUrl.value, activeToken.value, blogs.value.value[0].id,
                                  calls[2].topic, None)
        && exists i :: 0 <= i < |collections.value| && calls[2].topic == collections.value[i].title
      ensures (&& Truthy(activeUrl) && Truthy(activeToken)
               && blogs.Ok? && blogs.value.Some? && |blogs.value.value| > 0
               && collections.Ok? && |collections.value| > 0) ==> |calls| == 3
    {
      calls := [];
      if !Truthy(activeUrl) || !Truthy(activeToken) {
        return;
      }
      var url := activeUrl.value;
      var token := activeToken.value;
      calls := calls + [GetBlogs(url, token)];
      if blogs.Failed? || blogs.value.None? || |blogs.value.value| == 0 {
        return;
      }
      var blogId := blogs.value.value[0].id;
      calls := calls + [GetShopData(url, token)];
      if collections.Failed? || |collections.value| == 0 {
        return;
      }
      var chosen := collections.value[pick % |collections.value|];
      calls := calls + [PostCreate(url, token, blogId, chosen.title, None)];
    }
  }
}
