/**
 * The `Downloader` of src/download.js as a class: the cache array and the
 * dirty flag are fields its methods update, the cache file is a `Disk`
 * object. Each method is proved to leave the state the functions of
 * `SyncSpec` describe.
 */
module Download {
  import opened Wrappers
  import opened JsValue
  import opened SyncSpec

  /** The cache file: what it holds (`None`: missing or not JSON) and how often it was written. */
  class Disk {
    var file: Option<Value>
    var writes: nat

    constructor(file: Option<Value>)
      ensures this.file == file && writes == 0
    {
      this.file := file;
      writes := 0;
    }

    /** `fs.writeFileSync`: the file holds the written value. */
    method Write(v: Value)
      modifies this
      ensures file == Some(v) && writes == old(writes) + 1
    {
      file := Some(v);
      writes := writes + 1;
    }
  }

  class Downloader {
    /** The cache file at `yuquePath`. */
    const disk: Disk
    /** `_cachedArticles`. */
    var cachedArticles: seq<Value>
    /** `_needUpdate`: some article was queued for download. */
    var needUpdate: bool

    constructor(disk: Disk)
      ensures this.disk == disk && cachedArticles == [] && !needUpdate
    {
      this.disk := disk;
      cachedArticles := [];
      needUpdate := false;
    }

    /** `readYuqueCache`: the file's array, or an empty cache. */
    method ReadYuqueCache()
      modifies this`cachedArticles
      ensures cachedArticles == Loaded(disk.file)
    {
      var file := disk.file;
      if file.Some? && file.value.Arr? {
        cachedArticles := file.value.elems;
        return;
      }
      cachedArticles := [];
    }

    /** `writeYuqueCache`: the cache is written, as JSON, only when it is dirty. */
    method WriteYuqueCache()
      modifies disk
      ensures needUpdate ==> disk.file == Some(Jsonify(Arr(cachedArticles))) && disk.writes == old(disk.writes) + 1
      ensures !needUpdate ==> disk.file == old(disk.file) && disk.writes == old(disk.writes)
    {
      if needUpdate {
        disk.Write(Jsonify(Arr(cachedArticles)));
      }
    }

    /** The job `fetchArticle(item, index)` queues, run: the body is merged into the slot, or the job fails. */
    method FetchArticle(t: Task, fetch: Value -> Result<Object, string>) returns (error: Option<string>)
      requires t.index < |cachedArticles|
      modifies this`cachedArticles
      ensures var r := RunTask(old(cachedArticles), t, fetch);
        if r.Ok? then cachedArticles == r.value && error.None?
        else cachedArticles == old(cachedArticles) && error == Some(r.error)
    {
      match fetch(Get(t.item, "slug"))
      case Err(e) =>
        error := Some(e);
      case Ok(parsed) =>
        var cachedArticle := cachedArticles[t.index];
        var source := Merge(t.item, parsed);
        cachedArticles := cachedArticles[t.index := Obj(Merge(AsObject(cachedArticle), source))];
        error := None;
    }

    /** `queue.start`: the jobs one after the other, until the first failure. */
    method RunQueue(queue: seq<Task>, fetch: Value -> Result<Object, string>) returns (error: Option<string>)
      requires forall t | t in queue :: t.index < |cachedArticles|
      modifies this`cachedArticles
      ensures var r := RunAll(old(cachedArticles), queue, fetch);
        cachedArticles == r.cache && error == r.error
    {
      var i := 0;
      while i < |queue|
        invariant 0 <= i <= |queue|
        invariant |cachedArticles| == |old(cachedArticles)|
        invariant RunAll(old(cachedArticles), queue, fetch) == RunAll(cachedArticles, queue[i..], fetch)
      {
        assert queue[i..] == [queue[i]] + queue[i + 1..];
        error := FetchArticle(queue[i], fetch);
        if error.Some? {
          return;
        }
        i := i + 1;
      }
      error := None;
    }

    /**
     * One iteration of the loop of `fetchArticles`: look the summary up, then
     * append and queue it, queue it for its slot, or leave it. `threw` is the
     * TypeError of the lookup.
     */
    method ClassifyArticle(article: Object, queue: seq<Task>, parse: Value -> Option<int>)
      returns (newQueue: seq<Task>, threw: bool)
      modifies this`cachedArticles, this`needUpdate
      ensures var r := ClassifyOne(Scan(old(cachedArticles), queue), article, parse);
        if r.None?
        then threw && cachedArticles == old(cachedArticles) && newQueue == queue && needUpdate == old(needUpdate)
        else !threw && Scan(cachedArticles, newQueue) == r.value && needUpdate == (old(needUpdate) || newQueue != queue)
    {
      newQueue, threw := queue, false;
      var cacheIndex := FindIndex(cachedArticles, Get(article, "id"));
      match cacheIndex
      case Threw(_) =>
        threw := true;
      case Missing =>
        var index := |cachedArticles|;
        cachedArticles := cachedArticles + [Obj(article)];
        needUpdate := true;
        newQueue := queue + [Task(article, index)];
      case At(index) =>
        var cacheArticle := cachedArticles[index];
        var cacheAvailable := SameTime(parse, Get(article, "updated_at"), PropOf(cacheArticle, "updated_at").value);
        if !cacheAvailable {
          needUpdate := true;
          newQueue := queue + [Task(article, index)];
        }
    }

    /**
     * `fetchArticles`: classify every published document against the cache,
     * appending the new ones, then run the queued downloads.
     */
    method FetchArticles(listing: Result<seq<Object>, string>, fetch: Value -> Result<Object, string>,
                         parse: Value -> Option<int>) returns (error: Option<SyncError>)
      modifies this`cachedArticles, this`needUpdate
      ensures var f := FetchAll(old(cachedArticles), old(needUpdate), listing, fetch, parse);
        cachedArticles == f.cache && needUpdate == f.needUpdate && error == f.error
    {
      if listing.Err? {
        return Some(RemoteError(listing.error));
      }
      var realArticles := Realize(listing.value);
      var queue: seq<Task> := [];
      ghost var start := Scan(cachedArticles, []);
      var i := 0;
      assert realArticles[i..] == realArticles;
      while i < |realArticles|
        invariant 0 <= i <= |realArticles|
        invariant needUpdate == (old(needUpdate) || queue != [])
        invariant PlanInBounds(Scan(cachedArticles, queue))
        invariant ClassifyAll(start, realArticles, parse) == ClassifyAll(Scan(cachedArticles, queue), realArticles[i..], parse)
      {
        ClassifyAllStep(Scan(cachedArticles, queue), realArticles, i, parse);
        var newQueue, threw := ClassifyArticle(realArticles[i], queue, parse);
        if threw {
          return Some(PropertyOfNullish);
        }
        queue := newQueue;
        i := i + 1;
      }
      assert ClassifyAll(Scan(cachedArticles, queue), realArticles[i..], parse) == Classified(Scan(cachedArticles, queue), false);
      var failure := RunQueue(queue, fetch);
      error := if failure.Some? then Some(RemoteError(failure.value)) else None;
    }

    /** `autoUpdate`: read the cache, sync it, and write it back unless the sync failed. */
    method AutoUpdate(listing: Result<seq<Object>, string>, fetch: Value -> Result<Object, string>,
                      parse: Value -> Option<int>) returns (error: Option<SyncError>)
      modifies this, disk
      ensures var f := FetchAll(Loaded(old(disk.file)), old(needUpdate), listing, fetch, parse);
        cachedArticles == f.cache && needUpdate == f.needUpdate && error == f.error
      ensures var f := FetchAll(Loaded(old(disk.file)), old(needUpdate), listing, fetch, parse);
        if f.error.None? && f.needUpdate
        then disk.file == Some(Jsonify(Arr(f.cache))) && disk.writes == old(disk.writes) + 1
        else disk.file == old(disk.file) && disk.writes == old(disk.writes)
    {
      ReadYuqueCache();
      error := FetchArticles(listing, fetch, parse);
      if error.None? {
        WriteYuqueCache();
      }
    }
  }

  /** `getAllArticles`: a fresh downloader's pass; the cache it ends with, or the rejection. */
  method GetAllArticles(disk: Disk, listing: Result<seq<Object>, string>,
                        fetch: Value -> Result<Object, string>, parse: Value -> Option<int>)
    returns (r: Result<seq<Value>, SyncError>)
    modifies disk
    ensures var o := SyncPass(old(disk.file), listing, fetch, parse);
      r == o.result &&
      if o.written.Some?
      then disk.file == o.written && disk.writes == old(disk.writes) + 1
      else disk.file == old(disk.file) && disk.writes == old(disk.writes)
  {
    var downloader := new Downloader(disk);
    var error := downloader.AutoUpdate(listing, fetch, parse);
    if error.Some? {
      r := Err(error.value);
    } else {
      r := Ok(downloader.cachedArticles);
    }
  }
}
