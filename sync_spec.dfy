/**
 * The incremental article sync of src/download.js, as functions of its
 * inputs: the cache file as read, the document list of the knowledge base,
 * and the article bodies the remote API returns.
 *
 * One pass reads the cache, shapes the listed documents into summaries,
 * classifies each summary against the cache (new, changed or unchanged),
 * downloads the body of every new or changed article into its cache slot,
 * and writes the cache back when anything was downloaded.
 */
module SyncSpec {
  import opened Wrappers
  import opened JsValue
  import opened RecordUtils

  // ------------------------------------------------------------- summaries

  /** The document properties kept in a summary, in this order. */
  const PickProperty: seq<string> :=
    ["id", "title", "description", "custom_description", "published_at",
     "first_published_at", "slug", "word_count", "cover"]

  /** The publication dates are stored under the cache's own names. */
  const DateRenames: map<string, string> :=
    map["published_at" := "updated_at", "first_published_at" := "created_at"]

  /**
   * `R.pick(names, o)`: for each name in order, the property copied when the
   * object has it.
   */
  function Pick(names: seq<string>, o: Object): (r: Object)
    ensures WellFormed(r)
    ensures forall k :: Has(r, k) <==> k in names && Has(o, k)
    ensures forall k | k in names :: Get(r, k) == Get(o, k)
    decreases |names|
  {
    if names == [] then []
    else
      var n := |names| - 1;
      var init := Pick(names[..n], o);
      assert forall k :: k in names <==> k in names[..n] || k == names[n] by {
        assert names == names[..n] + [names[n]];
      }
      if Has(o, names[n]) then Assoc(init, names[n], Get(o, names[n])) else init
  }

  /** One listed document as the sync sees it: the picked properties, dates renamed. */
  function ShapeSummary(doc: Object): (r: Object)
    ensures WellFormed(r)
  {
    RenameKeys(DateRenames, Pick(PickProperty, doc))
  }

  /**
   * The documents that have been published at least once, in listing order,
   * each shaped into a summary.
   */
  function Realize(docs: seq<Object>): (r: seq<Object>)
    ensures |r| <= |docs|
    decreases |docs|
  {
    if docs == [] then []
    else if Truthy(Get(docs[0], "first_published_at")) then [ShapeSummary(docs[0])] + Realize(docs[1..])
    else Realize(docs[1..])
  }

  // ----------------------------------------------------- looking up the cache

  /** What `findIndex` comes to: the first record whose id is `===` the id, none, or a TypeError. */
  datatype Found = At(index: nat) | Missing | Threw(index: nat)

  /** Reading `c.id` succeeds and is `===` the id. */
  predicate Matches(c: Value, id: Value)
  {
    PropOf(c, "id").Some? && StrictEq(PropOf(c, "id").value, id)
  }

  /** Reading `c.id` succeeds and is not `===` the id: the search goes on. */
  predicate Passes(c: Value, id: Value)
  {
    PropOf(c, "id").Some? && !StrictEq(PropOf(c, "id").value, id)
  }

  /** Where the search stopped: the found or failing record, or the end. */
  function Stop(cache: seq<Value>, r: Found): nat
  {
    if r.Missing? then |cache| else r.index
  }

  /**
   * `cache.findIndex(item => item.id === id)`, from index `from` on: the
   * callback reads `id` of each record in turn, so a `null` or `undefined`
   * record reached before a match throws.
   */
  function FindIndexFrom(cache: seq<Value>, id: Value, from: nat): (r: Found)
    requires from <= |cache|
    ensures !r.Missing? ==> from <= r.index < |cache|
    ensures r.At? ==> Matches(cache[r.index], id)
    ensures r.Threw? ==> PropOf(cache[r.index], "id").None?
    ensures forall j | from <= j < Stop(cache, r) :: Passes(cache[j], id)
    decreases |cache| - from
  {
    if from == |cache| then Missing
    else match PropOf(cache[from], "id")
      case None => Threw(from)
      case Some(v) => if StrictEq(v, id) then At(from) else FindIndexFrom(cache, id, from + 1)
  }

  /**
   * `cache.findIndex(item => item.id === id)`: the first record whose id is
   * `===` the id, or a TypeError at the first `null` or `undefined` record
   * before it; every record before where it stops has another id.
   */
  function FindIndex(cache: seq<Value>, id: Value): (r: Found)
    ensures !r.Missing? ==> r.index < |cache|
    ensures r.At? ==> Matches(cache[r.index], id)
    ensures r.Threw? ==> PropOf(cache[r.index], "id").None?
    ensures forall j | 0 <= j < Stop(cache, r) :: Passes(cache[j], id)
  {
    FindIndexFrom(cache, id, 0)
  }

  // ------------------------------------------------------------ classifying

  /** A queued download: the summary, and the cache slot its article goes to. */
  datatype Task = Task(item: Object, index: nat)

  /** The cache and the download queue while the summaries are classified. */
  datatype Scan = Scan(cache: seq<Value>, plan: seq<Task>)

  /** No record of the cache is `null` or `undefined`: reading its `id` cannot throw. */
  predicate NoNullish(cache: seq<Value>)
  {
    forall j | 0 <= j < |cache| :: !cache[j].Undefined? && !cache[j].Null?
  }

  /** Every queued download targets an existing slot. */
  predicate PlanInBounds(p: Scan)
  {
    forall t | t in p.plan :: t.index < |p.cache|
  }

  /**
   * `+new Date(a) === +new Date(b)`, with `parse` standing for the date
   * parser: an unparsable date is NaN and equals nothing, itself included.
   */
  predicate SameTime(parse: Value -> Option<int>, a: Value, b: Value): (r: bool)
    ensures parse(a).None? || parse(b).None? ==> !r
    ensures parse(a).Some? && parse(b).Some? ==> (r <==> parse(a).value == parse(b).value)
  {
    parse(a).Some? && parse(a) == parse(b)
  }

  /**
   * One iteration of the loop of `fetchArticles`: a summary whose id is not in
   * the cache is appended and queued; one whose cached record has another
   * update time is queued for its slot; otherwise nothing happens. `None` is
   * the TypeError of the lookup.
   */
  function ClassifyOne(p: Scan, s: Object, parse: Value -> Option<int>): (r: Option<Scan>)
    ensures r.None? <==> FindIndex(p.cache, Get(s, "id")).Threw?
    ensures r.Some? ==> p.cache <= r.value.cache && p.plan <= r.value.plan
    ensures r.Some? ==> |r.value.cache| - |p.cache| == if FindIndex(p.cache, Get(s, "id")).Missing? then 1 else 0
    ensures r.Some? ==> |r.value.plan| - |p.plan| <= 1 && |r.value.cache| - |p.cache| <= |r.value.plan| - |p.plan|
    ensures r.Some? && PlanInBounds(p) ==> PlanInBounds(r.value)
    ensures NoNullish(p.cache) ==> r.Some? && NoNullish(r.value.cache)
  {
    match FindIndex(p.cache, Get(s, "id"))
    case Threw(_) => None
    case Missing => Some(Scan(p.cache + [Obj(s)], p.plan + [Task(s, |p.cache|)]))
    case At(i) =>
      // The record's id was read, so reading its update time cannot throw.
      var u := PropOf(p.cache[i], "updated_at").value;
      if SameTime(parse, Get(s, "updated_at"), u) then Some(p)
      else Some(Scan(p.cache, p.plan + [Task(s, i)]))
  }

  /** The classification ran to the end (`threw` false) or stopped at a TypeError. */
  datatype Classified = Classified(scan: Scan, threw: bool)

  /** The classification loop of `fetchArticles` over the summaries, in order. */
  function ClassifyAll(p: Scan, ss: seq<Object>, parse: Value -> Option<int>): (r: Classified)
    ensures p.cache <= r.scan.cache && p.plan <= r.scan.plan
    ensures |r.scan.cache| - |p.cache| <= |r.scan.plan| - |p.plan|
    ensures PlanInBounds(p) ==> PlanInBounds(r.scan)
    ensures NoNullish(p.cache) ==> !r.threw
    decreases |ss|
  {
    if ss == [] then Classified(p, false)
    else match ClassifyOne(p, ss[0], parse)
      case None => Classified(p, true)
      case Some(q) => ClassifyAll(q, ss[1..], parse)
  }

  /** One iteration of the classification loop, unfolded. */
  lemma ClassifyAllStep(p: Scan, ss: seq<Object>, i: nat, parse: Value -> Option<int>)
    requires i < |ss|
    ensures ClassifyAll(p, ss[i..], parse) ==
      match ClassifyOne(p, ss[i], parse)
      case None => Classified(p, true)
      case Some(q) => ClassifyAll(q, ss[i + 1..], parse)
  {
    assert ss[i..][1..] == ss[i + 1..];
  }

  // ----------------------------------------------------------- downloading

  /**
   * The job `fetchArticle(item, index)` queues: `fetch` stands for fetching the
   * article by slug and parsing its front matter. The slot takes
   * `R.merge(cached, {...item, ...parsed})`.
   */
  function RunTask(cache: seq<Value>, t: Task, fetch: Value -> Result<Object, string>): (r: Result<seq<Value>, string>)
    requires t.index < |cache|
    ensures r.Ok? ==> |r.value| == |cache| && r.value[t.index].Obj?
    ensures r.Ok? ==> forall j | 0 <= j < |cache| && j != t.index :: r.value[j] == cache[j]
    ensures r.Err? <==> fetch(Get(t.item, "slug")).Err?
  {
    match fetch(Get(t.item, "slug"))
    case Err(e) => Err(e)
    case Ok(parsed) => Ok(cache[t.index := Obj(Merge(AsObject(cache[t.index]), Merge(t.item, parsed)))])
  }

  /** After the downloads: the cache, and the first failure if one stopped the queue. */
  datatype Ran = Ran(cache: seq<Value>, error: Option<string>)

  /** The queue run to its end, one job after the other, stopping at the first failure. */
  function RunAll(cache: seq<Value>, plan: seq<Task>, fetch: Value -> Result<Object, string>): (r: Ran)
    requires forall t | t in plan :: t.index < |cache|
    ensures |r.cache| == |cache|
    ensures forall j | 0 <= j < |cache| && (forall t | t in plan :: t.index != j) :: r.cache[j] == cache[j]
    decreases |plan|
  {
    if plan == [] then Ran(cache, None)
    else match RunTask(cache, plan[0], fetch)
      case Err(e) => Ran(cache, Some(e))
      case Ok(next) =>
        assert forall t | t in plan[1..] :: t in plan;
        RunAll(next, plan[1..], fetch)
  }

  /** The queue fails exactly when some download fails. */
  lemma {:induction false} RunAllFails(cache: seq<Value>, plan: seq<Task>, fetch: Value -> Result<Object, string>)
    requires forall t | t in plan :: t.index < |cache|
    ensures RunAll(cache, plan, fetch).error.None? <==> forall t | t in plan :: fetch(Get(t.item, "slug")).Ok?
    decreases |plan|
  {
    if plan != [] {
      assert forall t | t in plan[1..] :: t in plan;
      assert forall t | t in plan :: t == plan[0] || t in plan[1..];
      match RunTask(cache, plan[0], fetch)
      case Err(_) =>
      case Ok(next) =>
        RunAllFails(next, plan[1..], fetch);
    }
  }

  // ------------------------------------------------------------------ a pass

  /** Why a pass failed: the remote API, or a TypeError reading a cached record. */
  datatype SyncError = RemoteError(message: string) | PropertyOfNullish

  /** The state `fetchArticles` leaves: the cache, the dirty flag, and its rejection if any. */
  datatype Fetched = Fetched(cache: seq<Value>, needUpdate: bool, error: Option<SyncError>)

  /**
   * `fetchArticles` on the cache and dirty flag it starts from. It rejects
   * with the listing's error, with the TypeError of a lookup that reached a
   * `null` or `undefined` record, or with the error of the first download
   * that failed; it resolves exactly when none of these happened.
   */
  function FetchAll(cache: seq<Value>, needUpdate: bool, listing: Result<seq<Object>, string>,
                    fetch: Value -> Result<Object, string>, parse: Value -> Option<int>): (r: Fetched)
    ensures |r.cache| >= |cache| && (needUpdate ==> r.needUpdate)
    ensures !r.needUpdate ==> r.cache == cache
    ensures listing.Err? ==> r == Fetched(cache, needUpdate, Some(RemoteError(listing.error)))
    ensures listing.Ok? ==>
      var c := ClassifyAll(Scan(cache, []), Realize(listing.value), parse);
      (r.error == Some(PropertyOfNullish) <==> c.threw) &&
      (r.error.None? <==> !c.threw && forall t | t in c.scan.plan :: fetch(Get(t.item, "slug")).Ok?)
    ensures listing.Ok? && NoNullish(cache) ==> r.error != Some(PropertyOfNullish)
  {
    match listing
    case Err(e) => Fetched(cache, needUpdate, Some(RemoteError(e)))
    case Ok(docs) =>
      var c := ClassifyAll(Scan(cache, []), Realize(docs), parse);
      var dirty := needUpdate || c.scan.plan != [];
      if c.threw then Fetched(c.scan.cache, dirty, Some(PropertyOfNullish))
      else
        RunAllFails(c.scan.cache, c.scan.plan, fetch);
        var ran := RunAll(c.scan.cache, c.scan.plan, fetch);
        Fetched(ran.cache, dirty, if ran.error.Some? then Some(RemoteError(ran.error.value)) else None)
  }

  /** `readYuqueCache`: the file's array, or an empty cache when it is missing, unreadable or not an array. */
  function Loaded(file: Option<Value>): (r: seq<Value>)
    ensures file.Some? && file.value.Arr? ==> r == file.value.elems
    ensures file.None? || !file.value.Arr? ==> r == []
  {
    if file.Some? && file.value.Arr? then file.value.elems else []
  }

  /** What `getAllArticles` returns, and what it writes to the cache file (`None`: nothing). */
  datatype Outcome = Outcome(result: Result<seq<Value>, SyncError>, written: Option<Value>)

  /**
   * `getAllArticles`: a fresh downloader reads the cache, syncs it and writes
   * it back when it changed; a rejection skips the write.
   */
  function SyncPass(file: Option<Value>, listing: Result<seq<Object>, string>,
                    fetch: Value -> Result<Object, string>, parse: Value -> Option<int>): (r: Outcome)
    ensures r.written.Some? ==> r.result.Ok? && r.written == Some(Jsonify(Arr(r.result.value)))
    ensures r.result.Ok? ==> |r.result.value| >= |Loaded(file)|
    ensures r.result.Ok? && r.written.None? ==> r.result.value == Loaded(file)
    ensures r.result.Err? ==> r.written.None?
    ensures listing.Err? ==> r == Outcome(Err(RemoteError(listing.error)), None)
    ensures listing.Ok? ==>
      var c := ClassifyAll(Scan(Loaded(file), []), Realize(listing.value), parse);
      (r.result == Err(PropertyOfNullish) <==> c.threw) &&
      (r.result.Ok? <==> !c.threw && forall t | t in c.scan.plan :: fetch(Get(t.item, "slug")).Ok?)
    ensures listing.Ok? && NoNullish(Loaded(file)) ==> r.result != Err(PropertyOfNullish)
  {
    var f := FetchAll(Loaded(file), false, listing, fetch, parse);
    if f.error.Some? then Outcome(Err(f.error.value), None)
    else Outcome(Ok(f.cache), if f.needUpdate then Some(Jsonify(Arr(f.cache))) else None)
  }
}
