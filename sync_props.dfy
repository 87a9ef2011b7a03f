/**
 * What one sync pass of src/download.js guarantees, proved about the
 * functions of `SyncSpec`: the shape of the summaries, how a lookup behaves,
 * that records are never removed or reordered and ids stay unique, how a
 * download is merged into its slot, and that a second pass over unchanged
 * remote data writes nothing.
 */
module SyncProps {
  import opened Wrappers
  import opened JsValue
  import opened RecordUtils
  import opened SyncSpec

  // ------------------------------------------------------------- summaries

  /** The picked properties that keep their name. */
  const KeptAsIs: seq<string> := ["id", "title", "description", "custom_description", "slug", "word_count", "cover"]

  /** The new name of a picked property. */
  function Renamed(k: string): string
  {
    NewKey(DateRenames, k)
  }

  /** No two picked properties are renamed to the same key. */
  lemma RenamedInjective(a: string, b: string)
    requires a in PickProperty && b in PickProperty && a != b
    ensures Renamed(a) != Renamed(b)
  {
  }

  /** A picked property reaches the summary under its new name, with its value. */
  lemma ShapeSummaryGetRenamed(doc: Object, k: string)
    requires k in PickProperty
    ensures Get(ShapeSummary(doc), Renamed(k)) == Get(doc, k)
    ensures Has(ShapeSummary(doc), Renamed(k)) <==> Has(doc, k)
  {
    if Has(doc, k) {
      ShapeSummaryPicked(doc, k);
    } else {
      ShapeSummaryNotPicked(doc, k);
    }
  }

  /** A picked property reaches the summary under its renamed key. */
  lemma ShapeSummaryPicked(doc: Object, k: string)
    requires k in PickProperty && Has(doc, k)
    ensures Get(ShapeSummary(doc), Renamed(k)) == Get(doc, k) && Has(ShapeSummary(doc), Renamed(k))
  {
    var o := Pick(PickProperty, doc);
    var i :| 0 <= i < |o| && o[i].key == k;
    GetAt(o, i);
    forall j | i < j < |o| ensures Renamed(o[j].key) != Renamed(o[i].key) {
      assert Has(o, o[j].key);
      RenamedInjective(o[j].key, k);
    }
    RenameKeysLaterWins(DateRenames, o, i);
  }

  /** A property the document lacks is missing from the summary under its renamed key too. */
  lemma ShapeSummaryNotPicked(doc: Object, k: string)
    requires k in PickProperty && !Has(doc, k)
    ensures Get(ShapeSummary(doc), Renamed(k)) == Undefined && !Has(ShapeSummary(doc), Renamed(k))
  {
    var o := Pick(PickProperty, doc);
    forall i | 0 <= i < |o| ensures Renamed(o[i].key) != Renamed(k) {
      assert Has(o, o[i].key);
      RenamedInjective(o[i].key, k);
    }
  }

  /** The publication dates reach the summary under `updated_at` and `created_at`. */
  lemma ShapeSummaryDates(doc: Object)
    ensures var s := ShapeSummary(doc);
      Get(s, "updated_at") == Get(doc, "published_at") &&
      Get(s, "created_at") == Get(doc, "first_published_at")
  {
    assert Renamed("published_at") == "updated_at";
    ShapeSummaryGetRenamed(doc, "published_at");
    assert Renamed("first_published_at") == "created_at";
    ShapeSummaryGetRenamed(doc, "first_published_at");
  }

  /** The other picked properties keep their name and value. */
  lemma ShapeSummaryKept(doc: Object, k: string)
    requires k in KeptAsIs
    ensures Get(ShapeSummary(doc), k) == Get(doc, k)
    ensures Has(ShapeSummary(doc), k) <==> Has(doc, k)
  {
    assert Renamed(k) == k;
    ShapeSummaryGetRenamed(doc, k);
  }

  /** A summary has no other keys than the kept ones and the two renamed dates. */
  lemma ShapeSummaryKeys(doc: Object, k: string)
    requires Has(ShapeSummary(doc), k)
    ensures k in KeptAsIs || k == "updated_at" || k == "created_at"
  {
    var o := Pick(PickProperty, doc);
    var i :| 0 <= i < |o| && Renamed(o[i].key) == k;
    assert Has(o, o[i].key);
    RenamedRange(o[i].key);
  }

  lemma RenamedRange(x: string)
    requires x in PickProperty
    ensures Renamed(x) in KeptAsIs || Renamed(x) == "updated_at" || Renamed(x) == "created_at"
  {
  }

  /** A published document: its first publication time is truthy. */
  predicate Published(doc: Object)
  {
    Truthy(Get(doc, "first_published_at"))
  }

  /**
   * The summaries are exactly the shapes of the published documents: each
   * comes from a published document, and every published document gives one.
   */
  lemma {:induction false} RealizeMembers(docs: seq<Object>)
    ensures forall s | s in Realize(docs) :: exists d | d in docs :: Published(d) && s == ShapeSummary(d)
    ensures forall d | d in docs && Published(d) :: ShapeSummary(d) in Realize(docs)
    decreases |docs|
  {
    RealizeSound(docs);
    RealizeComplete(docs);
  }

  /** Every summary is the shape of a published document. */
  lemma {:induction false} RealizeSound(docs: seq<Object>)
    ensures forall s | s in Realize(docs) :: exists d | d in docs :: Published(d) && s == ShapeSummary(d)
    decreases |docs|
  {
    if docs != [] {
      RealizeSound(docs[1..]);
      assert forall d | d in docs[1..] :: d in docs;
    }
  }

  /** Every published document gives a summary. */
  lemma {:induction false} RealizeComplete(docs: seq<Object>)
    ensures forall d | d in docs && Published(d) :: ShapeSummary(d) in Realize(docs)
    decreases |docs|
  {
    if docs != [] {
      RealizeComplete(docs[1..]);
      assert forall d | d in docs :: d == docs[0] || d in docs[1..];
    }
  }

  // ----------------------------------------------------------------- lookup

  /** The `id` of a summary. */
  function Id(s: Object): Value
  {
    Get(s, "id")
  }

  /** `===` is symmetric. */
  lemma StrictEqSymmetric(a: Value, b: Value)
    ensures StrictEq(a, b) <==> StrictEq(b, a)
  {
  }

  /** Two caches every lookup of `id` reads alike: the same records throw, match and pass. */
  predicate SameLookup(a: seq<Value>, b: seq<Value>, id: Value)
  {
    |a| == |b| &&
    forall j | 0 <= j < |a| ::
      (PropOf(a[j], "id").None? <==> PropOf(b[j], "id").None?) && (Matches(a[j], id) <==> Matches(b[j], id))
  }

  /** The lookup depends on nothing but whether each record throws, matches or passes. */
  lemma {:induction false} FindIndexSameLookup(a: seq<Value>, b: seq<Value>, id: Value, from: nat)
    requires SameLookup(a, b, id) && from <= |a|
    ensures FindIndexFrom(a, id, from) == FindIndexFrom(b, id, from)
    decreases |a| - from
  {
    if from < |a| {
      var x, y := a[from], b[from];
      assert (PropOf(x, "id").None? <==> PropOf(y, "id").None?) && (Matches(x, id) <==> Matches(y, id));
      FindIndexSameLookup(a, b, id, from + 1);
      if PropOf(x, "id").None? {
        assert FindIndexFrom(a, id, from) == Threw(from) == FindIndexFrom(b, id, from);
      } else if Matches(x, id) {
        assert FindIndexFrom(a, id, from) == At(from) == FindIndexFrom(b, id, from);
      } else {
        assert FindIndexFrom(a, id, from) == FindIndexFrom(a, id, from + 1);
        assert FindIndexFrom(b, id, from) == FindIndexFrom(b, id, from + 1);
      }
    }
  }

  /** A lookup that stopped inside the cache stops at the same place when records are appended. */
  lemma {:induction false} FindIndexAppend(cache: seq<Value>, more: seq<Value>, id: Value, from: nat)
    requires from <= |cache| && !FindIndexFrom(cache, id, from).Missing?
    ensures FindIndexFrom(cache + more, id, from) == FindIndexFrom(cache, id, from)
    decreases |cache| - from
  {
    assert (cache + more)[from] == cache[from];
    if Passes(cache[from], id) {
      FindIndexPasses(cache, id, from);
      FindIndexAppend(cache, more, id, from + 1);
      FindIndexPasses(cache + more, id, from);
    }
  }

  /** A record that matches ends the lookup. */
  lemma FindIndexMatches(cache: seq<Value>, id: Value, from: nat)
    requires from < |cache| && Matches(cache[from], id)
    ensures FindIndexFrom(cache, id, from) == At(from)
  {
  }

  /** A record that passes sends the lookup on to the next one. */
  lemma FindIndexPasses(cache: seq<Value>, id: Value, from: nat)
    requires from < |cache| && Passes(cache[from], id)
    ensures FindIndexFrom(cache, id, from) == FindIndexFrom(cache, id, from + 1)
  {
  }

  /** A lookup that found nothing finds a record pushed afterwards with a matching id, at the old length. */
  lemma {:induction false} FindIndexPushed(cache: seq<Value>, x: Value, id: Value, from: nat)
    requires from <= |cache| && FindIndexFrom(cache, id, from).Missing? && Matches(x, id)
    ensures FindIndexFrom(cache + [x], id, from) == At(|cache|)
    decreases |cache| - from
  {
    if from < |cache| {
      assert (cache + [x])[from] == cache[from];
      FindIndexPasses(cache, id, from);
      FindIndexPushed(cache, x, id, from + 1);
      FindIndexPasses(cache + [x], id, from);
    } else {
      assert (cache + [x])[from] == x;
      FindIndexMatches(cache + [x], id, from);
    }
  }

  /** A lookup that found nothing still finds nothing after a record with another id is pushed. */
  lemma {:induction false} FindIndexPushedOther(cache: seq<Value>, x: Value, id: Value, from: nat)
    requires from <= |cache| && FindIndexFrom(cache, id, from).Missing? && Passes(x, id)
    ensures FindIndexFrom(cache + [x], id, from).Missing?
    decreases |cache| - from
  {
    if from < |cache| {
      assert (cache + [x])[from] == cache[from];
      FindIndexPasses(cache, id, from);
      FindIndexPushedOther(cache, x, id, from + 1);
      FindIndexPasses(cache + [x], id, from);
    } else {
      assert (cache + [x])[from] == x;
    }
  }

  // ----------------------------------------------------------- unique ids

  /** No two records have `===` ids: the later one never matches the earlier one's id. */
  predicate UniqueIds(cache: seq<Value>)
  {
    forall i, j | 0 <= i < j < |cache| && PropOf(cache[i], "id").Some? :: !Matches(cache[j], PropOf(cache[i], "id").value)
  }

  /** A summary is pushed only when no record matches its id, so ids stay unique. */
  lemma ClassifyOneKeepsUniqueIds(p: Scan, s: Object, parse: Value -> Option<int>)
    requires UniqueIds(p.cache) && ClassifyOne(p, s, parse).Some?
    ensures UniqueIds(ClassifyOne(p, s, parse).value.cache)
  {
    var f := FindIndex(p.cache, Id(s));
    if f.Missing? {
      var c := p.cache + [Obj(s)];
      assert ClassifyOne(p, s, parse).value.cache == c;
      forall i, j | 0 <= i < j < |c| && PropOf(c[i], "id").Some?
        ensures !Matches(c[j], PropOf(c[i], "id").value)
      {
        if j == |p.cache| {
          assert Passes(p.cache[i], Id(s));
          StrictEqSymmetric(PropOf(c[i], "id").value, Id(s));
        } else {
          assert c[i] == p.cache[i] && c[j] == p.cache[j];
        }
      }
    }
  }

  /** The classification loop keeps the ids of the cache unique. */
  lemma {:induction false} ClassifyAllKeepsUniqueIds(p: Scan, ss: seq<Object>, parse: Value -> Option<int>)
    requires UniqueIds(p.cache)
    ensures UniqueIds(ClassifyAll(p, ss, parse).scan.cache)
    decreases |ss|
  {
    if ss != [] {
      var q := ClassifyOne(p, ss[0], parse);
      if q.Some? {
        ClassifyOneKeepsUniqueIds(p, ss[0], parse);
        ClassifyAllKeepsUniqueIds(q.value, ss[1..], parse);
      }
    }
  }

  /** The appended slot `j` holds a summary of `ss`, and a queued download targets it. */
  predicate AppendedQueued(r: Scan, j: nat, ss: seq<Object>)
  {
    exists a | 0 <= a < |r.plan| :: r.plan[a].index == j && j < |r.cache| && r.cache[j] == Obj(r.plan[a].item) && r.plan[a].item in ss
  }

  /** A record pushed by one iteration is the summary, queued for its new slot. */
  lemma ClassifyOnePushes(p: Scan, s: Object, parse: Value -> Option<int>)
    requires ClassifyOne(p, s, parse).Some? && |ClassifyOne(p, s, parse).value.cache| > |p.cache|
    ensures var q := ClassifyOne(p, s, parse).value;
      q.cache == p.cache + [Obj(s)] && q.plan == p.plan + [Task(s, |p.cache|)]
  {
  }

  /** What is queued stays queued; a larger set of summaries still contains the item. */
  lemma AppendedQueuedGrows(q: Scan, r: Scan, j: nat, ss: seq<Object>, ss': seq<Object>)
    requires AppendedQueued(q, j, ss) && q.cache <= r.cache && q.plan <= r.plan
    requires forall x | x in ss :: x in ss'
    ensures AppendedQueued(r, j, ss')
  {
    var a :| 0 <= a < |q.plan| && q.plan[a].index == j && j < |q.cache| && q.cache[j] == Obj(q.plan[a].item) && q.plan[a].item in ss;
    assert r.plan[a] == q.plan[a] && r.cache[j] == q.cache[j];
  }

  /**
   * The loop never removes or reorders a record, and each record it appends
   * is a summary, queued for download into exactly that slot.
   */
  lemma {:induction false} ClassifyAllAppends(p: Scan, ss: seq<Object>, parse: Value -> Option<int>)
    ensures var r := ClassifyAll(p, ss, parse).scan;
      p.cache <= r.cache && forall j | |p.cache| <= j < |r.cache| :: AppendedQueued(r, j, ss)
    decreases |ss|
  {
    if ss != [] {
      var q := ClassifyOne(p, ss[0], parse);
      if q.Some? {
        var r := ClassifyAll(q.value, ss[1..], parse).scan;
        assert r == ClassifyAll(p, ss, parse).scan;
        ClassifyAllAppends(q.value, ss[1..], parse);
        assert forall x | x in ss[1..] :: x in ss;
        forall j | |p.cache| <= j < |r.cache| ensures AppendedQueued(r, j, ss) {
          if j < |q.value.cache| {
            ClassifyOnePushes(p, ss[0], parse);
            assert q.value.plan[|p.plan|] == Task(ss[0], j);
            assert AppendedQueued(q.value, j, ss);
            AppendedQueuedGrows(q.value, r, j, ss, ss);
          } else {
            AppendedQueuedGrows(r, r, j, ss[1..], ss);
          }
        }
      }
    }
  }

  // ------------------------------------------------------- counting new ids

  /** Every summary's id is `===` itself: none is an array or an object. */
  predicate PlainIds(ss: seq<Object>)
  {
    forall q | 0 <= q < |ss| :: !Id(ss[q]).Arr? && !Id(ss[q]).Obj?
  }

  /** The ids of the summaries that the cache does not hold. */
  function NewIds(cache: seq<Value>, ss: seq<Object>): set<Value>
  {
    set q | 0 <= q < |ss| && FindIndex(cache, Id(ss[q])).Missing? :: Id(ss[q])
  }

  /** Pushing a summary changes the lookup of no other id. */
  lemma MissingAfterPush(cache: seq<Value>, s: Object, x: Value)
    requires FindIndex(cache, Id(s)).Missing? && x != Id(s)
    ensures FindIndex(cache + [Obj(s)], x).Missing? <==> FindIndex(cache, x).Missing?
  {
    if FindIndex(cache, x).Missing? {
      assert Passes(Obj(s), x);
      FindIndexPushedOther(cache, Obj(s), x, 0);
    } else {
      FindIndexAppend(cache, [Obj(s)], x, 0);
    }
  }

  /** A summary the cache holds adds no new id. */
  lemma NewIdsFound(cache: seq<Value>, ss: seq<Object>)
    requires ss != [] && !FindIndex(cache, Id(ss[0])).Missing?
    ensures NewIds(cache, ss) == NewIds(cache, ss[1..])
  {
    forall x | x in NewIds(cache, ss) ensures x in NewIds(cache, ss[1..]) {
      var q :| 0 <= q < |ss| && FindIndex(cache, Id(ss[q])).Missing? && x == Id(ss[q]);
      assert q != 0 && ss[1..][q - 1] == ss[q];
    }
    forall x | x in NewIds(cache, ss[1..]) ensures x in NewIds(cache, ss) {
      var q :| 0 <= q < |ss[1..]| && FindIndex(cache, Id(ss[1..][q])).Missing? && x == Id(ss[1..][q]);
      assert ss[q + 1] == ss[1..][q];
    }
  }

  /** A summary the cache lacks adds its id, which the rest then finds pushed. */
  lemma NewIdsPushed(cache: seq<Value>, ss: seq<Object>)
    requires ss != [] && FindIndex(cache, Id(ss[0])).Missing? && !Id(ss[0]).Arr? && !Id(ss[0]).Obj?
    ensures var c := cache + [Obj(ss[0])];
      Id(ss[0]) !in NewIds(c, ss[1..]) && NewIds(cache, ss) == {Id(ss[0])} + NewIds(c, ss[1..])
  {
    var c := cache + [Obj(ss[0])];
    FindIndexPushed(cache, Obj(ss[0]), Id(ss[0]), 0);
    forall x | x in NewIds(cache, ss) && x != Id(ss[0]) ensures x in NewIds(c, ss[1..]) {
      var q :| 0 <= q < |ss| && FindIndex(cache, Id(ss[q])).Missing? && x == Id(ss[q]);
      MissingAfterPush(cache, ss[0], x);
      assert q != 0 && ss[1..][q - 1] == ss[q];
    }
    forall x | x in NewIds(c, ss[1..]) ensures x in NewIds(cache, ss) && x != Id(ss[0]) {
      var q :| 0 <= q < |ss[1..]| && FindIndex(c, Id(ss[1..][q])).Missing? && x == Id(ss[1..][q]);
      MissingAfterPush(cache, ss[0], x);
      assert ss[q + 1] == ss[1..][q];
    }
    assert Id(ss[0]) in NewIds(cache, ss);
  }

  /** What one iteration does to the cache when no record is `null` or `undefined`. */
  lemma ClassifyOneCache(p: Scan, s: Object, parse: Value -> Option<int>)
    requires NoNullish(p.cache)
    ensures var q := ClassifyOne(p, s, parse).value;
      q.cache == if FindIndex(p.cache, Id(s)).Missing? then p.cache + [Obj(s)] else p.cache
  {
    var q := ClassifyOne(p, s, parse).value;
    if !FindIndex(p.cache, Id(s)).Missing? {
      assert p.cache <= q.cache && |q.cache| == |p.cache|;
    }
  }

  /**
   * When no record is `null` or `undefined` and every id is `===` itself, the
   * loop grows the cache by the number of distinct ids it did not hold.
   */
  lemma {:induction false} ClassifyAllGrowth(p: Scan, ss: seq<Object>, parse: Value -> Option<int>)
    requires NoNullish(p.cache) && PlainIds(ss)
    ensures |ClassifyAll(p, ss, parse).scan.cache| == |p.cache| + |NewIds(p.cache, ss)|
    decreases |ss|
  {
    if ss == [] {
      assert NewIds(p.cache, ss) == {};
    } else {
      var q := ClassifyOne(p, ss[0], parse).value;
      assert ClassifyAll(p, ss, parse) == ClassifyAll(q, ss[1..], parse);
      PlainIdsTail(ss);
      ClassifyAllGrowth(q, ss[1..], parse);
      ClassifyOneCache(p, ss[0], parse);
      if FindIndex(p.cache, Id(ss[0])).Missing? {
        NewIdsPushed(p.cache, ss);
      } else {
        NewIdsFound(p.cache, ss);
      }
    }
  }

  /**
   * When no record is `null` or `undefined` and every id is `===` itself, the
   * loop ends with every summary's id found in the cache.
   */
  lemma {:induction false} ClassifyAllFindsAll(p: Scan, ss: seq<Object>, parse: Value -> Option<int>)
    requires NoNullish(p.cache) && PlainIds(ss)
    ensures forall k | 0 <= k < |ss| :: FindIndex(ClassifyAll(p, ss, parse).scan.cache, Id(ss[k])).At?
    decreases |ss|
  {
    if ss != [] {
      var q := ClassifyOne(p, ss[0], parse).value;
      var r := ClassifyAll(q, ss[1..], parse).scan;
      assert ClassifyAll(p, ss, parse).scan == r;
      PlainIdsTail(ss);
      ClassifyAllFindsAll(q, ss[1..], parse);
      ClassifyOneFinds(p, ss[0], parse);
      FoundStaysFound(q.cache, r.cache, Id(ss[0]));
      forall k | 0 <= k < |ss| ensures FindIndex(r.cache, Id(ss[k])).At? {
        if k > 0 {
          assert ss[k] == ss[1..][k - 1];
        }
      }
    }
  }

  lemma PlainIdsTail(ss: seq<Object>)
    requires ss != [] && PlainIds(ss)
    ensures PlainIds(ss[1..])
  {
    forall k | 0 <= k < |ss[1..]| ensures !Id(ss[1..][k]).Arr? && !Id(ss[1..][k]).Obj? {
      assert ss[1..][k] == ss[k + 1];
    }
  }

  /** After one iteration the summary's id is found. */
  lemma ClassifyOneFinds(p: Scan, s: Object, parse: Value -> Option<int>)
    requires NoNullish(p.cache) && !Id(s).Arr? && !Id(s).Obj?
    ensures FindIndex(ClassifyOne(p, s, parse).value.cache, Id(s)).At?
  {
    ClassifyOneCache(p, s, parse);
    if FindIndex(p.cache, Id(s)).Missing? {
      FindIndexPushed(p.cache, Obj(s), Id(s), 0);
    }
  }

  /** Records appended after a found record leave the lookup where it was. */
  lemma FoundStaysFound(a: seq<Value>, b: seq<Value>, id: Value)
    requires a <= b && FindIndex(a, id).At?
    ensures FindIndex(b, id) == FindIndex(a, id)
  {
    assert b == a + b[|a|..];
    FindIndexAppend(a, b[|a|..], id, 0);
  }

  // ------------------------------------------------------------ downloads

  /**
   * A completed download overlays the cached record with the summary, then
   * with the parsed body: the later source wins, and keys only the cached
   * record has survive.
   */
  lemma RunTaskMerge(cache: seq<Value>, t: Task, fetch: Value -> Result<Object, string>, k: string)
    requires t.index < |cache| && fetch(Get(t.item, "slug")).Ok?
    requires WellFormed(AsObject(cache[t.index])) && WellFormed(t.item) && WellFormed(fetch(Get(t.item, "slug")).value)
    ensures var parsed := fetch(Get(t.item, "slug")).value;
      var old_ := AsObject(cache[t.index]);
      var rec := RunTask(cache, t, fetch).value[t.index];
      rec.Obj? &&
      (Has(rec.fields, k) <==> Has(old_, k) || Has(t.item, k) || Has(parsed, k)) &&
      Get(rec.fields, k) == if Has(parsed, k) then Get(parsed, k) else if Has(t.item, k) then Get(t.item, k) else Get(old_, k)
  {
    var parsed := fetch(Get(t.item, "slug")).value;
    MergeGet(t.item, parsed, k);
    MergeGet(AsObject(cache[t.index]), Merge(t.item, parsed), k);
  }

  /** No queued downloads target the same slot. */
  predicate DistinctTargets(plan: seq<Task>)
  {
    forall a, b | 0 <= a < b < |plan| :: plan[a].index != plan[b].index
  }

  /** A record downloaded into `slot` of `cache`: the cached fields overlaid by the summary and the body. */
  function Downloaded(cache: seq<Value>, t: Task, parsed: Object): Value
    requires t.index < |cache|
  {
    Obj(Merge(AsObject(cache[t.index]), Merge(t.item, parsed)))
  }

  lemma DistinctTargetsTail(plan: seq<Task>)
    requires plan != [] && DistinctTargets(plan)
    ensures DistinctTargets(plan[1..])
    ensures forall t | t in plan[1..] :: t.index != plan[0].index
  {
    forall a, b | 0 <= a < b < |plan[1..]| ensures plan[1..][a].index != plan[1..][b].index {
      assert plan[1..][a] == plan[a + 1] && plan[1..][b] == plan[b + 1];
    }
    forall t | t in plan[1..] ensures t.index != plan[0].index {
      var b :| 0 <= b < |plan[1..]| && plan[1..][b] == t;
      assert plan[b + 1] == t;
    }
  }

  /**
   * When no download fails and the downloads target distinct slots, each
   * slot ends up with its own download merged into the record that was
   * there, whatever the order of the queue.
   */
  lemma {:induction false} RunAllEffect(cache: seq<Value>, plan: seq<Task>, fetch: Value -> Result<Object, string>)
    requires forall t | t in plan :: t.index < |cache|
    requires DistinctTargets(plan) && RunAll(cache, plan, fetch).error.None?
    ensures forall a | 0 <= a < |plan| ::
      fetch(Get(plan[a].item, "slug")).Ok? &&
      RunAll(cache, plan, fetch).cache[plan[a].index] == Downloaded(cache, plan[a], fetch(Get(plan[a].item, "slug")).value)
    decreases |plan|
  {
    if plan != [] {
      assert forall t | t in plan[1..] :: t in plan;
      var t0 := plan[0];
      var next := RunTask(cache, t0, fetch).value;
      var r := RunAll(next, plan[1..], fetch);
      assert r == RunAll(cache, plan, fetch);
      DistinctTargetsTail(plan);
      RunAllEffect(next, plan[1..], fetch);
      forall a | 0 <= a < |plan|
        ensures fetch(Get(plan[a].item, "slug")).Ok? &&
          r.cache[plan[a].index] == Downloaded(cache, plan[a], fetch(Get(plan[a].item, "slug")).value)
      {
        if a > 0 {
          assert plan[1..][a - 1] == plan[a];
          assert next[plan[a].index] == cache[plan[a].index];
        }
      }
    }
  }

  /** A download never removes a key of an object record: the queue only adds and overwrites. */
  lemma {:induction false} RunAllKeepsKeys(cache: seq<Value>, plan: seq<Task>, fetch: Value -> Result<Object, string>,
                                           j: nat, k: string)
    requires forall t | t in plan :: t.index < |cache|
    requires j < |cache| && cache[j].Obj? && Has(cache[j].fields, k)
    ensures RunAll(cache, plan, fetch).cache[j].Obj? && Has(RunAll(cache, plan, fetch).cache[j].fields, k)
    decreases |plan|
  {
    if plan != [] {
      assert forall t | t in plan[1..] :: t in plan;
      match RunTask(cache, plan[0], fetch)
      case Err(_) =>
      case Ok(next) =>
        RunAllKeepsKeys(next, plan[1..], fetch, j, k);
    }
  }

  // -------------------------------------------------- a second pass is a no-op

  /**
   * A summary the sync can settle: a well-formed object with a number or
   * string id and an update time that is a parsable string.
   */
  predicate Keyed(s: Object, parse: Value -> Option<int>)
  {
    WellFormed(s) && (Id(s).Num? || Id(s).Str?) && Get(s, "updated_at").Str? && parse(Get(s, "updated_at")).Some?
  }

  /** No two summaries share an id. */
  predicate DistinctIds(ss: seq<Object>)
  {
    forall a, b | 0 <= a < b < |ss| :: Id(ss[a]) != Id(ss[b])
  }

  /** Every object record of the cache is well formed, as `JSON.parse` builds it. */
  predicate JsonRecords(cache: seq<Value>)
  {
    forall j | 0 <= j < |cache| :: cache[j].Obj? ==> WellFormed(cache[j].fields)
  }

  /** What a cache file holds: records that writing as JSON leaves as they are. */
  predicate JsonCache(cache: seq<Value>)
  {
    JsonRecords(cache) && forall j | 0 <= j < |cache| :: Jsonify(cache[j]) == cache[j]
  }

  /** The front matter of a downloaded body sets neither the id nor the update time. */
  ghost predicate PlainBodies(fetch: Value -> Result<Object, string>)
  {
    forall x :: fetch(x).Ok? ==>
      WellFormed(fetch(x).value) && !Has(fetch(x).value, "id") && !Has(fetch(x).value, "updated_at")
  }

  /**
   * During the loop, a summary already classified is found in the cache, and
   * either it is queued for its slot, or its slot is an old record with the
   * same update time that no download targets.
   */
  predicate Settled(n0: nat, p: Scan, s: Object, parse: Value -> Option<int>)
  {
    var f := FindIndex(p.cache, Id(s));
    f.At? &&
    (Task(s, f.index) in p.plan ||
     (f.index < n0 && SameTime(parse, Get(s, "updated_at"), PropOf(p.cache[f.index], "updated_at").value) &&
      f.index !in Targets(p.plan)))
  }

  /** Every queued download targets a slot whose record matches the id of its summary, one of the first `k`. */
  predicate QueuedMatch(p: Scan, ss: seq<Object>, k: nat)
    requires k <= |ss|
  {
    forall a | 0 <= a < |p.plan| ::
      p.plan[a].index < |p.cache| && Matches(p.cache[p.plan[a].index], Id(p.plan[a].item)) && p.plan[a].item in ss[..k]
  }

  /** The slots the queued downloads target. */
  function Targets(plan: seq<Task>): set<nat>
  {
    set t | t in plan :: t.index
  }

  /** Every appended slot is targeted by a queued download. */
  predicate AppendedTargeted(n0: nat, p: Scan)
  {
    forall j | n0 <= j < |p.cache| :: j in Targets(p.plan)
  }

  /** The state of the classification loop after the first `k` summaries, from the cache `c0`. */
  predicate Inv(c0: seq<Value>, p: Scan, ss: seq<Object>, k: nat, parse: Value -> Option<int>)
    requires k <= |ss|
  {
    c0 <= p.cache && JsonRecords(p.cache) && QueuedMatch(p, ss, k) && DistinctTargets(p.plan) &&
    AppendedTargeted(|c0|, p) && forall q | 0 <= q < k :: Settled(|c0|, p, ss[q], parse)
  }

  /** Two ids a record matches are the same id. */
  lemma MatchesSame(c: Value, x: Value, y: Value)
    requires Matches(c, x) && Matches(c, y)
    ensures x == y
  {
  }

  /** A slot matching the id of `ss[k]` is targeted by no download queued for an earlier summary. */
  lemma NoEarlierTarget(p: Scan, ss: seq<Object>, k: nat, i: nat)
    requires k < |ss| && DistinctIds(ss) && QueuedMatch(p, ss, k)
    requires i < |p.cache| && Matches(p.cache[i], Id(ss[k]))
    ensures i !in Targets(p.plan)
  {
    var c, id := p.cache[i], Id(ss[k]);
    forall t | t in p.plan ensures t.index != i {
      var a :| 0 <= a < |p.plan| && p.plan[a] == t;
      if t.index == i {
        MatchesSame(c, Id(t.item), id);
      }
    }
  }

  /** The assumptions on the summaries under which a pass settles them all. */
  predicate Settleable(ss: seq<Object>, parse: Value -> Option<int>)
  {
    DistinctIds(ss) && forall q | 0 <= q < |ss| :: Keyed(ss[q], parse)
  }

  /** A summary missing from the cache is appended and queued for its new slot. */
  lemma InvMissing(c0: seq<Value>, p: Scan, ss: seq<Object>, k: nat, parse: Value -> Option<int>)
    requires k < |ss| && Settleable(ss, parse) && Inv(c0, p, ss, k, parse)
    requires FindIndex(p.cache, Id(ss[k])).Missing?
    ensures ClassifyOne(p, ss[k], parse).Some? && Inv(c0, ClassifyOne(p, ss[k], parse).value, ss, k + 1, parse)
  {
    var s, n := ss[k], |p.cache|;
    var q := Scan(p.cache + [Obj(s)], p.plan + [Task(s, n)]);
    assert ClassifyOne(p, s, parse) == Some(q);
    PushedQueued(p, ss, k, parse);
    assert Keyed(s, parse);
    PushedCache(c0, p, s, Targets(q.plan));
    forall r | 0 <= r < k ensures Settled(|c0|, q, ss[r], parse) {
      PushedSettled(c0, p, ss, k, r, parse);
    }
    FindIndexPushed(p.cache, Obj(s), Id(s), 0);
  }

  /** After a push, the cache still extends `c0`, holds well-formed records, and its appended slots are targeted. */
  lemma PushedCache(c0: seq<Value>, p: Scan, s: Object, targets: set<nat>)
    requires c0 <= p.cache && JsonRecords(p.cache) && AppendedTargeted(|c0|, p) && WellFormed(s)
    requires targets == Targets(p.plan) + {|p.cache|}
    ensures var c := p.cache + [Obj(s)];
      c0 <= c && JsonRecords(c) && forall j | |c0| <= j < |c| :: j in targets
  {
    var c := p.cache + [Obj(s)];
    forall j | 0 <= j < |c| ensures c[j].Obj? ==> WellFormed(c[j].fields) {
      if j < |p.cache| { assert c[j] == p.cache[j]; }
    }
  }

  /** After a push, the queue still targets matching, distinct slots, now the new one too. */
  lemma PushedQueued(p: Scan, ss: seq<Object>, k: nat, parse: Value -> Option<int>)
    requires k < |ss| && Settleable(ss, parse) && QueuedMatch(p, ss, k) && DistinctTargets(p.plan)
    ensures var q := Scan(p.cache + [Obj(ss[k])], p.plan + [Task(ss[k], |p.cache|)]);
      QueuedMatch(q, ss, k + 1) && DistinctTargets(q.plan) && Targets(q.plan) == Targets(p.plan) + {|p.cache|}
  {
    var s, n := ss[k], |p.cache|;
    var q := Scan(p.cache + [Obj(s)], p.plan + [Task(s, n)]);
    assert ss[..k + 1] == ss[..k] + [s];
    assert Keyed(s, parse);
    assert Matches(Obj(s), Id(s));
    forall a | 0 <= a < |q.plan|
      ensures q.plan[a].index < |q.cache| && Matches(q.cache[q.plan[a].index], Id(q.plan[a].item)) && q.plan[a].item in ss[..k + 1]
    {
      if a < |p.plan| {
        assert q.plan[a] == p.plan[a] && q.cache[p.plan[a].index] == p.cache[p.plan[a].index];
      }
    }
    forall a, b | 0 <= a < b < |q.plan| ensures q.plan[a].index != q.plan[b].index {
      assert q.plan[a] == p.plan[a];
    }
  }

  /** A summary settled before a push is still settled after it. */
  lemma PushedSettled(c0: seq<Value>, p: Scan, ss: seq<Object>, k: nat, r: nat, parse: Value -> Option<int>)
    requires r < k < |ss| && Settled(|c0|, p, ss[r], parse) && PlanInBounds(p)
    ensures Settled(|c0|, Scan(p.cache + [Obj(ss[k])], p.plan + [Task(ss[k], |p.cache|)]), ss[r], parse)
  {
    var q := Scan(p.cache + [Obj(ss[k])], p.plan + [Task(ss[k], |p.cache|)]);
    var f := FindIndex(p.cache, Id(ss[r]));
    FindIndexAppend(p.cache, [Obj(ss[k])], Id(ss[r]), 0);
    assert q.cache[f.index] == p.cache[f.index];
    assert Targets(q.plan) == Targets(p.plan) + {|p.cache|};
  }

  /** A summary found with the same update time changes nothing, and its slot is an old one no download targets. */
  lemma InvSame(c0: seq<Value>, p: Scan, ss: seq<Object>, k: nat, parse: Value -> Option<int>)
    requires k < |ss| && Settleable(ss, parse) && Inv(c0, p, ss, k, parse)
    requires var f := FindIndex(p.cache, Id(ss[k]));
      f.At? && SameTime(parse, Get(ss[k], "updated_at"), PropOf(p.cache[f.index], "updated_at").value)
    ensures ClassifyOne(p, ss[k], parse).Some? && Inv(c0, ClassifyOne(p, ss[k], parse).value, ss, k + 1, parse)
  {
    var s := ss[k];
    var i := FindIndex(p.cache, Id(s)).index;
    assert ClassifyOne(p, s, parse) == Some(p);
    NoEarlierTarget(p, ss, k, i);
    assert ss[..k] <= ss[..k + 1];
    assert i < |c0|;
  }

  /** A summary found with another update time is queued for its slot, which no earlier download targets. */
  lemma InvChanged(c0: seq<Value>, p: Scan, ss: seq<Object>, k: nat, parse: Value -> Option<int>)
    requires k < |ss| && Settleable(ss, parse) && Inv(c0, p, ss, k, parse)
    requires var f := FindIndex(p.cache, Id(ss[k]));
      f.At? && !SameTime(parse, Get(ss[k], "updated_at"), PropOf(p.cache[f.index], "updated_at").value)
    ensures ClassifyOne(p, ss[k], parse).Some? && Inv(c0, ClassifyOne(p, ss[k], parse).value, ss, k + 1, parse)
  {
    var s := ss[k];
    var i := FindIndex(p.cache, Id(s)).index;
    var q := Scan(p.cache, p.plan + [Task(s, i)]);
    assert ClassifyOne(p, s, parse) == Some(q);
    NoEarlierTarget(p, ss, k, i);
    ChangedQueued(p, ss, k, i);
    forall r | 0 <= r < k ensures Settled(|c0|, q, ss[r], parse) {
      ChangedSettled(|c0|, p, ss, k, i, r, parse);
    }
  }

  /** Queuing a download for the matching slot `i`, which no download targets yet, keeps the queue matching and distinct. */
  lemma ChangedQueued(p: Scan, ss: seq<Object>, k: nat, i: nat)
    requires k < |ss| && QueuedMatch(p, ss, k) && DistinctTargets(p.plan)
    requires i < |p.cache| && Matches(p.cache[i], Id(ss[k])) && i !in Targets(p.plan)
    ensures var q := Scan(p.cache, p.plan + [Task(ss[k], i)]);
      QueuedMatch(q, ss, k + 1) && DistinctTargets(q.plan) && Targets(q.plan) == Targets(p.plan) + {i}
  {
    var q := Scan(p.cache, p.plan + [Task(ss[k], i)]);
    assert ss[..k + 1] == ss[..k] + [ss[k]];
    forall a | 0 <= a < |q.plan|
      ensures q.plan[a].index < |q.cache| && Matches(q.cache[q.plan[a].index], Id(q.plan[a].item)) && q.plan[a].item in ss[..k + 1]
    {
      if a < |p.plan| {
        assert q.plan[a] == p.plan[a];
      }
    }
    forall a, b | 0 <= a < b < |q.plan| ensures q.plan[a].index != q.plan[b].index {
      assert q.plan[a] == p.plan[a] && q.plan[a] in p.plan;
      if b == |p.plan| {
        assert q.plan[a].index in Targets(p.plan);
      }
    }
  }

  /** An earlier summary stays settled when another summary's slot `i` is queued. */
  lemma ChangedSettled(n0: nat, p: Scan, ss: seq<Object>, k: nat, i: nat, r: nat, parse: Value -> Option<int>)
    requires r < k < |ss| && DistinctIds(ss) && Settled(n0, p, ss[r], parse)
    requires i < |p.cache| && Matches(p.cache[i], Id(ss[k]))
    ensures Settled(n0, Scan(p.cache, p.plan + [Task(ss[k], i)]), ss[r], parse)
  {
    var q := Scan(p.cache, p.plan + [Task(ss[k], i)]);
    var f := FindIndex(p.cache, Id(ss[r]));
    assert Targets(q.plan) == Targets(p.plan) + {i};
    var c, x, y := p.cache[i], Id(ss[r]), Id(ss[k]);
    if f.index == i {
      MatchesSame(c, x, y);
    }
  }

  /** The classification loop settles every summary, from the invariant at `k` to the end. */
  lemma {:induction false} ClassifyAllKeepsInv(c0: seq<Value>, p: Scan, ss: seq<Object>, k: nat, parse: Value -> Option<int>)
    requires k <= |ss| && Settleable(ss, parse) && Inv(c0, p, ss, k, parse)
    requires !ClassifyAll(p, ss[k..], parse).threw
    ensures Inv(c0, ClassifyAll(p, ss[k..], parse).scan, ss, |ss|, parse)
    decreases |ss| - k
  {
    if k == |ss| {
      assert ss[k..] == [];
    } else {
      ClassifyAllStep(p, ss, k, parse);
      var f := FindIndex(p.cache, Id(ss[k]));
      assert !f.Threw?;
      if f.Missing? {
        InvMissing(c0, p, ss, k, parse);
      } else if SameTime(parse, Get(ss[k], "updated_at"), PropOf(p.cache[f.index], "updated_at").value) {
        InvSame(c0, p, ss, k, parse);
      } else {
        InvChanged(c0, p, ss, k, parse);
      }
      ClassifyAllKeepsInv(c0, ClassifyOne(p, ss[k], parse).value, ss, k + 1, parse);
    }
  }

  /** A summary of `ss` satisfies what `Settleable` asks of each one. */
  lemma KeyedMember(ss: seq<Object>, s: Object, parse: Value -> Option<int>)
    requires Settleable(ss, parse) && s in ss
    ensures Keyed(s, parse)
  {
    var q :| 0 <= q < |ss| && ss[q] == s;
  }

  /**
   * Downloading into a slot keeps the id the lookup matched there: the body
   * sets no id and the summary brings the same one.
   */
  lemma DownloadKeepsId(cache: seq<Value>, t: Task, parsed: Object)
    requires t.index < |cache| && Matches(cache[t.index], Id(t.item)) && (Id(t.item).Num? || Id(t.item).Str?)
    requires WellFormed(AsObject(cache[t.index])) && WellFormed(t.item) && WellFormed(parsed) && !Has(parsed, "id")
    ensures PropOf(Downloaded(cache, t, parsed), "id") == PropOf(cache[t.index], "id")
  {
    var c := cache[t.index];
    var id := Id(t.item);
    assert c.Obj?;
    assert Has(t.item, "id");
    StrictEqIsEq(Get(c.fields, "id"), id);
    var source := Merge(t.item, parsed);
    MergeGet(t.item, parsed, "id");
    assert Has(source, "id") && Get(source, "id") == id;
    MergeGet(c.fields, source, "id");
  }

  /** After the downloads the records are well formed and keep their ids. */
  lemma DownloadsKeepIds(S: Scan, ss: seq<Object>, fetch: Value -> Result<Object, string>, parse: Value -> Option<int>)
    requires Settleable(ss, parse) && QueuedMatch(S, ss, |ss|) && DistinctTargets(S.plan) && JsonRecords(S.cache)
    requires PlainBodies(fetch) && RunAll(S.cache, S.plan, fetch).error.None?
    ensures var c1 := RunAll(S.cache, S.plan, fetch).cache;
      JsonRecords(c1) && forall j | 0 <= j < |c1| :: PropOf(c1[j], "id") == PropOf(S.cache[j], "id")
  {
    var c1 := RunAll(S.cache, S.plan, fetch).cache;
    forall j | 0 <= j < |c1|
      ensures (c1[j].Obj? ==> WellFormed(c1[j].fields)) && PropOf(c1[j], "id") == PropOf(S.cache[j], "id")
    {
      DownloadKeepsIdAt(S, ss, fetch, parse, j);
    }
  }

  /** One slot after the downloads: well formed, with the id it had. */
  lemma DownloadKeepsIdAt(S: Scan, ss: seq<Object>, fetch: Value -> Result<Object, string>, parse: Value -> Option<int>, j: nat)
    requires Settleable(ss, parse) && QueuedMatch(S, ss, |ss|) && DistinctTargets(S.plan) && JsonRecords(S.cache)
    requires PlainBodies(fetch) && RunAll(S.cache, S.plan, fetch).error.None? && j < |S.cache|
    ensures var c1 := RunAll(S.cache, S.plan, fetch).cache;
      (c1[j].Obj? ==> WellFormed(c1[j].fields)) && PropOf(c1[j], "id") == PropOf(S.cache[j], "id")
  {
    if j in Targets(S.plan) {
      var a := TargetAt(S.plan, j);
      TargetedSlotKeepsId(S, ss, fetch, parse, a);
    } else {
      UntargetedSlotKept(S.cache, S.plan, fetch, j);
    }
  }

  /** A targeted slot is the target of some queued download. */
  lemma TargetAt(plan: seq<Task>, j: nat) returns (a: nat)
    requires j in Targets(plan)
    ensures a < |plan| && plan[a].index == j
  {
    var t :| t in plan && t.index == j;
    a :| a < |plan| && plan[a] == t;
  }

  /** A slot no download targets is left as it was. */
  lemma UntargetedSlotKept(cache: seq<Value>, plan: seq<Task>, fetch: Value -> Result<Object, string>, j: nat)
    requires forall t | t in plan :: t.index < |cache|
    requires j < |cache| && j !in Targets(plan)
    ensures RunAll(cache, plan, fetch).cache[j] == cache[j]
  {
    forall t | t in plan ensures t.index != j {
      assert t.index in Targets(plan);
    }
  }

  /** The slot of the `a`-th download after the queue: well formed, with the id it had. */
  lemma TargetedSlotKeepsId(S: Scan, ss: seq<Object>, fetch: Value -> Result<Object, string>, parse: Value -> Option<int>, a: nat)
    requires Settleable(ss, parse) && QueuedMatch(S, ss, |ss|) && DistinctTargets(S.plan) && JsonRecords(S.cache)
    requires PlainBodies(fetch) && RunAll(S.cache, S.plan, fetch).error.None? && a < |S.plan|
    ensures var c1 := RunAll(S.cache, S.plan, fetch).cache; var j := S.plan[a].index;
      j < |c1| && c1[j].Obj? && WellFormed(c1[j].fields) && PropOf(c1[j], "id") == PropOf(S.cache[j], "id")
  {
    var t := S.plan[a];
    assert ss[..|ss|] == ss;
    KeyedMember(ss, t.item, parse);
    RunAllEffect(S.cache, S.plan, fetch);
    DownloadKeepsId(S.cache, t, fetch(Get(t.item, "slug")).value);
  }

  /** Writing a record as JSON does not change whether a number or string id is `===` to it. */
  lemma JsonifyStrictEq(v: Value, id: Value)
    requires id.Num? || id.Str?
    ensures StrictEq(Jsonify(v), id) <==> StrictEq(v, id)
  {
  }

  /** Writing a record as JSON does not change how a lookup of a number or string id reads it. */
  lemma JsonifyLookup(c: Value, id: Value)
    requires id.Num? || id.Str?
    requires c.Obj? ==> WellFormed(c.fields)
    ensures PropOf(Jsonify(c), "id").None? <==> PropOf(c, "id").None?
    ensures Matches(Jsonify(c), id) <==> Matches(c, id)
  {
    if c.Obj? {
      JsonifyGet(c.fields, "id");
      JsonifyStrictEq(Get(c.fields, "id"), id);
    }
  }

  /** The records of a cache written as JSON and read back. */
  function Written(cache: seq<Value>): (r: seq<Value>)
    ensures |r| == |cache| && forall j | 0 <= j < |cache| :: r[j] == Jsonify(cache[j])
  {
    Jsonify(Arr(cache)).elems
  }

  /** A summary is up to date in the cache: it is found, with the same update time. */
  predicate Fresh(cache: seq<Value>, s: Object, parse: Value -> Option<int>)
  {
    var f := FindIndex(cache, Id(s));
    f.At? && SameTime(parse, Get(s, "updated_at"), PropOf(cache[f.index], "updated_at").value)
  }

  /** When every summary is up to date, the loop queues nothing and leaves the cache alone. */
  lemma {:induction false} ClassifyAllNothingToDo(p: Scan, ss: seq<Object>, parse: Value -> Option<int>)
    requires forall q | 0 <= q < |ss| :: Fresh(p.cache, ss[q], parse)
    ensures ClassifyAll(p, ss, parse) == Classified(p, false)
    decreases |ss|
  {
    if ss != [] {
      assert Fresh(p.cache, ss[0], parse);
      assert ClassifyOne(p, ss[0], parse) == Some(p);
      ClassifyAllNothingToDo(p, ss[1..], parse);
    }
  }

  /** After the downloads and the write, a lookup finds what it found when the loop ended. */
  lemma WrittenLookup(S: Scan, ss: seq<Object>, fetch: Value -> Result<Object, string>, parse: Value -> Option<int>, id: Value)
    requires Settleable(ss, parse) && QueuedMatch(S, ss, |ss|) && DistinctTargets(S.plan) && JsonRecords(S.cache)
    requires PlainBodies(fetch) && RunAll(S.cache, S.plan, fetch).error.None?
    requires id.Num? || id.Str?
    ensures FindIndex(Written(RunAll(S.cache, S.plan, fetch).cache), id) == FindIndex(S.cache, id)
  {
    var c1 := RunAll(S.cache, S.plan, fetch).cache;
    DownloadsKeepIds(S, ss, fetch, parse);
    SameIdsSameFindIndex(S.cache, c1, id);
    WrittenFindIndex(c1, id);
  }

  /** Records with the same ids give the same lookup. */
  lemma SameIdsSameFindIndex(a: seq<Value>, b: seq<Value>, id: Value)
    requires |a| == |b| && forall j | 0 <= j < |a| :: PropOf(a[j], "id") == PropOf(b[j], "id")
    ensures FindIndex(b, id) == FindIndex(a, id)
  {
    SameIdsSameLookup(a, b, id);
    FindIndexSameLookup(a, b, id, 0);
  }

  /** Writing well-formed records as JSON leaves a lookup of a number or string id where it was. */
  lemma WrittenFindIndex(c: seq<Value>, id: Value)
    requires JsonRecords(c) && (id.Num? || id.Str?)
    ensures FindIndex(Written(c), id) == FindIndex(c, id)
  {
    WrittenSameLookup(c, id);
    FindIndexSameLookup(c, Written(c), id, 0);
  }

  /** Records with the same ids read alike in every lookup. */
  lemma SameIdsSameLookup(a: seq<Value>, b: seq<Value>, id: Value)
    requires |a| == |b| && forall j | 0 <= j < |a| :: PropOf(a[j], "id") == PropOf(b[j], "id")
    ensures SameLookup(a, b, id)
  {
  }

  /** A cache of well-formed records reads alike, in a lookup of a number or string id, once written. */
  lemma WrittenSameLookup(c: seq<Value>, id: Value)
    requires JsonRecords(c) && (id.Num? || id.Str?)
    ensures SameLookup(c, Written(c), id)
  {
    var w := Written(c);
    forall j | 0 <= j < |c|
      ensures (PropOf(c[j], "id").None? <==> PropOf(w[j], "id").None?) && (Matches(c[j], id) <==> Matches(w[j], id))
    {
      JsonifyLookup(c[j], id);
    }
  }

  /** A downloaded record, written and read back, has the summary's update time. */
  lemma DownloadedUpdatedAt(cache: seq<Value>, t: Task, parsed: Object)
    requires t.index < |cache| && Get(t.item, "updated_at").Str?
    requires WellFormed(AsObject(cache[t.index])) && WellFormed(t.item) && WellFormed(parsed) && !Has(parsed, "updated_at")
    ensures PropOf(Jsonify(Downloaded(cache, t, parsed)), "updated_at") == Some(Get(t.item, "updated_at"))
  {
    MergeGet(t.item, parsed, "updated_at");
    var m := Merge(AsObject(cache[t.index]), Merge(t.item, parsed));
    MergeGet(AsObject(cache[t.index]), Merge(t.item, parsed), "updated_at");
    JsonifyGet(m, "updated_at");
  }

  /** After the first pass, and its write, every summary is up to date in the cache. */
  lemma FreshAfterWrite(c0: seq<Value>, S: Scan, ss: seq<Object>, fetch: Value -> Result<Object, string>,
                        parse: Value -> Option<int>, q: nat)
    requires JsonCache(c0) && Settleable(ss, parse) && Inv(c0, S, ss, |ss|, parse) && PlainBodies(fetch)
    requires RunAll(S.cache, S.plan, fetch).error.None? && q < |ss|
    ensures Fresh(Written(RunAll(S.cache, S.plan, fetch).cache), ss[q], parse)
  {
    var s := ss[q];
    var c1 := RunAll(S.cache, S.plan, fetch).cache;
    var c2 := Written(c1);
    assert Settled(|c0|, S, s, parse);
    assert Keyed(s, parse);
    var i := FindIndex(S.cache, Id(s)).index;
    WrittenLookup(S, ss, fetch, parse, Id(s));
    if Task(s, i) in S.plan {
      QueuedSlotUpdatedAt(S, ss, fetch, parse, q, i);
    } else {
      UntargetedSlotKept(S.cache, S.plan, fetch, i);
      assert c1[i] == S.cache[i] == c0[i];
    }
  }

  /** A downloaded slot, written and read back, has its summary's update time. */
  lemma QueuedSlotUpdatedAt(S: Scan, ss: seq<Object>, fetch: Value -> Result<Object, string>,
                            parse: Value -> Option<int>, q: nat, i: nat)
    requires Settleable(ss, parse) && QueuedMatch(S, ss, |ss|) && JsonRecords(S.cache) && DistinctTargets(S.plan)
    requires PlainBodies(fetch) && RunAll(S.cache, S.plan, fetch).error.None?
    requires q < |ss| && Task(ss[q], i) in S.plan
    ensures var c1 := RunAll(S.cache, S.plan, fetch).cache;
      i < |c1| && PropOf(Jsonify(c1[i]), "updated_at") == Some(Get(ss[q], "updated_at"))
  {
    var s := ss[q];
    var a :| 0 <= a < |S.plan| && S.plan[a] == Task(s, i);
    assert Keyed(s, parse);
    RunAllEffect(S.cache, S.plan, fetch);
    DownloadedUpdatedAt(S.cache, Task(s, i), fetch(Get(s, "slug")).value);
  }

  /**
   * A second pass over the same document list and bodies, from what the
   * first pass left on disk, downloads nothing and writes nothing: every
   * summary is found with its update time. It holds when the cache file holds
   * JSON, the published documents have distinct number or string ids and
   * parsable update times, and no body's front matter sets `id` or
   * `updated_at`.
   */
  lemma SecondPassWritesNothing(file: Option<Value>, listing: Result<seq<Object>, string>,
                                fetch: Value -> Result<Object, string>, parse: Value -> Option<int>)
    requires listing.Ok? && JsonCache(Loaded(file)) && Settleable(Realize(listing.value), parse) && PlainBodies(fetch)
    requires SyncPass(file, listing, fetch, parse).result.Ok?
    ensures var first := SyncPass(file, listing, fetch, parse);
      var again := if first.written.Some? then first.written else file;
      SyncPass(again, listing, fetch, parse) == Outcome(Ok(Loaded(again)), None)
  {
    var first := SyncPass(file, listing, fetch, parse);
    if first.written.None? {
      CleanPassSettles(file, listing, fetch, parse);
      UpToDatePass(file, listing, fetch, parse);
    } else {
      WritingPassSettles(file, listing, fetch, parse);
      UpToDatePass(first.written, listing, fetch, parse);
    }
  }

  /** A successful pass that wrote nothing found every summary up to date. */
  lemma CleanPassSettles(file: Option<Value>, listing: Result<seq<Object>, string>,
                         fetch: Value -> Result<Object, string>, parse: Value -> Option<int>)
    requires listing.Ok? && JsonCache(Loaded(file)) && Settleable(Realize(listing.value), parse)
    requires SyncPass(file, listing, fetch, parse).result.Ok? && SyncPass(file, listing, fetch, parse).written.None?
    ensures forall q | 0 <= q < |Realize(listing.value)| :: Fresh(Loaded(file), Realize(listing.value)[q], parse)
  {
    var c0 := Loaded(file);
    var ss := Realize(listing.value);
    var cls := ClassifyAll(Scan(c0, []), ss, parse);
    var S := cls.scan;
    assert !cls.threw && S.plan == [];
    assert S.cache == c0;
    ScanKeepsInv(c0, ss, parse);
    forall q | 0 <= q < |ss| ensures Fresh(c0, ss[q], parse) {
      assert Settled(|c0|, S, ss[q], parse);
    }
  }

  /** After a successful pass that wrote the cache, every summary is up to date in what it wrote. */
  lemma WritingPassSettles(file: Option<Value>, listing: Result<seq<Object>, string>,
                           fetch: Value -> Result<Object, string>, parse: Value -> Option<int>)
    requires listing.Ok? && JsonCache(Loaded(file)) && Settleable(Realize(listing.value), parse) && PlainBodies(fetch)
    requires SyncPass(file, listing, fetch, parse).result.Ok? && SyncPass(file, listing, fetch, parse).written.Some?
    ensures var again := SyncPass(file, listing, fetch, parse).written;
      forall q | 0 <= q < |Realize(listing.value)| :: Fresh(Loaded(again), Realize(listing.value)[q], parse)
  {
    var c0 := Loaded(file);
    var ss := Realize(listing.value);
    var cls := ClassifyAll(Scan(c0, []), ss, parse);
    var S := cls.scan;
    var ran := RunAll(S.cache, S.plan, fetch);
    assert !cls.threw && ran.error.None?;
    ScanKeepsInv(c0, ss, parse);
    var c2 := Written(ran.cache);
    assert Loaded(SyncPass(file, listing, fetch, parse).written) == c2;
    forall q | 0 <= q < |ss| ensures Fresh(c2, ss[q], parse) {
      FreshAfterWrite(c0, S, ss, fetch, parse, q);
    }
  }

  /** The invariant of the classification loop, from the cache as read to the end of the summaries. */
  lemma ScanKeepsInv(c0: seq<Value>, ss: seq<Object>, parse: Value -> Option<int>)
    requires JsonRecords(c0) && Settleable(ss, parse) && !ClassifyAll(Scan(c0, []), ss, parse).threw
    ensures Inv(c0, ClassifyAll(Scan(c0, []), ss, parse).scan, ss, |ss|, parse)
  {
    assert Inv(c0, Scan(c0, []), ss, 0, parse);
    assert ss[0..] == ss;
    ClassifyAllKeepsInv(c0, Scan(c0, []), ss, 0, parse);
  }

  /** A pass in which every summary is up to date downloads nothing and writes nothing. */
  lemma UpToDatePass(file: Option<Value>, listing: Result<seq<Object>, string>,
                     fetch: Value -> Result<Object, string>, parse: Value -> Option<int>)
    requires listing.Ok?
    requires forall q | 0 <= q < |Realize(listing.value)| :: Fresh(Loaded(file), Realize(listing.value)[q], parse)
    ensures SyncPass(file, listing, fetch, parse) == Outcome(Ok(Loaded(file)), None)
  {
    ClassifyAllNothingToDo(Scan(Loaded(file), []), Realize(listing.value), parse);
  }

  // ---------------------------------------------------------- one iteration

  /**
   * An iteration changes nothing exactly when the summary is up to date: found,
   * with the same update time. Otherwise it queues a download (and appends
   * the summary when it was missing), or stops at a TypeError.
   */
  lemma ClassifyOneNoop(p: Scan, s: Object, parse: Value -> Option<int>)
    ensures ClassifyOne(p, s, parse) == Some(p) <==> Fresh(p.cache, s, parse)
    ensures ClassifyOne(p, s, parse).Some? && !Fresh(p.cache, s, parse) ==>
      var q := ClassifyOne(p, s, parse).value;
      |q.plan| == |p.plan| + 1 && q.plan[|p.plan|].item == s && q.plan[|p.plan|].index < |q.cache|
    ensures var f := FindIndex(p.cache, Id(s));
      f.At? && !Fresh(p.cache, s, parse) ==>
        ClassifyOne(p, s, parse) == Some(Scan(p.cache, p.plan + [Task(s, f.index)]))
    ensures FindIndex(p.cache, Id(s)).Missing? ==>
      ClassifyOne(p, s, parse) == Some(Scan(p.cache + [Obj(s)], p.plan + [Task(s, |p.cache|)]))
  {
    var f := FindIndex(p.cache, Id(s));
    if f.Missing? {
      assert |ClassifyOne(p, s, parse).value.cache| == |p.cache| + 1;
    }
  }

  // ------------------------------------------------------------- a whole pass

  /**
   * A pass never deletes: every record of the cache file keeps its slot, and
   * an object record keeps every key it had.
   */
  lemma PassKeepsKeys(file: Option<Value>, listing: Result<seq<Object>, string>,
                      fetch: Value -> Result<Object, string>, parse: Value -> Option<int>, j: nat, k: string)
    requires SyncPass(file, listing, fetch, parse).result.Ok?
    requires j < |Loaded(file)| && Loaded(file)[j].Obj? && Has(Loaded(file)[j].fields, k)
    ensures var r := SyncPass(file, listing, fetch, parse).result.value;
      j < |r| && r[j].Obj? && Has(r[j].fields, k)
  {
    var c0 := Loaded(file);
    if listing.Ok? {
      var cls := ClassifyAll(Scan(c0, []), Realize(listing.value), parse);
      if !cls.threw {
        assert cls.scan.cache[j] == c0[j];
        RunAllKeepsKeys(cls.scan.cache, cls.scan.plan, fetch, j, k);
      }
    }
  }
}
