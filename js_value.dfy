/**
 * JavaScript values as the sync engine and the helpers see them: the JSON
 * documents of the remote API and of the cache file, and plain objects.
 *
 * An object is the sequence of its own properties in key order. Assigning a
 * property that exists keeps its slot; assigning a new one appends it, as
 * JavaScript does for string keys.
 */
module JsValue {
  import opened Wrappers

  datatype Value =
    | Undefined
    | Null
    | Bool(b: bool)
    | Num(n: int)
    | Str(s: string)
    | Arr(elems: seq<Value>)
    | Obj(fields: seq<Field>)

  /** One own property of an object. */
  datatype Field = Field(key: string, val: Value)

  type Object = seq<Field>

  predicate Has(o: Object, k: string)
  {
    exists i | 0 <= i < |o| :: o[i].key == k
  }

  /** No key occurs twice: every object JavaScript builds has this shape. */
  predicate WellFormed(o: Object)
  {
    forall i, j | 0 <= i < j < |o| :: o[i].key != o[j].key
  }

  /** `o[k]`: the value of the first property named `k`, `undefined` when there is none. */
  function Get(o: Object, k: string): (v: Value)
    ensures !Has(o, k) ==> v == Undefined
    ensures 0 < |o| && o[0].key == k ==> v == o[0].val
  {
    if o == [] then Undefined
    else if o[0].key == k then o[0].val
    else Get(o[1..], k)
  }

  /** The value of the last property named `k`: what a sequence of assignments leaves behind. */
  function LastGet(fs: seq<Field>, k: string): (v: Value)
    ensures !Has(fs, k) ==> v == Undefined
  {
    if fs == [] then Undefined
    else if fs[|fs| - 1].key == k then fs[|fs| - 1].val
    else LastGet(fs[..|fs| - 1], k)
  }

  /**
   * What `o[k] = v` leaves in `r`: `k` reads `v` and every other key reads as
   * before; the keys are those of `o` and `k`; an existing key keeps its slot,
   * a new one is appended; no key is duplicated.
   */
  ghost predicate Assigned(o: Object, k: string, v: Value, r: Object)
  {
    && Get(r, k) == v
    && (forall k' | k' != k :: Get(r, k') == Get(o, k'))
    && (forall k' :: Has(r, k') <==> Has(o, k') || k' == k)
    && (Has(o, k) ==> |r| == |o| && forall i | 0 <= i < |o| :: r[i].key == o[i].key)
    && (!Has(o, k) ==> r == o + [Field(k, v)])
    && (WellFormed(o) ==> WellFormed(r))
  }

  /** `o[k] = v` on a copy of `o` (also `R.assoc(k, v, o)`). */
  function Assoc(o: Object, k: string, v: Value): (r: Object)
    ensures Assigned(o, k, v, r)
  {
    if o == [] then [Field(k, v)]
    else if o[0].key == k then
      AssocHead(o, k, v);
      [Field(k, v)] + o[1..]
    else
      var rest := Assoc(o[1..], k, v);
      AssocCons(o, k, v, rest);
      [o[0]] + rest
  }

  /** Assigning the first key replaces its value in place. */
  lemma AssocHead(o: Object, k: string, v: Value)
    requires o != [] && o[0].key == k
    ensures Assigned(o, k, v, [Field(k, v)] + o[1..])
  {
    var r := [Field(k, v)] + o[1..];
    assert r[1..] == o[1..];
    forall k' ensures Has(r, k') <==> Has(o, k') || k' == k {
      assert o == [o[0]] + o[1..];
      HasCons(o[0], o[1..], k');
      HasCons(Field(k, v), o[1..], k');
    }
    if WellFormed(o) {
      forall i, j | 0 <= i < j < |r| ensures r[i].key != r[j].key {
        assert r[i].key == o[i].key && r[j].key == o[j].key;
      }
    }
  }

  /** Assigning a key the first property does not carry leaves that property first. */
  lemma AssocCons(o: Object, k: string, v: Value, rest: Object)
    requires o != [] && o[0].key != k
    requires Assigned(o[1..], k, v, rest)
    ensures Assigned(o, k, v, [o[0]] + rest)
  {
    AssocConsGet(o, k, v, rest);
    AssocConsHas(o, k, rest);
    AssocConsWellFormed(o, k, rest);
    HasCons(o[0], o[1..], k);
    if Has(o[1..], k) {
      AssocConsSameKeys(o, rest);
    } else {
      assert o == [o[0]] + o[1..];
    }
  }

  /** Assigning a key the first property does not carry: the lookups. */
  lemma AssocConsGet(o: Object, k: string, v: Value, rest: Object)
    requires o != [] && o[0].key != k
    requires Get(rest, k) == v
    requires forall k' | k' != k :: Get(rest, k') == Get(o[1..], k')
    ensures Get([o[0]] + rest, k) == v
    ensures forall k' | k' != k :: Get([o[0]] + rest, k') == Get(o, k')
  {
    assert ([o[0]] + rest)[1..] == rest;
  }

  /** Assigning a key the first property does not carry: the key set. */
  lemma AssocConsHas(o: Object, k: string, rest: Object)
    requires o != []
    requires forall k' :: Has(rest, k') <==> Has(o[1..], k') || k' == k
    ensures forall k' :: Has([o[0]] + rest, k') <==> Has(o, k') || k' == k
  {
    assert o == [o[0]] + o[1..];
    forall k' ensures Has([o[0]] + rest, k') <==> Has(o, k') || k' == k {
      HasCons(o[0], o[1..], k');
      HasCons(o[0], rest, k');
    }
  }

  /** Assigning a key the first property does not carry: an existing key keeps the layout. */
  lemma AssocConsSameKeys(o: Object, rest: Object)
    requires o != []
    requires |rest| == |o[1..]| && forall i | 0 <= i < |o[1..]| :: rest[i].key == o[1..][i].key
    ensures |[o[0]] + rest| == |o| && forall i | 0 <= i < |o| :: ([o[0]] + rest)[i].key == o[i].key
  {
    forall i | 0 <= i < |o| ensures ([o[0]] + rest)[i].key == o[i].key {
      if i > 0 { assert ([o[0]] + rest)[i] == rest[i - 1] && o[i] == o[1..][i - 1]; }
    }
  }

  /** Assigning a key the first property does not carry keeps the object well formed. */
  lemma AssocConsWellFormed(o: Object, k: string, rest: Object)
    requires o != [] && o[0].key != k
    requires WellFormed(o[1..]) ==> WellFormed(rest)
    requires Has(rest, o[0].key) ==> Has(o[1..], o[0].key) || o[0].key == k
    ensures WellFormed(o) ==> WellFormed([o[0]] + rest)
  {
    if WellFormed(o) {
      NotHasTail(o);
      WellFormedCons(o[0], rest);
    }
  }

  lemma HasCons(x: Field, rest: Object, k: string)
    ensures Has([x] + rest, k) <==> x.key == k || Has(rest, k)
  {
    var o := [x] + rest;
    if Has(o, k) && x.key != k {
      var i :| 0 <= i < |o| && o[i].key == k;
      assert rest[i - 1].key == k;
    }
    if Has(rest, k) {
      var i :| 0 <= i < |rest| && rest[i].key == k;
      assert o[i + 1].key == k;
    }
    if x.key == k {
      assert o[0].key == k;
    }
  }

  lemma HasSnoc(init: Object, x: Field, k: string)
    ensures Has(init + [x], k) <==> Has(init, k) || x.key == k
  {
    var o := init + [x];
    if Has(o, k) && x.key != k {
      var i :| 0 <= i < |o| && o[i].key == k;
      assert init[i].key == k;
    }
    if Has(init, k) {
      var i :| 0 <= i < |init| && init[i].key == k;
      assert o[i].key == k;
    }
    if x.key == k {
      assert o[|init|].key == k;
    }
  }

  /** In a well-formed object the first key does not occur again. */
  lemma NotHasTail(o: Object)
    requires WellFormed(o) && o != []
    ensures !Has(o[1..], o[0].key) && WellFormed(o[1..])
  {
    forall i | 0 <= i < |o[1..]| ensures o[1..][i].key != o[0].key {
      assert o[1..][i] == o[i + 1];
    }
  }

  lemma WellFormedCons(x: Field, rest: Object)
    requires WellFormed(rest) && !Has(rest, x.key)
    ensures WellFormed([x] + rest)
  {
    var o := [x] + rest;
    forall i, j | 0 <= i < j < |o| ensures o[i].key != o[j].key {
      if i == 0 {
        assert o[j] == rest[j - 1];
      } else {
        assert o[i] == rest[i - 1] && o[j] == rest[j - 1];
      }
    }
  }

  /**
   * Assigns the fields `fs` onto a copy of `acc`, one after the other:
   * `Object.assign({}, acc, ...)` and the `R.reduce`/`R.assoc` fold.
   */
  function Spread(acc: Object, fs: seq<Field>): (r: Object)
    ensures |r| <= |acc| + |fs|
    ensures WellFormed(acc) ==> WellFormed(r)
    ensures forall k :: Has(r, k) <==> Has(acc, k) || Has(fs, k)
    decreases |fs|
  {
    if fs == [] then acc
    else
      var init := fs[..|fs| - 1];
      var last := fs[|fs| - 1];
      assert fs == init + [last];
      assert forall k :: Has(fs, k) <==> Has(init, k) || last.key == k by {
        forall k ensures Has(fs, k) <==> Has(init, k) || last.key == k { HasSnoc(init, last, k); }
      }
      Assoc(Spread(acc, init), last.key, last.val)
  }

  /** `Object.assign({}, a, b)`, `{...a, ...b}` and `R.merge(a, b)`. */
  function Merge(a: Object, b: Object): (r: Object)
    ensures WellFormed(r)
  {
    Spread(Spread([], a), b)
  }

  /** JavaScript truthiness: every value is truthy except the six falsy ones. */
  predicate Truthy(v: Value)
    ensures !Truthy(v) <==> v in {Undefined, Null, Bool(false), Num(0), Str("")}
  {
    match v
    case Undefined => false
    case Null => false
    case Bool(b) => b
    case Num(n) => n != 0
    case Str(s) => s != ""
    case Arr(_) => true
    case Obj(_) => true
  }

  /**
   * `a === b`. Two objects or arrays are `===` only when they are the same
   * object; the values compared here always come from different documents, so
   * they never are.
   */
  predicate StrictEq(a: Value, b: Value)
    ensures StrictEq(a, b) <==> a == b && !a.Arr? && !a.Obj?
  {
    match (a, b)
    case (Undefined, Undefined) => true
    case (Null, Null) => true
    case (Bool(x), Bool(y)) => x == y
    case (Num(x), Num(y)) => x == y
    case (Str(x), Str(y)) => x == y
    case _ => false
  }

  /** `v.k`: a TypeError (None) on null and undefined, `undefined` on other non-objects. */
  function PropOf(v: Value, k: string): (r: Option<Value>)
    ensures r.None? <==> v.Undefined? || v.Null?
    ensures v.Obj? ==> r == Some(Get(v.fields, k))
  {
    match v
    case Undefined => None
    case Null => None
    case Obj(fs) => Some(Get(fs, k))
    case _ => Some(Undefined)
  }

  /** The own properties a value contributes to `Object.assign`; see README for strings and arrays. */
  function AsObject(v: Value): Object
  {
    if v.Obj? then v.fields else []
  }

  /**
   * What a value becomes when written with `JSON.stringify` and read back
   * with `JSON.parse`, as an element of an array: `undefined` turns into
   * `null`, and object properties whose value is `undefined` are dropped.
   */
  function Jsonify(v: Value): (r: Value)
    ensures !r.Undefined?
    ensures v.Undefined? ==> r == Null
    ensures v.Null? || v.Bool? || v.Num? || v.Str? ==> r == v
    ensures v.Arr? ==> r.Arr? && |r.elems| == |v.elems|
    ensures v.Obj? ==> r.Obj? && |r.fields| <= |v.fields|
    decreases v
  {
    match v
    case Undefined => Null
    case Arr(xs) => Arr(seq(|xs|, i requires 0 <= i < |xs| => Jsonify(xs[i])))
    case Obj(fs) =>
      Obj(Defined(seq(|fs|, i requires 0 <= i < |fs| =>
        if fs[i].val.Undefined? then None else Some(Field(fs[i].key, Jsonify(fs[i].val))))))
    case _ => v
  }

  /** The present entries, in order. */
  function Defined(xs: seq<Option<Field>>): (r: seq<Field>)
    ensures |r| <= |xs|
  {
    if xs == [] then []
    else if xs[0].Some? then [xs[0].value] + Defined(xs[1..])
    else Defined(xs[1..])
  }

  // ---------------------------------------------------------------- lemmas

  /** In a well-formed object the first and the last property named `k` are the same. */
  lemma {:induction false} LastGetIsGet(fs: seq<Field>, k: string)
    requires WellFormed(fs)
    ensures LastGet(fs, k) == Get(fs, k)
    decreases |fs|
  {
    if fs != [] {
      var n := |fs| - 1;
      if fs[n].key == k {
        GetAt(fs, n);
      } else {
        var init := fs[..n];
        assert WellFormed(init);
        LastGetIsGet(init, k);
        GetPrefix(fs, n, k);
      }
    }
  }

  /** The last assignment to a key decides its value. */
  lemma {:induction false} LastGetAt(fs: seq<Field>, i: nat)
    requires i < |fs|
    requires forall j | i < j < |fs| :: fs[j].key != fs[i].key
    ensures LastGet(fs, fs[i].key) == fs[i].val
    decreases |fs|
  {
    if i < |fs| - 1 {
      LastGetAt(fs[..|fs| - 1], i);
    }
  }

  /** In a well-formed object, `o[o[i].key]` is `o[i].val`. */
  lemma {:induction false} GetAt(o: Object, i: nat)
    requires WellFormed(o) && i < |o|
    ensures Get(o, o[i].key) == o[i].val
    decreases i
  {
    if i > 0 {
      assert o[0].key != o[i].key;
      assert o[1..][i - 1] == o[i];
      GetAt(o[1..], i - 1);
    }
  }

  /** Dropping the last property does not change the lookup of another key. */
  lemma {:induction false} GetPrefix(o: Object, n: nat, k: string)
    requires n + 1 == |o| && o[n].key != k
    ensures Get(o[..n], k) == Get(o, k)
    decreases n
  {
    if n > 0 && o[0].key != k {
      assert o[..n][1..] == o[1..][..n - 1];
      GetPrefix(o[1..], n - 1, k);
    }
  }

  /** What a sequence of assignments leaves: the last assignment to a key wins, other keys keep their value. */
  lemma {:induction false} SpreadGet(acc: Object, fs: seq<Field>, k: string)
    ensures Get(Spread(acc, fs), k) == if Has(fs, k) then LastGet(fs, k) else Get(acc, k)
    decreases |fs|
  {
    if fs != [] {
      var n := |fs| - 1;
      var init, last := fs[..n], fs[n];
      assert fs == init + [last];
      assert Spread(acc, fs) == Assoc(Spread(acc, init), last.key, last.val);
      SpreadGet(acc, init, k);
      HasSnoc(init, last, k);
    }
  }

  /** Assigning fields onto `{}`: a field no later field renames is present with its value. */
  lemma SpreadLastWins(fs: seq<Field>, i: nat)
    requires i < |fs|
    requires forall j | i < j < |fs| :: fs[j].key != fs[i].key
    ensures Has(Spread([], fs), fs[i].key) && Get(Spread([], fs), fs[i].key) == fs[i].val
  {
    SpreadGet([], fs, fs[i].key);
    LastGetAt(fs, i);
  }

  /** Assigning the properties of a well-formed object onto `{}` copies it exactly, key order included. */
  lemma {:induction false} SpreadCopies(o: Object)
    requires WellFormed(o)
    ensures Spread([], o) == o
    decreases |o|
  {
    if o != [] {
      var n := |o| - 1;
      var init := o[..n];
      WellFormedInit(o);
      calc {
        Spread([], o);
        Assoc(Spread([], init), o[n].key, o[n].val);
        { SpreadCopies(init); }
        Assoc(init, o[n].key, o[n].val);
        { AssocFresh(init, o[n].key, o[n].val); }
        init + [Field(o[n].key, o[n].val)];
        o;
      }
    }
  }

  /** Assigning a key the object lacks appends it. */
  lemma AssocFresh(o: Object, k: string, v: Value)
    requires !Has(o, k)
    ensures Assoc(o, k, v) == o + [Field(k, v)]
  {
  }

  /** Dropping the last property of a well-formed object leaves a well-formed object without its key. */
  lemma WellFormedInit(o: Object)
    requires WellFormed(o) && o != []
    ensures WellFormed(o[..|o| - 1]) && !Has(o[..|o| - 1], o[|o| - 1].key)
  {
    var n := |o| - 1;
    var init := o[..n];
    forall i, j | 0 <= i < j < |init| ensures init[i].key != init[j].key {
      assert init[i] == o[i] && init[j] == o[j];
    }
    forall i | 0 <= i < |init| ensures init[i].key != o[n].key {
      assert init[i] == o[i];
    }
  }

  /**
   * Merge precedence: a key of `b` takes `b`'s value; a key only in `a` keeps
   * `a`'s; the result has exactly the keys of both.
   */
  lemma MergeGet(a: Object, b: Object, k: string)
    requires WellFormed(a) && WellFormed(b)
    ensures Has(Merge(a, b), k) <==> Has(a, k) || Has(b, k)
    ensures Get(Merge(a, b), k) == if Has(b, k) then Get(b, k) else Get(a, k)
  {
    SpreadCopies(a);
    SpreadGet(a, b, k);
    LastGetIsGet(b, k);
  }

  /** `===` never holds between two different values. */
  lemma StrictEqIsEq(a: Value, b: Value)
    requires StrictEq(a, b)
    ensures a == b
  {
  }

  /**
   * Reading a property back from a written object: a property that was not
   * `undefined` gives the written form of its value, any other reads
   * `undefined` again.
   */
  lemma {:induction false} JsonifyGet(fs: seq<Field>, k: string)
    requires WellFormed(fs)
    ensures Jsonify(Obj(fs)).Obj?
    ensures Get(Jsonify(Obj(fs)).fields, k) == if Get(fs, k).Undefined? then Undefined else Jsonify(Get(fs, k))
    decreases |fs|
  {
    var opts := seq(|fs|, i requires 0 <= i < |fs| =>
      if fs[i].val.Undefined? then None else Some(Field(fs[i].key, Jsonify(fs[i].val))));
    assert Jsonify(Obj(fs)) == Obj(Defined(opts));
    if fs != [] {
      var rest := seq(|fs| - 1, i requires 0 <= i < |fs| - 1 =>
        if fs[1..][i].val.Undefined? then None else Some(Field(fs[1..][i].key, Jsonify(fs[1..][i].val))));
      assert opts[1..] == rest;
      NotHasTail(fs);
      JsonifyGet(fs[1..], k);
      assert Jsonify(Obj(fs[1..])) == Obj(Defined(rest));
      if fs[0].key == k && !fs[0].val.Undefined? {
        assert opts[0] == Some(Field(k, Jsonify(fs[0].val)));
      }
    }
  }
}
