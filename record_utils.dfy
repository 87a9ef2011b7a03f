/**
 * The record-shaping helpers of src/utils.js: renaming the keys of a record,
 * rendering a front-matter list, and cleaning up a markdown body.
 */
module RecordUtils {
  import opened Wrappers
  import opened JsValue
  import opened Text

  // ------------------------------------------------------------ renameKeys

  /** `keysMap[key] || key`: the new name when the map gives a non-empty one. */
  function NewKey(keysMap: map<string, string>, k: string): (r: string)
    ensures r == k || (k in keysMap && r == keysMap[k])
    ensures r == "" ==> k == ""
    ensures k in keysMap && keysMap[k] != "" ==> r == keysMap[k]
  {
    if k in keysMap && keysMap[k] != "" then keysMap[k] else k
  }

  /** The assignments `renameKeys` performs, one per input key, in key order. */
  function RenamedFields(keysMap: map<string, string>, o: Object): (fs: seq<Field>)
    ensures |fs| == |o|
    ensures forall i | 0 <= i < |o| :: fs[i] == Field(NewKey(keysMap, o[i].key), o[i].val)
  {
    seq(|o|, i requires 0 <= i < |o| => Field(NewKey(keysMap, o[i].key), o[i].val))
  }

  /**
   * `renameKeys(keysMap, obj)`: `R.assoc` of each value under its new name,
   * starting from `{}`, in the object's key order.
   */
  function RenameKeys(keysMap: map<string, string>, o: Object): (r: Object)
    ensures WellFormed(r)
    ensures |r| <= |o|
    ensures forall k :: Has(r, k) <==> exists i | 0 <= i < |o| :: NewKey(keysMap, o[i].key) == k
  {
    var fs := RenamedFields(keysMap, o);
    assert forall k :: Has(fs, k) <==> exists i | 0 <= i < |o| :: NewKey(keysMap, o[i].key) == k by {
      forall k ensures Has(fs, k) <==> exists i | 0 <= i < |o| :: NewKey(keysMap, o[i].key) == k {
        if exists i | 0 <= i < |o| :: NewKey(keysMap, o[i].key) == k {
          var i :| 0 <= i < |o| && NewKey(keysMap, o[i].key) == k;
          assert fs[i].key == k;
        }
      }
    }
    Spread([], fs)
  }

  /**
   * Each value lands under its new name; when several keys land on the same
   * name, the one later in key order wins.
   */
  lemma RenameKeysLaterWins(keysMap: map<string, string>, o: Object, i: nat)
    requires i < |o|
    requires forall j | i < j < |o| :: NewKey(keysMap, o[j].key) != NewKey(keysMap, o[i].key)
    ensures Get(RenameKeys(keysMap, o), NewKey(keysMap, o[i].key)) == o[i].val
  {
    var fs := RenamedFields(keysMap, o);
    SpreadGet([], fs, fs[i].key);
    LastGetAt(fs, i);
  }

  /** With an empty map, `renameKeys` copies the object, key order included. */
  lemma RenameKeysEmptyMap(o: Object)
    requires WellFormed(o)
    ensures RenameKeys(map[], o) == o
  {
    assert RenamedFields(map[], o) == o;
    SpreadCopies(o);
  }

  // ----------------------------------------------------------- formatArray

  /** Decimal digits of a natural number. */
  function Digits(n: nat): (s: string)
    ensures |s| >= 1
    decreases n
  {
    if n < 10 then [('0' as int + n) as char] else Digits(n / 10) + [('0' as int + n % 10) as char]
  }

  /** How `Array.prototype.join` renders one element: nothing for null and undefined, `String(v)` otherwise. */
  function ElementText(v: Value): string
    decreases v
  {
    match v
    case Undefined => ""
    case Null => ""
    case Bool(b) => if b then "true" else "false"
    case Num(n) => if n < 0 then "-" + Digits(-n) else Digits(n)
    case Str(s) => s
    case Arr(xs) => Join(seq(|xs|, i requires 0 <= i < |xs| => ElementText(xs[i])), ',')
    case Obj(_) => "[object Object]"
  }

  /** `xs.join(',')`. */
  function JoinValues(xs: seq<Value>): string
  {
    Join(seq(|xs|, i requires 0 <= i < |xs| => ElementText(xs[i])), ',')
  }

  /** The list `formatArray` renders: an array as is, a string as a one-element list, anything else as empty. */
  function ListOf(items: Value): seq<Value>
  {
    if items.Arr? then items.elems else if items.Str? then [items] else []
  }

  /** `formatArray`: the list's elements joined by `,` between brackets. */
  function FormatArray(items: Value): (r: string)
    ensures |r| >= 2 && r[0] == '[' && r[|r| - 1] == ']'
    ensures items.Str? ==> r == "[" + items.s + "]"
    ensures !items.Arr? && !items.Str? ==> r == "[]"
  {
    "[" + JoinValues(ListOf(items)) + "]"
  }

  /** A string renders as the one-element list holding it. */
  lemma FormatArrayString(s: string)
    ensures FormatArray(Str(s)) == FormatArray(Arr([Str(s)]))
  {
  }

  /** The strings of a rendered list come back by splitting between the brackets on `,`. */
  lemma FormatArrayRoundTrip(strs: seq<string>)
    requires |strs| >= 1
    requires forall i | 0 <= i < |strs| :: ',' !in strs[i]
    ensures var r := FormatArray(Arr(seq(|strs|, i requires 0 <= i < |strs| => Str(strs[i]))));
      Split(r[1..|r| - 1], ',') == strs
  {
    var xs := seq(|strs|, i requires 0 <= i < |strs| => Str(strs[i]));
    assert seq(|xs|, i requires 0 <= i < |xs| => ElementText(xs[i])) == strs;
    SplitJoin(strs, ',');
    var r := FormatArray(Arr(xs));
    assert r[1..|r| - 1] == Join(strs, ',');
  }

  // ------------------------------------------------------------- formatRaw

  /**
   * A matcher gives the length of its match at the start of a text, if it
   * matches there; a match is never empty, as a global `replace` needs.
   */
  ghost predicate Advances(m: string -> Option<nat>)
  {
    forall t :: m(t).Some? ==> 0 < m(t).value <= |t|
  }

  /**
   * `s.replace(re, rep)` for a global `re` whose match at the start of a text
   * is `m`: scanning left to right, each match is replaced and the scan
   * resumes after it.
   */
  function ReplaceAll(s: string, m: string -> Option<nat>, rep: string): (r: string)
    requires Advances(m)
    ensures (forall t :: m(t).Some? ==> |rep| <= m(t).value) ==> |r| <= |s|
    decreases |s|
  {
    if s == [] then []
    else match m(s)
      case Some(e) => rep + ReplaceAll(s[e..], m, rep)
      case None => [s[0]] + ReplaceAll(s[1..], m, rep)
  }

  /** Where the pattern matches nowhere, `replace` changes nothing. */
  lemma {:induction false} ReplaceAllNoMatch(s: string, m: string -> Option<nat>, rep: string)
    requires Advances(m)
    requires forall i | 0 <= i < |s| :: m(s[i..]).None?
    ensures ReplaceAll(s, m, rep) == s
    decreases |s|
  {
    if s != [] {
      assert m(s[0..]).None? && s[0..] == s;
      forall i | 0 <= i < |s| - 1 ensures m(s[1..][i..]).None? {
        assert s[1..][i..] == s[i + 1..];
      }
      ReplaceAllNoMatch(s[1..], m, rep);
    }
  }

  /** The text before the first match is kept; the first match is replaced; the scan resumes after it. */
  lemma ReplaceAllFirstMatch(s: string, m: string -> Option<nat>, rep: string, p: nat)
    requires Advances(m)
    requires p < |s| && m(s[p..]).Some?
    requires forall i | 0 <= i < p :: m(s[i..]).None?
    ensures p + m(s[p..]).value <= |s|
    ensures ReplaceAll(s, m, rep) == s[..p] + rep + ReplaceAll(s[p + m(s[p..]).value..], m, rep)
  {
    ReplaceAllKeepsPrefix(s, m, rep, p);
    var e := m(s[p..]).value;
    assert s[p..][e..] == s[p + e..];
  }

  /** Where nothing matches before index `p`, the text up to `p` is kept. */
  lemma {:induction false} ReplaceAllKeepsPrefix(s: string, m: string -> Option<nat>, rep: string, p: nat)
    requires Advances(m) && p <= |s|
    requires forall i | 0 <= i < p :: m(s[i..]).None?
    ensures ReplaceAll(s, m, rep) == s[..p] + ReplaceAll(s[p..], m, rep)
    decreases p
  {
    if p == 0 {
      assert s[..0] == [] && s[0..] == s;
    } else {
      DropFirst(s, m, p);
      ReplaceAllKeepsPrefix(s[1..], m, rep, p - 1);
      KeepFirst(s, m, rep, p);
    }
  }

  /** Dropping a first character where nothing matches shifts every later match back by one. */
  lemma DropFirst(s: string, m: string -> Option<nat>, p: nat)
    requires 0 < p <= |s|
    requires forall i | 0 <= i < p :: m(s[i..]).None?
    ensures m(s).None? && s[1..][p - 1..] == s[p..]
    ensures forall i | 0 <= i < p - 1 :: m(s[1..][i..]).None?
  {
    assert s[0..] == s;
    forall i | 0 <= i < p - 1 ensures m(s[1..][i..]).None? {
      assert s[1..][i..] == s[i + 1..];
    }
  }

  /** A first character where nothing matches is copied ahead of the rest's replacement. */
  lemma KeepFirst(s: string, m: string -> Option<nat>, rep: string, p: nat)
    requires Advances(m) && 0 < p <= |s| && m(s).None? && s[1..][p - 1..] == s[p..]
    requires ReplaceAll(s[1..], m, rep) == s[1..][..p - 1] + ReplaceAll(s[1..][p - 1..], m, rep)
    ensures ReplaceAll(s, m, rep) == s[..p] + ReplaceAll(s[p..], m, rep)
  {
    var t := s[1..];
    var r := ReplaceAll(s[p..], m, rep);
    calc {
      ReplaceAll(s, m, rep);
      [s[0]] + ReplaceAll(t, m, rep);
      [s[0]] + (t[..p - 1] + r);
      ([s[0]] + t[..p - 1]) + r;
      { assert [s[0]] + t[..p - 1] == s[..p]; }
      s[..p] + r;
    }
  }

  /**
   * The leftmost match is replaced, the text before it is kept, and the scan
   * goes on over the rest as if the rest stood alone: with `ReplaceAllNoMatch`
   * this determines a global `replace` on every text.
   */
  lemma ReplaceAllStep(x: string, block: string, rest: string, m: string -> Option<nat>, rep: string)
    requires Advances(m)
    requires forall i | 0 <= i < |x| :: m((x + block + rest)[i..]).None?
    requires m(block + rest) == Some(|block|)
    ensures ReplaceAll(x + block + rest, m, rep) == x + rep + ReplaceAll(rest, m, rep)
  {
    var s := x + block + rest;
    assert s[|x|..] == block + rest;
    ReplaceAllFirstMatch(s, m, rep, |x|);
    assert s[..|x|] == x && s[|x| + |block|..] == rest;
  }

  /** The first index at or after `from` where `p` starts, letters compared without regard to case. */
  function IndexOfIgnoringCase(s: string, p: string, from: nat): (r: Option<nat>)
    requires from <= |s|
    ensures r.Some? ==> from <= r.value && r.value + |p| <= |s| && StartsWithIgnoringCase(s[r.value..], p)
    ensures r.Some? ==> forall j | from <= j < r.value :: !StartsWithIgnoringCase(s[j..], p)
    ensures r.None? ==> forall j | from <= j <= |s| :: !StartsWithIgnoringCase(s[j..], p)
    decreases |s| - from
  {
    if StartsWithIgnoringCase(s[from..], p) then Some(from)
    else if from == |s| then None
    else IndexOfIgnoringCase(s, p, from + 1)
  }

  const HiddenOpen := "<div style=\"display:none\">"
  const HiddenClose := "</div>"

  /**
   * `/<div style="display:none">[\s\S]*?<\/div>/i` at the start of `t`: the
   * opening tag, then the shortest text up to the first closing tag.
   */
  function HiddenBlockMatch(t: string): (r: Option<nat>)
    ensures r.Some? ==> |HiddenOpen| + |HiddenClose| <= r.value <= |t|
  {
    if StartsWithIgnoringCase(t, HiddenOpen) then
      match IndexOfIgnoringCase(t, HiddenClose, |HiddenOpen|)
      case Some(j) => Some(j + |HiddenClose|)
      case None => None
    else None
  }

  /**
   * A hidden block is the opening tag, then text without a closing tag, then
   * the first closing tag; with no closing tag after the opening one there is
   * no match.
   */
  lemma HiddenBlockMatchSpec(t: string)
    ensures var r := HiddenBlockMatch(t);
      r.Some? <==> StartsWithIgnoringCase(t, HiddenOpen)
                   && exists j | |HiddenOpen| <= j <= |t| :: StartsWithIgnoringCase(t[j..], HiddenClose)
    ensures var r := HiddenBlockMatch(t);
      r.Some? ==>
        StartsWithIgnoringCase(t[r.value - |HiddenClose|..], HiddenClose) &&
        forall j | |HiddenOpen| <= j < r.value - |HiddenClose| :: !StartsWithIgnoringCase(t[j..], HiddenClose)
  {
  }

  /** `/(<br>\s){2}/i` at the start of `t`: two `<br>` tags, each followed by one white-space character. */
  function DoubledBrMatch(t: string): (r: Option<nat>)
    ensures r.Some? ==> r == Some(10) && |t| >= 10
  {
    if |t| >= 10 && StartsWithIgnoringCase(t, "<br>") && IsSpace(t[4])
      && StartsWithIgnoringCase(t[5..], "<br>") && IsSpace(t[9])
    then Some(10) else None
  }

  /** `formatRaw`: hidden `<div>` blocks deleted, then each doubled `<br>` collapsed into one. */
  function FormatRaw(body: string): (r: string)
    ensures |r| <= |body|
  {
    var shown := ReplaceAll(body, HiddenBlockMatch, "");
    ReplaceAll(shown, DoubledBrMatch, "<br>")
  }

  /** Text without `<` passes through `formatRaw` unchanged. */
  lemma FormatRawPlainText(body: string)
    requires '<' !in body
    ensures FormatRaw(body) == body
  {
    PlainPasses(body);
  }

  /** A hidden block starts with `<d`, a doubled break with `<b`, in either case. */
  lemma MatchesStartWith(t: string)
    ensures HiddenBlockMatch(t).Some? ==> |t| >= 2 && t[0] == '<' && Lower(t[1]) == 'd'
    ensures DoubledBrMatch(t).Some? ==> |t| >= 2 && t[0] == '<' && Lower(t[1]) == 'b'
  {
    if HiddenBlockMatch(t).Some? {
      assert Lower(t[0]) == Lower(HiddenOpen[0]) && Lower(t[1]) == Lower(HiddenOpen[1]);
    }
    if DoubledBrMatch(t).Some? {
      assert Lower(t[0]) == Lower("<br>"[0]) && Lower(t[1]) == Lower("<br>"[1]);
    }
  }

  /**
   * Two `<br>` tags, each followed by white space, between texts without tags
   * collapse into one `<br>`; the white space goes with them.
   */
  lemma FormatRawCollapsesBreaks(x: string, c1: char, c2: char, y: string)
    requires '<' !in x && '<' !in y && IsSpace(c1) && IsSpace(c2)
    ensures FormatRaw(x + "<br>" + [c1] + "<br>" + [c2] + y) == x + "<br>" + y
  {
    var pair := "<br>" + [c1] + "<br>" + [c2];
    assert x + pair + y == x + "<br>" + [c1] + "<br>" + [c2] + y;
    NoHiddenBlockAround(x, pair, y);
    BrPassCollapses(x, c1, c2, y);
  }

  /** The break pass turns a doubled break between texts without `<` into one `<br>`. */
  lemma BrPassCollapses(x: string, c1: char, c2: char, y: string)
    requires '<' !in x && '<' !in y && IsSpace(c1) && IsSpace(c2)
    ensures ReplaceAll(x + ("<br>" + [c1] + "<br>" + [c2]) + y, DoubledBrMatch, "<br>") == x + "<br>" + y
  {
    BrPassStep(x, c1, c2, y);
    PlainPasses(y);
  }

  /** Around a doubled break and texts without `<`, no hidden block starts anywhere. */
  lemma NoHiddenBlockAround(x: string, pair: string, y: string)
    requires '<' !in x && '<' !in y && |pair| == 10
    requires forall k | 0 <= k < 9 :: pair[k] == '<' ==> pair[k + 1] == 'b'
    requires pair[9] != '<'
    ensures ReplaceAll(x + pair + y, HiddenBlockMatch, "") == x + pair + y
  {
    var s := x + pair + y;
    forall i | 0 <= i < |s| ensures HiddenBlockMatch(s[i..]).None? {
      MatchesStartWith(s[i..]);
      if i < |x| {
        assert s[i] == x[i];
      } else if i < |x| + 9 {
        assert s[i] == pair[i - |x|] && s[i + 1] == pair[i + 1 - |x|];
      } else if i == |x| + 9 {
        assert s[i] == pair[9];
      } else {
        assert s[i] == y[i - |x| - 10];
      }
    }
    ReplaceAllNoMatch(s, HiddenBlockMatch, "");
  }

  /**
   * A hidden block ends at the first closing tag after it opens: a second
   * closing tag, and the text before it, are kept.
   */
  lemma FormatRawHiddenBlockIsShortest(x: string, h: string, z: string, y: string)
    requires '<' !in x && '<' !in h && '<' !in z && '<' !in y
    ensures FormatRaw(x + HiddenOpen + h + HiddenClose + z + HiddenClose + y) == x + z + HiddenClose + y
  {
    var rest := z + HiddenClose + y;
    var block := HiddenOpen + h + HiddenClose;
    assert x + HiddenOpen + h + HiddenClose + z + HiddenClose + y == x + block + rest;
    NoMatchAroundClose(z, y);
    HiddenPassDropsBlock(x, h, rest);
    var shown := x + rest;
    assert shown == x + z + HiddenClose + y;
    NoBrStartsIn(x, rest);
    forall i | 0 <= i < |shown| ensures DoubledBrMatch(shown[i..]).None? {
      if |x| <= i {
        assert shown[i..] == rest[i - |x|..];
      }
    }
    ReplaceAllNoMatch(shown, DoubledBrMatch, "<br>");
  }

  /** The hidden-block pass removes one block and nothing else. */
  lemma HiddenPassDropsBlock(x: string, h: string, rest: string)
    requires '<' !in x && '<' !in h
    requires forall i | 0 <= i < |rest| :: HiddenBlockMatch(rest[i..]).None?
    ensures ReplaceAll(x + (HiddenOpen + h + HiddenClose) + rest, HiddenBlockMatch, "") == x + rest
  {
    HiddenPassStep(x, h, rest);
    ReplaceAllNoMatch(rest, HiddenBlockMatch, "");
  }

  /**
   * Every `<` in `p` is followed, inside `p`, by a character other than `c`
   * in either case: no tag whose name starts with `c` starts in `p`.
   */
  predicate TagsAvoid(p: string, c: char)
  {
    forall k | 0 <= k < |p| && p[k] == '<' :: k + 1 < |p| && Lower(p[k + 1]) != c
  }

  /** Tags are avoided by both parts of a text if by each. */
  lemma TagsAvoidConcat(a: string, b: string, c: char)
    requires TagsAvoid(a, c) && TagsAvoid(b, c)
    ensures TagsAvoid(a + b, c)
  {
    forall k | 0 <= k < |a + b| && (a + b)[k] == '<' ensures k + 1 < |a + b| && Lower((a + b)[k + 1]) != c {
      if k < |a| {
        assert a[k] == '<' && (a + b)[k + 1] == a[k + 1];
      } else {
        assert b[k - |a|] == '<' && (a + b)[k + 1] == b[k + 1 - |a|];
      }
    }
  }

  /** A `<br>` tag followed by white space opens no hidden block. */
  lemma BreakAvoidsHidden(c: char)
    requires IsSpace(c)
    ensures TagsAvoid("<br>" + [c], 'd')
  {
    var t := "<br>" + [c];
    assert t[0] == '<' && t[1] == 'b' && t[1..4] == "br>" && t[4] == c;
  }

  /** No hidden block starts inside a text where every tag avoids `d`, whatever follows it. */
  lemma NoHiddenStartsIn(p: string, tail: string)
    requires TagsAvoid(p, 'd')
    ensures forall i | 0 <= i < |p| :: HiddenBlockMatch((p + tail)[i..]).None?
  {
    forall i | 0 <= i < |p| ensures HiddenBlockMatch((p + tail)[i..]).None? {
      var t := (p + tail)[i..];
      MatchesStartWith(t);
      assert t[0] == p[i];
      if p[i] == '<' {
        assert t[1] == p[i + 1];
      }
    }
  }

  /** No doubled break starts inside a text where every tag avoids `b`, whatever follows it. */
  lemma NoBrStartsIn(p: string, tail: string)
    requires TagsAvoid(p, 'b')
    ensures forall i | 0 <= i < |p| :: DoubledBrMatch((p + tail)[i..]).None?
  {
    forall i | 0 <= i < |p| ensures DoubledBrMatch((p + tail)[i..]).None? {
      var t := (p + tail)[i..];
      MatchesStartWith(t);
      assert t[0] == p[i];
      if p[i] == '<' {
        assert t[1] == p[i + 1];
      }
    }
  }

  /** Text without `<` passes through both passes unchanged. */
  lemma PlainPasses(w: string)
    requires '<' !in w
    ensures ReplaceAll(w, HiddenBlockMatch, "") == w
    ensures ReplaceAll(w, DoubledBrMatch, "<br>") == w
  {
    assert w + [] == w;
    NoHiddenStartsIn(w, []);
    NoBrStartsIn(w, []);
    ReplaceAllNoMatch(w, HiddenBlockMatch, "");
    ReplaceAllNoMatch(w, DoubledBrMatch, "<br>");
  }

  /**
   * The hidden-block pass deletes the first hidden block, keeps the text
   * before it, and goes on after its closing tag.
   */
  lemma HiddenPassStep(x: string, h: string, rest: string)
    requires TagsAvoid(x, 'd') && '<' !in h
    ensures ReplaceAll(x + (HiddenOpen + h + HiddenClose) + rest, HiddenBlockMatch, "")
         == x + ReplaceAll(rest, HiddenBlockMatch, "")
  {
    var block := HiddenOpen + h + HiddenClose;
    assert block + rest == HiddenOpen + h + HiddenClose + rest;
    HiddenBlockOpens(h, rest);
    NoHiddenStartsIn(x, block + rest);
    assert x + (block + rest) == x + block + rest;
    ReplaceAllStep(x, block, rest, HiddenBlockMatch, "");
    assert x + "" == x;
  }

  /**
   * The break pass replaces the first doubled break by one `<br>`, keeps the
   * text before it, and goes on after the second white-space character.
   */
  lemma BrPassStep(x: string, c1: char, c2: char, y: string)
    requires TagsAvoid(x, 'b') && IsSpace(c1) && IsSpace(c2)
    ensures ReplaceAll(x + ("<br>" + [c1] + "<br>" + [c2]) + y, DoubledBrMatch, "<br>")
         == x + "<br>" + ReplaceAll(y, DoubledBrMatch, "<br>")
  {
    var pair := "<br>" + [c1] + "<br>" + [c2];
    DoubledBrOpens(c1, c2, y);
    NoBrStartsIn(x, pair + y);
    assert x + (pair + y) == x + pair + y;
    ReplaceAllStep(x, pair, y, DoubledBrMatch, "<br>");
  }

  /** A doubled break matches its ten characters. */
  lemma DoubledBrOpens(c1: char, c2: char, y: string)
    requires IsSpace(c1) && IsSpace(c2)
    ensures DoubledBrMatch("<br>" + [c1] + "<br>" + [c2] + y) == Some(10)
  {
    var t := "<br>" + [c1] + "<br>" + [c2] + y;
    assert t[..4] == "<br>" && t[4] == c1 && t[5..][..4] == "<br>" && t[9] == c2;
    StartsWithItself("<br>", t[4..]);
    StartsWithItself("<br>", t[9..]);
    assert t == "<br>" + t[4..] && t[5..] == "<br>" + t[9..];
  }

  /** Two hidden blocks between texts without `<` both go, and nothing else does. */
  lemma FormatRawTwoBlocks(x: string, h1: string, y: string, h2: string, z: string)
    requires '<' !in x && '<' !in h1 && '<' !in y && '<' !in h2 && '<' !in z
    ensures FormatRaw(x + (HiddenOpen + h1 + HiddenClose) + y + (HiddenOpen + h2 + HiddenClose) + z) == x + y + z
  {
    var b2 := HiddenOpen + h2 + HiddenClose;
    var s := x + (HiddenOpen + h1 + HiddenClose) + (y + b2 + z);
    assert s == x + (HiddenOpen + h1 + HiddenClose) + y + b2 + z;
    HiddenPassStep(x, h1, y + b2 + z);
    HiddenPassStep(y, h2, z);
    PlainPasses(z);
    assert x + (y + z) == x + y + z;
    PlainPasses(x + y + z);
  }

  /**
   * The hidden blocks go before the breaks are collapsed: two breaks that a
   * hidden block separates become neighbours, and collapse into one.
   */
  lemma FormatRawBlockBetweenBreaks(x: string, c1: char, h: string, c2: char, y: string)
    requires '<' !in x && '<' !in h && '<' !in y && IsSpace(c1) && IsSpace(c2)
    ensures FormatRaw(x + "<br>" + [c1] + (HiddenOpen + h + HiddenClose) + "<br>" + [c2] + y) == x + "<br>" + y
  {
    var block := HiddenOpen + h + HiddenClose;
    var pair := "<br>" + [c1] + "<br>" + [c2];
    calc {
      FormatRaw(x + "<br>" + [c1] + block + "<br>" + [c2] + y);
      { RegroupAround(x, "<br>", [c1], block, "<br>", [c2], y); }
      ReplaceAll(ReplaceAll(x + ("<br>" + [c1]) + block + ("<br>" + [c2] + y), HiddenBlockMatch, ""), DoubledBrMatch, "<br>");
      { HiddenPassJoinsBreaks(x, c1, h, c2, y); }
      ReplaceAll(x + pair + y, DoubledBrMatch, "<br>");
      { BrPassCollapses(x, c1, c2, y); }
      x + "<br>" + y;
    }
  }

  /** Deleting a hidden block between two breaks leaves them side by side. */
  lemma HiddenPassJoinsBreaks(x: string, c1: char, h: string, c2: char, y: string)
    requires '<' !in x && '<' !in h && '<' !in y && IsSpace(c1) && IsSpace(c2)
    ensures ReplaceAll(x + ("<br>" + [c1]) + (HiddenOpen + h + HiddenClose) + ("<br>" + [c2] + y), HiddenBlockMatch, "")
         == x + ("<br>" + [c1] + "<br>" + [c2]) + y
  {
    var p := x + ("<br>" + [c1]);
    var q := "<br>" + [c2] + y;
    BreakAvoidsHidden(c1);
    TagsAvoidConcat(x, "<br>" + [c1], 'd');
    HiddenPassStep(p, h, q);
    BreakAvoidsHidden(c2);
    TagsAvoidConcat("<br>" + [c2], y, 'd');
    NoHiddenStartsIn(q, []);
    assert q + [] == q;
    ReplaceAllNoMatch(q, HiddenBlockMatch, "");
    Regroup(x, "<br>" + [c1], "<br>" + [c2], y);
    BreakPair(c1, c2);
  }

  lemma RegroupAround(x: string, a: string, b: string, k: string, d: string, e: string, y: string)
    ensures x + a + b + k + d + e + y == x + (a + b) + k + (d + e + y)
  {
  }

  lemma BreakPair(c1: char, c2: char)
    ensures ("<br>" + [c1]) + ("<br>" + [c2]) == "<br>" + [c1] + "<br>" + [c2]
  {
  }

  lemma Regroup(x: string, a: string, b: string, y: string)
    ensures x + a + (b + y) == x + (a + b) + y
  {
  }

  /** A hidden block runs from its opening tag to the first closing tag. */
  lemma HiddenBlockOpens(h: string, rest: string)
    requires '<' !in h
    ensures HiddenBlockMatch(HiddenOpen + h + HiddenClose + rest) == Some(|HiddenOpen| + |h| + |HiddenClose|)
  {
    var t := HiddenOpen + (h + HiddenClose + rest);
    assert t == HiddenOpen + h + HiddenClose + rest;
    StartsWithItself(HiddenOpen, h + HiddenClose + rest);
    var q := |HiddenOpen| + |h|;
    assert t[q..] == HiddenClose + rest;
    StartsWithItself(HiddenClose, rest);
    forall j | |HiddenOpen| <= j < q ensures !StartsWithIgnoringCase(t[j..], HiddenClose) {
      assert t[j] == h[j - |HiddenOpen|];
      assert Lower(t[j]) != Lower(HiddenClose[0]);
    }
    IndexOfIgnoringCaseFinds(t, HiddenClose, |HiddenOpen|, q);
  }

  lemma StartsWithItself(p: string, rest: string)
    ensures StartsWithIgnoringCase(p + rest, p)
  {
    forall k | 0 <= k < |p| ensures (p + rest)[k] == p[k] { }
  }

  /** The search stops at the first occurrence. */
  lemma IndexOfIgnoringCaseFinds(s: string, p: string, from: nat, q: nat)
    requires from <= q <= |s| && StartsWithIgnoringCase(s[q..], p)
    requires forall j | from <= j < q :: !StartsWithIgnoringCase(s[j..], p)
    ensures IndexOfIgnoringCase(s, p, from) == Some(q)
  {
  }

  /** Around a lone closing tag, neither pattern matches anywhere. */
  lemma NoMatchAroundClose(z: string, y: string)
    requires '<' !in z && '<' !in y
    ensures var u := z + HiddenClose + y;
      forall i | 0 <= i < |u| :: HiddenBlockMatch(u[i..]).None? && DoubledBrMatch(u[i..]).None?
  {
    var u := z + HiddenClose + y;
    forall i | 0 <= i < |u| ensures HiddenBlockMatch(u[i..]).None? && DoubledBrMatch(u[i..]).None? {
      MatchesStartWith(u[i..]);
      if i < |z| {
        assert u[i] == z[i];
      } else if i < |z| + |HiddenClose| {
        assert u[i] == HiddenClose[i - |z|];
        assert i == |z| ==> u[i + 1] == '/';
      } else {
        assert u[i] == y[i - |z| - |HiddenClose|];
      }
    }
  }
}
