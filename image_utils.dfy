/**
 * The string helpers of the Yuque image plugin
 * (packages/gatsby-remark-yuque-images/src/utils.js): recognising Yuque CDN
 * image URLs, splitting them into their parts, parsing the `#` style
 * parameters, clamping a width and normalising Windows paths.
 */
module ImageUtils {
  import opened Wrappers
  import opened JsValue
  import opened Text

  /** `getMaxWidth`: the configured maximum, unless the image is narrower. */
  function GetMaxWidth(optionsMaxWidth: int, imageWidth: int): (r: int)
    ensures r <= optionsMaxWidth && r <= imageWidth
    ensures r == optionsMaxWidth || r == imageWidth
  {
    if optionsMaxWidth > imageWidth then imageWidth else optionsMaxWidth
  }

  // ------------------------------------------------------------ isYuqueImage

  /** Length of a text matched by `https:\/\/cdn.(yuque|nlark).com\/yuque`. */
  const YuqueMatchLength := 27

  /**
   * The regular expression `https:\/\/cdn.(yuque|nlark).com\/yuque` matches at
   * position `i`. Its two dots are not escaped, so each stands for any one
   * character other than a line terminator.
   */
  predicate MatchAt(url: string, i: nat)
  {
    i + YuqueMatchLength <= |url|
    && url[i..i + 11] == "https://cdn"
    && !IsLineTerminator(url[i + 11])
    && (url[i + 12..i + 17] == "yuque" || url[i + 12..i + 17] == "nlark")
    && !IsLineTerminator(url[i + 17])
    && url[i + 18..i + 27] == "com/yuque"
  }

  /** `isYuqueImage`: the unanchored test, trying each start position in turn. */
  predicate IsYuqueImage(url: string)
    ensures IsYuqueImage(url) ==> |url| >= YuqueMatchLength
    ensures MatchAt(url, 0) ==> IsYuqueImage(url)
    decreases |url|
  {
    |url| >= YuqueMatchLength && (MatchAt(url, 0) || IsYuqueImage(url[1..]))
  }

  lemma MatchAtShift(url: string, i: nat)
    requires |url| > 0
    ensures MatchAt(url[1..], i) <==> MatchAt(url, i + 1)
  {
    if i + 1 + YuqueMatchLength <= |url| {
      assert url[1..][i..i + 11] == url[i + 1..i + 12];
      assert url[1..][i + 11] == url[i + 12];
      assert url[1..][i + 12..i + 17] == url[i + 13..i + 18];
      assert url[1..][i + 17] == url[i + 18];
      assert url[1..][i + 18..i + 27] == url[i + 19..i + 28];
    }
  }

  /** `isYuqueImage` holds exactly when the pattern matches somewhere in the URL. */
  lemma {:induction false} IsYuqueImageSpec(url: string)
    ensures IsYuqueImage(url) <==> exists i: nat :: MatchAt(url, i)
    decreases |url|
  {
    if |url| >= YuqueMatchLength {
      IsYuqueImageSpec(url[1..]);
      if exists i: nat :: MatchAt(url, i) {
        var i: nat :| MatchAt(url, i);
        if i > 0 {
          MatchAtShift(url, i - 1);
        }
      }
      if exists i: nat :: MatchAt(url[1..], i) {
        var i: nat :| MatchAt(url[1..], i);
        MatchAtShift(url, i);
      }
    } else {
      forall i: nat ensures !MatchAt(url, i) { }
    }
  }

  /**
   * A URL laid out as the pattern describes is recognised, whatever follows it:
   * both CDN hosts, and, since the dots are not escaped, any character but a
   * line terminator in their place (`https://cdn-yuque-com/yuque` passes).
   */
  lemma MatchesBuiltUrl(dot1: char, host: string, dot2: char, rest: string)
    requires !IsLineTerminator(dot1) && !IsLineTerminator(dot2)
    requires host == "yuque" || host == "nlark"
    ensures IsYuqueImage("https://cdn" + [dot1] + host + [dot2] + "com/yuque" + rest)
  {
    var u := "https://cdn" + [dot1] + host + [dot2] + "com/yuque" + rest;
    assert u[0..11] == "https://cdn";
    assert u[11] == dot1;
    assert u[12..17] == host;
    assert u[17] == dot2;
    assert u[18..27] == "com/yuque";
    assert MatchAt(u, 0);
  }

  // -------------------------------------------------------- paramsToObject

  /**
   * One `key=value` piece: the key is the text before the first `=`, the value
   * the text between the first and the second `=` (or the end), `undefined`
   * without `=`.
   */
  function ParamField(piece: string): (f: Field)
    ensures f.key <= piece && '=' !in f.key
    ensures '=' !in piece ==> f == Field(piece, Undefined)
    ensures '=' in piece ==> |f.key| < |piece| && piece[|f.key|] == '=' && f.val.Str? && '=' !in f.val.s
    ensures '=' in piece ==> var rest := piece[|f.key| + 1..];
      f.val.s <= rest && (|f.val.s| == |rest| || rest[|f.val.s|] == '=')
  {
    var kv := Split(piece, '=');
    SplitFirstIsPrefix(piece, '=');
    if '=' in piece then
      SplitRest(piece, '=');
      ValueBeforeNextSeparator(piece[|kv[0]| + 1..], '=');
      Field(kv[0], Str(kv[1]))
    else
      Field(kv[0], Undefined)
  }

  /** The first piece of a split runs up to the first separator, or to the end without one. */
  lemma ValueBeforeNextSeparator(rest: string, sep: char)
    ensures var v := Split(rest, sep)[0]; v <= rest && (|v| == |rest| || rest[|v|] == sep)
  {
    SplitFirstIsPrefix(rest, sep);
  }

  /** The fields `paramsToObject` assigns, one per `&`-separated piece, in order. */
  function ParamFields(params: string): (fs: seq<Field>)
    ensures |fs| == |Split(params, '&')|
  {
    var pieces := Split(params, '&');
    seq(|pieces|, i requires 0 <= i < |pieces| => ParamField(pieces[i]))
  }

  /** `paramsToObject`: `{}` for a missing or empty string, else the pieces assigned in order. */
  function ParamsToObject(params: Option<string>): (r: Object)
    ensures WellFormed(r)
    ensures params.None? || params == Some("") ==> r == []
    ensures params.Some? && params.value != "" ==>
      |r| <= |Split(params.value, '&')| && forall k :: Has(r, k) <==> Has(ParamFields(params.value), k)
  {
    if params.None? || params.value == "" then []
    else Spread([], ParamFields(params.value))
  }

  /**
   * Every piece's key is in the result, nothing else is, and a key takes the
   * value of its last piece: a later duplicate overwrites an earlier one.
   */
  lemma ParamsToObjectLastWins(params: string, i: nat)
    requires params != ""
    requires i < |Split(params, '&')|
    requires forall j | i < j < |Split(params, '&')| :: ParamField(Split(params, '&')[j]).key != ParamField(Split(params, '&')[i]).key
    ensures var f := ParamField(Split(params, '&')[i]);
      Has(ParamsToObject(Some(params)), f.key) && Get(ParamsToObject(Some(params)), f.key) == f.val
  {
    var fs := ParamFields(params);
    assert forall j | i < j < |fs| :: fs[j].key != fs[i].key;
    SpreadLastWins(fs, i);
  }

  // ------------------------------------------------------- parseYuqueImage

  /** What `parseYuqueImage` returns; `folder` is `undefined` (None) when the URL has no `/`. */
  datatype ImageRef = ImageRef(url: string, folder: Option<string>, filename: string, ext: string, styles: Object)

  /** `s` ends with `suffix`. */
  predicate EndsWith(s: string, suffix: string)
  {
    |suffix| <= |s| && s[|s| - |suffix|..] == suffix
  }

  /**
   * The `url` of `parseYuqueImage`: the text before the first `#`, cut at the
   * first `?` only when it contains `x-oss-process`.
   */
  function ImageUrl(link: string): (url: string)
    ensures url <= link && '#' !in url
    ensures |url| == |link| || link[|url|] == '#' || link[|url|] == '?'
    ensures !Contains(Split(link, '#')[0], "x-oss-process") ==> |url| == |link| || link[|url|] == '#'
    ensures Contains(Split(link, '#')[0], "x-oss-process") ==> '?' !in url
  {
    var beforeHash := Split(link, '#')[0];
    SplitFirstIsPrefix(link, '#');
    SplitFirstIsPrefix(beforeHash, '?');
    if Contains(beforeHash, "x-oss-process") then Split(beforeHash, '?')[0] else beforeHash
  }

  /** `f` is the last `/` segment of `url`: free of `/`, and ending `url` after its last `/`, or all of it. */
  predicate IsLastSegment(url: string, f: string)
  {
    '/' !in f && EndsWith(url, f) && ('/' in url ==> EndsWith(url, "/" + f)) && ('/' !in url ==> f == url)
  }

  /** `d` is the segment before `f` in `url`: free of `/`, followed by `/` and `f`, after a `/` or at the start. */
  predicate IsSegmentBefore(url: string, d: string, f: string)
  {
    var m := |d| + 1 + |f|;
    '/' !in d && EndsWith(url, d + "/" + f) && (m == |url| || (m < |url| && url[|url| - m - 1] == '/'))
  }

  /** The last `/` segment of a URL: `url.split('/').pop()`. */
  function FileName(url: string): (f: string)
    ensures IsLastSegment(url, f)
  {
    var segs := Split(url, '/');
    UrlSegments(url);
    LastAfterSlash(url);
    segs[|segs| - 1]
  }

  /** The segment before the last one, `undefined` (None) when the URL has no `/`. */
  function Folder(url: string): (d: Option<string>)
    ensures d.None? <==> '/' !in url
    ensures d.Some? ==> IsSegmentBefore(url, d.value, FileName(url))
  {
    var segs := Split(url, '/');
    UrlSegments(url);
    if |segs| >= 2 then
      SecondLastPiece(url, '/');
      Some(segs[|segs| - 2])
    else None
  }

  /** The text after the last `.`: `url.split('.').pop()`. */
  function Extension(url: string): (e: string)
    ensures '.' !in e && EndsWith(url, e)
    ensures '.' in url ==> EndsWith(url, "." + e)
    ensures '.' !in url ==> e == url
  {
    var dots := Split(url, '.');
    UrlExtension(url);
    dots[|dots| - 1]
  }

  /**
   * `parseYuqueImage`: `filename` and `folder` are the last two `/` segments
   * of `url`, `ext` follows its last `.`, and `styles` are the parameters
   * between the first and the second `#`.
   */
  function ParseYuqueImage(link: string): (r: ImageRef)
    ensures r.url == ImageUrl(link)
    ensures IsLastSegment(r.url, r.filename)
    ensures r.folder.None? <==> '/' !in r.url
    ensures r.folder.Some? ==> IsSegmentBefore(r.url, r.folder.value, r.filename)
    ensures '.' !in r.ext && EndsWith(r.url, r.ext)
    ensures '.' in r.url ==> EndsWith(r.url, "." + r.ext)
    ensures '.' !in r.url ==> r.ext == r.url
    ensures r.styles == ParamsToObject(if '#' in link then Some(Split(link, '#')[1]) else None)
  {
    var url := ImageUrl(link);
    var params := if '#' in link then Some(Split(link, '#')[1]) else None;
    ImageRef(url, Folder(url), FileName(url), Extension(url), ParamsToObject(params))
  }

  /** At most one text is the last segment of a URL. */
  lemma LastSegmentUnique(url: string, f: string, g: string)
    requires IsLastSegment(url, f) && IsLastSegment(url, g) && |f| <= |g|
    ensures f == g
  {
    if '/' in url {
      if |f| < |g| {
        SlashInsideSuffix(url, |f| + 1, g);
      } else {
        SameLengthSuffixes(url, f, g);
      }
    }
  }

  /** A suffix that reaches past a `/` of the string contains it. */
  lemma SlashInsideSuffix(url: string, n: nat, g: string)
    requires 0 < n <= |g| && EndsWith(url, g) && url[|url| - n] == '/'
    ensures '/' in g
  {
    assert g[|g| - n] == url[|url| - n];
  }

  lemma SameLengthSuffixes(url: string, f: string, g: string)
    requires EndsWith(url, f) && EndsWith(url, g) && |f| == |g|
    ensures f == g
  {
  }

  /** At most one text is the segment before a given last segment. */
  lemma SegmentBeforeUnique(url: string, d: string, e: string, f: string)
    requires IsSegmentBefore(url, d, f) && IsSegmentBefore(url, e, f) && |d| <= |e|
    ensures d == e
  {
    if |d| < |e| {
      SlashInsideSegment(url, |d| + 1 + |f| + 1, e, f);
    } else {
      SameLengthSuffixes(url, d + "/" + f, e + "/" + f);
      assert d == (d + "/" + f)[..|d|];
    }
  }

  /** A `/` of the string between the start of `e + "/" + f` and its `/` lies inside `e`. */
  lemma SlashInsideSegment(url: string, n: int, e: string, f: string)
    requires EndsWith(url, e + "/" + f) && |f| + 1 < n <= |e| + 1 + |f| && url[|url| - n] == '/'
    ensures '/' in e
  {
    var start := |url| - (|e| + 1 + |f|);
    var k := |url| - n;
    assert url[start..] == e + "/" + f;
    assert e[k - start] == url[k];
  }

  /** In a directory, a folder and a file name joined by `/`, the last two segments are the folder and the file. */
  lemma BuiltUrlSegments(dir: string, folder: string, file: string)
    requires '/' !in folder && '/' !in file
    ensures var url := dir + "/" + folder + "/" + file;
      IsLastSegment(url, file) && IsSegmentBefore(url, folder, file)
  {
    var url := dir + "/" + folder + "/" + file;
    assert url[|dir|] == '/';
    assert url[|url| - |file| - 1..] == "/" + file;
    assert url[|dir| + 1..] == folder + "/" + file;
  }

  /** A URL made of a directory, a folder and a file name gives back that folder and file name. */
  lemma UrlParts(dir: string, folder: string, file: string)
    requires '/' !in folder && '/' !in file
    ensures var url := dir + "/" + folder + "/" + file;
      FileName(url) == file && Folder(url) == Some(folder)
  {
    var url := dir + "/" + folder + "/" + file;
    BuiltUrlSegments(dir, folder, file);
    var f := FileName(url);
    if |f| <= |file| {
      LastSegmentUnique(url, f, file);
    } else {
      LastSegmentUnique(url, file, f);
    }
    assert '/' in url by {
      assert url[|dir|] == '/';
    }
    var d := Folder(url).value;
    if |d| <= |folder| {
      SegmentBeforeUnique(url, d, folder, file);
    } else {
      SegmentBeforeUnique(url, folder, d, file);
    }
  }

  /**
   * A link whose URL is a directory, a folder and a file name, joined by `/`,
   * gives back that folder and file name.
   */
  lemma ParseYuqueImageParts(link: string, dir: string, folder: string, file: string)
    requires ImageUrl(link) == dir + "/" + folder + "/" + file
    requires '/' !in folder && '/' !in file
    ensures ParseYuqueImage(link).filename == file && ParseYuqueImage(link).folder == Some(folder)
  {
    UrlParts(dir, folder, file);
  }

  /** The last two `/` segments of a URL end it, and without a `/` the last one is the whole URL. */
  lemma UrlSegments(url: string)
    ensures var segs := Split(url, '/'); var n := |segs|;
      && '/' !in segs[n - 1] && EndsWith(url, segs[n - 1])
      && (n >= 2 ==> '/' !in segs[n - 2] && EndsWith(url, segs[n - 2] + "/" + segs[n - 1]))
      && (n < 2 ==> segs[n - 1] == url)
  {
    SplitLastIsSuffix(url, '/');
    LastTwoSegments(url);
    SplitEnds(url, '/');
  }

  /** With a `/`, the last segment follows the last `/`. */
  lemma LastAfterSlash(url: string)
    ensures var segs := Split(url, '/'); |segs| >= 2 ==> EndsWith(url, "/" + segs[|segs| - 1])
  {
    SplitLastIsSuffix(url, '/');
    var segs := Split(url, '/');
    var last := segs[|segs| - 1];
    if |segs| >= 2 {
      assert url[|url| - |last| - 1..] == "/" + last;
    }
  }

  /** The last `.` piece of a URL ends it, after a `.` when there is one. */
  lemma UrlExtension(url: string)
    ensures var dots := Split(url, '.'); var ext := dots[|dots| - 1];
      && '.' !in ext && EndsWith(url, ext)
      && ('.' in url ==> EndsWith(url, "." + ext))
      && ('.' !in url ==> ext == url)
  {
    SplitLastIsSuffix(url, '.');
    var dots := Split(url, '.');
    var ext := dots[|dots| - 1];
    if '.' in url {
      assert url[|url| - |ext| - 1..] == "." + ext;
    }
  }

  /** With at least one `/`, the URL ends with its last two segments joined by `/`. */
  lemma LastTwoSegments(url: string)
    ensures var segs := Split(url, '/'); var n := |segs|;
      n >= 2 ==> EndsWith(url, segs[n - 2] + "/" + segs[n - 1])
  {
    if |Split(url, '/')| >= 2 {
      SplitLastTwo(url, '/');
    }
  }

  // ---------------------------------------------------------------- slash

  /** `\\?\` starts an extended-length Windows path, which `slash` leaves alone. */
  predicate IsExtendedLengthPath(path: string)
  {
    StartsWith(path, "\\\\?\\")
  }

  /** Every backslash replaced by a slash. */
  function ToSlashes(path: string): (r: string)
    ensures |r| == |path|
    ensures forall i | 0 <= i < |path| :: r[i] == if path[i] == '\\' then '/' else path[i]
    decreases |path|
  {
    if path == [] then []
    else [if path[0] == '\\' then '/' else path[0]] + ToSlashes(path[1..])
  }

  /** `slash`: extended-length paths unchanged, otherwise every `\` becomes `/` and nothing else changes. */
  function Slash(path: string): (r: string)
    ensures |r| == |path|
    ensures IsExtendedLengthPath(path) ==> r == path
    ensures !IsExtendedLengthPath(path) ==> '\\' !in r
    ensures !IsExtendedLengthPath(path) ==>
      forall i | 0 <= i < |path| :: r[i] == if path[i] == '\\' then '/' else path[i]
  {
    if IsExtendedLengthPath(path) then path else ToSlashes(path)
  }

  /** `slash` is idempotent. */
  lemma SlashIdempotent(path: string)
    ensures Slash(Slash(path)) == Slash(path)
  {
    var r := Slash(path);
    if !IsExtendedLengthPath(path) {
      assert !IsExtendedLengthPath(r) by {
        if |r| >= 1 { assert r[0] != '\\'; }
      }
      assert ToSlashes(r) == r;
    }
  }
}
