/**
 * The renderer's two page helpers: whether the open page shows a live
 * channel (`detectLiveStream`) and the name to put into a recording's file
 * name (`getStreamName`). The document queries become parameters: whether
 * a live indicator element exists, and the text of the title element if
 * there is one.
 */
module Page {
  import opened Wrappers
  import opened JsStrings

  /** A channel page path in the sense of `/^\/[^/]+$/`: one slash, then a non-empty name. */
  ghost predicate ChannelPage(pathname: string) {
    exists name :: name != [] && '/' !in name && pathname == "/" + name
  }

  /** The test `pathname.match(/^\/[^/]+$/)` carries out. */
  predicate MatchesChannelPath(pathname: string) {
    |pathname| >= 2 && pathname[0] == '/' && LastIndexOf(pathname, '/') == 0
  }

  lemma MatchesChannelPathIsChannelPage(pathname: string)
    ensures MatchesChannelPath(pathname) <==> ChannelPage(pathname)
  {
    if MatchesChannelPath(pathname) {
      assert pathname == "/" + pathname[1..];
    }
    if ChannelPage(pathname) {
      var name :| name != [] && '/' !in name && pathname == "/" + name;
      assert pathname[1..] == name;
    }
  }

  /**
   * `detectLiveStream()`: never live on a page whose address contains
   * `/video/` or `/videos/`; otherwise live exactly when a live indicator is
   * present or the path is a bare channel path.
   */
  function DetectLiveStream(href: string, pathname: string, hasLiveIndicator: bool): (live: bool)
    ensures (exists i :: OccursAt(href, "/video/", i) || OccursAt(href, "/videos/", i)) ==> !live
    ensures (forall i :: !OccursAt(href, "/video/", i) && !OccursAt(href, "/videos/", i)) ==>
              (live <==> hasLiveIndicator || ChannelPage(pathname))
  {
    MatchesChannelPathIsChannelPage(pathname);
    var isVodUrl := Includes(href, "/video/") || Includes(href, "/videos/");
    !isVodUrl && (hasLiveIndicator || MatchesChannelPath(pathname))
  }

  /** The longest prefix of `s` without a `/` (the greedy `[^/]+`, possibly empty). */
  function SegmentRun(s: string): (seg: string)
    ensures |seg| <= |s| && seg == s[..|seg|]
    ensures '/' !in seg
    ensures |seg| == |s| || s[|seg|] == '/'
    decreases |s|
  {
    if s != [] && s[0] != '/' then [s[0]] + SegmentRun(s[1..]) else ""
  }

  /**
   * The capture of `pathname.match(/^\/([^/]+)/)`: the first path segment,
   * present exactly when the path starts with a slash followed by a
   * character other than a slash; it runs up to the next slash or the end.
   */
  function FirstSegment(pathname: string): (r: Option<string>)
    ensures r.Some? <==> |pathname| >= 2 && pathname[0] == '/' && pathname[1] != '/'
    ensures r.Some? ==> && r.value != [] && '/' !in r.value
                        && StartsWith(pathname, "/" + r.value)
                        && (|pathname| == |r.value| + 1 || pathname[|r.value| + 1] == '/')
  {
    if |pathname| >= 2 && pathname[0] == '/' && pathname[1] != '/' then
      var seg := SegmentRun(pathname[1..]);
      assert pathname[..|seg| + 1] == "/" + seg;
      Some(seg)
    else
      None
  }

  /** On a bare channel path the first segment is the whole channel name, and only there. */
  lemma FirstSegmentOfChannelPage(pathname: string)
    ensures ChannelPage(pathname) <==> |pathname| >= 2 && FirstSegment(pathname) == Some(pathname[1..])
  {
    MatchesChannelPathIsChannelPage(pathname);
    if ChannelPage(pathname) {
      var seg := FirstSegment(pathname).value;
      assert |seg| == |pathname| - 1;
      assert pathname[1..] == pathname[..|seg| + 1][1..];
    }
  }

  const TitleLength := 50

  /**
   * `getStreamName()`, given the text of the title element when one exists:
   * that text trimmed and cut to at most 50 characters (which may leave it
   * empty), otherwise the first path segment, otherwise `stream`.
   */
  function GetStreamName(title: Option<string>, pathname: string): (name: string)
    ensures title.Some? ==> var t := Trim(title.value);
              && |name| == (if |t| < TitleLength then |t| else TitleLength)
              && name == t[..|name|]
    ensures title.None? && FirstSegment(pathname).Some? ==>
              && name != [] && '/' !in name
              && StartsWith(pathname, "/" + name)
              && (|pathname| == |name| + 1 || pathname[|name| + 1] == '/')
    ensures title.None? && FirstSegment(pathname).None? ==> name == "stream"
  {
    match title
    case Some(text) =>
      var t := Trim(text);
      t[..if |t| < TitleLength then |t| else TitleLength]
    case None =>
      FirstSegment(pathname).GetOr("stream")
  }

  /** Without a title element, a channel page is named after its channel. */
  lemma StreamNameOfChannelPage(pathname: string)
    requires ChannelPage(pathname)
    ensures GetStreamName(None, pathname) == pathname[1..]
  {
    FirstSegmentOfChannelPage(pathname);
  }
}
