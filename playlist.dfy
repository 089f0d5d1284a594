/**
 * The renderer's quality lister (`fetchQualityOptions`): it reads an HLS
 * master playlist (section 4.3.4.2 of RFC 8216 defines its
 * `#EXT-X-STREAM-INF` tag) and offers one quality per variant stream,
 * best bandwidth first, falling back to the master playlist itself.
 */
module Playlist {
  import opened Wrappers
  import opened JsStrings

  /** One entry of the quality menu (`displayLabel` is the source's `label`). */
  datatype Quality = Quality(displayLabel: string, url: string, resolution: string, bandwidth: nat)

  const StreamInfTag := "#EXT-X-STREAM-INF"
  const ResolutionKey := "RESOLUTION="
  const BandwidthKey := "BANDWIDTH="

  /** The single entry offered when no variant could be read. */
  function SourceQuality(masterUrl: string): Quality {
    Quality("Source Quality", masterUrl, "Auto", 0)
  }

  predicate IsStreamInf(line: string) {
    StartsWith(line, StreamInfTag)
  }

  // ---------------------------------------------------------------------
  // Attribute extraction: the two regular expressions on the tag line

  /** `RESOLUTION=` followed by the digit strings `w`, `x` and `h` at position `p`. */
  ghost predicate ResolutionText(info: string, p: nat, w: string, h: string) {
    && p <= |info|
    && |w| > 0 && |h| > 0 && AllDigits(w) && AllDigits(h)
    && StartsWith(info[p..], ResolutionKey + (w + ("x" + h)))
  }

  /** A resolution as the regular expression captures it: digits, `x`, digits. */
  ghost predicate ResolutionShape(s: string) {
    exists i :: 0 < i < |s| - 1 && s[i] == 'x' && AllDigits(s[..i]) && AllDigits(s[i + 1..])
  }

  /** What a match at `p` tells about the text after `RESOLUTION=`. */
  lemma ResolutionTextAt(info: string, p: nat, w: string, h: string)
    requires ResolutionText(info, p, w, h)
    ensures StartsWith(info[p..], ResolutionKey)
    ensures var rest := info[p + |ResolutionKey|..];
            && |w| < |rest| && rest[|w|] == 'x' && DigitRun(rest) == w
            && StartsWith(rest[|w| + 1..], h) && |DigitRun(rest[|w| + 1..])| >= |h|
  {
    var rest := info[p + |ResolutionKey|..];
    StartsWithConcat(info[p..], ResolutionKey, w + ("x" + h));
    StartsWithConcat(rest, w, "x" + h);
    StartsWithConcat(rest[|w|..], "x", h);
    assert rest[|w|..][1..] == rest[|w| + 1..];
    DigitRunIs(rest, w);
    DigitRunCovers(rest[|w| + 1..], h);
  }

  lemma ShapeOf(w: string, h: string)
    requires |w| > 0 && |h| > 0 && AllDigits(w) && AllDigits(h)
    ensures ResolutionShape(w + "x" + h)
  {
    var cap := w + "x" + h;
    assert cap[..|w|] == w && cap[|w| + 1..] == h && cap[|w|] == 'x';
  }

  /** The digit runs around an `x` after `RESOLUTION=` make a match at `p`. */
  lemma ResolutionTextFound(info: string, p: nat, w: string, h: string)
    requires p <= |info| && StartsWith(info[p..], ResolutionKey)
    requires var rest := info[p + |ResolutionKey|..];
             && w == DigitRun(rest) && 0 < |w| < |rest| && rest[|w|] == 'x'
             && h == DigitRun(rest[|w| + 1..]) && |h| > 0
    ensures ResolutionText(info, p, w, h)
  {
    var rest := info[p + |ResolutionKey|..];
    var xh := "x" + h;
    assert StartsWith(rest[|w|..], xh) by {
      assert rest[|w|..][1..] == rest[|w| + 1..];
      assert StartsWith(rest[|w|..], "x");
      StartsWithConcat(rest[|w|..], "x", h);
    }
    assert StartsWith(rest, w + xh) by {
      StartsWithConcat(rest, w, xh);
    }
    assert StartsWith(info[p..], ResolutionKey + (w + xh)) by {
      assert info[p..][|ResolutionKey|..] == rest;
      StartsWithConcat(info[p..], ResolutionKey, w + xh);
    }
  }

  /** The greedy reading of `RESOLUTION=(\d+x\d+)` at `p` succeeds. */
  predicate ResolutionMatches(info: string, p: nat) {
    && p <= |info| && StartsWith(info[p..], ResolutionKey)
    && var rest := info[p + |ResolutionKey|..];
       var w := DigitRun(rest);
       && 0 < |w| < |rest| && rest[|w|] == 'x' && |DigitRun(rest[|w| + 1..])| > 0
  }

  /** The capture of that reading: the digit runs on both sides of the `x`. */
  function ResolutionCapture(info: string, p: nat): string
    requires ResolutionMatches(info, p)
  {
    var rest := info[p + |ResolutionKey|..];
    var w := DigitRun(rest);
    w + "x" + DigitRun(rest[|w| + 1..])
  }

  /** A successful reading is a match, of the right shape, not followed by a further digit. */
  lemma ResolutionCaptureSpec(info: string, p: nat)
    requires ResolutionMatches(info, p)
    ensures var cap := ResolutionCapture(info, p);
            && (exists w, h :: ResolutionText(info, p, w, h) && cap == w + "x" + h)
            && ResolutionShape(cap)
            && var end := p + |ResolutionKey| + |cap|;
               end <= |info| && (end == |info| || !IsDigit(info[end]))
  {
    var rest := info[p + |ResolutionKey|..];
    var w := DigitRun(rest);
    var h := DigitRun(rest[|w| + 1..]);
    ResolutionTextFound(info, p, w, h);
    ShapeOf(w, h);
    var end := p + |ResolutionKey| + |w + "x" + h|;
    assert end < |info| ==> info[end] == rest[|w| + 1..][|h|];
  }

  /** When the greedy reading fails, no match exists at `p`. */
  lemma ResolutionNoMatch(info: string, p: nat)
    requires !ResolutionMatches(info, p)
    ensures forall w, h :: !ResolutionText(info, p, w, h)
  {
    forall w, h | ResolutionText(info, p, w, h) ensures false {
      ResolutionTextAt(info, p, w, h);
    }
  }

  /**
   * Whether `/RESOLUTION=(\d+x\d+)/` matches at position `p` of `info`, and
   * then its capture: the greedy `\d+` takes the whole digit runs, so the
   * capture is not followed by a further digit.
   */
  function ResolutionAt(info: string, p: nat): (r: Option<string>)
    ensures r.Some? <==> exists w, h :: ResolutionText(info, p, w, h)
    ensures r.Some? ==> ResolutionShape(r.value)
    ensures r.Some? ==> exists w, h :: ResolutionText(info, p, w, h) && r.value == w + "x" + h
    ensures r.Some? ==> var end := p + |ResolutionKey| + |r.value|;
                        end <= |info| && (end == |info| || !IsDigit(info[end]))
  {
    if ResolutionMatches(info, p) then
      ResolutionCaptureSpec(info, p);
      Some(ResolutionCapture(info, p))
    else
      ResolutionNoMatch(info, p);
      None
  }

  /** `BANDWIDTH=` followed by the digit string `d` at position `p`. */
  ghost predicate BandwidthText(info: string, p: nat, d: string) {
    p <= |info| && |d| > 0 && AllDigits(d) && StartsWith(info[p..], BandwidthKey + d)
  }

  /** What a match at `p` tells about the text after `BANDWIDTH=`. */
  lemma BandwidthTextAt(info: string, p: nat, d: string)
    requires BandwidthText(info, p, d)
    ensures StartsWith(info[p..], BandwidthKey)
    ensures |DigitRun(info[p + |BandwidthKey|..])| >= |d|
  {
    StartsWithConcat(info[p..], BandwidthKey, d);
    DigitRunCovers(info[p + |BandwidthKey|..], d);
  }

  /** Whether `/BANDWIDTH=(\d+)/` matches at position `p` of `info`, and then its capture. */
  function BandwidthAt(info: string, p: nat): (r: Option<string>)
    ensures r.Some? <==> exists d :: BandwidthText(info, p, d)
    ensures r.Some? ==> BandwidthText(info, p, r.value)
    ensures r.Some? ==> var end := p + |BandwidthKey| + |r.value|;
                        end <= |info| && (end == |info| || !IsDigit(info[end]))
  {
    if p <= |info| && StartsWith(info[p..], BandwidthKey) && |DigitRun(info[p + |BandwidthKey|..])| > 0 then
      var rest := info[p + |BandwidthKey|..];
      var d := DigitRun(rest);
      StartsWithConcat(info[p..], BandwidthKey, d);
      assert BandwidthText(info, p, d);
      assert p + |BandwidthKey| + |d| < |info| ==> info[p + |BandwidthKey| + |d|] == rest[|d|];
      Some(d)
    else
      assert forall d :: !BandwidthText(info, p, d) by {
        forall d | BandwidthText(info, p, d) ensures false {
          BandwidthTextAt(info, p, d);
        }
      }
      None
  }

  /**
   * `info.match(re)` where `matchAt` says whether `re` matches at a
   * position: the match at the leftmost position from `from` on.
   */
  function FirstMatch(info: string, from: nat, matchAt: (string, nat) -> Option<string>): (r: Option<string>)
    ensures r.None? <==> forall p :: from <= p <= |info| ==> matchAt(info, p).None?
    ensures r.Some? ==> exists p :: from <= p <= |info| && matchAt(info, p) == r
                                    && forall q :: from <= q < p ==> matchAt(info, q).None?
    decreases |info| + 1 - from
  {
    if from > |info| then None
    else if matchAt(info, from).Some? then matchAt(info, from)
    else FirstMatch(info, from + 1, matchAt)
  }

  /** The resolution a tag line advertises, or `Unknown` when it has none. */
  function Resolution(info: string): (r: string)
    ensures r == "Unknown" || ResolutionShape(r)
  {
    match FirstMatch(info, 0, ResolutionAt)
    case Some(cap) => cap
    case None => "Unknown"
  }

  /** `Math.round(v / 1000)`: the nearest whole number of kilo-units, halves rounded up. */
  function RoundKbps(v: nat): (k: nat)
    ensures 1000 * k <= v + 500 < 1000 * k + 1000
  {
    (v + 500) / 1000
  }

  /** The bandwidth a tag line advertises in kbps, or 0 when it has none. */
  function BandwidthKbps(info: string): nat {
    match FirstMatch(info, 0, BandwidthAt)
    case Some(d) => RoundKbps(DigitsValue(d))
    case None => 0
  }

  /** `Unknown` is not a resolution the regular expression could capture. */
  lemma UnknownIsNotShape()
    ensures !ResolutionShape("Unknown")
  {
  }

  /** The resolution is `Unknown` exactly when `RESOLUTION=<digits>x<digits>` occurs nowhere. */
  lemma ResolutionUnknown(info: string)
    ensures Resolution(info) == "Unknown" <==> forall p: nat, w, h :: !ResolutionText(info, p, w, h)
  {
    UnknownIsNotShape();
    var r := FirstMatch(info, 0, ResolutionAt);
    if r.Some? {
      var p :| 0 <= p <= |info| && ResolutionAt(info, p) == r;
      var w, h :| ResolutionText(info, p, w, h);
      assert Resolution(info) != "Unknown";
    } else {
      forall p: nat, w, h ensures !ResolutionText(info, p, w, h) {
        if p <= |info| {
          assert ResolutionAt(info, p).None?;
        }
      }
    }
  }

  /** Without any `BANDWIDTH=<digits>` the bandwidth is 0. */
  lemma BandwidthNone(info: string)
    requires forall p: nat, d :: !BandwidthText(info, p, d)
    ensures BandwidthKbps(info) == 0
  {
    forall p | 0 <= p <= |info| ensures BandwidthAt(info, p).None? {
    }
  }

  /** When `matchAt` first succeeds at `p`, the search from `from` returns that match. */
  lemma {:induction false} FirstMatchAt(info: string, from: nat, p: nat, matchAt: (string, nat) -> Option<string>)
    requires from <= p <= |info| && matchAt(info, p).Some?
    requires forall q :: from <= q < p ==> matchAt(info, q).None?
    ensures FirstMatch(info, from, matchAt) == matchAt(info, p)
    decreases p - from
  {
    if from < p {
      FirstMatchAt(info, from + 1, p, matchAt);
    }
  }

  /**
   * The leftmost `BANDWIDTH=` with digits behind it decides the bandwidth,
   * whatever follows; this includes the `BANDWIDTH=` inside an earlier
   * `AVERAGE-BANDWIDTH=` attribute.
   */
  lemma LeftmostBandwidth(info: string, p: nat, d: string)
    requires BandwidthText(info, p, d)
    requires p + |BandwidthKey| + |d| == |info| || !IsDigit(info[p + |BandwidthKey| + |d|])
    requires forall q, e :: 0 <= q < p ==> !BandwidthText(info, q, e)
    ensures BandwidthKbps(info) == RoundKbps(DigitsValue(d))
  {
    BandwidthWholeRun(info, p, d);
    FirstMatchAt(info, 0, p, BandwidthAt);
  }

  /** A match whose digits are not followed by a further digit is what `BandwidthAt` captures. */
  lemma BandwidthWholeRun(info: string, p: nat, d: string)
    requires BandwidthText(info, p, d)
    requires p + |BandwidthKey| + |d| == |info| || !IsDigit(info[p + |BandwidthKey| + |d|])
    ensures BandwidthAt(info, p) == Some(d)
  {
    var rest := info[p + |BandwidthKey|..];
    StartsWithConcat(info[p..], BandwidthKey, d);
    assert info[p..][|BandwidthKey|..] == rest;
    assert |d| < |rest| ==> rest[|d|] == info[p + |BandwidthKey| + |d|];
    DigitRunIs(rest, d);
  }

  /** Likewise the leftmost `RESOLUTION=<digits>x<digits>` decides the resolution. */
  lemma LeftmostResolution(info: string, p: nat, w: string, h: string)
    requires ResolutionText(info, p, w, h)
    requires var end := p + |ResolutionKey| + |w| + 1 + |h|;
             end == |info| || !IsDigit(info[end])
    requires forall q, w', h' :: 0 <= q < p ==> !ResolutionText(info, q, w', h')
    ensures Resolution(info) == w + "x" + h
  {
    ResolutionTextAt(info, p, w, h);
    var rest := info[p + |ResolutionKey|..];
    var after := rest[|w| + 1..];
    assert |h| < |after| ==> after[|h|] == info[p + |ResolutionKey| + |w| + 1 + |h|];
    DigitRunIs(after, h);
    assert ResolutionMatches(info, p);
    assert ResolutionAt(info, p) == Some(w + "x" + h);
    FirstMatchAt(info, 0, p, ResolutionAt);
  }

  // ---------------------------------------------------------------------
  // Making a variant URI absolute

  /**
   * The master playlist URL up to and including its last `/`: empty when it
   * has no `/`, otherwise a prefix ending in the URL's last `/`.
   */
  function BaseUrl(masterUrl: string): (b: string)
    ensures |b| <= |masterUrl| && b == masterUrl[..|b|]
    ensures b == [] <==> '/' !in masterUrl
    ensures b != [] ==> b[|b| - 1] == '/' && '/' !in masterUrl[|b|..]
  {
    masterUrl[..LastIndexOf(masterUrl, '/') + 1]
  }

  /**
   * The URL of a variant: its trimmed URI line when that starts with `http`,
   * otherwise that line appended to the master URL's directory part.
   */
  function AbsoluteUrl(masterUrl: string, uriLine: string): (url: string)
    ensures var t := Trim(uriLine);
            |url| >= |t| && url[|url| - |t|..] == t
            && (StartsWith(t, "http") ==> url == t)
            && (!StartsWith(t, "http") ==> url[..|url| - |t|] == BaseUrl(masterUrl))
  {
    var t := Trim(uriLine);
    if StartsWith(t, "http") then t else BaseUrl(masterUrl) + t
  }

  /** The menu entry for a tag line `info` followed by the URI line `uriLine`. */
  function Variant(masterUrl: string, info: string, uriLine: string): Quality {
    var resolution := Resolution(info);
    var bandwidth := BandwidthKbps(info);
    Quality(resolution + " (" + NatToString(bandwidth) + " kbps)",
            AbsoluteUrl(masterUrl, uriLine), resolution, bandwidth)
  }

  /** An entry read from a tag line: labelled by its own resolution and bandwidth. */
  ghost predicate WellFormedVariant(q: Quality) {
    && (q.resolution == "Unknown" || ResolutionShape(q.resolution))
    && q.displayLabel == q.resolution + " (" + NatToString(q.bandwidth) + " kbps)"
  }

  // ---------------------------------------------------------------------
  // The scan over the lines

  /** The indices from `i` on of the lines that carry the tag, in increasing order. */
  function TagIndices(lines: seq<string>, i: nat): seq<nat>
    decreases |lines| - i
  {
    if i >= |lines| then []
    else if IsStreamInf(lines[i]) then [i] + TagIndices(lines, i + 1)
    else TagIndices(lines, i + 1)
  }

  predicate Increasing(t: seq<nat>) {
    forall a, b :: 0 <= a < b < |t| ==> t[a] < t[b]
  }

  /**
   * `TagIndices` lists, in strictly increasing order, exactly the indices
   * from `i` on of the lines that start with `#EXT-X-STREAM-INF`.
   */
  lemma {:induction false} TagIndicesSpec(lines: seq<string>, i: nat)
    ensures forall j :: j in TagIndices(lines, i) <==> i <= j < |lines| && IsStreamInf(lines[j])
    ensures Increasing(TagIndices(lines, i))
    decreases |lines| - i
  {
    if i < |lines| {
      TagIndicesSpec(lines, i + 1);
      var t := TagIndices(lines, i + 1);
      forall k | 0 <= k < |t| ensures t[k] > i {
        assert t[k] in t;
      }
      if IsStreamInf(lines[i]) {
        var t' := [i] + t;
        forall a, b | 0 <= a < b < |t'| ensures t'[a] < t'[b] {
          assert t'[b] == t[b - 1];
          if a > 0 {
            assert t'[a] == t[a - 1];
          } else {
            assert t'[a] == i;
            assert t[b - 1] > i;
          }
        }
      }
    }
  }

  /** The entries `entry` builds for the tag lines at the indices `tags`, one each, in order. */
  function TagEntries(lines: seq<string>, tags: seq<nat>, entry: (string, string) -> Quality): (r: seq<Quality>)
    requires forall k :: 0 <= k < |tags| ==> tags[k] + 1 < |lines|
    ensures |r| == |tags|
  {
    seq(|tags|, k requires 0 <= k < |tags| => entry(lines[tags[k]], lines[tags[k] + 1]))
  }

  /** How `fetchQualityOptions` turns a tag line and the line after it into an entry. */
  function VariantBuilder(masterUrl: string): (string, string) -> Quality {
    (info, uriLine) => Variant(masterUrl, info, uriLine)
  }

  lemma BuilderApply(masterUrl: string, info: string, uriLine: string)
    ensures VariantBuilder(masterUrl)(info, uriLine) == Variant(masterUrl, info, uriLine)
  {
  }

  /**
   * The entries `entry` builds for the tag lines from index `i` on, in line
   * order; `None` when a tag sits on the last line, where reading the
   * missing URI line throws.
   */
  function ParseFrom(lines: seq<string>, i: nat, entry: (string, string) -> Quality): Option<seq<Quality>>
    decreases |lines| - i
  {
    if i >= |lines| then Some([])
    else if IsStreamInf(lines[i]) then
      if i + 1 == |lines| then None
      else
        match ParseFrom(lines, i + 1, entry)
        case None => None
        case Some(rest) => Some([entry(lines[i], lines[i + 1])] + rest)
    else ParseFrom(lines, i + 1, entry)
  }

  /** The scan fails exactly when the last line carries the tag. */
  lemma {:induction false} ParseFromFails(lines: seq<string>, i: nat, entry: (string, string) -> Quality)
    requires i <= |lines|
    ensures ParseFrom(lines, i, entry).None? <==> i < |lines| && IsStreamInf(lines[|lines| - 1])
    decreases |lines| - i
  {
    if i < |lines| {
      ParseFromFails(lines, i + 1, entry);
    }
  }

  /** Entry `k` of `TagEntries` is built from the `k`-th listed line and the line after it. */
  lemma EntriesApply(lines: seq<string>, tags: seq<nat>, entry: (string, string) -> Quality, k: nat)
    requires forall k :: 0 <= k < |tags| ==> tags[k] + 1 < |lines|
    requires k < |tags|
    ensures TagEntries(lines, tags, entry)[k] == entry(lines[tags[k]], lines[tags[k] + 1])
  {
  }

  lemma TagEntriesCons(lines: seq<string>, j: nat, tags: seq<nat>, entry: (string, string) -> Quality)
    requires j + 1 < |lines| && forall k :: 0 <= k < |tags| ==> tags[k] + 1 < |lines|
    ensures TagEntries(lines, [j] + tags, entry) == [entry(lines[j], lines[j + 1])] + TagEntries(lines, tags, entry)
  {
    var r := TagEntries(lines, [j] + tags, entry);
    var c := [entry(lines[j], lines[j + 1])] + TagEntries(lines, tags, entry);
    forall k | 0 <= k < |r| ensures r[k] == c[k] {
      if k > 0 {
        EntriesApply(lines, [j] + tags, entry, k);
        EntriesApply(lines, tags, entry, k - 1);
      }
    }
  }

  /**
   * Each tag line gives exactly one entry, built from it and the line after
   * it, and other lines give nothing.
   */
  lemma {:induction false} ParseFromEntries(lines: seq<string>, i: nat, entry: (string, string) -> Quality)
    requires i <= |lines|
    requires ParseFrom(lines, i, entry).Some?
    ensures var t := TagIndices(lines, i);
            && (forall k :: 0 <= k < |t| ==> t[k] + 1 < |lines|)
            && ParseFrom(lines, i, entry).value == TagEntries(lines, t, entry)
    decreases |lines| - i
  {
    if i < |lines| {
      ParseFromEntries(lines, i + 1, entry);
      var t := TagIndices(lines, i + 1);
      if IsStreamInf(lines[i]) {
        assert TagIndices(lines, i) == [i] + t;
        TagEntriesCons(lines, i, t, entry);
      }
    }
  }

  /** One step of the scan, as the loop in `FetchQualityOptions` takes it. */
  lemma ParseFromStep(lines: seq<string>, i: nat, entry: (string, string) -> Quality, done: seq<Quality>)
    requires i < |lines|
    ensures !IsStreamInf(lines[i]) ==>
              Prepend(done, ParseFrom(lines, i, entry)) == Prepend(done, ParseFrom(lines, i + 1, entry))
    ensures IsStreamInf(lines[i]) && i + 1 == |lines| ==> Prepend(done, ParseFrom(lines, i, entry)).None?
    ensures IsStreamInf(lines[i]) && i + 1 < |lines| ==>
              Prepend(done, ParseFrom(lines, i, entry))
              == Prepend(done + [entry(lines[i], lines[i + 1])], ParseFrom(lines, i + 1, entry))
  {
    if IsStreamInf(lines[i]) && i + 1 < |lines| && ParseFrom(lines, i + 1, entry).Some? {
      var v := entry(lines[i], lines[i + 1]);
      var rest := ParseFrom(lines, i + 1, entry).value;
      assert done + ([v] + rest) == (done + [v]) + rest;
    }
  }

  // ---------------------------------------------------------------------
  // Ordering: `qualities.sort((a, b) => b.bandwidth - a.bandwidth)`

  ghost predicate SortedByBandwidth(s: seq<Quality>) {
    forall i, j :: 0 <= i < j < |s| ==> s[i].bandwidth >= s[j].bandwidth
  }

  /** The entries of `s` whose bandwidth is `b`, in their order in `s`. */
  function WithBandwidth(s: seq<Quality>, b: nat): seq<Quality>
    decreases |s|
  {
    if s == [] then []
    else if s[0].bandwidth == b then [s[0]] + WithBandwidth(s[1..], b)
    else WithBandwidth(s[1..], b)
  }

  /** The entries of bandwidth `b` in a list headed by `q`. */
  lemma WithBandwidthCons(q: Quality, s: seq<Quality>, b: nat)
    ensures WithBandwidth([q] + s, b) == if q.bandwidth == b then [q] + WithBandwidth(s, b) else WithBandwidth(s, b)
  {
    assert ([q] + s)[1..] == s;
  }

  /**
   * `q` placed into the descending list `s` before the first entry whose
   * bandwidth is not greater than its own.
   */
  function Insert(q: Quality, s: seq<Quality>): (r: seq<Quality>)
    requires SortedByBandwidth(s)
    ensures SortedByBandwidth(r)
    ensures multiset(r) == multiset([q] + s)
    ensures forall b :: WithBandwidth(r, b) == WithBandwidth([q] + s, b)
    decreases |s|
  {
    if s == [] || q.bandwidth >= s[0].bandwidth then [q] + s
    else
      var t := Insert(q, s[1..]);
      InsertStep(q, s, t);
      [s[0]] + t
  }

  /** The step of `Insert` that keeps the head of `s` in front. */
  lemma InsertStep(q: Quality, s: seq<Quality>, t: seq<Quality>)
    requires s != [] && q.bandwidth < s[0].bandwidth && SortedByBandwidth(s)
    requires SortedByBandwidth(t)
    requires multiset(t) == multiset([q] + s[1..])
    requires forall b :: WithBandwidth(t, b) == WithBandwidth([q] + s[1..], b)
    ensures SortedByBandwidth([s[0]] + t)
    ensures multiset([s[0]] + t) == multiset([q] + s)
    ensures forall b :: WithBandwidth([s[0]] + t, b) == WithBandwidth([q] + s, b)
  {
    InsertStepSorted(q, s, t);
    assert s == [s[0]] + s[1..];
    assert multiset([s[0]] + t) == multiset([q] + s) by {
      calc {
        multiset([s[0]] + t);
        multiset([s[0]]) + multiset(t);
        multiset([s[0]]) + multiset([q]) + multiset(s[1..]);
        multiset([q]) + multiset([s[0]] + s[1..]);
      }
    }
    forall b ensures WithBandwidth([s[0]] + t, b) == WithBandwidth([q] + s, b) {
      WithBandwidthCons(s[0], t, b);
      WithBandwidthCons(q, s[1..], b);
      WithBandwidthCons(q, s, b);
      WithBandwidthCons(s[0], s[1..], b);
    }
  }

  lemma InsertStepSorted(q: Quality, s: seq<Quality>, t: seq<Quality>)
    requires s != [] && q.bandwidth < s[0].bandwidth && SortedByBandwidth(s)
    requires SortedByBandwidth(t)
    requires multiset(t) == multiset([q] + s[1..])
    ensures SortedByBandwidth([s[0]] + t)
  {
    forall k | 0 <= k < |t| ensures t[k].bandwidth <= s[0].bandwidth {
      assert t[k] in multiset([q] + s[1..]);
      assert t[k] in [q] + s[1..];
      if t[k] != q {
        var j :| 0 <= j < |s[1..]| && s[1..][j] == t[k];
        assert s[j + 1] == t[k];
      }
    }
    var r := [s[0]] + t;
    forall i, j | 0 <= i < j < |r| ensures r[i].bandwidth >= r[j].bandwidth {
      if i > 0 {
        assert r[i] == t[i - 1] && r[j] == t[j - 1];
      } else {
        assert r[j] == t[j - 1];
      }
    }
  }

  /**
   * The stable sort by bandwidth, highest first (`Array.prototype.sort` is
   * stable): the result is descending, a permutation of `s`, and the entries
   * of each bandwidth keep their order from `s`.
   */
  function SortByBandwidth(s: seq<Quality>): (r: seq<Quality>)
    ensures SortedByBandwidth(r)
    ensures multiset(r) == multiset(s)
    ensures forall b :: WithBandwidth(r, b) == WithBandwidth(s, b)
    decreases |s|
  {
    if s == [] then []
    else
      var t := SortByBandwidth(s[1..]);
      assert s == [s[0]] + s[1..];
      assert forall b :: WithBandwidth([s[0]] + t, b) == WithBandwidth(s, b) by {
        forall b ensures WithBandwidth([s[0]] + t, b) == WithBandwidth(s, b) {
          WithBandwidthCons(s[0], t, b);
          WithBandwidthCons(s[0], s[1..], b);
        }
      }
      Insert(s[0], t)
  }

  lemma {:induction false} WithBandwidthEmpty(s: seq<Quality>, b: nat)
    requires forall k :: 0 <= k < |s| ==> s[k].bandwidth != b
    ensures WithBandwidth(s, b) == []
    decreases |s|
  {
    if s != [] {
      WithBandwidthEmpty(s[1..], b);
    }
  }

  lemma {:induction false} WithBandwidthMember(s: seq<Quality>, k: nat)
    requires k < |s|
    ensures WithBandwidth(s, s[k].bandwidth) != []
    decreases |s|
  {
    if k > 0 && s[0].bandwidth != s[k].bandwidth {
      WithBandwidthMember(s[1..], k - 1);
    }
  }

  /**
   * A descending order that keeps each bandwidth's entries in their order is
   * unique: any two such arrangements of the same entries are equal, so
   * `SortByBandwidth` is the only result a stable descending sort can give.
   */
  lemma {:induction false} StableSortUnique(a: seq<Quality>, c: seq<Quality>)
    requires SortedByBandwidth(a) && SortedByBandwidth(c)
    requires forall b :: WithBandwidth(a, b) == WithBandwidth(c, b)
    ensures a == c
    decreases |a| + |c|
  {
    if a == [] || c == [] {
      if a != [] {
        WithBandwidthMember(a, 0);
      } else if c != [] {
        WithBandwidthMember(c, 0);
      }
    } else {
      if a[0].bandwidth > c[0].bandwidth {
        WithBandwidthMember(a, 0);
        WithBandwidthEmpty(c, a[0].bandwidth);
      } else if a[0].bandwidth < c[0].bandwidth {
        WithBandwidthMember(c, 0);
        WithBandwidthEmpty(a, c[0].bandwidth);
      }
      assert a[0] == c[0] by {
        assert WithBandwidth(a, a[0].bandwidth)[0] == a[0];
        assert WithBandwidth(c, c[0].bandwidth)[0] == c[0];
      }
      assert a == [a[0]] + a[1..] && c == [c[0]] + c[1..];
      forall b ensures WithBandwidth(a[1..], b) == WithBandwidth(c[1..], b) {
        assert WithBandwidth(a, b) == WithBandwidth(c, b);
        WithBandwidthCons(a[0], a[1..], b);
        WithBandwidthCons(c[0], c[1..], b);
        var A, C := WithBandwidth(a[1..], b), WithBandwidth(c[1..], b);
        if a[0].bandwidth == b {
          assert ([a[0]] + A)[1..] == A && ([c[0]] + C)[1..] == C;
        }
      }
      StableSortUnique(a[1..], c[1..]);
      assert a == [a[0]] + a[1..] && c == [c[0]] + c[1..];
    }
  }

  // ---------------------------------------------------------------------
  // fetchQualityOptions

  /**
   * The menu made from the outcome of the scan: the sorted entries, or the
   * single `source` entry when the scan failed or found nothing.
   */
  function Menu(source: Quality, parsed: Option<seq<Quality>>): (r: seq<Quality>)
    ensures |r| >= 1
    ensures SortedByBandwidth(r)
  {
    match parsed
    case None => [source]
    case Some(variants) =>
      var sorted := SortByBandwidth(variants);
      if sorted == [] then [source] else sorted
  }

  /**
   * The quality menu for the master playlist at `masterUrl`, given the
   * fetched text, or `None` when the fetch failed.
   */
  function QualityOptions(masterUrl: string, response: Option<string>): seq<Quality> {
    match response
    case None => [SourceQuality(masterUrl)]
    case Some(text) => Menu(SourceQuality(masterUrl), ParseFrom(Split(text, '\n'), 0, VariantBuilder(masterUrl)))
  }

  /** A sorted list holds exactly the entries it was sorted from. */
  lemma SortedMember(vs: seq<Quality>, q: Quality)
    requires q in SortByBandwidth(vs)
    ensures exists k :: 0 <= k < |vs| && vs[k] == q
  {
    assert q in multiset(SortByBandwidth(vs));
  }

  /** The menu of a successful scan that found entries is their sort, headed by one of them. */
  lemma MenuOfEntries(source: Quality, vs: seq<Quality>)
    requires vs != []
    ensures Menu(source, Some(vs)) == SortByBandwidth(vs)
    ensures exists k :: 0 <= k < |vs| && vs[k] == Menu(source, Some(vs))[0]
  {
    var sorted := SortByBandwidth(vs);
    assert |multiset(sorted)| == |multiset(vs)|;
    SortedMember(vs, sorted[0]);
  }

  /** After a successful scan, the menu is `[source]` exactly when no line carries the tag. */
  lemma MenuFallbackParsed(lines: seq<string>, entry: (string, string) -> Quality, source: Quality)
    requires ParseFrom(lines, 0, entry).Some?
    requires forall info, uriLine :: entry(info, uriLine) != source
    ensures Menu(source, ParseFrom(lines, 0, entry)) == [source] <==> TagIndices(lines, 0) == []
  {
    ParseFromEntries(lines, 0, entry);
    var vs := ParseFrom(lines, 0, entry).value;
    if vs != [] {
      MenuOfEntries(source, vs);
      var k :| 0 <= k < |vs| && vs[k] == Menu(source, Some(vs))[0];
      EntriesApply(lines, TagIndices(lines, 0), entry, k);
    }
  }

  /**
   * For any entry builder that never builds `source`: the menu is `[source]`
   * exactly when a tag sits on the last line or no line carries the tag.
   */
  lemma MenuFallback(lines: seq<string>, entry: (string, string) -> Quality, source: Quality)
    requires |lines| >= 1
    requires forall info, uriLine :: entry(info, uriLine) != source
    ensures Menu(source, ParseFrom(lines, 0, entry)) == [source] <==>
              IsStreamInf(lines[|lines| - 1]) || TagIndices(lines, 0) == []
  {
    ParseFromFails(lines, 0, entry);
    if ParseFrom(lines, 0, entry).Some? {
      MenuFallbackParsed(lines, entry, source);
    }
  }

  /** A parsed entry never looks like the fallback entry: its resolution is never `Auto`. */
  lemma VariantIsNotSource(masterUrl: string, info: string, uriLine: string)
    ensures Variant(masterUrl, info, uriLine).resolution != "Auto"
  {
    var r := Resolution(info);
    if r != "Unknown" {
      var i :| 0 < i < |r| - 1 && r[i] == 'x' && AllDigits(r[..i]) && AllDigits(r[i + 1..]);
      assert r[..i][0] == r[0];
      assert r[0] != 'A';
    }
  }

  /**
   * The menu is the single fallback entry exactly when the fetch failed,
   * the last line carries the tag, or no line carries it.
   */
  lemma QualityOptionsFallback(masterUrl: string, response: Option<string>)
    ensures QualityOptions(masterUrl, response) == [SourceQuality(masterUrl)] <==>
              || response.None?
              || var lines := Split(response.value, '\n');
                 IsStreamInf(lines[|lines| - 1]) || TagIndices(lines, 0) == []
  {
    if response.Some? {
      var entry := VariantBuilder(masterUrl);
      forall info, uriLine ensures entry(info, uriLine) != SourceQuality(masterUrl) {
        VariantIsNotSource(masterUrl, info, uriLine);
      }
      MenuFallback(Split(response.value, '\n'), entry, SourceQuality(masterUrl));
    }
  }

  /**
   * For any entry builder: when some line carries the tag and the last line
   * does not, the menu is the stable bandwidth sort of the list holding one
   * entry per tag line, in line order, built from that line and the next.
   */
  lemma MenuFromTags(lines: seq<string>, entry: (string, string) -> Quality, source: Quality)
    requires |lines| >= 1 && !IsStreamInf(lines[|lines| - 1]) && TagIndices(lines, 0) != []
    ensures var t := TagIndices(lines, 0);
            && (forall k :: 0 <= k < |t| ==> t[k] + 1 < |lines|)
            && Menu(source, ParseFrom(lines, 0, entry)) == SortByBandwidth(TagEntries(lines, t, entry))
  {
    ParseFromFails(lines, 0, entry);
    ParseFromEntries(lines, 0, entry);
    var vs := ParseFrom(lines, 0, entry).value;
    assert |SortByBandwidth(vs)| == |vs| by {
      assert |multiset(SortByBandwidth(vs))| == |multiset(vs)|;
    }
  }

  /**
   * When the playlist has tag lines and the last line is not one, the menu
   * is the stable bandwidth sort of the list that has one entry per tag
   * line, in line order, built from that line and the line after it (by
   * `VariantEntries`, entry `k` is the `Variant` of the `k`-th tag line).
   */
  lemma QualityOptionsFromTags(masterUrl: string, text: string)
    requires var lines := Split(text, '\n');
             !IsStreamInf(lines[|lines| - 1]) && TagIndices(lines, 0) != []
    ensures var lines := Split(text, '\n');
            var t := TagIndices(lines, 0);
            && (forall k :: 0 <= k < |t| ==> t[k] + 1 < |lines|)
            && QualityOptions(masterUrl, Some(text)) == SortByBandwidth(TagEntries(lines, t, VariantBuilder(masterUrl)))
  {
    MenuFromTags(Split(text, '\n'), VariantBuilder(masterUrl), SourceQuality(masterUrl));
  }

  /** The entries `VariantBuilder` makes are the variants of their tag lines. */
  lemma VariantEntries(masterUrl: string, lines: seq<string>, tags: seq<nat>)
    requires forall k :: 0 <= k < |tags| ==> tags[k] + 1 < |lines|
    ensures forall k :: 0 <= k < |tags| ==>
              TagEntries(lines, tags, VariantBuilder(masterUrl))[k] == Variant(masterUrl, lines[tags[k]], lines[tags[k] + 1])
  {
    forall k | 0 <= k < |tags|
      ensures TagEntries(lines, tags, VariantBuilder(masterUrl))[k] == Variant(masterUrl, lines[tags[k]], lines[tags[k] + 1])
    {
      EntriesApply(lines, tags, VariantBuilder(masterUrl), k);
      BuilderApply(masterUrl, lines[tags[k]], lines[tags[k] + 1]);
    }
  }

  /** For any entry builder whose entries are well formed, so is every menu entry but `source`. */
  lemma MenuWellFormed(lines: seq<string>, entry: (string, string) -> Quality, source: Quality)
    requires forall info, uriLine :: WellFormedVariant(entry(info, uriLine))
    ensures forall q :: q in Menu(source, ParseFrom(lines, 0, entry)) ==> q == source || WellFormedVariant(q)
  {
    if ParseFrom(lines, 0, entry).Some? {
      ParseFromEntries(lines, 0, entry);
      var vs := ParseFrom(lines, 0, entry).value;
      forall k | 0 <= k < |vs| ensures WellFormedVariant(vs[k]) {
        EntriesApply(lines, TagIndices(lines, 0), entry, k);
      }
      SortKeepsWellFormed(vs);
    }
  }

  /** Sorting keeps every entry, so it keeps well-formedness of all of them. */
  lemma SortKeepsWellFormed(vs: seq<Quality>)
    requires forall k :: 0 <= k < |vs| ==> WellFormedVariant(vs[k])
    ensures forall q :: q in SortByBandwidth(vs) ==> WellFormedVariant(q)
  {
    forall q | q in SortByBandwidth(vs) ensures WellFormedVariant(q) {
      SortedMember(vs, q);
    }
  }

  /** Every menu entry is the fallback entry or an entry labelled by its own resolution and bandwidth. */
  lemma QualityOptionsWellFormed(masterUrl: string, response: Option<string>)
    ensures forall q :: q in QualityOptions(masterUrl, response) ==>
              q == SourceQuality(masterUrl) || WellFormedVariant(q)
  {
    if response.Some? {
      var entry := VariantBuilder(masterUrl);
      forall info, uriLine ensures WellFormedVariant(entry(info, uriLine)) {
      }
      MenuWellFormed(Split(response.value, '\n'), entry, SourceQuality(masterUrl));
    }
  }

  /** Prefixes the entries gathered so far to the entries still to come. */
  function Prepend(done: seq<Quality>, rest: Option<seq<Quality>>): Option<seq<Quality>> {
    match rest
    case None => None
    case Some(r) => Some(done + r)
  }

  /**
   * `fetchQualityOptions(masterPlaylistUrl)`, with the fetched text passed in
   * (`None` for a failed fetch): the loop over the lines, the sort and the
   * fallback entry.
   */
  method FetchQualityOptions(masterUrl: string, response: Option<string>) returns (qualities: seq<Quality>)
    ensures qualities == QualityOptions(masterUrl, response)
  {
    if response.None? {
      return [SourceQuality(masterUrl)];
    }
    var lines := Split(response.value, '\n');
    ghost var entry := VariantBuilder(masterUrl);
    qualities := [];
    var i := 0;
    if ParseFrom(lines, 0, entry).Some? {
      assert [] + ParseFrom(lines, 0, entry).value == ParseFrom(lines, 0, entry).value;
    }
    while i < |lines|
      invariant 0 <= i <= |lines|
      invariant ParseFrom(lines, 0, entry) == Prepend(qualities, ParseFrom(lines, i, entry))
    {
      ParseFromStep(lines, i, entry, qualities);
      if IsStreamInf(lines[i]) {
        if i + 1 == |lines| {
          // `lines[i + 1]` is undefined and `url.trim()` throws
          return [SourceQuality(masterUrl)];
        }
        assert entry(lines[i], lines[i + 1]) == Variant(masterUrl, lines[i], lines[i + 1]);
        qualities := qualities + [Variant(masterUrl, lines[i], lines[i + 1])];
      }
      i := i + 1;
    }
    assert qualities + [] == qualities;
    assert ParseFrom(lines, 0, entry) == Some(qualities);
    qualities := SortByBandwidth(qualities);
    if |qualities| == 0 {
      qualities := qualities + [SourceQuality(masterUrl)];
    }
  }
}
