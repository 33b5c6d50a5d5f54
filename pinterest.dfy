/**
  The Pinterest scraper's pure helpers (thumbnail to full-size URL, the
  403 fallback URL, the file extension for a content type, the search URL) and
  the selection loop of `scrape_board`: walk the images the page shows, skip
  missing and already seen sources, download each new one at full size, and
  stop at `max_images`. The browser and the HTTP client are inputs: the page is
  the sequence of image batches it shows round after round, and `fetch` is
  what a GET of a URL returns.
*/
module Pinterest {
  import opened Wrappers
  import Text

  // ---------------------------------------------------------------------------
  // URL helpers
  // ---------------------------------------------------------------------------

  /** The thumbnail path segments, in the order `_get_high_res_url` tries them. */
  const ThumbSizes: seq<string> := ["/236x/", "/474x/", "/736x/"]

  /** The full-size path segment. */
  const Originals: string := "/originals/"

  /** The segment the 403 fallback uses instead of `/originals/`. */
  const Fallback: string := "/736x/"

  /** The index of the first token that occurs in `url`, if any. */
  function FirstPresent(url: string, tokens: seq<string>): (r: Option<nat>)
    ensures r.Some? ==> r.value < |tokens| && Text.Contains(url, tokens[r.value])
    ensures r.Some? ==> forall j :: 0 <= j < r.value ==> !Text.Contains(url, tokens[j])
    ensures r.None? ==> forall j :: 0 <= j < |tokens| ==> !Text.Contains(url, tokens[j])
    decreases |tokens|
  {
    if tokens == [] then None
    else if Text.Contains(url, tokens[0]) then Some(0)
    else
      match FirstPresent(url, tokens[1..])
      case None => None
      case Some(k) => Some(k + 1)
  }

  /**
    `_get_high_res_url`: the first thumbnail segment present (236x, then 474x,
    then 736x) has all of its occurrences replaced by `/originals/`, so the URL
    grows by 5 characters per occurrence. The URL is left as it is exactly when
    it holds none of the segments, and otherwise the result points at the
    full-size image.
  */
  function HighResUrl(url: string): (r: string)
    ensures r == url <==> forall j :: 0 <= j < |ThumbSizes| ==> !Text.Contains(url, ThumbSizes[j])
    ensures (exists j :: 0 <= j < |ThumbSizes| && Text.Contains(url, ThumbSizes[j])) ==>
              Text.Contains(r, Originals)
    ensures FirstPresent(url, ThumbSizes).Some? ==>
              |r| == |url| + 5 * Text.Count(url, ThumbSizes[FirstPresent(url, ThumbSizes).value])
  {
    match FirstPresent(url, ThumbSizes)
    case None => url
    case Some(k) =>
      Text.ReplaceAllLength(url, ThumbSizes[k], Originals);
      Text.ContainsIffCount(url, ThumbSizes[k]);
      Text.ReplaceAllShowsRep(url, ThumbSizes[k], Originals);
      Text.ReplaceAll(url, ThumbSizes[k], Originals)
  }

  /**
    `_get_fallback_url`: every `/originals/` becomes `/736x/`, so a URL that
    holds `/originals/` comes back pointing at the 736x size and strictly
    shorter (each 11-character occurrence becomes 6 characters), which makes
    the 403 retry end; any other URL is kept.
  */
  function FallbackUrl(url: string): (r: string)
    ensures !Text.Contains(url, Originals) ==> r == url
    ensures Text.Contains(url, Originals) ==>
              && Text.Contains(r, Fallback)
              && |r| == |url| - 5 * Text.Count(url, Originals)
              && |r| < |url|
  {
    if Text.Contains(url, Originals) then
      Text.ReplaceAllLength(url, Originals, Fallback);
      Text.ContainsIffCount(url, Originals);
      Text.ReplaceAllShowsRep(url, Originals, Fallback);
      Text.ReplaceAll(url, Originals, Fallback)
    else url
  }

  /**
    Only the first present segment is rewritten: with a `/236x/` present, a
    `/474x/` elsewhere in the URL survives.
  */
  lemma OnlyFirstSegmentReplaced()
    ensures HighResUrl("/236x//474x/") == "/originals//474x/"
  {
    var u := "/236x//474x/";
    assert u[..6] == ThumbSizes[0];
    assert Text.IsPrefix(ThumbSizes[0], u);
    assert u[6..] == "/474x/";
    KeptTail();
  }

  /** No `/236x/` in the tail of the URL above, so its replacement leaves the tail as it is. */
  lemma KeptTail()
    ensures Text.ReplaceAll("/474x/", "/236x/", Originals) == "/474x/"
  {
    var t := "/474x/";
    assert t[..6][1] != '2';
    assert |t[1..]| < 6;
  }

  /**
    Only the first present segment is rewritten, in general: every other
    thumbnail segment the URL holds is still in the result, because a segment
    `/name/` and `/originals/` can share at most a boundary slash.
  */
  lemma OtherSegmentsSurvive(url: string)
    ensures forall j :: 0 <= j < |ThumbSizes| && Text.Contains(url, ThumbSizes[j]) &&
                        FirstPresent(url, ThumbSizes) != Some(j) ==>
              Text.Contains(HighResUrl(url), ThumbSizes[j])
  {
    forall j | 0 <= j < |ThumbSizes| && Text.Contains(url, ThumbSizes[j]) && FirstPresent(url, ThumbSizes) != Some(j)
      ensures Text.Contains(HighResUrl(url), ThumbSizes[j])
    {
      var k := FirstPresent(url, ThumbSizes).value;
      assert Text.IsSegment(ThumbSizes[0]) && Text.IsSegment(ThumbSizes[1]) && Text.IsSegment(ThumbSizes[2]);
      Text.ContainsFindsOccurrence(url, ThumbSizes[j]);
      var p :| Text.OccursAt(url, ThumbSizes[j], p);
      Text.SegmentSurvivesReplace(url, ThumbSizes[j], ThumbSizes[k], Originals, p);
    }
  }

  /** `_get_extension`: the mapping's value for the content type, `.jpg` by default. */
  function Extension(contentType: string): (ext: string)
    ensures ext in {".jpg", ".png", ".gif", ".webp"}
    ensures contentType !in {"image/png", "image/gif", "image/webp"} ==> ext == ".jpg"
  {
    if contentType == "image/jpeg" then ".jpg"
    else if contentType == "image/png" then ".png"
    else if contentType == "image/gif" then ".gif"
    else if contentType == "image/webp" then ".webp"
    else ".jpg"
  }

  /** Each of the four image types gets its own extension. */
  lemma ExtensionOfImageTypes()
    ensures Extension("image/jpeg") == ".jpg" && Extension("image/png") == ".png"
    ensures Extension("image/gif") == ".gif" && Extension("image/webp") == ".webp"
  {
    assert "image/png" != "image/jpeg";
    assert "image/gif" != "image/jpeg" && "image/gif" != "image/png";
    assert "image/webp" != "image/jpeg" && "image/webp" != "image/png" && "image/webp" != "image/gif";
  }

  /** The fixed start of every search URL. */
  const SearchPrefix: string := "https://www.pinterest.com/search/pins/?q="

  /**
    The board URL `scrape_search` builds: spaces of the query become `%20`, so
    the query part is 2 characters longer per space. The query can be read back
    by turning `%20` into spaces, as long as it holds no `%` of its own (which
    the URL does not escape).
  */
  function SearchUrl(query: string): (u: string)
    ensures Text.IsPrefix(SearchPrefix, u)
    ensures ' ' !in u[|SearchPrefix|..]
    ensures |u| == |SearchPrefix| + |query| + 2 * Text.Count(query, " ")
    ensures '%' !in query ==> Text.ReplaceAll(u[|SearchPrefix|..], "%20", " ") == query
  {
    Text.ReplaceAllRemovesChar(query, ' ', "%20");
    Text.ReplaceAllLength(query, " ", "%20");
    assert '%' !in query ==> Text.ReplaceAll(Text.ReplaceAll(query, " ", "%20"), "%20", " ") == query by {
      if '%' !in query {
        Text.EscapeRoundTrip(query, ' ', "%20");
      }
    }
    var u := SearchPrefix + Text.ReplaceAll(query, " ", "%20");
    assert u[..|SearchPrefix|] == SearchPrefix;
    assert u[|SearchPrefix|..] == Text.ReplaceAll(query, " ", "%20");
    u
  }

  // ---------------------------------------------------------------------------
  // Downloading one image
  // ---------------------------------------------------------------------------

  /** The default `min_size`: bodies shorter than this are taken for placeholders. */
  const MinSize: int := 10_000

  /**
    What a GET returns: the status after redirects, the body length and the
    `content-type` header (`""` when absent), or a transport failure.
  */
  datatype Response = Response(status: int, size: nat, contentType: string) | Unreachable

  /** A written file: the URL it was fetched from (its name is a hash of it) and its extension. */
  datatype SavedImage = SavedImage(url: string, ext: string)

  /** `raise_for_status` passes exactly the 2xx statuses. */
  predicate IsSuccess(status: int)
  {
    200 <= status < 300
  }

  /** A response the download keeps when its size bound is `minSize`. */
  predicate Kept(resp: Response, minSize: int)
  {
    resp.Response? && IsSuccess(resp.status) && resp.size >= minSize
  }

  /**
    `_download_image(url, min_size=minSize)`. A non-2xx status raises; on 403
    for a URL with `/originals/` the fallback URL is tried with the default
    minimum size, any other error gives no file. A 2xx body shorter than
    `minSize` gives no file; otherwise the file is written with the extension
    of the content type.
  */
  function DownloadImage(url: string, fetch: string -> Response, minSize: int): (r: Option<SavedImage>)
    ensures r.Some? && r.value.url == url ==>
              Kept(fetch(url), minSize) && r.value.ext == Extension(fetch(url).contentType)
    ensures r.Some? && r.value.url != url ==>
              && fetch(url).Response? && fetch(url).status == 403 && Text.Contains(url, Originals)
              && Kept(fetch(r.value.url), MinSize)
    ensures r.Some? ==> r.value.ext in {".jpg", ".png", ".gif", ".webp"}
    ensures Kept(fetch(url), minSize) ==> r == Some(SavedImage(url, Extension(fetch(url).contentType)))
    ensures fetch(url).Response? && IsSuccess(fetch(url).status) && fetch(url).size < minSize ==> r.None?
    ensures fetch(url).Unreachable? ==> r.None?
    ensures (fetch(url).Response? && !IsSuccess(fetch(url).status) &&
             (fetch(url).status != 403 || !Text.Contains(url, Originals))) ==> r.None?
    decreases |url|
  {
    match fetch(url)
    case Unreachable => None
    case Response(status, size, contentType) =>
      if !IsSuccess(status) then
        if status == 403 && Text.Contains(url, Originals) then
          var r := DownloadImage(FallbackUrl(url), fetch, MinSize);
          assert r.Some? ==> Kept(fetch(r.value.url), MinSize);
          r
        else None
      else if size < minSize then None
      else Some(SavedImage(url, Extension(contentType)))
  }

  /**
    A 403 on a URL holding `/originals/` gives exactly what downloading the
    fallback URL gives, with the default minimum size whatever `minSize` was.
  */
  lemma ForbiddenOriginalRetries(url: string, fetch: string -> Response, minSize: int)
    requires fetch(url).Response? && fetch(url).status == 403 && Text.Contains(url, Originals)
    ensures DownloadImage(url, fetch, minSize) == DownloadImage(FallbackUrl(url), fetch, MinSize)
    ensures |FallbackUrl(url)| < |url| && Text.Contains(FallbackUrl(url), Fallback)
  {
  }

  // ---------------------------------------------------------------------------
  // The selection loop of scrape_board
  // ---------------------------------------------------------------------------

  /** The loop's two accumulators: `downloaded` and `seen_urls`. */
  datatype ScrapeState = ScrapeState(downloaded: seq<SavedImage>, seen: set<string>)

  /** The page's `img` batch in a round; after the last recorded round it is empty. */
  function Batch(pages: seq<seq<Option<string>>>, round: nat): seq<Option<string>>
  {
    if round < |pages| then pages[round] else []
  }

  /**
    One `img` of a batch, given its `src` attribute: nothing happens once
    `max_images` files are downloaded, or for a missing, empty or already
    seen source; otherwise the source is marked seen and then its full-size
    URL is downloaded, the file (if any) joining `downloaded`.
  */
  function VisitImage(st: ScrapeState, src: Option<string>, fetch: string -> Response, maxImages: int): ScrapeState
  {
    if |st.downloaded| >= maxImages then st
    else if src.None? || src.value == "" || src.value in st.seen then st
    else
      var seen := st.seen + {src.value};
      match DownloadImage(HighResUrl(src.value), fetch, MinSize)
      case None => ScrapeState(st.downloaded, seen)
      case Some(p) => ScrapeState(st.downloaded + [p], seen)
  }

  /** The inner `for img in images` loop: the images visited in order. */
  function VisitBatch(st: ScrapeState, batch: seq<Option<string>>, fetch: string -> Response, maxImages: int): ScrapeState
    decreases |batch|
  {
    if batch == [] then st
    else VisitImage(VisitBatch(st, batch[..|batch| - 1], fetch, maxImages), batch[|batch| - 1], fetch, maxImages)
  }

  /**
    The outer `while len(downloaded) < max_images` loop from round `round`
    on: visit the round's batch, and stop after a round whose batch was empty.
  */
  function Rounds(st: ScrapeState, pages: seq<seq<Option<string>>>, round: nat, fetch: string -> Response, maxImages: int)
    : ScrapeState
    decreases |pages| - round
  {
    if |st.downloaded| >= maxImages then st
    else if round >= |pages| || pages[round] == [] then st
    else Rounds(VisitBatch(st, pages[round], fetch, maxImages), pages, round + 1, fetch, maxImages)
  }

  /** The result of `scrape_board` on a page showing `pages`. */
  function ScrapeResult(pages: seq<seq<Option<string>>>, fetch: string -> Response, maxImages: int): seq<SavedImage>
  {
    Rounds(ScrapeState([], {}), pages, 0, fetch, maxImages).downloaded
  }

  /** Once the limit is reached, the rest of a batch changes nothing (the `break`). */
  lemma {:induction false} CappedBatch(
    st: ScrapeState, batch: seq<Option<string>>, i: nat, fetch: string -> Response, maxImages: int)
    requires i <= |batch|
    requires |VisitBatch(st, batch[..i], fetch, maxImages).downloaded| >= maxImages
    ensures VisitBatch(st, batch, fetch, maxImages) == VisitBatch(st, batch[..i], fetch, maxImages)
    decreases |batch|
  {
    if i < |batch| {
      var init := batch[..|batch| - 1];
      assert init[..i] == batch[..i];
      CappedBatch(st, init, i, fetch, maxImages);
    } else {
      assert batch[..i] == batch;
    }
  }

  /**
    `scrape_board`'s selection loop. `pages[r]` is the list of `src`
    attributes (`None` when absent) the page shows in round `r`.
  */
  method ScrapeBoard(pages: seq<seq<Option<string>>>, fetch: string -> Response, maxImages: int)
    returns (downloaded: seq<SavedImage>)
    ensures downloaded == ScrapeResult(pages, fetch, maxImages)
  {
    downloaded := [];
    var seen: set<string> := {};
    var round: nat := 0;
    while |downloaded| < maxImages
      invariant round <= |pages|
      invariant Rounds(ScrapeState(downloaded, seen), pages, round, fetch, maxImages) ==
                Rounds(ScrapeState([], {}), pages, 0, fetch, maxImages)
      decreases |pages| - round
    {
      var images := Batch(pages, round);
      downloaded, seen := VisitImages(images, downloaded, seen, fetch, maxImages);
      round := round + 1;
      if |images| == 0 {
        break;
      }
    }
  }

  /** The body of one round: `for img in images`, with the `break` at the limit. */
  method VisitImages(
    images: seq<Option<string>>, downloaded0: seq<SavedImage>, seen0: set<string>,
    fetch: string -> Response, maxImages: int)
    returns (downloaded: seq<SavedImage>, seen: set<string>)
    ensures ScrapeState(downloaded, seen) == VisitBatch(ScrapeState(downloaded0, seen0), images, fetch, maxImages)
  {
    downloaded, seen := downloaded0, seen0;
    ghost var start := ScrapeState(downloaded0, seen0);
    var i := 0;
    while i < |images|
      invariant 0 <= i <= |images|
      invariant ScrapeState(downloaded, seen) == VisitBatch(start, images[..i], fetch, maxImages)
    {
      assert images[..i + 1][..i] == images[..i];
      if |downloaded| >= maxImages {
        break;
      }
      var src := images[i];
      if src.None? || src.value == "" || src.value in seen {
        i := i + 1;
        continue;
      }
      var highRes := HighResUrl(src.value);
      seen := seen + {src.value};
      var path := DownloadImage(highRes, fetch, MinSize);
      if path.Some? {
        downloaded := downloaded + [path.value];
      }
      i := i + 1;
    }
    if i < |images| {
      CappedBatch(start, images, i, fetch, maxImages);
    } else {
      assert images[..i] == images;
    }
  }

  // ---------------------------------------------------------------------------
  // Properties of the selection loop
  // ---------------------------------------------------------------------------

  /** Every non-empty `src` the page shows in some round. */
  function Candidates(pages: seq<seq<Option<string>>>): (c: set<string>)
    ensures forall r, i :: 0 <= r < |pages| && 0 <= i < |pages[r]| && pages[r][i].Some? && pages[r][i].value != "" ==>
              pages[r][i].value in c
  {
    set r, i | 0 <= r < |pages| && 0 <= i < |pages[r]| && pages[r][i].Some? && pages[r][i].value != "" :: pages[r][i].value
  }

  /** The largest number of files the loop may keep. */
  function Cap(maxImages: int): nat
  {
    if maxImages > 0 then maxImages else 0
  }

  /**
    What holds of the accumulators throughout: at most `max_images` files,
    no more files than sources tried, only sources the page showed, and every
    file fetched with a 2xx status and at least `MinSize` bytes.
  */
  ghost predicate Inv(st: ScrapeState, c: set<string>, fetch: string -> Response, maxImages: int)
  {
    && |st.downloaded| <= Cap(maxImages)
    && |st.downloaded| <= |st.seen|
    && st.seen <= c
    && forall p :: p in st.downloaded ==> Kept(fetch(p.url), MinSize)
  }

  /** A downloaded file was fetched successfully from the URL it is named after. */
  lemma DownloadKept(url: string, fetch: string -> Response)
    requires DownloadImage(url, fetch, MinSize).Some?
    ensures Kept(fetch(DownloadImage(url, fetch, MinSize).value.url), MinSize)
  {
  }

  lemma VisitImageKeepsInv(
    st: ScrapeState, src: Option<string>, c: set<string>, fetch: string -> Response, maxImages: int)
    requires Inv(st, c, fetch, maxImages)
    requires src.Some? && src.value != "" ==> src.value in c
    ensures Inv(VisitImage(st, src, fetch, maxImages), c, fetch, maxImages)
  {
    if |st.downloaded| < maxImages && src.Some? && src.value != "" && src.value !in st.seen {
      var u := HighResUrl(src.value);
      assert |st.seen + {src.value}| == |st.seen| + 1;
      if DownloadImage(u, fetch, MinSize).Some? {
        DownloadKept(u, fetch);
      }
    }
  }

  lemma {:induction false} VisitBatchKeepsInv(
    st: ScrapeState, batch: seq<Option<string>>, c: set<string>, fetch: string -> Response, maxImages: int)
    requires Inv(st, c, fetch, maxImages)
    requires forall i :: 0 <= i < |batch| && batch[i].Some? && batch[i].value != "" ==> batch[i].value in c
    ensures Inv(VisitBatch(st, batch, fetch, maxImages), c, fetch, maxImages)
    decreases |batch|
  {
    if batch != [] {
      var init := batch[..|batch| - 1];
      assert forall i :: 0 <= i < |init| ==> init[i] == batch[i];
      VisitBatchKeepsInv(st, init, c, fetch, maxImages);
      VisitImageKeepsInv(VisitBatch(st, init, fetch, maxImages), batch[|batch| - 1], c, fetch, maxImages);
    }
  }

  lemma {:induction false} RoundsKeepInv(
    st: ScrapeState, pages: seq<seq<Option<string>>>, round: nat, fetch: string -> Response, maxImages: int)
    requires Inv(st, Candidates(pages), fetch, maxImages)
    ensures Inv(Rounds(st, pages, round, fetch, maxImages), Candidates(pages), fetch, maxImages)
    decreases |pages| - round
  {
    if |st.downloaded| < maxImages && round < |pages| && pages[round] != [] {
      VisitBatchKeepsInv(st, pages[round], Candidates(pages), fetch, maxImages);
      RoundsKeepInv(VisitBatch(st, pages[round], fetch, maxImages), pages, round + 1, fetch, maxImages);
    }
  }

  /**
    `scrape_board` keeps at most `max_images` files (none when it is not
    positive), each one fetched with a 2xx status and at least `MinSize`
    bytes, and it never keeps more files than distinct sources the page showed.
  */
  lemma ScrapeBounds(pages: seq<seq<Option<string>>>, fetch: string -> Response, maxImages: int)
    ensures |ScrapeResult(pages, fetch, maxImages)| <= Cap(maxImages)
    ensures |ScrapeResult(pages, fetch, maxImages)| <= |Candidates(pages)|
    ensures forall p :: p in ScrapeResult(pages, fetch, maxImages) ==> Kept(fetch(p.url), MinSize)
  {
    var init := ScrapeState([], {});
    RoundsKeepInv(init, pages, 0, fetch, maxImages);
    var st := Rounds(init, pages, 0, fetch, maxImages);
    assert |st.seen| <= |Candidates(pages)| by {
      SubsetCard(st.seen, Candidates(pages));
    }
  }

  lemma {:induction false} SubsetCard(a: set<string>, b: set<string>)
    requires a <= b
    ensures |a| <= |b|
    decreases |a|
  {
    if a != {} {
      var x :| x in a;
      SubsetCard(a - {x}, b - {x});
    }
  }

  /**
    A source is marked seen before its download, so a failed download still
    keeps it from being tried again; a missing, empty or seen source is skipped.
  */
  lemma VisitImageSeen(st: ScrapeState, src: Option<string>, fetch: string -> Response, maxImages: int)
    ensures (src.None? || src.value == "" || src.value in st.seen || |st.downloaded| >= maxImages) ==>
              VisitImage(st, src, fetch, maxImages) == st
    ensures src.Some? && src.value != "" && src.value !in st.seen && |st.downloaded| < maxImages ==>
              && VisitImage(st, src, fetch, maxImages).seen == st.seen + {src.value}
              && (DownloadImage(HighResUrl(src.value), fetch, MinSize).None? ==>
                    VisitImage(st, src, fetch, maxImages).downloaded == st.downloaded)
  {
  }

  /**
    Sources are deduplicated, not full-size URLs: two thumbnails of one pin
    in different sizes are both downloaded, to the same full-size URL.
  */
  lemma ThumbnailSizesShareOriginal()
    ensures "/236x/p" != "/474x/p"
    ensures HighResUrl("/236x/p") == HighResUrl("/474x/p") == "/originals/p"
  {
    HighRes236();
    HighRes474();
    assert "/236x/p"[1] != "/474x/p"[1];
  }

  lemma HighRes236()
    ensures HighResUrl("/236x/p") == "/originals/p"
  {
    var a := "/236x/p";
    assert a[..6] == ThumbSizes[0];
    assert Text.IsPrefix(ThumbSizes[0], a);
    assert a[6..] == "p";
  }

  lemma HighRes474()
    ensures HighResUrl("/474x/p") == "/originals/p"
  {
    var b := "/474x/p";
    assert b[..6] == ThumbSizes[1];
    assert Text.IsPrefix(ThumbSizes[1], b);
    assert b[6..] == "p";
    No236In474();
  }

  lemma No236In474()
    ensures !Text.Contains("/474x/p", "/236x/")
  {
    var b := "/474x/p";
    assert b[..6][1] != '2';
    assert b[1..][..6][0] != '/';
    assert |b[2..]| < 6;
  }
}
