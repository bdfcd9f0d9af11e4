/**
 * `render_list` (src/main.rs:45-86): the gallery page for one request. The head,
 * a heading with the instance name, the navigation fragment, one video block and
 * one link block per file of the page, then the foot.
 */
module Gallery {
  import opened Word16
  import opened Pager
  import opened Navigation
  import opened Timestamp
  import opened Strings

  /** The server's configuration, read once at startup and never changed. */
  datatype Config = Config(
    port: U16,
    fsPath: string,
    uriPath: string,
    instanceName: string,
    videoCount: U16,
    sortDescending: bool,
    parseTimestamps: bool,
    disableStaticCache: bool)

  const HEAD_OPEN: string :=
    "<!DOCTYPE html>\n<html>\n  <head>\n    <title>Video Server</title>\n    <meta charset=\"utf-8\">\n"
    + "    <link rel=\"stylesheet\" type=\"text/css\" href=\""
  const HEAD_CLOSE: string := "/static/style.css\">\n  </head>\n  <body>\n"
  const HTML_FOOT: string := "  </body>\n</html>\n"
  const MAIN_OPEN: string := "    <div class=\"main-div\">\n"
  const MAIN_CLOSE: string := "    </div>\n"
  const HEADING_OPEN: string := "      <div><h1>"
  const HEADING_CLOSE: string := "</div>\n"

  /** The document head, linking the stylesheet under the configured prefix. */
  function HtmlHead(uriPath: string): string {
    HEAD_OPEN + uriPath + HEAD_CLOSE
  }

  function Heading(instanceName: string): string {
    HEADING_OPEN + instanceName + HEADING_CLOSE
  }

  const VIDEO_DIR: string := "/video/"
  const VIDEO_OPEN: string := "      <div class=\"video-div\"><video class=\"video-el\" controls><source src=\""
  const VIDEO_CLOSE: string := "\"/></video></div>\n"
  const LINK_OPEN: string := "      <div class=\"link-div\"><a href=\""
  const LINK_MID: string := "\">"
  const LINK_CLOSE: string := "</a></div>\n"

  /** Where a file is served: `{uri_path}/video/{file}`. */
  function VideoUrl(uriPath: string, file: string): string {
    uriPath + VIDEO_DIR + file
  }

  function VideoDiv(uriPath: string, file: string): string {
    VIDEO_OPEN + VideoUrl(uriPath, file) + VIDEO_CLOSE
  }

  function LinkDiv(uriPath: string, file: string, text: string): string {
    LINK_OPEN + VideoUrl(uriPath, file) + LINK_MID + text + LINK_CLOSE
  }

  /** The link text of a file: its decoded timestamp when enabled, else its name. */
  function Label<T>(parseTimestamps: bool, file: string, codec: DateCodec<T>): string {
    if parseTimestamps then ParseTs(file, codec) else file
  }

  /** The two blocks written for one file: its video, then its link. */
  function ItemBlock<T>(uriPath: string, parseTimestamps: bool, file: string, codec: DateCodec<T>): string {
    VideoDiv(uriPath, file) + LinkDiv(uriPath, file, Label(parseTimestamps, file, codec))
  }

  /** The blocks of the files of a page, in order. */
  function ItemBlocks<T>(uriPath: string, parseTimestamps: bool, files: seq<string>, codec: DateCodec<T>): string
    decreases |files|
  {
    if files == [] then ""
    else
      ItemBlocks(uriPath, parseTimestamps, files[..|files| - 1], codec)
      + ItemBlock(uriPath, parseTimestamps, files[|files| - 1], codec)
  }

  /** The blocks of two runs of files are the blocks of the first, then those of the second. */
  lemma {:induction false} ItemBlocksAppend<T>(
    uriPath: string, parseTimestamps: bool, a: seq<string>, b: seq<string>, codec: DateCodec<T>)
    ensures ItemBlocks(uriPath, parseTimestamps, a + b, codec)
      == ItemBlocks(uriPath, parseTimestamps, a, codec) + ItemBlocks(uriPath, parseTimestamps, b, codec)
    decreases |b|
  {
    if b == [] {
      assert a + b == a;
      AppendEmpty(ItemBlocks(uriPath, parseTimestamps, a, codec));
    } else {
      var init := b[..|b| - 1];
      ItemBlocksAppend(uriPath, parseTimestamps, a, init, codec);
      assert (a + b)[..|a + b| - 1] == a + init;
      assert (a + b)[|a + b| - 1] == b[|b| - 1];
      AppendAssoc(
        ItemBlocks(uriPath, parseTimestamps, a, codec),
        ItemBlocks(uriPath, parseTimestamps, init, codec),
        ItemBlock(uriPath, parseTimestamps, b[|b| - 1], codec));
    }
  }

  /**
   * Every file of a page gets its own pair of blocks, in list order: those of the
   * files before it, then its video and link blocks, then those of the files after it.
   */
  lemma ItemBlocksAt<T>(uriPath: string, parseTimestamps: bool, files: seq<string>, i: nat, codec: DateCodec<T>)
    requires i < |files|
    ensures ItemBlocks(uriPath, parseTimestamps, files, codec)
      == ItemBlocks(uriPath, parseTimestamps, files[..i], codec)
      + (VideoDiv(uriPath, files[i]) + LinkDiv(uriPath, files[i], Label(parseTimestamps, files[i], codec)))
      + ItemBlocks(uriPath, parseTimestamps, files[i + 1..], codec)
  {
    assert files == files[..i + 1] + files[i + 1..];
    ItemBlocksAppend(uriPath, parseTimestamps, files[..i + 1], files[i + 1..], codec);
    ItemBlocksStep(uriPath, parseTimestamps, files, i, codec);
  }

  /** A loop that stops at the end of `rest` or after `n` elements has gone over `Take(rest, n)`. */
  lemma TakeStopsAt(rest: seq<string>, k: nat, n: nat)
    requires k <= |rest| && k <= n && (k == |rest| || k == n)
    ensures rest[..k] == Take(rest, n)
  {
  }

  /** Appending the block of the next file to a buffer that ends with the first k blocks. */
  lemma BlocksGrow<T>(
    body: string, out: string, uriPath: string, parseTimestamps: bool, rest: seq<string>, k: nat, codec: DateCodec<T>)
    requires k < |rest| && out == body + ItemBlocks(uriPath, parseTimestamps, rest[..k], codec)
    ensures out + ItemBlock(uriPath, parseTimestamps, rest[k], codec)
      == body + ItemBlocks(uriPath, parseTimestamps, rest[..k + 1], codec)
  {
    ItemBlocksStep(uriPath, parseTimestamps, rest, k, codec);
    AppendAssoc(body, ItemBlocks(uriPath, parseTimestamps, rest[..k], codec), ItemBlock(uriPath, parseTimestamps, rest[k], codec));
  }

  /** The body buffer: the main division holding the heading, the navigation and the blocks. */
  function MainBody(instanceName: string, navigation: string, blocks: string): string {
    MAIN_OPEN + Heading(instanceName) + navigation + blocks + MAIN_CLOSE
  }

  /** The blocks of the first k + 1 files extend those of the first k files by one block. */
  lemma ItemBlocksStep<T>(uriPath: string, parseTimestamps: bool, files: seq<string>, k: nat, codec: DateCodec<T>)
    requires k < |files|
    ensures ItemBlocks(uriPath, parseTimestamps, files[..k + 1], codec)
      == ItemBlocks(uriPath, parseTimestamps, files[..k], codec) + ItemBlock(uriPath, parseTimestamps, files[k], codec)
  {
    assert files[..k + 1][..k] == files[..k];
  }

  /** The whole document around a navigation fragment and the item blocks. */
  function Document(uriPath: string, instanceName: string, navigation: string, blocks: string): string {
    HtmlHead(uriPath) + MainBody(instanceName, navigation, blocks) + HTML_FOOT
  }

  /**
   * The page `render_list` returns: the navigation is drawn for the page as
   * requested, the files are those of the page after page 0 is taken as page 1.
   */
  function PageHtml<T>(files: seq<string>, config: Config, page: U16, codec: DateCodec<T>): string
    requires config.videoCount > 0
  {
    var maxPages := MaxPages(|files|, config.videoCount);
    Document(
      config.uriPath,
      config.instanceName,
      NavigationHtml(config.uriPath, page, maxPages),
      ItemBlocks(config.uriPath, config.parseTimestamps, PageItems(files, EffectivePage(page), config.videoCount), codec))
  }

  /** One pass of the `for` loop of `render_list`: the video block, then the link block of a file. */
  method WriteBlock<T>(body: string, uriPath: string, parseTimestamps: bool, file: string, codec: DateCodec<T>)
    returns (out: string)
    ensures out == body + ItemBlock(uriPath, parseTimestamps, file, codec)
  {
    out := body + VideoDiv(uriPath, file);
    if parseTimestamps {
      var date := ParseTs(file, codec);
      out := out + LinkDiv(uriPath, file, date);
    } else {
      out := out + LinkDiv(uriPath, file, file);
    }
    AppendAssoc(body, VideoDiv(uriPath, file), LinkDiv(uriPath, file, Label(parseTimestamps, file, codec)));
  }

  /**
   * The `for` loop of `render_list`: append the blocks of the files that
   * `take(n)` yields from `rest`, one file at a time.
   */
  method WriteBlocks<T>(body: string, uriPath: string, parseTimestamps: bool, rest: seq<string>, n: nat, codec: DateCodec<T>)
    returns (out: string)
    ensures out == body + ItemBlocks(uriPath, parseTimestamps, Take(rest, n), codec)
  {
    out := body;
    var k := 0;
    while k < |rest| && k < n
      invariant 0 <= k <= |rest| && k <= n
      invariant out == body + ItemBlocks(uriPath, parseTimestamps, rest[..k], codec)
    {
      BlocksGrow(body, out, uriPath, parseTimestamps, rest, k, codec);
      out := WriteBlock(out, uriPath, parseTimestamps, rest[k], codec);
      k := k + 1;
    }
    TakeStopsAt(rest, k, n);
  }

  /**
   * `render_list`: write the heading and the navigation into the body buffer, coerce
   * page 0 to 1, then append the blocks of each file that `skip` and `take` yield.
   */
  method RenderList<T>(files: seq<string>, config: Config, page: U16, codec: DateCodec<T>) returns (html: string)
    requires config.videoCount > 0
    ensures html == PageHtml(files, config, page, codec)
  {
    var uriPath, instanceName := config.uriPath, config.instanceName;
    var videoCount, parseTimestamps := config.videoCount, config.parseTimestamps;
    var head := HtmlHead(uriPath);
    var foot := HTML_FOOT;
    var body := "";
    body := body + MAIN_OPEN;
    EmptyAppend(MAIN_OPEN);
    body := body + Heading(instanceName);
    var maxPages := MaxPages(|files|, videoCount);
    var navigation := RenderNavigation(uriPath, page, maxPages);
    body := body + navigation;
    var current := page;
    if current == 0 {
      current := current + 1;
    }
    var rest := Skip(files, SkipCount(current, videoCount));
    ghost var items := PageItems(files, EffectivePage(page), videoCount);
    assert Take(rest, videoCount) == items;
    ghost var top := body;
    body := WriteBlocks(body, uriPath, parseTimestamps, rest, videoCount, codec);
    body := body + MAIN_CLOSE;
    ghost var blocks := ItemBlocks(uriPath, parseTimestamps, items, codec);
    assert body == top + blocks + MAIN_CLOSE;
    assert body == MainBody(instanceName, navigation, blocks);
    html := head + body + foot;
  }

  /** The document is the fixed front, the navigation, then the blocks and the fixed back. */
  lemma DocumentAround(uriPath: string, instanceName: string, navigation: string, blocks: string)
    ensures Document(uriPath, instanceName, navigation, blocks)
      == (HtmlHead(uriPath) + MAIN_OPEN + Heading(instanceName)) + navigation + (blocks + MAIN_CLOSE + HTML_FOOT)
  {
    var head, open, heading := HtmlHead(uriPath), MAIN_OPEN, Heading(instanceName);
    var close, foot := MAIN_CLOSE, HTML_FOOT;
    calc {
      Document(uriPath, instanceName, navigation, blocks);
      head + (open + heading + navigation + blocks + close) + foot;
      { AppendAssoc(head, open + heading + navigation + blocks, close); }
      head + (open + heading + navigation + blocks) + close + foot;
      { AppendAssoc(head, open + heading + navigation, blocks); }
      head + (open + heading + navigation) + blocks + close + foot;
      { AppendAssoc(head, open + heading, navigation); AppendAssoc(head, open, heading); }
      head + open + heading + navigation + blocks + close + foot;
      { AppendAssoc(head + open + heading + navigation, blocks + close, foot);
        AppendAssoc(head + open + heading + navigation, blocks, close); }
      head + open + heading + navigation + (blocks + close + foot);
    }
  }

  /**
   * Page 0 shows the files of page 1, but under the navigation of page 0 (prev links
   * to page 65535, the label reads PAGE 0), so the two documents differ.
   */
  lemma PageZeroIsNotPageOne<T>(files: seq<string>, config: Config, codec: DateCodec<T>)
    requires config.videoCount > 0
    ensures PageHtml(files, config, 0, codec) == Document(
      config.uriPath,
      config.instanceName,
      NavigationHtml(config.uriPath, 0, MaxPages(|files|, config.videoCount)),
      ItemBlocks(config.uriPath, config.parseTimestamps, PageItems(files, 1, config.videoCount), codec))
    ensures PageHtml(files, config, 0, codec) != PageHtml(files, config, 1, codec)
  {
    var uriPath, instanceName := config.uriPath, config.instanceName;
    var maxPages := MaxPages(|files|, config.videoCount);
    var blocks := ItemBlocks(uriPath, config.parseTimestamps, PageItems(files, 1, config.videoCount), codec);
    var nav0 := NavigationHtml(uriPath, 0, maxPages);
    var nav1 := NavigationHtml(uriPath, 1, maxPages);
    PrevMarker(uriPath, 0, maxPages);
    PrevMarker(uriPath, 1, maxPages);
    var k := PREV_MARK;
    DocumentAround(uriPath, instanceName, nav0, blocks);
    DocumentAround(uriPath, instanceName, nav1, blocks);
    DifferentInContext(
      HtmlHead(uriPath) + MAIN_OPEN + Heading(instanceName), nav0, nav1, blocks + MAIN_CLOSE + HTML_FOOT, k);
  }

  /**
   * A page past the last one, while the file count and the skip product fit in a
   * `u16`, shows no file under a navigation that ends with the inert cell `next`.
   */
  lemma PageBeyondLastShowsNoFiles<T>(files: seq<string>, config: Config, page: U16, codec: DateCodec<T>)
    requires config.videoCount > 0 && |files| < MODULUS
    requires page > MaxPages(|files|, config.videoCount)
    requires (page - 1) * config.videoCount < MODULUS
    ensures PageHtml(files, config, page, codec) == Document(
      config.uriPath,
      config.instanceName,
      NavigationHtml(config.uriPath, page, MaxPages(|files|, config.videoCount)),
      "")
    ensures EndsWith(NavigationHtml(config.uriPath, page, MaxPages(|files|, config.videoCount)), Cell("next") + NAV_CLOSE)
    ensures !EndsWith(
      NavigationHtml(config.uriPath, page, MaxPages(|files|, config.videoCount)),
      Cell(PageLink(config.uriPath, page + 1, "next")) + NAV_CLOSE)
  {
    PageBeyondLastIsEmpty(files, page, config.videoCount);
    NextControl(config.uriPath, page, MaxPages(|files|, config.videoCount));
  }
}
