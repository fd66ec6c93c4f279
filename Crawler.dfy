/**
 * The crawl engine of HttpCreator: link resolution, file naming, the depth rule,
 * the scope selector, and the recursive fetch-write-download-recurse traversal.
 *
 * The pure parts are functions. The traversal itself is specified by the ghost
 * functions CrawlPage and CrawlLinks (with DownloadSrcs and DownloadFormats for the
 * images), over a value State; the class HttpCreator carries the same state in
 * fields and its methods are proved to compute exactly what those functions say.
 */
module Crawler {
  import opened Wrappers
  import opened Strings
  import opened Html
  import opened Web
  import NodeComparer

  /** Which anchors a page offers for traversal. */
  datatype DomainRestriction = NoHigherWay | OnlyCurrentDomain | WithoutRestriction

  /** A file in the save folder: a page's text or an image. */
  datatype File = PageFile(text: string) | ImageFile(data: seq<byte>)

  /** The crawler's configuration, and whether a Progress handler is attached. */
  datatype Config = Config(
    baseUrl: Uri,
    deepLevel: int,
    restriction: DomainRestriction,
    formats: seq<string>,
    verbose: bool,
    subscribed: bool)

  /** One page written: the href it was reached by, its file name and the text written. */
  datatype Visit = Visit(href: string, path: string, body: string)

  /**
   * What a crawl changes: the save folder (file name to content), the progress
   * messages delivered, the `Url` field, and the pages written so far (bookkeeping).
   */
  datatype State = State(
    files: map<string, File>,
    log: seq<string>,
    url: Option<Uri>,
    visits: seq<Visit>)

  /** A crawl either runs to its end or is aborted by a UriFormatException on `culprit`. */
  datatype Status = Completed | Crashed(culprit: string)

  datatype Step = Step(st: State, status: Status)

  const HandlePage: string := "Handle page: "
  const DownloadResource: string := "       Download resource: "

  // ---------------------------------------------------------------- pure helpers

  /**
   * `CreateUrl`: an href that parses as a URI is used as it is; otherwise the
   * base's AbsoluteUri and the href are concatenated as strings and parsed.
   * None stands for the UriFormatException of that second parse.
   */
  function CreateUrl(e: Env, baseUrl: Uri, href: string): (r: Option<Uri>)
    ensures e.parseUri(href).Some? ==> r == e.parseUri(href)
    ensures e.parseUri(href).None? ==> r == e.parseUri(baseUrl.absoluteUri + href)
  {
    match e.parseUri(href)
    case Some(u) => Some(u)
    case None => e.parseUri(baseUrl.absoluteUri + href)
  }

  /**
   * The file name of `CreateFilePath`: AbsolutePath with every '/' replaced by
   * '_', then ".html"; the name holds no '/'.
   */
  function PageFileName(u: Uri): (n: string)
    ensures var p := u.absolutePath;
      |n| == |p| + 5 && n[|p|..] == ".html" &&
      forall i :: 0 <= i < |p| ==> n[i] == (if p[i] == '/' then '_' else p[i])
    ensures '/' !in n
  {
    var r := ReplaceSlashes(u.absolutePath);
    assert forall i :: 0 <= i < |r| ==> (r + ".html")[i] == r[i];
    assert (r + ".html")[|r|..] == ".html";
    r + ".html"
  }

  /**
   * The file name of `CreateImagePath`: AbsolutePath with every '/' replaced by
   * '_', then the format verbatim.
   */
  function ImageFileName(u: Uri, format: string): (n: string)
    ensures var p := u.absolutePath;
      |n| == |p| + |format| && n[|p|..] == format &&
      forall i :: 0 <= i < |p| ==> n[i] == (if p[i] == '/' then '_' else p[i])
  {
    var r := ReplaceSlashes(u.absolutePath);
    assert forall i :: 0 <= i < |r| ==> (r + format)[i] == r[i];
    assert (r + format)[|r|..] == format;
    r + format
  }

  /** `PathAndQuery.Trim('/').Split('/').Count()`. */
  function Depth(u: Uri): (d: nat)
    ensures d == 1 + CountChar(Trim(PathAndQuery(u), '/'), '/')
  {
    |Split(Trim(PathAndQuery(u), '/'), '/')|
  }

  /** `GetHrefSelectors`, given as the string its XPath `contains()` looks for. */
  function GetHrefSelectors(baseUrl: Uri, restriction: DomainRestriction): (needle: string)
    ensures restriction == NoHigherWay ==> needle == baseUrl.authority + baseUrl.absolutePath + baseUrl.query
    ensures restriction == OnlyCurrentDomain ==> needle == baseUrl.host
    ensures restriction == WithoutRestriction ==> needle == "http"
  {
    match restriction
    case NoHigherWay => baseUrl.authority + PathAndQuery(baseUrl)
    case OnlyCurrentDomain => baseUrl.host
    case WithoutRestriction => "http"
  }

  /** The anchors of `doc` selected under the configured restriction. */
  /** The string the selector looks for under the configured restriction. */
  function Needle(c: Config): string
  {
    GetHrefSelectors(c.baseUrl, c.restriction)
  }

  function Candidates(c: Config, doc: Document): (r: seq<Node>)
    ensures var needle := Needle(c);
      && (forall n :: n in r <==> n in doc.anchors && Contains(n.href, needle))
      && (forall n :: multiset(r)[n] == (if Contains(n.href, needle) then multiset(doc.anchors)[n] else 0))
      && IsSubsequence(r, doc.anchors)
  {
    SelectAnchors(doc.anchors, Needle(c))
  }

  /** `OnProgress`: the message reaches the handler only in verbose mode with a handler attached. */
  function Progress(c: Config, st: State, message: string): (r: State)
    ensures r.files == st.files && r.url == st.url && r.visits == st.visits
    ensures c.verbose && c.subscribed ==> r.log == st.log + [message]
    ensures !(c.verbose && c.subscribed) ==> r.log == st.log
  {
    if c.verbose && c.subscribed then st.(log := st.log + [message]) else st
  }

  // ------------------------------------------------------- the finite reachable web

  /** Every text a page request can return. */
  ghost function Bodies(e: Env): set<string>
  {
    e.pages.Values + {"", Sentinel}
  }

  /** Every href that any page the crawler can fetch offers. */
  ghost function AllHrefs(e: Env): set<string>
  {
    set b, n | b in Bodies(e) && n in e.parseHtml(b).anchors :: n.href
  }

  /** The file names that the hrefs in `hrefs` resolve to. */
  ghost function PathsOf(e: Env, c: Config, hrefs: set<string>): set<string>
    decreases |hrefs|
  {
    if hrefs == {} then {}
    else
      var h :| h in hrefs;
      PathsOf(e, c, hrefs - {h}) + OwnPath(e, c, h)
  }

  /** The file names of every page the crawl could ever reach: a finite set. */
  ghost function PagePaths(e: Env, c: Config): set<string>
  {
    PathsOf(e, c, AllHrefs(e))
  }

  /** The file a call on `href` writes first, if `href` resolves. */
  ghost function OwnPath(e: Env, c: Config, href: string): set<string>
  {
    match CreateUrl(e, c.baseUrl, href)
    case Some(u) => {PageFileName(u)}
    case None => {}
  }

  lemma {:induction false} PathsOfContains(e: Env, c: Config, hrefs: set<string>, h: string)
    requires h in hrefs
    ensures OwnPath(e, c, h) <= PathsOf(e, c, hrefs)
    decreases |hrefs|
  {
    var x :| x in hrefs && PathsOf(e, c, hrefs) == PathsOf(e, c, hrefs - {x}) + OwnPath(e, c, x);
    if x != h {
      PathsOfContains(e, c, hrefs - {x}, h);
    }
  }

  lemma BodyOfPage(e: Env, u: Uri)
    ensures GetPage(e, u) in Bodies(e)
  {
    if HttpScheme(u) && u in e.pages {
      assert e.pages[u] in e.pages.Values;
    }
  }

  lemma AnchorsReachable(e: Env, body: string)
    requires body in Bodies(e)
    ensures forall n :: n in e.parseHtml(body).anchors ==> n.href in AllHrefs(e)
  {
  }

  lemma PathReachable(e: Env, c: Config, h: string)
    requires h in AllHrefs(e) && CreateUrl(e, c.baseUrl, h).Some?
    ensures PageFileName(CreateUrl(e, c.baseUrl, h).value) in PagePaths(e, c)
  {
    PathsOfContains(e, c, AllHrefs(e), h);
  }

  lemma SubsetCard<T>(a: set<T>, b: set<T>)
    requires a <= b
    ensures |a| <= |b|
  {
    assert b == a + (b - a);
  }

  /** Writing a reachable page that was not yet written shrinks what is left to write. */
  lemma CardShrinks(u: set<string>, before: set<string>, now: set<string>, p: string)
    requires before <= now && p in u && p !in now
    ensures |u - (now + {p})| < |u - before|
  {
    assert u - now == (u - (now + {p})) + {p};
    SubsetCard(u - now, u - before);
  }

  // ------------------------------------------------------------ the specification

  /**
   * One image per source, in order: progress message, resolution (an unresolvable
   * source aborts), fetch, and a file written only when the fetch yields a stream.
   */
  ghost function DownloadSrcs(e: Env, c: Config, st: State, format: string, srcs: seq<string>): (r: Step)
    ensures st.files.Keys <= r.st.files.Keys && st.log <= r.st.log
    ensures forall p :: p in r.st.files ==> (p in st.files && r.st.files[p] == st.files[p]) || r.st.files[p].ImageFile?
    ensures r.st.url == st.url && r.st.visits == st.visits
    decreases |srcs|
  {
    if srcs == [] then Step(st, Completed)
    else
      var st1 := Progress(c, st, DownloadResource + srcs[0]);
      match CreateUrl(e, c.baseUrl, srcs[0])
      case None => Step(st1, Crashed(srcs[0]))
      case Some(u) =>
        DownloadSrcs(e, c, SaveImage(e, st1, u, format), format, srcs[1..])
  }

  /** The state after a resolved source: its image is saved when the fetch yields a stream. */
  ghost function SaveImage(e: Env, st: State, u: Uri, format: string): State
  {
    match GetResource(e, u)
    case None => st
    case Some(data) => st.(files := st.files[ImageFileName(u, format) := ImageFile(data)])
  }

  /** `DownloadResources`: each format in list order, over the sources that contain it. */
  ghost function DownloadFormats(e: Env, c: Config, st: State, formats: seq<string>, images: seq<string>): (r: Step)
    ensures st.files.Keys <= r.st.files.Keys && st.log <= r.st.log
    ensures forall p :: p in r.st.files ==> (p in st.files && r.st.files[p] == st.files[p]) || r.st.files[p].ImageFile?
    ensures r.st.url == st.url && r.st.visits == st.visits
    decreases |formats|
  {
    if formats == [] then Step(st, Completed)
    else
      var r := DownloadSrcs(e, c, st, formats[0], SelectImages(images, formats[0]));
      if r.status.Crashed? then r else DownloadFormats(e, c, r.st, formats[1..], images)
  }

  /** Go on with the remaining formats unless the crawl was aborted. */
  ghost function ResumeFormats(e: Env, c: Config, r: Step, formats: seq<string>, images: seq<string>): Step
  {
    if r.status.Crashed? then r else DownloadFormats(e, c, r.st, formats, images)
  }

  /**
   * `AnalysContent(href)`: announce, resolve (an unresolvable href aborts), then
   * crawl the page the href resolves to.
   */
  ghost function CrawlPage(e: Env, c: Config, st: State, href: string): (r: Step)
    ensures st.files.Keys + OwnPath(e, c, href) <= r.st.files.Keys
    decreases |PagePaths(e, c) - (st.files.Keys + OwnPath(e, c, href))|, 2, 0
  {
    var st1 := Progress(c, st, HandlePage + href);
    match CreateUrl(e, c.baseUrl, href)
    case None => Step(st1, Crashed(href))
    case Some(u) => CrawlResolved(e, c, st1.(url := Some(u)), href, u)
  }

  /**
   * The rest of `AnalysContent` once `href` resolved to `u`: fetch and write the
   * page, download its images, then follow its selected anchors in document order.
   */
  ghost function CrawlResolved(e: Env, c: Config, st: State, href: string, u: Uri): (r: Step)
    ensures st.files.Keys + {PageFileName(u)} <= r.st.files.Keys
    decreases |PagePaths(e, c) - (st.files.Keys + {PageFileName(u)})|, 1, 0
  {
    var d := WritePage(e, c, st, href, u);
    if d.status.Crashed? then d
    else
      BodyOfPage(e, u);
      AnchorsReachable(e, GetPage(e, u));
      SubsetCard(PagePaths(e, c) - d.st.files.Keys, PagePaths(e, c) - (st.files.Keys + {PageFileName(u)}));
      CrawlLinks(e, c, d.st, Candidates(c, e.parseHtml(GetPage(e, u))))
  }

  /**
   * CrawlResolved in two steps: the page with its images, then, unless that
   * aborted, the anchors the page offers, all of which can be crawled.
   */
  lemma CrawlResolvedSteps(e: Env, c: Config, st: State, href: string, u: Uri, mid: State, status: Status)
    requires Step(mid, status) == WritePage(e, c, st, href, u)
    ensures status.Crashed? ==> CrawlResolved(e, c, st, href, u) == Step(mid, status)
    ensures var nodes := Candidates(c, e.parseHtml(GetPage(e, u)));
      (forall i :: 0 <= i < |nodes| ==> nodes[i].href in AllHrefs(e)) &&
      (status.Completed? ==> CrawlResolved(e, c, st, href, u) == CrawlLinks(e, c, mid, nodes))
  {
    BodyOfPage(e, u);
    AnchorsReachable(e, GetPage(e, u));
  }

  /**
   * The part of `AnalysContent` between resolution and the anchors: the fetched
   * text is written under the page's file name, then the images are downloaded.
   */
  ghost function WritePage(e: Env, c: Config, st: State, href: string, u: Uri): (r: Step)
    ensures st.files.Keys + {PageFileName(u)} <= r.st.files.Keys
    ensures r.st.files[PageFileName(u)] == PageFile(GetPage(e, u)) || r.st.files[PageFileName(u)].ImageFile?
  {
    var path := PageFileName(u);
    var html := GetPage(e, u);
    var st2 := st.(files := st.files[path := PageFile(html)],
                   visits := st.visits + [Visit(href, path, html)]);
    DownloadFormats(e, c, st2, c.formats, e.parseHtml(html).images)
  }

  /** The loop of `AnalysContent` over the selected anchors, in document order, until one aborts. */
  ghost function CrawlLinks(e: Env, c: Config, st: State, nodes: seq<Node>): (r: Step)
    requires forall i :: 0 <= i < |nodes| ==> nodes[i].href in AllHrefs(e)
    ensures st.files.Keys <= r.st.files.Keys
    decreases |PagePaths(e, c) - st.files.Keys|, 0, |nodes|
  {
    if nodes == [] then Step(st, Completed)
    else
      var r := VisitLink(e, c, st, nodes[0].href);
      if r.status.Crashed? then r
      else
        SubsetCard(PagePaths(e, c) - r.st.files.Keys, PagePaths(e, c) - st.files.Keys);
        CrawlLinks(e, c, r.st, nodes[1..])
  }

  /**
   * One pass of that loop: skip the base URL itself, abort on an unresolvable
   * href, skip pages deeper than the configured level, skip pages already
   * written (after `Url` is set to the href), and otherwise crawl the href.
   */
  ghost function VisitLink(e: Env, c: Config, st: State, h: string): (r: Step)
    requires h in AllHrefs(e)
    ensures st.files.Keys <= r.st.files.Keys
    decreases |PagePaths(e, c) - st.files.Keys|, 0, 0
  {
    if h == c.baseUrl.text then Step(st, Completed)
    else
      match CreateUrl(e, c.baseUrl, h)
      case None => Step(st, Crashed(h))
      case Some(u) =>
        if Depth(u) > c.deepLevel then Step(st, Completed)
        else
          var st1 := st.(url := Some(u));
          if PageFileName(u) in st1.files then Step(st1, Completed)
          else
            PathReachable(e, c, h);
            CardShrinks(PagePaths(e, c), st.files.Keys, st1.files.Keys, PageFileName(u));
            CrawlPage(e, c, st1, h)
  }

  // ------------------------------------------------------------------- the class

  class HttpCreator {
    const saveFolder: string
    const env: Env
    const baseUrl: Uri
    var deepLevel: int
    var domainRestriction: DomainRestriction
    var downloadResourceRestriction: seq<string>
    var verboseMode: bool
    var url: Option<Uri>
    /** Whether a Progress handler is attached. */
    var subscribed: bool
    /** The save folder: file name to content. */
    var files: map<string, File>
    /** The messages the Progress handler has received. */
    var log: seq<string>
    ghost var visits: seq<Visit>

    function Cfg(): Config
      reads this`deepLevel, this`domainRestriction, this`downloadResourceRestriction
      reads this`verboseMode, this`subscribed
    {
      Config(baseUrl, deepLevel, domainRestriction, downloadResourceRestriction, verboseMode, subscribed)
    }

    ghost function Snapshot(): State
      reads this`files, this`log, this`url, this`visits
    {
      State(files, log, url, visits)
    }

    /** `new HttpCreator(saveFolder, baseUrl)`: the defaults, and an emptied save folder. */
    constructor (saveFolder: string, baseUrl: string, env: Env)
      requires env.parseUri(baseUrl).Some?
      ensures this.saveFolder == saveFolder && this.env == env
      ensures this.baseUrl == env.parseUri(baseUrl).value
      ensures deepLevel == 0 && domainRestriction == OnlyCurrentDomain
      ensures downloadResourceRestriction == ["*"] && !verboseMode && !subscribed
      ensures files == map[] && log == [] && url == None && visits == []
    {
      this.saveFolder := saveFolder;
      this.env := env;
      this.baseUrl := env.parseUri(baseUrl).value;
      deepLevel := 0;
      domainRestriction := OnlyCurrentDomain;
      downloadResourceRestriction := ["*"];
      verboseMode := false;
      url := None;
      subscribed := false;
      log := [];
      visits := [];
      files := map[];
      new;
      Init();
    }

    /** `Init`: the save folder is deleted if present and created empty. */
    method Init()
      modifies this`files
      ensures files == map[]
    {
      files := map[];
    }

    method SetDeepLevel(level: int) returns (r: HttpCreator)
      modifies this`deepLevel
      ensures r == this && deepLevel == level
    {
      deepLevel := level;
      r := this;
    }

    method SetDomainRestriction(restriction: DomainRestriction) returns (r: HttpCreator)
      modifies this`domainRestriction
      ensures r == this && domainRestriction == restriction
    {
      domainRestriction := restriction;
      r := this;
    }

    method SetDownloadResourceRestriction(formats: seq<string>) returns (r: HttpCreator)
      modifies this`downloadResourceRestriction
      ensures r == this && downloadResourceRestriction == formats
    {
      downloadResourceRestriction := formats;
      r := this;
    }

    method SetVerboseMode(verbose: bool) returns (r: HttpCreator)
      modifies this`verboseMode
      ensures r == this && verboseMode == verbose
    {
      verboseMode := verbose;
      r := this;
    }

    /** `Progress += handler`. */
    method Subscribe()
      modifies this`subscribed
      ensures subscribed
    {
      subscribed := true;
    }

    /** `OnProgress(message)`. */
    method OnProgress(message: string)
      modifies this`log
      ensures Snapshot() == Progress(Cfg(), old(Snapshot()), message)
    {
      if subscribed && verboseMode {
        log := log + [message];
      }
    }

    /** `CreateFilePath(href)`: sets `Url` to the resolved href and returns its page file name. */
    method CreateFilePath(href: string) returns (path: Option<string>)
      modifies this`url
      ensures match CreateUrl(env, baseUrl, href)
        case None => path == None && url == old(url)
        case Some(u) => path == Some(PageFileName(u)) && url == Some(u)
    {
      var u := CreateUrl(env, baseUrl, href);
      if u.None? {
        return None;
      }
      url := u;
      path := Some(PageFileName(u.value));
    }

    /** `DownloadResources(doc)`. */
    method DownloadResources(doc: Document) returns (status: Status)
      modifies this`files, this`log
      ensures Step(Snapshot(), status) == DownloadFormats(env, Cfg(), old(Snapshot()), downloadResourceRestriction, doc.images)
    {
      ghost var goal := DownloadFormats(env, Cfg(), Snapshot(), downloadResourceRestriction, doc.images);
      var formats := downloadResourceRestriction;
      for fi := 0 to |formats|
        invariant goal == DownloadFormats(env, Cfg(), Snapshot(), formats[fi..], doc.images)
      {
        var format := formats[fi];
        var pngNodes := SelectImages(doc.images, format);
        assert formats[fi..][1..] == formats[fi + 1..];
        for j := 0 to |pngNodes|
          invariant goal == ResumeFormats(env, Cfg(), DownloadSrcs(env, Cfg(), Snapshot(), format, pngNodes[j..]), formats[fi + 1..], doc.images)
        {
          var src := pngNodes[j];
          assert pngNodes[j..][1..] == pngNodes[j + 1..];
          OnProgress(DownloadResource + src);
          var u := CreateUrl(env, baseUrl, src);
          if u.None? {
            return Crashed(src);
          }
          var res := GetResource(env, u.value);
          if res.Some? {
            var savePath := ImageFileName(CreateUrl(env, baseUrl, src).value, format);
            files := files[savePath := ImageFile(res.value)];
          }
        }
      }
      return Completed;
    }

    /** `AnalysContent(href, level)`; `level` is passed along and never consulted. */
    method AnalysContent(href: string, level: int) returns (status: Status)
      modifies this`files, this`log, this`url, this`visits
      ensures Step(Snapshot(), status) == CrawlPage(env, old(Cfg()), old(Snapshot()), href)
      decreases |PagePaths(env, Cfg()) - (files.Keys + OwnPath(env, Cfg(), href))|, 2, 0
    {
      OnProgress(HandlePage + href);
      var filePath := CreateFilePath(href);
      if filePath.None? {
        return Crashed(href);
      }
      status := CrawlResolvedPage(href, filePath.value, level);
    }

    /**
     * The rest of `AnalysContent`, once `Url` holds the resolved href and `path`
     * is its file name: the page with its images, then the anchor loop.
     */
    method CrawlResolvedPage(href: string, path: string, level: int) returns (status: Status)
      requires url.Some? && path == PageFileName(url.value)
      modifies this`files, this`log, this`url, this`visits
      ensures Step(Snapshot(), status) == CrawlResolved(env, old(Cfg()), old(Snapshot()), href, old(url.value))
      decreases |PagePaths(env, Cfg()) - (files.Keys + {path})|, 1, 0
    {
      ghost var c := Cfg();
      ghost var st0 := Snapshot();
      ghost var written := files.Keys + {path};
      ghost var left := PagePaths(env, c) - written;
      var u := url.value;
      var doc;
      status, doc := SavePage(href, path);
      assert Cfg() == c;
      assert written <= files.Keys;
      CrawlResolvedSteps(env, c, st0, href, u, Snapshot(), status);
      if status.Crashed? {
        return;
      }
      var htmlNodes := SelectAnchors(doc.anchors, GetHrefSelectors(baseUrl, domainRestriction));
      assert htmlNodes == Candidates(c, env.parseHtml(GetPage(env, u)));
      if |htmlNodes| == 0 {
        return Completed;
      }
      var nodes := NodeComparer.Distinct(htmlNodes);
      SubsetCard(PagePaths(env, c) - files.Keys, left);
      status := FollowLinks(htmlNodes, level);
    }

    /**
     * The middle of `AnalysContent`, once `Url` holds the resolved href: the
     * fetched text is written under `path`, then the page's images are downloaded.
     */
    method SavePage(href: string, path: string) returns (status: Status, doc: Document)
      requires url.Some? && path == PageFileName(url.value)
      modifies this`files, this`log, this`visits
      ensures doc == env.parseHtml(GetPage(env, url.value))
      ensures Step(Snapshot(), status) == WritePage(env, Cfg(), old(Snapshot()), href, url.value)
    {
      var html := GetPage(env, url.value);
      files := files[path := PageFile(html)];
      visits := visits + [Visit(href, path, html)];
      doc := env.parseHtml(html);
      status := DownloadResources(doc);
    }

    /** The anchor loop of `AnalysContent`, in document order, until one pass aborts. */
    method FollowLinks(htmlNodes: seq<Node>, level: int) returns (status: Status)
      requires forall i :: 0 <= i < |htmlNodes| ==> htmlNodes[i].href in AllHrefs(env)
      modifies this`files, this`log, this`url, this`visits
      ensures Step(Snapshot(), status) == CrawlLinks(env, old(Cfg()), old(Snapshot()), htmlNodes)
      decreases |PagePaths(env, Cfg()) - files.Keys|, 0, 1
    {
      ghost var c := Cfg();
      ghost var keys0 := files.Keys;
      ghost var goal := CrawlLinks(env, c, Snapshot(), htmlNodes);
      var lvl := level;
      for i := 0 to |htmlNodes|
        invariant keys0 <= files.Keys
        invariant goal == CrawlLinks(env, c, Snapshot(), htmlNodes[i..])
      {
        assert htmlNodes[i..][1..] == htmlNodes[i + 1..];
        SubsetCard(PagePaths(env, c) - files.Keys, PagePaths(env, c) - keys0);
        status, lvl := FollowLink(htmlNodes[i].href, lvl);
        if status.Crashed? {
          return;
        }
      }
      return Completed;
    }

    /**
     * One pass of the anchor loop of `AnalysContent`; `lvl` is the loop's level
     * counter, raised before each recursive call.
     */
    method FollowLink(h: string, lvl: int) returns (status: Status, lvl': int)
      requires h in AllHrefs(env)
      modifies this`files, this`log, this`url, this`visits
      ensures Step(Snapshot(), status) == VisitLink(env, old(Cfg()), old(Snapshot()), h)
      decreases |PagePaths(env, Cfg()) - files.Keys|, 0, 0
    {
      ghost var c := Cfg();
      lvl' := lvl;
      if h == baseUrl.text {
        return Completed, lvl';
      }
      var hrefUri := CreateUrl(env, baseUrl, h);
      if hrefUri.None? {
        return Crashed(h), lvl';
      }
      var urlDeep := Depth(hrefUri.value);
      if urlDeep > deepLevel {
        return Completed, lvl';
      }
      ghost var before := files.Keys;
      var newFilePath := CreateFilePath(h);
      assert Cfg() == c;
      if newFilePath.value in files {
        return Completed, lvl';
      }
      PathReachable(env, c, h);
      CardShrinks(PagePaths(env, c), before, files.Keys, newFilePath.value);
      lvl' := lvl' + 1;
      status := AnalysContent(h, lvl');
    }
  }
}
