/**
 * What a crawl guarantees, proved about the specification functions of module
 * Crawler (and so, through the contracts of HttpCreator's methods, about the
 * class): every page written is written once, under the name its href resolves
 * to, and only for an href that passes the loop's guards; the guards cover every
 * candidate; images land under the names the download rule gives; progress
 * messages reach the log only in verbose mode with a handler attached; and the
 * unused Distinct of the anchor loop would not change the outcome.
 */
module CrawlProperties {
  import opened Wrappers
  import opened Strings
  import opened Html
  import opened Web
  import opened Crawler
  import NodeComparer
  import opened DownloadProperties

  // ------------------------------------------------------------ written pages

  /** The visit was made for the page its href resolves to, with the text fetched for it. */
  ghost predicate Recorded(e: Env, c: Config, v: Visit)
  {
    match CreateUrl(e, c.baseUrl, v.href)
    case None => false
    case Some(u) => v.path == PageFileName(u) && v.body == GetPage(e, u)
  }

  /** The visit passed every guard of the anchor loop. */
  ghost predicate Followed(e: Env, c: Config, v: Visit)
  {
    Recorded(e, c, v) &&
    v.href != c.baseUrl.text &&
    Contains(v.href, Needle(c)) &&
    Depth(CreateUrl(e, c.baseUrl, v.href).value) <= c.deepLevel
  }

  /** No visit writes a file that existed in `before` or that an earlier visit wrote. */
  ghost predicate Fresh(before: set<string>, vs: seq<Visit>)
  {
    (forall i :: 0 <= i < |vs| ==> vs[i].path !in before) &&
    (forall i, j :: 0 <= i < j < |vs| ==> vs[i].path != vs[j].path)
  }

  /** Visits made by the anchor loop: fresh, guarded, and their files are in `after`. */
  ghost predicate LoopVisits(e: Env, c: Config, before: set<string>, vs: seq<Visit>, after: map<string, File>)
  {
    Fresh(before, vs) &&
    forall i :: 0 <= i < |vs| ==> Followed(e, c, vs[i]) && vs[i].path in after
  }

  /** The visits `r` added to those of `st`. */
  ghost function Added(st: State, r: State): seq<Visit>
    requires |st.visits| <= |r.visits|
  {
    r.visits[|st.visits|..]
  }

  /** `r` extends the visits of `st`. */
  ghost predicate Extends(st: State, r: State)
  {
    |st.visits| <= |r.visits| && r.visits[..|st.visits|] == st.visits
  }

  lemma FreshConcat(before: set<string>, mid: set<string>, a: seq<Visit>, b: seq<Visit>)
    requires Fresh(before, a) && Fresh(mid, b) && before <= mid
    requires forall i :: 0 <= i < |a| ==> a[i].path in mid
    ensures Fresh(before, a + b)
  {
    forall i, j | 0 <= i < j < |a + b|
      ensures (a + b)[i].path != (a + b)[j].path
    {
      if j >= |a| && i < |a| {
        assert (a + b)[i] == a[i] && (a + b)[j] == b[j - |a|];
      }
    }
  }

  lemma ExtendsTrans(s1: State, s2: State, s3: State)
    requires Extends(s1, s2) && Extends(s2, s3)
    ensures Extends(s1, s3)
    ensures Added(s1, s3) == Added(s1, s2) + Added(s2, s3)
  {
    assert s3.visits[..|s1.visits|] == s3.visits[..|s2.visits|][..|s1.visits|];
    assert s3.visits == s3.visits[..|s2.visits|] + Added(s2, s3);
  }

  lemma LoopVisitsConcat(e: Env, c: Config, s1: State, s2: State, s3: State)
    requires Extends(s1, s2) && Extends(s2, s3)
    requires s1.files.Keys <= s2.files.Keys <= s3.files.Keys
    requires LoopVisits(e, c, s1.files.Keys, Added(s1, s2), s2.files)
    requires LoopVisits(e, c, s2.files.Keys, Added(s2, s3), s3.files)
    ensures Extends(s1, s3)
    ensures LoopVisits(e, c, s1.files.Keys, Added(s1, s3), s3.files)
  {
    ExtendsTrans(s1, s2, s3);
    FreshConcat(s1.files.Keys, s2.files.Keys, Added(s1, s2), Added(s2, s3));
    var all := Added(s1, s2) + Added(s2, s3);
    forall i | 0 <= i < |all|
      ensures Followed(e, c, all[i]) && all[i].path in s3.files
    {
      if i >= |Added(s1, s2)| {
        assert all[i] == Added(s2, s3)[i - |Added(s1, s2)|];
      } else {
        assert all[i] == Added(s1, s2)[i];
      }
    }
  }

  /**
   * The download part changes no visit; WritePage adds exactly the page's visit.
   */
  lemma WritePageVisits(e: Env, c: Config, st: State, href: string, u: Uri)
    ensures var r := WritePage(e, c, st, href, u);
      Extends(st, r.st) &&
      Added(st, r.st) == [Visit(href, PageFileName(u), GetPage(e, u))] &&
      PageFileName(u) in r.st.files
  {
    var r := WritePage(e, c, st, href, u);
    assert r.st.visits == st.visits + [Visit(href, PageFileName(u), GetPage(e, u))];
  }

  /**
   * The pages one call of `AnalysContent(href)` writes: the first, if `href`
   * resolves, is the page of `href` (possibly one already written); every later
   * one is written once, never over a file that was there before, and only for
   * an href that passed every guard of the anchor loop.
   */
  lemma {:induction false} CrawlPageVisits(e: Env, c: Config, st: State, href: string)
    ensures var r := CrawlPage(e, c, st, href);
      Extends(st, r.st) &&
      (Added(st, r.st) == [] <==> CreateUrl(e, c.baseUrl, href).None?) &&
      (Added(st, r.st) != [] ==>
        var vs := Added(st, r.st);
        vs[0].href == href && Recorded(e, c, vs[0]) && vs[0].path in r.st.files &&
        LoopVisits(e, c, st.files.Keys + {vs[0].path}, vs[1..], r.st.files))
    decreases |PagePaths(e, c) - (st.files.Keys + OwnPath(e, c, href))|, 2, 0
  {
    var st1 := Progress(c, st, HandlePage + href);
    match CreateUrl(e, c.baseUrl, href)
    case None =>
    case Some(u) =>
      CrawlResolvedVisits(e, c, st1.(url := Some(u)), href, u);
  }

  lemma {:induction false} CrawlResolvedVisits(e: Env, c: Config, st: State, href: string, u: Uri)
    ensures var r := CrawlResolved(e, c, st, href, u);
      Extends(st, r.st) && Added(st, r.st) != [] &&
      var vs := Added(st, r.st);
      vs[0] == Visit(href, PageFileName(u), GetPage(e, u)) && vs[0].path in r.st.files &&
      LoopVisits(e, c, st.files.Keys + {PageFileName(u)}, vs[1..], r.st.files)
    decreases |PagePaths(e, c) - (st.files.Keys + {PageFileName(u)})|, 1, 0
  {
    var d := WritePage(e, c, st, href, u);
    WritePageVisits(e, c, st, href, u);
    CrawlResolvedSteps(e, c, st, href, u, d.st, d.status);
    if d.status.Completed? {
      SubsetCard(PagePaths(e, c) - d.st.files.Keys, PagePaths(e, c) - (st.files.Keys + {PageFileName(u)}));
      var nodes := Candidates(c, e.parseHtml(GetPage(e, u)));
      CandidatesCarryNeedle(c, e.parseHtml(GetPage(e, u)));
      CrawlLinksVisits(e, c, d.st, nodes);
      PageThenLoop(e, c, st, d.st, CrawlLinks(e, c, d.st, nodes).st);
    }
  }

  /** Every candidate of a page carries the needle of the selector. */
  lemma CandidatesCarryNeedle(c: Config, doc: Document)
    ensures var nodes := Candidates(c, doc);
      forall i :: 0 <= i < |nodes| ==> Contains(nodes[i].href, Needle(c))
  {
    var nodes := Candidates(c, doc);
    forall i | 0 <= i < |nodes|
      ensures Contains(nodes[i].href, Needle(c))
    {
      assert nodes[i] in nodes;
    }
  }

  /** One page's visit followed by the loop below it. */
  lemma PageThenLoop(e: Env, c: Config, st: State, d: State, r: State)
    requires Extends(st, d) && |Added(st, d)| == 1
    requires st.files.Keys + {Added(st, d)[0].path} <= d.files.Keys <= r.files.Keys
    requires Extends(d, r) && LoopVisits(e, c, d.files.Keys, Added(d, r), r.files)
    ensures Extends(st, r) && Added(st, r) != [] && Added(st, r)[0] == Added(st, d)[0]
    ensures Added(st, r)[0].path in r.files
    ensures LoopVisits(e, c, st.files.Keys + {Added(st, r)[0].path}, Added(st, r)[1..], r.files)
  {
    ExtendsTrans(st, d, r);
    assert Added(st, r)[1..] == Added(d, r);
  }

  /** The visits of the anchor loop over `nodes`, all of which carry the needle. */
  lemma {:induction false} CrawlLinksVisits(e: Env, c: Config, st: State, nodes: seq<Node>)
    requires forall i :: 0 <= i < |nodes| ==> nodes[i].href in AllHrefs(e)
    requires forall i :: 0 <= i < |nodes| ==> Contains(nodes[i].href, Needle(c))
    ensures var r := CrawlLinks(e, c, st, nodes);
      Extends(st, r.st) && LoopVisits(e, c, st.files.Keys, Added(st, r.st), r.st.files)
    decreases |PagePaths(e, c) - st.files.Keys|, 0, |nodes|
  {
    if nodes != [] {
      var r1 := VisitLink(e, c, st, nodes[0].href);
      VisitLinkVisits(e, c, st, nodes[0].href);
      CrawlLinksSteps(e, c, st, nodes, r1.st, r1.status);
      if r1.status.Completed? {
        CrawlLinksVisits(e, c, r1.st, nodes[1..]);
        LoopVisitsConcat(e, c, st, r1.st, CrawlLinks(e, c, r1.st, nodes[1..]).st);
      }
    }
  }

  /** CrawlLinks in two steps: the first anchor, then, unless that aborted, the others. */
  lemma CrawlLinksSteps(e: Env, c: Config, st: State, nodes: seq<Node>, mid: State, status: Status)
    requires forall i :: 0 <= i < |nodes| ==> nodes[i].href in AllHrefs(e)
    requires nodes != [] && Step(mid, status) == VisitLink(e, c, st, nodes[0].href)
    ensures status.Crashed? ==> CrawlLinks(e, c, st, nodes) == Step(mid, status)
    ensures forall i :: 0 <= i < |nodes[1..]| ==> nodes[1..][i].href in AllHrefs(e)
    ensures |PagePaths(e, c) - mid.files.Keys| <= |PagePaths(e, c) - st.files.Keys|
    ensures status.Completed? ==> CrawlLinks(e, c, st, nodes) == CrawlLinks(e, c, mid, nodes[1..])
  {
    SubsetCard(PagePaths(e, c) - mid.files.Keys, PagePaths(e, c) - st.files.Keys);
  }

  lemma LoopVisitsCons(e: Env, c: Config, before: set<string>, vs: seq<Visit>, after: map<string, File>)
    requires vs != [] && vs[0].path !in before && Followed(e, c, vs[0]) && vs[0].path in after
    requires LoopVisits(e, c, before + {vs[0].path}, vs[1..], after)
    ensures LoopVisits(e, c, before, vs, after)
  {
    forall i | 0 < i < |vs|
      ensures vs[i] == vs[1..][i - 1]
    {
    }
    forall i, j | 0 <= i < j < |vs|
      ensures vs[i].path != vs[j].path
    {
      if i > 0 {
        assert vs[i] == vs[1..][i - 1];
      }
    }
  }

  /**
   * A page crawled from the loop: its own visit passed the guards, and the visits
   * below it are fresh with respect to its file, so all are fresh.
   */
  lemma GuardedCrawl(e: Env, c: Config, st: State, st1: State, r: State, h: string)
    requires st1.files == st.files && st1.visits == st.visits
    requires Extends(st1, r) && Added(st1, r) != []
    requires var v := Added(st1, r)[0];
      v.href == h && Recorded(e, c, v) && v.path in r.files && v.path !in st.files &&
      LoopVisits(e, c, st.files.Keys + {v.path}, Added(st1, r)[1..], r.files)
    requires h != c.baseUrl.text && Contains(h, Needle(c))
    requires Depth(CreateUrl(e, c.baseUrl, h).value) <= c.deepLevel
    ensures Extends(st, r) && LoopVisits(e, c, st.files.Keys, Added(st, r), r.files)
  {
    LoopVisitsCons(e, c, st.files.Keys, Added(st1, r), r.files);
  }

  lemma {:induction false} VisitLinkVisits(e: Env, c: Config, st: State, h: string)
    requires h in AllHrefs(e) && Contains(h, Needle(c))
    ensures var r := VisitLink(e, c, st, h);
      Extends(st, r.st) && LoopVisits(e, c, st.files.Keys, Added(st, r.st), r.st.files)
    decreases |PagePaths(e, c) - st.files.Keys|, 0, 0
  {
    if h != c.baseUrl.text && CreateUrl(e, c.baseUrl, h).Some? {
      var u := CreateUrl(e, c.baseUrl, h).value;
      var st1 := st.(url := Some(u));
      if Depth(u) <= c.deepLevel && PageFileName(u) !in st1.files {
        PathReachable(e, c, h);
        CardShrinks(PagePaths(e, c), st.files.Keys, st1.files.Keys, PageFileName(u));
        CrawlPageVisits(e, c, st1, h);
        GuardedCrawl(e, c, st, st1, CrawlPage(e, c, st1, h).st, h);
      }
    }
  }

  /**
   * A crawl that starts from an empty save folder writes no file twice: the
   * pages it writes have pairwise distinct names, all present at the end, the
   * first is the page of the start href and every other one passed the guards.
   */
  lemma CrawlFromEmptyFolder(e: Env, c: Config, st: State, href: string)
    requires st.files == map[] && st.visits == []
    ensures var r := CrawlPage(e, c, st, href).st;
      (forall i, j :: 0 <= i < j < |r.visits| ==> r.visits[i].path != r.visits[j].path) &&
      (forall i :: 0 <= i < |r.visits| ==> r.visits[i].path in r.files) &&
      (r.visits != [] ==> r.visits[0].href == href && Recorded(e, c, r.visits[0])) &&
      (forall i :: 0 < i < |r.visits| ==> Followed(e, c, r.visits[i]))
  {
    CrawlPageVisits(e, c, st, href);
    FromEmpty(e, c, st, CrawlPage(e, c, st, href).st, href);
  }

  lemma FromEmpty(e: Env, c: Config, st: State, r: State, href: string)
    requires st.files == map[] && st.visits == []
    requires Extends(st, r)
    requires Added(st, r) != [] ==>
      var vs := Added(st, r);
      vs[0].href == href && Recorded(e, c, vs[0]) && vs[0].path in r.files &&
      LoopVisits(e, c, st.files.Keys + {vs[0].path}, vs[1..], r.files)
    ensures forall i, j :: 0 <= i < j < |r.visits| ==> r.visits[i].path != r.visits[j].path
    ensures forall i :: 0 <= i < |r.visits| ==> r.visits[i].path in r.files
    ensures r.visits != [] ==> r.visits[0].href == href && Recorded(e, c, r.visits[0])
    ensures forall i :: 0 < i < |r.visits| ==> Followed(e, c, r.visits[i])
  {
    var vs := r.visits;
    assert Added(st, r) == vs;
    if vs != [] {
      forall i | 0 < i < |vs|
        ensures vs[i] == vs[1..][i - 1]
      {
      }
      forall i, j | 0 <= i < j < |vs|
        ensures vs[i].path != vs[j].path
      {
        if i > 0 {
          assert vs[i] == vs[1..][i - 1];
        }
      }
    }
  }

  // ------------------------------------------------------------------ coverage

  /**
   * The anchor loop has nothing left to do for `h` once `files` is the folder:
   * `h` is the base URL, or it resolves to a page deeper than the configured
   * level or to a page whose file exists.
   */
  ghost predicate Settled(e: Env, c: Config, files: map<string, File>, h: string)
  {
    h == c.baseUrl.text ||
    match CreateUrl(e, c.baseUrl, h)
    case None => false
    case Some(u) => Depth(u) > c.deepLevel || PageFileName(u) in files
  }

  lemma SettledGrows(e: Env, c: Config, f1: map<string, File>, f2: map<string, File>, h: string)
    requires f1.Keys <= f2.Keys && Settled(e, c, f1, h)
    ensures Settled(e, c, f2, h)
  {
  }

  /** A pass of the loop that does not abort leaves its href settled. */
  lemma VisitLinkSettles(e: Env, c: Config, st: State, h: string)
    requires h in AllHrefs(e)
    ensures var r := VisitLink(e, c, st, h);
      r.status.Completed? ==> Settled(e, c, r.st.files, h)
  {
  }

  lemma SettledCons(e: Env, c: Config, f1: map<string, File>, f2: map<string, File>, nodes: seq<Node>)
    requires nodes != [] && f1.Keys <= f2.Keys && Settled(e, c, f1, nodes[0].href)
    requires forall i :: 0 <= i < |nodes[1..]| ==> Settled(e, c, f2, nodes[1..][i].href)
    ensures forall i :: 0 <= i < |nodes| ==> Settled(e, c, f2, nodes[i].href)
  {
    SettledGrows(e, c, f1, f2, nodes[0].href);
    forall i | 0 < i < |nodes|
      ensures Settled(e, c, f2, nodes[i].href)
    {
      assert nodes[i] == nodes[1..][i - 1];
    }
  }

  /**
   * The anchor loop covers its anchors: when it runs to its end, every anchor it
   * was given is settled in the final folder.
   */
  lemma {:induction false} CrawlLinksCovers(e: Env, c: Config, st: State, nodes: seq<Node>)
    requires forall i :: 0 <= i < |nodes| ==> nodes[i].href in AllHrefs(e)
    ensures var r := CrawlLinks(e, c, st, nodes);
      r.status.Completed? ==> forall i :: 0 <= i < |nodes| ==> Settled(e, c, r.st.files, nodes[i].href)
    decreases |nodes|
  {
    if nodes != [] {
      var r1 := VisitLink(e, c, st, nodes[0].href);
      VisitLinkSettles(e, c, st, nodes[0].href);
      CrawlLinksSteps(e, c, st, nodes, r1.st, r1.status);
      if r1.status.Completed? {
        CrawlLinksCovers(e, c, r1.st, nodes[1..]);
        var r := CrawlLinks(e, c, r1.st, nodes[1..]);
        if r.status.Completed? {
          SettledCons(e, c, r1.st.files, r.st.files, nodes);
        }
      }
    }
  }

  /**
   * A page crawl that runs to its end leaves its own file written and every
   * anchor the page offers under the restriction settled.
   */
  lemma CrawlResolvedCovers(e: Env, c: Config, st: State, href: string, u: Uri)
    ensures var r := CrawlResolved(e, c, st, href, u);
      PageFileName(u) in r.st.files &&
      (r.status.Completed? ==>
        var nodes := Candidates(c, e.parseHtml(GetPage(e, u)));
        forall i :: 0 <= i < |nodes| ==> Settled(e, c, r.st.files, nodes[i].href))
  {
    var d := WritePage(e, c, st, href, u);
    CrawlResolvedSteps(e, c, st, href, u, d.st, d.status);
    if d.status.Completed? {
      CrawlLinksCovers(e, c, d.st, Candidates(c, e.parseHtml(GetPage(e, u))));
    }
  }

  /** Every anchor that the page of `v` offers under the restriction is settled in `files`. */
  ghost predicate PageCovered(e: Env, c: Config, v: Visit, files: map<string, File>)
  {
    forall n :: n in Candidates(c, e.parseHtml(v.body)) ==> Settled(e, c, files, n.href)
  }

  /** Every page in `vs` is covered in `files`: the crawl is closed under following anchors. */
  ghost predicate Closed(e: Env, c: Config, vs: seq<Visit>, files: map<string, File>)
  {
    forall i :: 0 <= i < |vs| ==> PageCovered(e, c, vs[i], files)
  }

  lemma ClosedGrows(e: Env, c: Config, vs: seq<Visit>, f1: map<string, File>, f2: map<string, File>)
    requires f1.Keys <= f2.Keys && Closed(e, c, vs, f1)
    ensures Closed(e, c, vs, f2)
  {
    forall i, n | 0 <= i < |vs| && n in Candidates(c, e.parseHtml(vs[i].body))
      ensures Settled(e, c, f2, n.href)
    {
      SettledGrows(e, c, f1, f2, n.href);
    }
  }

  lemma ClosedConcat(e: Env, c: Config, a: seq<Visit>, b: seq<Visit>, files: map<string, File>)
    requires Closed(e, c, a, files) && Closed(e, c, b, files)
    ensures Closed(e, c, a + b, files)
  {
    forall i | 0 <= i < |a + b|
      ensures PageCovered(e, c, (a + b)[i], files)
    {
      if i < |a| {
        assert (a + b)[i] == a[i];
      } else {
        assert (a + b)[i] == b[i - |a|];
      }
    }
  }

  /**
   * A call of `AnalysContent(href)` that runs to its end leaves every page it
   * wrote covered: each anchor that any of those pages offers under the
   * restriction is the base URL, too deep, or has its page file in the folder.
   */
  lemma {:induction false} CrawlPageCloses(e: Env, c: Config, st: State, href: string)
    ensures var r := CrawlPage(e, c, st, href);
      Extends(st, r.st) && (r.status.Completed? ==> Closed(e, c, Added(st, r.st), r.st.files))
    decreases |PagePaths(e, c) - (st.files.Keys + OwnPath(e, c, href))|, 2, 0
  {
    var st1 := Progress(c, st, HandlePage + href);
    match CreateUrl(e, c.baseUrl, href)
    case None =>
    case Some(u) =>
      CrawlResolvedCloses(e, c, st1.(url := Some(u)), href, u);
  }

  lemma {:induction false} CrawlResolvedCloses(e: Env, c: Config, st: State, href: string, u: Uri)
    ensures var r := CrawlResolved(e, c, st, href, u);
      Extends(st, r.st) && (r.status.Completed? ==> Closed(e, c, Added(st, r.st), r.st.files))
    decreases |PagePaths(e, c) - (st.files.Keys + {PageFileName(u)})|, 1, 0
  {
    var d := WritePage(e, c, st, href, u);
    WritePageVisits(e, c, st, href, u);
    CrawlResolvedSteps(e, c, st, href, u, d.st, d.status);
    if d.status.Completed? {
      SubsetCard(PagePaths(e, c) - d.st.files.Keys, PagePaths(e, c) - (st.files.Keys + {PageFileName(u)}));
      var nodes := Candidates(c, e.parseHtml(GetPage(e, u)));
      CrawlLinksCloses(e, c, d.st, nodes);
      CrawlLinksCovers(e, c, d.st, nodes);
      PageThenClosed(e, c, st, d.st, CrawlLinks(e, c, d.st, nodes), nodes);
    }
  }

  /** The page's own visit, covered by the loop below it, followed by the loop's pages. */
  lemma PageThenClosed(e: Env, c: Config, st: State, d: State, r: Step, nodes: seq<Node>)
    requires Extends(st, d) && |Added(st, d)| == 1 && nodes == Candidates(c, e.parseHtml(Added(st, d)[0].body))
    requires Extends(d, r.st) && (r.status.Completed? ==> Closed(e, c, Added(d, r.st), r.st.files))
    requires r.status.Completed? ==> forall i :: 0 <= i < |nodes| ==> Settled(e, c, r.st.files, nodes[i].href)
    ensures Extends(st, r.st) && (r.status.Completed? ==> Closed(e, c, Added(st, r.st), r.st.files))
  {
    ExtendsTrans(st, d, r.st);
    if r.status.Completed? {
      var v := Added(st, d)[0];
      forall n | n in nodes
        ensures Settled(e, c, r.st.files, n.href)
      {
        var i :| 0 <= i < |nodes| && nodes[i] == n;
      }
      assert PageCovered(e, c, v, r.st.files);
      assert Added(st, d) == [v];
      ClosedConcat(e, c, [v], Added(d, r.st), r.st.files);
    }
  }

  lemma {:induction false} CrawlLinksCloses(e: Env, c: Config, st: State, nodes: seq<Node>)
    requires forall i :: 0 <= i < |nodes| ==> nodes[i].href in AllHrefs(e)
    ensures var r := CrawlLinks(e, c, st, nodes);
      Extends(st, r.st) && (r.status.Completed? ==> Closed(e, c, Added(st, r.st), r.st.files))
    decreases |PagePaths(e, c) - st.files.Keys|, 0, |nodes|
  {
    if nodes != [] {
      var r1 := VisitLink(e, c, st, nodes[0].href);
      VisitLinkCloses(e, c, st, nodes[0].href);
      CrawlLinksSteps(e, c, st, nodes, r1.st, r1.status);
      if r1.status.Completed? {
        var r := CrawlLinks(e, c, r1.st, nodes[1..]);
        CrawlLinksCloses(e, c, r1.st, nodes[1..]);
        ExtendsTrans(st, r1.st, r.st);
        if r.status.Completed? {
          ClosedGrows(e, c, Added(st, r1.st), r1.st.files, r.st.files);
          ClosedConcat(e, c, Added(st, r1.st), Added(r1.st, r.st), r.st.files);
        }
      }
    }
  }

  lemma {:induction false} VisitLinkCloses(e: Env, c: Config, st: State, h: string)
    requires h in AllHrefs(e)
    ensures var r := VisitLink(e, c, st, h);
      Extends(st, r.st) && (r.status.Completed? ==> Closed(e, c, Added(st, r.st), r.st.files))
    decreases |PagePaths(e, c) - st.files.Keys|, 0, 0
  {
    if h != c.baseUrl.text && CreateUrl(e, c.baseUrl, h).Some? {
      var u := CreateUrl(e, c.baseUrl, h).value;
      var st1 := st.(url := Some(u));
      if Depth(u) <= c.deepLevel && PageFileName(u) !in st1.files {
        PathReachable(e, c, h);
        CardShrinks(PagePaths(e, c), st.files.Keys, st1.files.Keys, PageFileName(u));
        CrawlPageCloses(e, c, st1, h);
      }
    }
  }

  /**
   * A crawl from an empty folder that runs to its end is closed: every anchor of
   * every page it wrote, within the restriction, is the base URL, deeper than the
   * configured level, or has its page in the folder.
   */
  lemma CrawlFromEmptyFolderCloses(e: Env, c: Config, st: State, href: string)
    requires st.visits == []
    ensures var r := CrawlPage(e, c, st, href);
      r.status.Completed? ==>
        forall i, n :: 0 <= i < |r.st.visits| && n in Candidates(c, e.parseHtml(r.st.visits[i].body)) ==>
          Settled(e, c, r.st.files, n.href)
  {
    var r := CrawlPage(e, c, st, href);
    CrawlPageCloses(e, c, st, href);
    assert Added(st, r.st) == r.st.visits;
    if r.status.Completed? {
      forall i, n | 0 <= i < |r.st.visits| && n in Candidates(c, e.parseHtml(r.st.visits[i].body))
        ensures Settled(e, c, r.st.files, n.href)
      {
        assert PageCovered(e, c, r.st.visits[i], r.st.files);
      }
    }
  }

  /** A page whose anchors all miss the needle ends after its file and its images. */
  lemma CrawlResolvedNoAnchors(e: Env, c: Config, st: State, href: string, u: Uri)
    requires forall n :: n in e.parseHtml(GetPage(e, u)).anchors ==> !Contains(n.href, Needle(c))
    ensures CrawlResolved(e, c, st, href, u) == WritePage(e, c, st, href, u)
  {
    var d := WritePage(e, c, st, href, u);
    CrawlResolvedSteps(e, c, st, href, u, d.st, d.status);
    var nodes := Candidates(c, e.parseHtml(GetPage(e, u)));
    if nodes != [] {
      assert nodes[0] in nodes;
    }
  }

  // ------------------------------------------------------------ file contents

  /**
   * Every file of `f1` outside `except` is still in `f2`, with the same content
   * or replaced by an image: nothing but an image save overwrites a file.
   */
  ghost predicate Keeps(f1: map<string, File>, f2: map<string, File>, except: set<string>)
  {
    forall p :: p in f1 && p !in except ==> p in f2 && (f2[p] == f1[p] || f2[p].ImageFile?)
  }

  /** Every page in `vs` is in `files` with the text written for it, unless an image replaced it. */
  ghost predicate Holds(vs: seq<Visit>, files: map<string, File>)
  {
    forall i :: 0 <= i < |vs| ==>
      vs[i].path in files && (files[vs[i].path] == PageFile(vs[i].body) || files[vs[i].path].ImageFile?)
  }

  lemma KeepsTrans(f1: map<string, File>, f2: map<string, File>, f3: map<string, File>, a: set<string>, b: set<string>)
    requires Keeps(f1, f2, a) && Keeps(f2, f3, b) && b !! f1.Keys
    ensures Keeps(f1, f3, a)
  {
  }

  lemma HoldsKept(vs: seq<Visit>, f1: map<string, File>, f2: map<string, File>)
    requires Holds(vs, f1) && Keeps(f1, f2, {})
    ensures Holds(vs, f2)
  {
    forall i | 0 <= i < |vs|
      ensures vs[i].path in f2 && (f2[vs[i].path] == PageFile(vs[i].body) || f2[vs[i].path].ImageFile?)
    {
      assert vs[i].path in f1;
    }
  }

  lemma HoldsConcat(a: seq<Visit>, b: seq<Visit>, files: map<string, File>)
    requires Holds(a, files) && Holds(b, files)
    ensures Holds(a + b, files)
  {
    forall i | 0 <= i < |a + b|
      ensures (a + b)[i].path in files &&
        (files[(a + b)[i].path] == PageFile((a + b)[i].body) || files[(a + b)[i].path].ImageFile?)
    {
      if i < |a| {
        assert (a + b)[i] == a[i];
      } else {
        assert (a + b)[i] == b[i - |a|];
      }
    }
  }

  /** The page write keeps every other file and holds its own page. */
  lemma WritePageKeeps(e: Env, c: Config, st: State, href: string, u: Uri)
    ensures var r := WritePage(e, c, st, href, u);
      Extends(st, r.st) && Keeps(st.files, r.st.files, {PageFileName(u)}) && Holds(Added(st, r.st), r.st.files)
  {
    var path := PageFileName(u);
    var html := GetPage(e, u);
    var st2 := st.(files := st.files[path := PageFile(html)],
                   visits := st.visits + [Visit(href, path, html)]);
    var r := DownloadFormats(e, c, st2, c.formats, e.parseHtml(html).images);
    WritePageVisits(e, c, st, href, u);
    assert Keeps(st.files, st2.files, {path});
  }

  /** A page's own write, then the loop below it. */
  lemma PageThenKept(st: State, d: State, r: State, own: string)
    requires Extends(st, d) && Keeps(st.files, d.files, {own}) && Holds(Added(st, d), d.files)
    requires Extends(d, r) && Keeps(d.files, r.files, {}) && Holds(Added(d, r), r.files)
    ensures Extends(st, r) && Keeps(st.files, r.files, {own}) && Holds(Added(st, r), r.files)
  {
    ExtendsTrans(st, d, r);
    HoldsKept(Added(st, d), d.files, r.files);
    HoldsConcat(Added(st, d), Added(d, r), r.files);
  }

  /**
   * `AnalysContent(href)` overwrites no file but its own page's with anything but
   * an image, and every page it writes still holds the text written for it at the
   * end, unless an image was saved under the same name.
   */
  lemma {:induction false} CrawlPageKeeps(e: Env, c: Config, st: State, href: string)
    ensures var r := CrawlPage(e, c, st, href);
      Extends(st, r.st) && Keeps(st.files, r.st.files, OwnPath(e, c, href)) && Holds(Added(st, r.st), r.st.files)
    decreases |PagePaths(e, c) - (st.files.Keys + OwnPath(e, c, href))|, 2, 0
  {
    var st1 := Progress(c, st, HandlePage + href);
    match CreateUrl(e, c.baseUrl, href)
    case None =>
    case Some(u) =>
      CrawlResolvedKeeps(e, c, st1.(url := Some(u)), href, u);
  }

  lemma {:induction false} CrawlResolvedKeeps(e: Env, c: Config, st: State, href: string, u: Uri)
    ensures var r := CrawlResolved(e, c, st, href, u);
      Extends(st, r.st) && Keeps(st.files, r.st.files, {PageFileName(u)}) && Holds(Added(st, r.st), r.st.files)
    decreases |PagePaths(e, c) - (st.files.Keys + {PageFileName(u)})|, 1, 0
  {
    var d := WritePage(e, c, st, href, u);
    WritePageKeeps(e, c, st, href, u);
    CrawlResolvedSteps(e, c, st, href, u, d.st, d.status);
    if d.status.Completed? {
      SubsetCard(PagePaths(e, c) - d.st.files.Keys, PagePaths(e, c) - (st.files.Keys + {PageFileName(u)}));
      var nodes := Candidates(c, e.parseHtml(GetPage(e, u)));
      CrawlLinksKeeps(e, c, d.st, nodes);
      PageThenKept(st, d.st, CrawlLinks(e, c, d.st, nodes).st, PageFileName(u));
    }
  }

  /** The anchor loop overwrites no existing file but with an image, and its pages hold their texts. */
  lemma {:induction false} CrawlLinksKeeps(e: Env, c: Config, st: State, nodes: seq<Node>)
    requires forall i :: 0 <= i < |nodes| ==> nodes[i].href in AllHrefs(e)
    ensures var r := CrawlLinks(e, c, st, nodes);
      Extends(st, r.st) && Keeps(st.files, r.st.files, {}) && Holds(Added(st, r.st), r.st.files)
    decreases |PagePaths(e, c) - st.files.Keys|, 0, |nodes|
  {
    if nodes != [] {
      var r1 := VisitLink(e, c, st, nodes[0].href);
      VisitLinkKeeps(e, c, st, nodes[0].href);
      CrawlLinksSteps(e, c, st, nodes, r1.st, r1.status);
      if r1.status.Completed? {
        var r := CrawlLinks(e, c, r1.st, nodes[1..]);
        CrawlLinksKeeps(e, c, r1.st, nodes[1..]);
        LoopThenKept(st, r1.st, r.st);
      }
    }
  }

  lemma LoopThenKept(st: State, m: State, r: State)
    requires Extends(st, m) && Keeps(st.files, m.files, {}) && Holds(Added(st, m), m.files)
    requires Extends(m, r) && Keeps(m.files, r.files, {}) && Holds(Added(m, r), r.files)
    ensures Extends(st, r) && Keeps(st.files, r.files, {}) && Holds(Added(st, r), r.files)
  {
    ExtendsTrans(st, m, r);
    HoldsKept(Added(st, m), m.files, r.files);
    HoldsConcat(Added(st, m), Added(m, r), r.files);
  }

  lemma {:induction false} VisitLinkKeeps(e: Env, c: Config, st: State, h: string)
    requires h in AllHrefs(e)
    ensures var r := VisitLink(e, c, st, h);
      Extends(st, r.st) && Keeps(st.files, r.st.files, {}) && Holds(Added(st, r.st), r.st.files)
    decreases |PagePaths(e, c) - st.files.Keys|, 0, 0
  {
    if h != c.baseUrl.text && CreateUrl(e, c.baseUrl, h).Some? {
      var u := CreateUrl(e, c.baseUrl, h).value;
      var st1 := st.(url := Some(u));
      if Depth(u) <= c.deepLevel && PageFileName(u) !in st1.files {
        PathReachable(e, c, h);
        CardShrinks(PagePaths(e, c), st.files.Keys, st1.files.Keys, PageFileName(u));
        CrawlPageKeeps(e, c, st1, h);
        assert OwnPath(e, c, h) == {PageFileName(u)};
      }
    }
  }

  // ------------------------------------------------------ progress log and aborts

  /**
   * What every part of the crawl keeps: the log only grows, and not at all in
   * quiet mode; an abort names a string that does not resolve.
   */
  ghost predicate Sound(e: Env, c: Config, st: State, r: Step)
  {
    st.log <= r.st.log &&
    (!Loud(c) ==> r.st.log == st.log) &&
    (r.status.Crashed? ==> CreateUrl(e, c.baseUrl, r.status.culprit).None?)
  }

  lemma SoundTrans(e: Env, c: Config, s1: State, s2: State, r: Step)
    requires Sound(e, c, s1, Step(s2, Completed)) && Sound(e, c, s2, r)
    ensures Sound(e, c, s1, r)
  {
  }

  /** The announcement is the first message a loud page crawl adds. */
  lemma AnnounceFirst(e: Env, c: Config, st: State, st1: State, r: Step, m: string)
    requires st1.log == (if Loud(c) then st.log + [m] else st.log)
    requires Sound(e, c, st1, r)
    ensures Sound(e, c, st, r)
    ensures Loud(c) ==> |st.log| < |r.st.log| && r.st.log[|st.log|] == m
  {
    if Loud(c) {
      assert r.st.log[|st.log|] == st1.log[|st.log|];
    }
  }

  /**
   * `AnalysContent(href)` keeps Sound; in verbose mode with a handler attached,
   * its first message is the announcement of `href`.
   */
  lemma {:induction false} CrawlPageSound(e: Env, c: Config, st: State, href: string)
    ensures var r := CrawlPage(e, c, st, href);
      Sound(e, c, st, r) &&
      (Loud(c) ==> |st.log| < |r.st.log| && r.st.log[|st.log|] == HandlePage + href)
    decreases |PagePaths(e, c) - (st.files.Keys + OwnPath(e, c, href))|, 2, 0
  {
    var st1 := Progress(c, st, HandlePage + href);
    match CreateUrl(e, c.baseUrl, href)
    case None =>
      AnnounceFirst(e, c, st, st1, Step(st1, Crashed(href)), HandlePage + href);
    case Some(u) =>
      CrawlResolvedSound(e, c, st1.(url := Some(u)), href, u);
      AnnounceFirst(e, c, st, st1, CrawlResolved(e, c, st1.(url := Some(u)), href, u), HandlePage + href);
  }

  lemma {:induction false} CrawlResolvedSound(e: Env, c: Config, st: State, href: string, u: Uri)
    ensures Sound(e, c, st, CrawlResolved(e, c, st, href, u))
    decreases |PagePaths(e, c) - (st.files.Keys + {PageFileName(u)})|, 1, 0
  {
    var d := WritePage(e, c, st, href, u);
    WritePageSound(e, c, st, href, u);
    CrawlResolvedSteps(e, c, st, href, u, d.st, d.status);
    if d.status.Completed? {
      SubsetCard(PagePaths(e, c) - d.st.files.Keys, PagePaths(e, c) - (st.files.Keys + {PageFileName(u)}));
      var nodes := Candidates(c, e.parseHtml(GetPage(e, u)));
      CrawlLinksSound(e, c, d.st, nodes);
      SoundTrans(e, c, st, d.st, CrawlLinks(e, c, d.st, nodes));
    }
  }

  lemma WritePageSound(e: Env, c: Config, st: State, href: string, u: Uri)
    ensures Sound(e, c, st, WritePage(e, c, st, href, u))
  {
    var path := PageFileName(u);
    var html := GetPage(e, u);
    var st2 := st.(files := st.files[path := PageFile(html)],
                   visits := st.visits + [Visit(href, path, html)]);
    DownloadFormatsOutcome(e, c, st2, c.formats, e.parseHtml(html).images);
  }

  lemma {:induction false} CrawlLinksSound(e: Env, c: Config, st: State, nodes: seq<Node>)
    requires forall i :: 0 <= i < |nodes| ==> nodes[i].href in AllHrefs(e)
    ensures Sound(e, c, st, CrawlLinks(e, c, st, nodes))
    decreases |PagePaths(e, c) - st.files.Keys|, 0, |nodes|
  {
    if nodes != [] {
      var r1 := VisitLink(e, c, st, nodes[0].href);
      VisitLinkSound(e, c, st, nodes[0].href);
      CrawlLinksSteps(e, c, st, nodes, r1.st, r1.status);
      if r1.status.Completed? {
        CrawlLinksSound(e, c, r1.st, nodes[1..]);
        SoundTrans(e, c, st, r1.st, CrawlLinks(e, c, r1.st, nodes[1..]));
      }
    }
  }

  lemma {:induction false} VisitLinkSound(e: Env, c: Config, st: State, h: string)
    requires h in AllHrefs(e)
    ensures Sound(e, c, st, VisitLink(e, c, st, h))
    decreases |PagePaths(e, c) - st.files.Keys|, 0, 0
  {
    if h != c.baseUrl.text && CreateUrl(e, c.baseUrl, h).Some? {
      var u := CreateUrl(e, c.baseUrl, h).value;
      var st1 := st.(url := Some(u));
      if Depth(u) <= c.deepLevel && PageFileName(u) !in st1.files {
        PathReachable(e, c, h);
        CardShrinks(PagePaths(e, c), st.files.Keys, st1.files.Keys, PageFileName(u));
        CrawlPageSound(e, c, st1, h);
      }
    }
  }

  // ------------------------------------------------------ page announcements

  /** The "Handle page: " messages of a log, in order. */
  function Handles(log: seq<string>): seq<string>
  {
    if log == [] then []
    else (if StartsWith(log[0], HandlePage) then [log[0]] else []) + Handles(log[1..])
  }

  /** The announcement of each page in `vs`, in order. */
  function Announce(vs: seq<Visit>): (m: seq<string>)
    ensures |m| == |vs| && forall i :: 0 <= i < |vs| ==> m[i] == HandlePage + vs[i].href
  {
    seq(|vs|, i requires 0 <= i < |vs| => HandlePage + vs[i].href)
  }

  /** A download message, which never reads as a page announcement. */
  predicate IsDownload(m: string)
  {
    StartsWith(m, DownloadResource)
  }

  lemma {:induction false} HandlesAppend(a: seq<string>, b: seq<string>)
    ensures Handles(a + b) == Handles(a) + Handles(b)
  {
    if a == [] {
      assert a + b == b;
    } else {
      assert (a + b)[0] == a[0] && (a + b)[1..] == a[1..] + b;
      HandlesAppend(a[1..], b);
    }
  }

  lemma {:induction false} HandlesNone(log: seq<string>)
    requires forall i :: 0 <= i < |log| ==> IsDownload(log[i])
    ensures Handles(log) == []
  {
    if log != [] {
      DownloadIsNoHandle(log[0]);
      HandlesNone(log[1..]);
    }
  }

  lemma DownloadIsNoHandle(m: string)
    requires IsDownload(m)
    ensures !StartsWith(m, HandlePage)
  {
    assert m[0] == DownloadResource[0] == ' ' != HandlePage[0];
  }

  lemma {:induction false} FormatsAnnouncedShape(e: Env, baseUrl: Uri, formats: seq<string>, images: seq<string>)
    ensures var m := FormatsAnnounced(e, baseUrl, formats, images);
      forall i :: 0 <= i < |m| ==> IsDownload(m[i])
    decreases |formats|
  {
    if formats != [] {
      var srcs := SelectImages(images, formats[0]);
      var now := Announced(Handled(e, baseUrl, srcs));
      FormatsAnnouncedShape(e, baseUrl, formats[1..], images);
      var m := FormatsAnnounced(e, baseUrl, formats, images);
      forall i | 0 <= i < |m|
        ensures IsDownload(m[i])
      {
        if i < |now| {
          assert m[i] == DownloadResource + Handled(e, baseUrl, srcs)[i];
          assert (DownloadResource + Handled(e, baseUrl, srcs)[i])[..|DownloadResource|] == DownloadResource;
        } else {
          assert m[i] == FormatsAnnounced(e, baseUrl, formats[1..], images)[i - |now|];
        }
      }
    }
  }

  /** The page write and download announce no page. */
  lemma WritePageHandles(e: Env, c: Config, st: State, href: string, u: Uri)
    ensures var r := WritePage(e, c, st, href, u);
      Extends(st, r.st) && Added(st, r.st) == [Visit(href, PageFileName(u), GetPage(e, u))] &&
      st.log <= r.st.log && (Loud(c) ==> Handles(r.st.log[|st.log|..]) == [])
  {
    var path := PageFileName(u);
    var html := GetPage(e, u);
    var st2 := st.(files := st.files[path := PageFile(html)],
                   visits := st.visits + [Visit(href, path, html)]);
    var images := e.parseHtml(html).images;
    WritePageVisits(e, c, st, href, u);
    DownloadFormatsLog(e, c, st2, c.formats, images);
    if Loud(c) {
      var r := WritePage(e, c, st, href, u);
      assert r.st.log[|st.log|..] == FormatsAnnounced(e, c.baseUrl, c.formats, images);
      FormatsAnnouncedShape(e, c.baseUrl, c.formats, images);
      HandlesNone(FormatsAnnounced(e, c.baseUrl, c.formats, images));
    }
  }

  /** The messages added over two stretches are those of the first, then those of the second. */
  lemma NewLogSplit(l1: seq<string>, l2: seq<string>, l3: seq<string>)
    requires l1 <= l2 <= l3
    ensures l1 <= l3 && Handles(l3[|l1|..]) == Handles(l2[|l1|..]) + Handles(l3[|l2|..])
  {
    assert l3[|l1|..] == l2[|l1|..] + l3[|l2|..];
    HandlesAppend(l2[|l1|..], l3[|l2|..]);
  }

  /** A page's own write, then the loop below it, as seen in the log. */
  lemma PageThenHandled(st: State, d: State, r: State, href: string, loud: bool)
    requires Extends(st, d) && |Added(st, d)| == 1 && Added(st, d)[0].href == href
    requires st.log <= d.log && (loud ==> Handles(d.log[|st.log|..]) == [])
    requires Extends(d, r) && d.log <= r.log && (loud ==> Handles(r.log[|d.log|..]) == Announce(Added(d, r)))
    ensures Extends(st, r) && Added(st, r) != [] && Added(st, r)[0].href == href && st.log <= r.log
    ensures loud ==> Handles(r.log[|st.log|..]) == Announce(Added(st, r)[1..])
  {
    ExtendsTrans(st, d, r);
    NewLogSplit(st.log, d.log, r.log);
    assert Added(st, r)[1..] == Added(d, r);
  }

  /** One pass, then the rest of the loop, as seen in the log. */
  lemma LoopThenHandled(st: State, m: State, r: State, loud: bool)
    requires Extends(st, m) && st.log <= m.log && (loud ==> Handles(m.log[|st.log|..]) == Announce(Added(st, m)))
    requires Extends(m, r) && m.log <= r.log && (loud ==> Handles(r.log[|m.log|..]) == Announce(Added(m, r)))
    ensures Extends(st, r) && st.log <= r.log && (loud ==> Handles(r.log[|st.log|..]) == Announce(Added(st, r)))
  {
    ExtendsTrans(st, m, r);
    NewLogSplit(st.log, m.log, r.log);
    assert Announce(Added(st, m) + Added(m, r)) == Announce(Added(st, m)) + Announce(Added(m, r));
  }

  /** The announcement that opens a call, then the page crawl. */
  lemma AnnounceThenPage(st: State, st1: State, r: State, href: string, loud: bool)
    requires st1.visits == st.visits && st1.log == (if loud then st.log + [HandlePage + href] else st.log)
    requires Extends(st1, r) && Added(st1, r) != [] && Added(st1, r)[0].href == href && st1.log <= r.log
    requires loud ==> Handles(r.log[|st1.log|..]) == Announce(Added(st1, r)[1..])
    ensures Extends(st, r) && st.log <= r.log && (loud ==> Handles(r.log[|st.log|..]) == Announce(Added(st, r)))
  {
    assert Added(st, r) == Added(st1, r);
    if loud {
      NewLogSplit(st.log, st1.log, r.log);
      assert st1.log[|st.log|..] == [HandlePage + href];
      assert StartsWith(HandlePage + href, HandlePage);
      assert Handles([HandlePage + href]) == [HandlePage + href];
      assert Announce(Added(st, r)) == [HandlePage + href] + Announce(Added(st, r)[1..]);
    }
  }

  /**
   * In verbose mode with a handler attached, `AnalysContent(href)` logs one
   * "Handle page: " message per page it writes, naming the href the page was
   * reached by, in order, and no other; an href that does not resolve is still
   * announced once before the crawl aborts.
   */
  lemma {:induction false} CrawlPageHandles(e: Env, c: Config, st: State, href: string)
    ensures var r := CrawlPage(e, c, st, href);
      Extends(st, r.st) && st.log <= r.st.log &&
      (Loud(c) ==>
         Handles(r.st.log[|st.log|..]) ==
         if CreateUrl(e, c.baseUrl, href).None? then [HandlePage + href] else Announce(Added(st, r.st)))
    decreases |PagePaths(e, c) - (st.files.Keys + OwnPath(e, c, href))|, 2, 0
  {
    var st1 := Progress(c, st, HandlePage + href);
    match CreateUrl(e, c.baseUrl, href)
    case None =>
      if Loud(c) {
        assert st1.log[|st.log|..] == [HandlePage + href];
        assert StartsWith(HandlePage + href, HandlePage);
      }
    case Some(u) =>
      CrawlResolvedHandles(e, c, st1.(url := Some(u)), href, u);
      AnnounceThenPage(st, st1.(url := Some(u)), CrawlResolved(e, c, st1.(url := Some(u)), href, u).st, href, Loud(c));
  }

  lemma {:induction false} CrawlResolvedHandles(e: Env, c: Config, st: State, href: string, u: Uri)
    ensures var r := CrawlResolved(e, c, st, href, u);
      Extends(st, r.st) && Added(st, r.st) != [] && Added(st, r.st)[0].href == href && st.log <= r.st.log &&
      (Loud(c) ==> Handles(r.st.log[|st.log|..]) == Announce(Added(st, r.st)[1..]))
    decreases |PagePaths(e, c) - (st.files.Keys + {PageFileName(u)})|, 1, 0
  {
    var d := WritePage(e, c, st, href, u);
    WritePageHandles(e, c, st, href, u);
    CrawlResolvedSteps(e, c, st, href, u, d.st, d.status);
    if d.status.Completed? {
      SubsetCard(PagePaths(e, c) - d.st.files.Keys, PagePaths(e, c) - (st.files.Keys + {PageFileName(u)}));
      var nodes := Candidates(c, e.parseHtml(GetPage(e, u)));
      CrawlLinksHandles(e, c, d.st, nodes);
      PageThenHandled(st, d.st, CrawlLinks(e, c, d.st, nodes).st, href, Loud(c));
    } else {
      assert Added(st, d.st)[1..] == [];
    }
  }

  lemma {:induction false} CrawlLinksHandles(e: Env, c: Config, st: State, nodes: seq<Node>)
    requires forall i :: 0 <= i < |nodes| ==> nodes[i].href in AllHrefs(e)
    ensures var r := CrawlLinks(e, c, st, nodes);
      Extends(st, r.st) && st.log <= r.st.log && (Loud(c) ==> Handles(r.st.log[|st.log|..]) == Announce(Added(st, r.st)))
    decreases |PagePaths(e, c) - st.files.Keys|, 0, |nodes|
  {
    if nodes != [] {
      var r1 := VisitLink(e, c, st, nodes[0].href);
      VisitLinkHandles(e, c, st, nodes[0].href);
      CrawlLinksSteps(e, c, st, nodes, r1.st, r1.status);
      if r1.status.Completed? {
        CrawlLinksHandles(e, c, r1.st, nodes[1..]);
        LoopThenHandled(st, r1.st, CrawlLinks(e, c, r1.st, nodes[1..]).st, Loud(c));
      }
    }
  }

  lemma {:induction false} VisitLinkHandles(e: Env, c: Config, st: State, h: string)
    requires h in AllHrefs(e)
    ensures var r := VisitLink(e, c, st, h);
      Extends(st, r.st) && st.log <= r.st.log && (Loud(c) ==> Handles(r.st.log[|st.log|..]) == Announce(Added(st, r.st)))
    decreases |PagePaths(e, c) - st.files.Keys|, 0, 0
  {
    if h != c.baseUrl.text && CreateUrl(e, c.baseUrl, h).Some? {
      var u := CreateUrl(e, c.baseUrl, h).value;
      var st1 := st.(url := Some(u));
      if Depth(u) <= c.deepLevel && PageFileName(u) !in st1.files {
        PathReachable(e, c, h);
        CardShrinks(PagePaths(e, c), st.files.Keys, st1.files.Keys, PageFileName(u));
        CrawlPageHandles(e, c, st1, h);
        assert Added(st, CrawlPage(e, c, st1, h).st) == Added(st1, CrawlPage(e, c, st1, h).st);
      }
    }
  }
}
