/**
 * The anchor loop iterates the selected anchors themselves, not their Distinct
 * (which is built but never enumerated, so it is never evaluated). These lemmas
 * show that this costs nothing but the final value of `Url`: a repeated href is
 * always skipped, because its first occurrence either aborted the crawl or left
 * it settled. CrawlLinksDistinct replaces the loop in one call, keeping the
 * nested crawls unchanged; CrawlPageDedup replaces it in every nested call.
 */
module DedupProperties {
  import opened Wrappers
  import opened Strings
  import opened Html
  import opened Web
  import opened Crawler
  import opened CrawlProperties
  import opened NodeComparer

  /** Two outcomes that agree on everything but the `Url` field. */
  ghost predicate SameButUrl(a: Step, b: Step)
  {
    a.status == b.status && a.st.files == b.st.files && a.st.log == b.st.log && a.st.visits == b.st.visits
  }

  /** One pass of the loop does not read `Url`: it sets it before anything reads it. */
  lemma VisitLinkIgnoresUrl(e: Env, c: Config, st: State, h: string, x: Option<Uri>)
    requires h in AllHrefs(e)
    ensures var r := VisitLink(e, c, st, h);
      var r' := VisitLink(e, c, st.(url := x), h);
      r'.status == r.status && r'.st == r.st.(url := r'.st.url)
  {
    if h != c.baseUrl.text && CreateUrl(e, c.baseUrl, h).Some? {
      var u := CreateUrl(e, c.baseUrl, h).value;
      if Depth(u) <= c.deepLevel {
        assert st.(url := x).(url := Some(u)) == st.(url := Some(u));
      }
    }
  }

  /** Neither does the whole anchor loop. */
  lemma {:induction false} CrawlLinksIgnoresUrl(e: Env, c: Config, st: State, nodes: seq<Node>, x: Option<Uri>)
    requires forall i :: 0 <= i < |nodes| ==> nodes[i].href in AllHrefs(e)
    ensures SameButUrl(CrawlLinks(e, c, st, nodes), CrawlLinks(e, c, st.(url := x), nodes))
    decreases |nodes|
  {
    if nodes != [] {
      var r1 := VisitLink(e, c, st, nodes[0].href);
      var r1' := VisitLink(e, c, st.(url := x), nodes[0].href);
      VisitLinkIgnoresUrl(e, c, st, nodes[0].href, x);
      CrawlLinksSteps(e, c, st, nodes, r1.st, r1.status);
      CrawlLinksSteps(e, c, st.(url := x), nodes, r1'.st, r1'.status);
      if r1.status.Completed? {
        assert r1'.st == r1.st.(url := r1'.st.url);
        CrawlLinksIgnoresUrl(e, c, r1.st, nodes[1..], r1'.st.url);
      }
    }
  }

  /** A pass on an href that is already settled skips it, setting at most `Url`. */
  lemma SettledSkipped(e: Env, c: Config, st: State, h: string)
    requires h in AllHrefs(e) && Settled(e, c, st.files, h)
    ensures var r := VisitLink(e, c, st, h);
      r.status == Completed && r.st == st.(url := r.st.url)
  {
  }

  /** The hrefs that DistinctFrom keeps are hrefs of its input. */
  lemma DistinctFromReachable(e: Env, nodes: seq<Node>, seen: set<string>)
    requires forall i :: 0 <= i < |nodes| ==> nodes[i].href in AllHrefs(e)
    ensures var d := DistinctFrom(nodes, seen);
      forall i :: 0 <= i < |d| ==> d[i].href in AllHrefs(e)
  {
    var d := DistinctFrom(nodes, seen);
    forall i | 0 <= i < |d|
      ensures d[i].href in AllHrefs(e)
    {
      assert d[i] in d;
      assert d[i].href in Hrefs(d);
      var n :| n in nodes && n.href == d[i].href;
      var j :| 0 <= j < |nodes| && nodes[j] == n;
    }
  }

  lemma SettledAll(e: Env, c: Config, f1: map<string, File>, f2: map<string, File>, seen: set<string>, h: string)
    requires f1.Keys <= f2.Keys && forall s :: s in seen ==> Settled(e, c, f1, s)
    requires Settled(e, c, f2, h)
    ensures forall s :: s in seen + {h} ==> Settled(e, c, f2, s)
  {
    forall s | s in seen
      ensures Settled(e, c, f2, s)
    {
      SettledGrows(e, c, f1, f2, s);
    }
  }

  /**
   * The loop over the anchors and the loop over their Distinct, after the hrefs
   * in `seen` have been settled, end alike but for `Url`.
   */
  lemma {:induction false} CrawlLinksDistinctFrom(e: Env, c: Config, st: State, nodes: seq<Node>, seen: set<string>)
    requires forall i :: 0 <= i < |nodes| ==> nodes[i].href in AllHrefs(e)
    requires forall s :: s in seen ==> Settled(e, c, st.files, s)
    ensures var d := DistinctFrom(nodes, seen);
      (forall i :: 0 <= i < |d| ==> d[i].href in AllHrefs(e)) &&
      SameButUrl(CrawlLinks(e, c, st, nodes), CrawlLinks(e, c, st, d))
    decreases |nodes|, 1
  {
    DistinctFromReachable(e, nodes, seen);
    if nodes == [] {
    } else if nodes[0].href in seen {
      SkipSeen(e, c, st, nodes, seen);
    } else {
      KeepNew(e, c, st, nodes, seen);
    }
  }

  /** A first node whose href is settled: the plain loop skips it, Distinct drops it. */
  lemma {:induction false} SkipSeen(e: Env, c: Config, st: State, nodes: seq<Node>, seen: set<string>)
    requires forall i :: 0 <= i < |nodes| ==> nodes[i].href in AllHrefs(e)
    requires forall s :: s in seen ==> Settled(e, c, st.files, s)
    requires nodes != [] && nodes[0].href in seen
    ensures var d := DistinctFrom(nodes, seen);
      (forall i :: 0 <= i < |d| ==> d[i].href in AllHrefs(e)) &&
      SameButUrl(CrawlLinks(e, c, st, nodes), CrawlLinks(e, c, st, d))
    decreases |nodes|, 0
  {
    var h := nodes[0].href;
    var r1 := VisitLink(e, c, st, h);
    SettledSkipped(e, c, st, h);
    CrawlLinksSteps(e, c, st, nodes, r1.st, r1.status);
    var d1 := DistinctFrom(nodes[1..], seen);
    assert DistinctFrom(nodes, seen) == d1;
    DistinctFromReachable(e, nodes, seen);
    CrawlLinksDistinctFrom(e, c, r1.st, nodes[1..], seen);
    CrawlLinksIgnoresUrl(e, c, st, d1, r1.st.url);
    SameButUrlTrans(CrawlLinks(e, c, r1.st, nodes[1..]), CrawlLinks(e, c, r1.st, d1), CrawlLinks(e, c, st, d1));
  }

  lemma SameButUrlTrans(a: Step, b: Step, c: Step)
    requires SameButUrl(a, b) && SameButUrl(c, b)
    ensures SameButUrl(a, c)
  {
  }

  /** A first node with a new href: both loops make the same pass on it. */
  lemma {:induction false} KeepNew(e: Env, c: Config, st: State, nodes: seq<Node>, seen: set<string>)
    requires forall i :: 0 <= i < |nodes| ==> nodes[i].href in AllHrefs(e)
    requires forall s :: s in seen ==> Settled(e, c, st.files, s)
    requires nodes != [] && nodes[0].href !in seen
    ensures var d := DistinctFrom(nodes, seen);
      (forall i :: 0 <= i < |d| ==> d[i].href in AllHrefs(e)) &&
      SameButUrl(CrawlLinks(e, c, st, nodes), CrawlLinks(e, c, st, d))
    decreases |nodes|, 0
  {
    var h := nodes[0].href;
    var r1 := VisitLink(e, c, st, h);
    var d := DistinctFrom(nodes, seen);
    DistinctFromKeeps(nodes, seen);
    DistinctFromReachable(e, nodes, seen);
    CrawlLinksSteps(e, c, st, nodes, r1.st, r1.status);
    CrawlLinksSteps(e, c, st, d, r1.st, r1.status);
    if r1.status.Completed? {
      VisitLinkSettles(e, c, st, h);
      SettledAll(e, c, st.files, r1.st.files, seen, h);
      CrawlLinksDistinctFrom(e, c, r1.st, nodes[1..], seen + {h});
    }
  }

  lemma DistinctFromKeeps(nodes: seq<Node>, seen: set<string>)
    requires nodes != [] && nodes[0].href !in seen
    ensures var d := DistinctFrom(nodes, seen);
      d != [] && d[0] == nodes[0] && d[1..] == DistinctFrom(nodes[1..], seen + {nodes[0].href})
  {
    var d := DistinctFrom(nodes, seen);
    assert d == [nodes[0]] + DistinctFrom(nodes[1..], seen + {nodes[0].href});
  }

  /**
   * Iterating `htmlNodes.Distinct(comparer)` instead of `htmlNodes` in one loop,
   * the nested crawls unchanged, would leave the same folder, log and pages
   * written, and end in the same way.
   */
  lemma CrawlLinksDistinct(e: Env, c: Config, st: State, nodes: seq<Node>)
    requires forall i :: 0 <= i < |nodes| ==> nodes[i].href in AllHrefs(e)
    ensures var d := Distinct(nodes);
      (forall i :: 0 <= i < |d| ==> d[i].href in AllHrefs(e)) &&
      SameButUrl(CrawlLinks(e, c, st, nodes), CrawlLinks(e, c, st, d))
  {
    CrawlLinksDistinctFrom(e, c, st, nodes, {});
  }

  // ------------------------------------------- Distinct at every level of the crawl

  /** CrawlPage, with every nested loop iterating the Distinct of its anchors. */
  ghost function CrawlPageD(e: Env, c: Config, st: State, href: string): (r: Step)
    ensures st.files.Keys + OwnPath(e, c, href) <= r.st.files.Keys
    decreases |PagePaths(e, c) - (st.files.Keys + OwnPath(e, c, href))|, 2, 0
  {
    var st1 := Progress(c, st, HandlePage + href);
    match CreateUrl(e, c.baseUrl, href)
    case None => Step(st1, Crashed(href))
    case Some(u) => CrawlResolvedD(e, c, st1.(url := Some(u)), href, u)
  }

  /** CrawlResolved, iterating `Distinct` of the selected anchors. */
  ghost function CrawlResolvedD(e: Env, c: Config, st: State, href: string, u: Uri): (r: Step)
    ensures st.files.Keys + {PageFileName(u)} <= r.st.files.Keys
    decreases |PagePaths(e, c) - (st.files.Keys + {PageFileName(u)})|, 1, 0
  {
    var d := WritePage(e, c, st, href, u);
    if d.status.Crashed? then d
    else
      CrawlResolvedSteps(e, c, st, href, u, d.st, d.status);
      DistinctReachable(e, Candidates(c, e.parseHtml(GetPage(e, u))));
      SubsetCard(PagePaths(e, c) - d.st.files.Keys, PagePaths(e, c) - (st.files.Keys + {PageFileName(u)}));
      CrawlLinksD(e, c, d.st, Distinct(Candidates(c, e.parseHtml(GetPage(e, u)))))
  }

  /** The hrefs that Distinct keeps can be crawled when its input's can. */
  lemma DistinctReachable(e: Env, nodes: seq<Node>)
    requires forall i :: 0 <= i < |nodes| ==> nodes[i].href in AllHrefs(e)
    ensures var d := Distinct(nodes);
      forall i :: 0 <= i < |d| ==> d[i].href in AllHrefs(e)
  {
    assert Distinct(nodes) == DistinctFrom(nodes, {});
    DistinctFromReachable(e, nodes, {});
  }

  /** CrawlLinks, its passes crawling through CrawlPageD. */
  ghost function CrawlLinksD(e: Env, c: Config, st: State, nodes: seq<Node>): (r: Step)
    requires forall i :: 0 <= i < |nodes| ==> nodes[i].href in AllHrefs(e)
    ensures st.files.Keys <= r.st.files.Keys
    decreases |PagePaths(e, c) - st.files.Keys|, 0, |nodes|
  {
    if nodes == [] then Step(st, Completed)
    else
      var r := VisitLinkD(e, c, st, nodes[0].href);
      if r.status.Crashed? then r
      else
        SubsetCard(PagePaths(e, c) - r.st.files.Keys, PagePaths(e, c) - st.files.Keys);
        CrawlLinksD(e, c, r.st, nodes[1..])
  }

  /** VisitLink, crawling through CrawlPageD. */
  ghost function VisitLinkD(e: Env, c: Config, st: State, h: string): (r: Step)
    requires h in AllHrefs(e)
    ensures st.files.Keys <= r.st.files.Keys
    decreases |PagePaths(e, c) - st.files.Keys|, 0, 0
  {
    if h == c.baseUrl.text then Step(st, Completed)
    else
      match CreateUrl(e, c.baseUrl, h)
      case None => Step(st, Crashed(h))
      case Some(u) =>
        if Depth(u) > c.deepLevel then Step(st, Completed)
        else
          var st1 := st.(url := Some(u));
          if PageFileName(u) in st1.files then Step(st1, Completed)
          else
            PathReachable(e, c, h);
            CardShrinks(PagePaths(e, c), st.files.Keys, st1.files.Keys, PageFileName(u));
            CrawlPageD(e, c, st1, h)
  }

  /**
   * Iterating `htmlNodes.Distinct(comparer)` in every nested `AnalysContent`,
   * from any value of `Url`, would leave the same folder, log and pages written,
   * and end in the same way.
   */
  lemma {:induction false} CrawlPageDedup(e: Env, c: Config, st: State, href: string, x: Option<Uri>)
    ensures SameButUrl(CrawlPage(e, c, st, href), CrawlPageD(e, c, st.(url := x), href))
    decreases |PagePaths(e, c) - (st.files.Keys + OwnPath(e, c, href))|, 2, 0
  {
    var st1 := Progress(c, st, HandlePage + href);
    var st1' := Progress(c, st.(url := x), HandlePage + href);
    match CreateUrl(e, c.baseUrl, href)
    case None =>
    case Some(u) =>
      assert st1'.(url := Some(u)) == st1.(url := Some(u));
      CrawlResolvedDedup(e, c, st1.(url := Some(u)), href, u);
  }

  lemma {:induction false} CrawlResolvedDedup(e: Env, c: Config, st: State, href: string, u: Uri)
    ensures SameButUrl(CrawlResolved(e, c, st, href, u), CrawlResolvedD(e, c, st, href, u))
    decreases |PagePaths(e, c) - (st.files.Keys + {PageFileName(u)})|, 1, 0
  {
    var d := WritePage(e, c, st, href, u);
    CrawlResolvedSteps(e, c, st, href, u, d.st, d.status);
    if d.status.Completed? {
      var nodes := Candidates(c, e.parseHtml(GetPage(e, u)));
      var dn := Distinct(nodes);
      SubsetCard(PagePaths(e, c) - d.st.files.Keys, PagePaths(e, c) - (st.files.Keys + {PageFileName(u)}));
      CrawlLinksDistinct(e, c, d.st, nodes);
      assert CrawlResolvedD(e, c, st, href, u) == CrawlLinksD(e, c, d.st, dn);
      assert d.st.(url := d.st.url) == d.st;
      CrawlLinksDedup(e, c, d.st, dn, d.st.url);
    }
  }

  lemma {:induction false} CrawlLinksDedup(e: Env, c: Config, st: State, nodes: seq<Node>, x: Option<Uri>)
    requires forall i :: 0 <= i < |nodes| ==> nodes[i].href in AllHrefs(e)
    ensures SameButUrl(CrawlLinks(e, c, st, nodes), CrawlLinksD(e, c, st.(url := x), nodes))
    decreases |PagePaths(e, c) - st.files.Keys|, 0, |nodes|
  {
    if nodes != [] {
      var r1 := VisitLink(e, c, st, nodes[0].href);
      var r1' := VisitLinkD(e, c, st.(url := x), nodes[0].href);
      VisitLinkDedup(e, c, st, nodes[0].href, x);
      CrawlLinksSteps(e, c, st, nodes, r1.st, r1.status);
      if r1.status.Completed? {
        SubsetCard(PagePaths(e, c) - r1.st.files.Keys, PagePaths(e, c) - st.files.Keys);
        assert r1' == Step(r1.st.(url := r1'.st.url), Completed);
        CrawlLinksDedup(e, c, r1.st, nodes[1..], r1'.st.url);
      }
    }
  }

  lemma {:induction false} VisitLinkDedup(e: Env, c: Config, st: State, h: string, x: Option<Uri>)
    requires h in AllHrefs(e)
    ensures var r := VisitLink(e, c, st, h);
      var r' := VisitLinkD(e, c, st.(url := x), h);
      r'.status == r.status && r'.st == r.st.(url := r'.st.url)
    decreases |PagePaths(e, c) - st.files.Keys|, 0, 0
  {
    if h != c.baseUrl.text && CreateUrl(e, c.baseUrl, h).Some? {
      var u := CreateUrl(e, c.baseUrl, h).value;
      var st1 := st.(url := Some(u));
      assert st.(url := x).(url := Some(u)) == st1;
      if Depth(u) <= c.deepLevel && PageFileName(u) !in st1.files {
        PathReachable(e, c, h);
        CardShrinks(PagePaths(e, c), st.files.Keys, st1.files.Keys, PageFileName(u));
        assert st1.(url := Some(u)) == st1;
        CrawlPageDedup(e, c, st1, h, Some(u));
      }
    }
  }
}
