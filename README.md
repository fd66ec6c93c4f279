# HttpCreator crawl engine, modelled in Dafny

This project models the crawl engine of `HTTP_core`. The engine is the class
`HttpCreator`, together with the `NodeComparer` it uses to compare anchors.

Starting from one href, `AnalysContent` works as follows:

- It announces the page.
- It resolves the href against the base URL. The href is used as is when it parses; otherwise the base's `AbsoluteUri` and the href are concatenated and parsed.
- It fetches the page and writes the text verbatim into the save folder, under the resolved AbsolutePath with `/` replaced by `_` plus `.html`.
- It downloads the page's images for each configured format.
- It selects, with XPath `contains()`, the anchors whose href holds the needle of the domain restriction.
- It visits those anchors in document order. A visit skips the base URL itself, pages deeper than `DeepLevel`, and pages whose file already exists; otherwise it recurses.

An href that does not resolve raises `UriFormatException`. Nothing catches it, so the whole crawl is aborted.

## Structure

- `Wrappers`: `Option`.
- `Strings`: the .NET and XPath string operations the code relies on: `Replace("/", "_")`, `Trim('/')`, `Split('/')` and XPath 1.0 `contains()` (section 4.2 of XPath 1.0).
- `Html`: a parsed page, as its anchors and its image sources in document order, and the two XPath selections.
- `Web`: a `Uri` record and an environment `Env`.
  - `Env` stands in for URI parsing, HTML parsing and HTTP. It is two functions plus two finite maps of pages and resources.
  - `GetPage` returns the served body. A network failure gives `""`. A non-http(s) scheme gives the fixed ArgumentException text.
  - `GetResource` returns a stream, or `None` for `null`.
- `NodeComparer`: equality on hrefs, the hash, and first-occurrence `Distinct`.
- `Crawler`: the engine itself, in two layers.
  - The pure helpers are `CreateUrl`, `PageFileName`, `ImageFileName`, `Depth`, `GetHrefSelectors`, `Needle` (the needle of a configuration), `Candidates` (the anchor selection) and `Progress` (the effect of `OnProgress` on the state).
  - The ghost specification functions are `CrawlPage`, `CrawlResolved`, `WritePage`, `CrawlLinks`, `VisitLink`, `DownloadFormats` and `DownloadSrcs`. They work over a value `State`, which holds the folder, the progress log, the `Url` field and the pages written.
  - The class `HttpCreator` holds the same state in fields.
  - Its methods `AnalysContent` and `DownloadResources` are proved to compute exactly what those functions say. The proof splits `AnalysContent` into `CrawlResolvedPage`, `SavePage`, `FollowLinks` and `FollowLink`, and `DownloadResources` keeps the source's nested `foreach` loops.
  - Termination of the recursion is proved. The web is finite, so the page files the crawl can ever write form a finite set, and every recursive call writes a file of that set that did not exist before.
- `CrawlProperties`, `DownloadProperties`, `DedupProperties` and `NamingProperties`: what the crawl guarantees, proved about the specification functions. It holds for the class through its methods' contracts.

The depth rule is the code's own: `PathAndQuery.Trim('/').Split('/').Count()`. Counting only non-empty segments would give `/` depth 0; the code gives it depth 1 (the same as `/a`), and it gives `/a//b` depth 3.

Some consequences of the code as written, each proved below:

- `/a/b` and `/a_b` are saved to the same file. The second one is then skipped as already written.
- Two pages that differ only in their query share a file.
- An image format `.html` names an image exactly like the page of the same path.
- The `Distinct` built at `HttpCreator.cs:125` is never enumerated, so the deferred query is never evaluated. Iterating it instead, in one loop or in every nested call, would change only the final value of the private `Url` field.

## Model

| member | source | states |
|---|---|---|
| Strings.ReplaceSlashes | HTTP_core/HttpCreator.cs:88 | same length; every '/' becomes '_' and every other character is kept; the result holds no '/' |
| Strings.TrimStart | HTTP_core/HttpCreator.cs:135 | the result is the suffix left after the leading run of the character, and it does not start with that character |
| Strings.TrimEnd | HTTP_core/HttpCreator.cs:135 | the result is the prefix left before the trailing run, and it does not end with the character |
| Strings.Trim | HTTP_core/HttpCreator.cs:135 | the result is the infix between the leading and the trailing runs of the character; it neither starts nor ends with it |
| Strings.Split | HTTP_core/HttpCreator.cs:135 | one piece more than there are separators; no piece holds the separator; joining the pieces gives the input back |
| Strings.SplitJoin | HTTP_core/HttpCreator.cs:135 | splitting a join of separator-free pieces gives the pieces back (Split and Join are inverse) |
| Strings.Contains | HTTP_core/HttpCreator.cs:118 | XPath `contains(s, needle)` holds exactly when the needle occurs in s at some index (both directions; the empty needle always occurs) |
| Html.SelectAnchors | HTTP_core/HttpCreator.cs:118 | an anchor is selected iff it is on the page and its href contains the needle; each selected anchor appears as often as on the page; document order is kept (subsequence) |
| Html.SelectImages | HTTP_core/HttpCreator.cs:157 | a source is selected iff it is on the page and contains the format; a repeated source is selected as often as it occurs; document order is kept |
| Web.GetPage | HTTP_core/HttpCreator.cs:205-223 | the served body verbatim for http(s); "" when the request fails; the ArgumentException text for any other scheme |
| Web.GetResource | HTTP_core/HttpCreator.cs:187-203 | a stream exactly for an http(s) address that serves one, and then that stream; otherwise null |
| NodeComparer.Equals | HTTP_core/NodeComparer.cs:11-14 | true iff the two hrefs are equal as C# `==` compares strings: the same length and the same character at every index |
| NodeComparer.EqualsIsEquivalence | HTTP_core/NodeComparer.cs:11-14 | href equality is reflexive, symmetric and transitive |
| NodeComparer.WrapInt32 | HTTP_core/NodeComparer.cs:18 | unchecked Int32 arithmetic: the result is in the Int32 range and congruent to the input modulo 2^32 |
| NodeComparer.GetHashCode | HTTP_core/NodeComparer.cs:16-19 | the hash is the href's string hash times 17, wrapped to Int32 |
| NodeComparer.HashRespectsEquals | HTTP_core/NodeComparer.cs:16-19 | nodes equal under the comparer have equal hashes, whatever the string hash |
| NodeComparer.DistinctFrom | HTTP_core/HttpCreator.cs:125 | a subsequence of the input whose hrefs are exactly the input's hrefs not yet seen |
| NodeComparer.DistinctFromPairwise | HTTP_core/HttpCreator.cs:125 | no two nodes that Distinct yields are equal under the comparer |
| NodeComparer.Distinct | HTTP_core/HttpCreator.cs:125 | a subsequence of the input, pairwise distinct under the comparer, with the same set of hrefs |
| NodeComparer.DistinctFromAppend | HTTP_core/HttpCreator.cs:125 | Distinct over a concatenation is the first part's Distinct followed by the second part's new hrefs |
| NodeComparer.DistinctKeepsFirstOccurrence | HTTP_core/HttpCreator.cs:125 | node i is kept iff no earlier node has its href: first occurrence, in input order |
| NodeComparer.DistinctFromOfDistinct | HTTP_core/HttpCreator.cs:125 | nodes already pairwise distinct and unseen pass through unchanged |
| NodeComparer.DistinctIdempotent | HTTP_core/HttpCreator.cs:125 | applying Distinct twice gives the same result as applying it once |
| Crawler.CreateUrl | HTTP_core/HttpCreator.cs:92-102 | the definition, one ensures per branch of the try/catch: an href that parses is used as parsed; otherwise the result is the parse of base AbsoluteUri + href, by string concatenation (what follows from it is proved in the CrawlProperties lemmas) |
| Crawler.PageFileName | HTTP_core/HttpCreator.cs:84-90 | the name is the AbsolutePath with every '/' turned into '_' and every other character kept, followed by ".html"; it holds no '/' |
| Crawler.ImageFileName | HTTP_core/HttpCreator.cs:181-185 | the name is the AbsolutePath with every '/' turned into '_' and every other character kept, followed by the format verbatim (so the path part holds no '/') |
| Crawler.GetHrefSelectors | HTTP_core/HttpCreator.cs:225-247 | the definition, one ensures per case of the switch: Authority + AbsolutePath + Query for NoHigherWay, Host for OnlyCurrentDomain, "http" for WithoutRestriction (how the needles relate is proved in NamingProperties.NoHigherWayWithinDomain) |
| Crawler.Candidates | HTTP_core/HttpCreator.cs:118 | an anchor is a candidate iff it is on the page and its href contains the restriction's needle; multiplicities and document order are kept |
| Crawler.Progress | HTTP_core/HttpCreator.cs:77-82 | the message is appended to the log exactly when verbose and a handler is attached; folder, `Url` and the pages written are unchanged |
| Crawler.Depth | HTTP_core/HttpCreator.cs:135 | the depth is 1 plus the number of '/' left in PathAndQuery once its leading and trailing '/' are trimmed |
| Crawler.PathsOfContains | HTTP_core/HttpCreator.cs:144-149 | the page file of every reachable href belongs to the finite set of files the crawl can write |
| Crawler.CardShrinks | HTTP_core/HttpCreator.cs:144-149 | writing a reachable page whose file is absent strictly shrinks what is left to write (the termination measure) |
| Crawler.DownloadSrcs | HTTP_core/HttpCreator.cs:164-176 | one format's loop only adds files and log messages, and leaves `Url` and the pages written alone |
| Crawler.DownloadFormats | HTTP_core/HttpCreator.cs:155-177 | all formats: files and log only grow, every file either keeps its old content or is an image; `Url` and the pages written are unchanged |
| Crawler.CrawlPage | HTTP_core/HttpCreator.cs:104-151 | a call never removes a file, and leaves the page file of its resolved href in the folder |
| Crawler.CrawlResolved | HTTP_core/HttpCreator.cs:109-150 | once the href resolved to u, the page file of u is in the final folder, along with every file there before |
| Crawler.CrawlResolvedSteps | HTTP_core/HttpCreator.cs:109-127 | a page crawl is the page write and download, then (unless that aborted) the loop over the page's selected anchors |
| Crawler.WritePage | HTTP_core/HttpCreator.cs:109-115 | the page's file holds the fetched text afterwards, unless one of the page's images was saved under the same name; earlier file names remain |
| Crawler.CrawlLinks | HTTP_core/HttpCreator.cs:127-150 | the anchor loop never removes a file |
| Crawler.VisitLink | HTTP_core/HttpCreator.cs:129-149 | one pass of the loop never removes a file |
| Crawler.HttpCreator.constructor | HTTP_core/HttpCreator.cs:25-40 | defaults: DeepLevel 0, OnlyCurrentDomain, formats ["*"], not verbose; the save folder is empty, no page written, no message sent |
| Crawler.HttpCreator.Init | HTTP_core/HttpCreator.cs:66-74 | the save folder is empty afterwards |
| Crawler.HttpCreator.SetDeepLevel | HTTP_core/HttpCreator.cs:42-46 | sets DeepLevel, changes nothing else, returns the same object |
| Crawler.HttpCreator.SetDomainRestriction | HTTP_core/HttpCreator.cs:48-52 | sets the restriction, changes nothing else, returns the same object |
| Crawler.HttpCreator.SetDownloadResourceRestriction | HTTP_core/HttpCreator.cs:54-58 | sets the format list, changes nothing else, returns the same object |
| Crawler.HttpCreator.SetVerboseMode | HTTP_core/HttpCreator.cs:60-64 | sets verbose mode, changes nothing else, returns the same object |
| Crawler.HttpCreator.Subscribe | HTTP_core/HttpCreator.cs:22 | a Progress handler is attached |
| Crawler.HttpCreator.OnProgress | HTTP_core/HttpCreator.cs:77-82 | the message is appended to the log exactly when a handler is attached and verbose mode is on; nothing else changes |
| Crawler.HttpCreator.CreateFilePath | HTTP_core/HttpCreator.cs:84-90 | for a resolvable href: `Url` becomes its URI and the page file name is returned; otherwise the exception, with `Url` unchanged |
| Crawler.HttpCreator.DownloadResources | HTTP_core/HttpCreator.cs:153-179 | the nested loops over formats and their sources leave exactly the state and outcome of DownloadFormats |
| Crawler.HttpCreator.AnalysContent | HTTP_core/HttpCreator.cs:104-151 | the method leaves exactly the folder, log, `Url` and outcome of CrawlPage from the state it started in |
| Crawler.HttpCreator.CrawlResolvedPage | HTTP_core/HttpCreator.cs:109-150 | from the write on: exactly CrawlResolved |
| Crawler.HttpCreator.SavePage | HTTP_core/HttpCreator.cs:109-115 | exactly WritePage, and the document parsed from the fetched text |
| Crawler.HttpCreator.FollowLinks | HTTP_core/HttpCreator.cs:127-150 | the foreach over the selected anchors leaves exactly the state and outcome of CrawlLinks |
| Crawler.HttpCreator.FollowLink | HTTP_core/HttpCreator.cs:129-149 | one pass leaves exactly the state and outcome of VisitLink |
| CrawlProperties.WritePageVisits | HTTP_core/HttpCreator.cs:109-115 | a page write records exactly one page: the href, its file name and the fetched text |
| CrawlProperties.CrawlPageVisits | HTTP_core/HttpCreator.cs:104-151 | a call writes a first page iff its href resolves: the page of that href; every later page it writes passed all loop guards, is written once, and never over a file that existed before |
| CrawlProperties.CrawlResolvedVisits | HTTP_core/HttpCreator.cs:109-150 | the first page written is the resolved page with its fetched text; the pages below it are fresh and guarded |
| CrawlProperties.CrawlLinksVisits | HTTP_core/HttpCreator.cs:127-150 | the pages the anchor loop writes are pairwise distinct and new to the folder, each passed every guard, and all remain at the end |
| CrawlProperties.VisitLinkVisits | HTTP_core/HttpCreator.cs:129-149 | the same for one pass: a page is written only when the href is not the base, contains the needle, is not too deep and its file is absent |
| CrawlProperties.CrawlLinksSteps | HTTP_core/HttpCreator.cs:127-150 | the loop is its first pass, then (unless that aborted) the loop over the rest |
| CrawlProperties.CrawlFromEmptyFolder | HTTP_core/HttpCreator.cs:104-151 | from an empty folder no file is written twice: the pages written have distinct names, all present at the end; the first is the start href's page, every other passed the guards |
| CrawlProperties.VisitLinkSettles | HTTP_core/HttpCreator.cs:129-149 | a pass that does not abort leaves its href settled: the base, too deep, or its page file written |
| CrawlProperties.CrawlLinksCovers | HTTP_core/HttpCreator.cs:127-150 | when the loop runs to its end, every anchor it was given is settled in the final folder |
| CrawlProperties.CrawlResolvedCovers | HTTP_core/HttpCreator.cs:109-150 | a page crawl leaves its own file written and, when it runs to its end, every selected anchor of the page settled |
| CrawlProperties.CrawlPageCloses | HTTP_core/HttpCreator.cs:104-151 | when a call runs to its end, every page it wrote, at any depth of the recursion, has each of its selected anchors settled in the final folder |
| CrawlProperties.CrawlResolvedCloses | HTTP_core/HttpCreator.cs:109-150 | the same closure for a page crawl once its href resolved |
| CrawlProperties.CrawlLinksCloses | HTTP_core/HttpCreator.cs:127-150 | the same closure for the pages the anchor loop writes |
| CrawlProperties.VisitLinkCloses | HTTP_core/HttpCreator.cs:129-149 | the same closure for the pages one pass writes |
| CrawlProperties.CrawlFromEmptyFolderCloses | HTTP_core/HttpCreator.cs:104-151 | a crawl that runs to its end is closed under following anchors: every selected anchor of every page written is the base, too deep, or has its page file in the folder |
| CrawlProperties.CrawlResolvedNoAnchors | HTTP_core/HttpCreator.cs:118-123 | when no anchor holds the needle, the call ends once the page and its images are written |
| CrawlProperties.CrawlPageSound | HTTP_core/HttpCreator.cs:104-151 | the log only grows, and not at all when quiet; an abort names an unresolvable string; when loud, the first new message is "Handle page: " + href |
| CrawlProperties.CrawlPageHandles | HTTP_core/HttpCreator.cs:104-151 | when loud, the "Handle page: " messages a call logs are exactly one per page it writes, naming the href that page was reached by, in the order written, at any depth; an href that does not resolve is announced once before the abort |
| CrawlProperties.CrawlResolvedHandles | HTTP_core/HttpCreator.cs:109-150 | a page crawl writes its own page first, under its href, and then announces exactly the pages written below it, in order |
| CrawlProperties.CrawlLinksHandles | HTTP_core/HttpCreator.cs:127-150 | the anchor loop announces exactly the pages it writes, in order |
| CrawlProperties.VisitLinkHandles | HTTP_core/HttpCreator.cs:129-149 | one pass announces exactly the pages it writes, and nothing when it skips |
| CrawlProperties.WritePageHandles | HTTP_core/HttpCreator.cs:109-115 | the page write and the image downloads record exactly the page and announce no page (download messages never start with "Handle page: ") |
| CrawlProperties.CrawlPageKeeps | HTTP_core/HttpCreator.cs:104-151 | every file that existed before, other than the call's own page file, keeps its content or is overwritten by an image; every page written ends with its fetched text in its file, unless an image replaced it |
| CrawlProperties.CrawlResolvedKeeps | HTTP_core/HttpCreator.cs:109-150 | the same for a page crawl, its own file being the page file of u |
| CrawlProperties.CrawlLinksKeeps | HTTP_core/HttpCreator.cs:127-150 | the anchor loop changes no earlier file except by saving an image over it, and every page it writes keeps its text unless an image replaced it |
| CrawlProperties.VisitLinkKeeps | HTTP_core/HttpCreator.cs:129-149 | the same for one pass |
| CrawlProperties.WritePageKeeps | HTTP_core/HttpCreator.cs:109-115 | the page write changes earlier files only by the page itself or an image over them, and the page holds its text unless an image replaced it |
| CrawlProperties.CrawlResolvedSound | HTTP_core/HttpCreator.cs:109-150 | a page crawl keeps the log rule and aborts only on an unresolvable string |
| CrawlProperties.WritePageSound | HTTP_core/HttpCreator.cs:109-115 | the page write and download keep the same rule |
| CrawlProperties.CrawlLinksSound | HTTP_core/HttpCreator.cs:127-150 | the anchor loop keeps the same rule |
| CrawlProperties.VisitLinkSound | HTTP_core/HttpCreator.cs:129-149 | one pass keeps the same rule |
| DownloadProperties.FirstUnresolvable | HTTP_core/HttpCreator.cs:167 | the index of the first source that does not resolve: every earlier one resolves |
| DownloadProperties.Announced | HTTP_core/HttpCreator.cs:166 | one "       Download resource: " message per source, in order |
| DownloadProperties.Handled | HTTP_core/HttpCreator.cs:164-167 | the sources a format's loop reaches: a prefix that ends at the first unresolvable source, that one included |
| DownloadProperties.DownloadSrcsStatus | HTTP_core/HttpCreator.cs:164-176 | a format's loop aborts exactly at the first unresolvable source, naming it, and completes iff all resolve |
| DownloadProperties.DownloadSrcsFiles | HTTP_core/HttpCreator.cs:168-175 | the folder gains exactly the image names of the sources before the abort whose fetch gave a stream; every other file is unchanged; a null stream writes nothing |
| DownloadProperties.DownloadSrcsLog | HTTP_core/HttpCreator.cs:166 | when loud, one message per source handled, in order, before its fetch (so also for failed downloads and for the aborting source); when quiet, no message |
| DownloadProperties.DownloadFormatsFiles | HTTP_core/HttpCreator.cs:155-177 | over all formats in list order, up to the format whose loop aborts, the folder gains exactly the image names of the fetched sources; every other file is unchanged |
| DownloadProperties.DownloadFormatsLog | HTTP_core/HttpCreator.cs:155-166 | when loud, the log gains one "       Download resource: " message per source handled, format by format in list order, ending at the aborting source; when quiet, none |
| DownloadProperties.DownloadFormatsOutcome | HTTP_core/HttpCreator.cs:155-177 | an abort names an image source of the page that does not resolve; if all resolve, the download completes; quiet means no message |
| DedupProperties.VisitLinkIgnoresUrl | HTTP_core/HttpCreator.cs:129-149 | a pass does not read `Url`: starting from another `Url` changes only the final `Url` |
| DedupProperties.CrawlLinksIgnoresUrl | HTTP_core/HttpCreator.cs:127-150 | neither does the anchor loop |
| DedupProperties.SettledSkipped | HTTP_core/HttpCreator.cs:129-147 | a pass on a settled href skips it and changes at most `Url` |
| DedupProperties.CrawlLinksDistinctFrom | HTTP_core/HttpCreator.cs:125-127 | once the hrefs already seen are settled, the loop over the anchors and the loop over their Distinct agree on folder, log, pages written and outcome |
| DedupProperties.CrawlLinksDistinct | HTTP_core/HttpCreator.cs:125-127 | iterating `Distinct(htmlNodes)` instead of `htmlNodes` in one loop, the nested crawls unchanged, would change nothing but the final `Url` |
| DedupProperties.CrawlPageD | HTTP_core/HttpCreator.cs:104-151 | AnalysContent with every nested loop iterating the Distinct of its anchors; like CrawlPage, it never removes a file and leaves its own page file |
| DedupProperties.CrawlPageDedup | HTTP_core/HttpCreator.cs:104-151 | iterating the Distinct in every nested call, and from any `Url`, gives the same folder, log, pages written and outcome as the code |
| DedupProperties.CrawlResolvedDedup | HTTP_core/HttpCreator.cs:109-150 | the same for a page crawl once its href resolved |
| DedupProperties.CrawlLinksDedup | HTTP_core/HttpCreator.cs:127-150 | the same for the anchor loop, whatever `Url` it starts from |
| DedupProperties.VisitLinkDedup | HTTP_core/HttpCreator.cs:129-149 | the same for one pass; only the final `Url` may differ |
| NamingProperties.PageFileNameShape | HTTP_core/HttpCreator.cs:84-90 | a page file name holds no '/', ends in ".html" after as many characters as the path has, and depends on the resolved AbsolutePath alone |
| NamingProperties.PageFileNameInjective | HTTP_core/HttpCreator.cs:88 | on paths without '_', equal page names mean equal paths |
| NamingProperties.PageFileNameCollision | HTTP_core/HttpCreator.cs:88 | "/a/b" and "/a_b" both give "_a_b.html" |
| NamingProperties.PageFileNameIgnoresQuery | HTTP_core/HttpCreator.cs:88 | pages that differ only in their query share a file |
| NamingProperties.ImageFileNameShape | HTTP_core/HttpCreator.cs:181-185 | an image name is the path with no '/', followed by the format verbatim, and depends on the path and the format alone |
| NamingProperties.ImageFileNameOfSegments | HTTP_core/HttpCreator.cs:183 | "/a/b" with a format f gives "_a_b" + f (so "/img/logo.png" with ".png" gives "_img_logo.png.png") |
| NamingProperties.ImageNamedLikePage | HTTP_core/HttpCreator.cs:183 | the format ".html" names an image exactly like the page of the same path |
| NamingProperties.DepthOfRoot | HTTP_core/HttpCreator.cs:135 | a path and query of slashes only, "/" among them, has depth 1 |
| NamingProperties.CountJoin | HTTP_core/HttpCreator.cs:135 | joining separator-free pieces puts exactly one separator between neighbours |
| NamingProperties.DepthCountsSegments | HTTP_core/HttpCreator.cs:135 | "/s1/.../sn", with or without a trailing slash, has depth n, empty inner segments included: "/a" has 1, "/a/b/" has 2, "/a//b" has 3 |
| NamingProperties.NoHigherWayWithinDomain | HTTP_core/HttpCreator.cs:225-247 | when Authority starts with Host, every anchor NoHigherWay selects (its needle is Authority + PathAndQuery) is also selected by OnlyCurrentDomain (needle Host) |

## Left out

- HTTP is an oracle: the `Env` maps. That covers `HttpClient`, redirects, timeouts and the blocking `.Result`. A page request is decided by the scheme and by whether the URI is a key of the pages map.
- HTML parsing and XPath are modelled only by their results. `HtmlDocument.Load` and `SelectNodes` become `Env.parseHtml` and the two selections.
  - Reading the written file back from disk is modelled as parsing the fetched text.
  - A `null` node collection is modelled as an empty one: for anchors the code returns when it is `null` (HttpCreator.cs:120-123) and has nothing to visit when it is empty; for images it `continue`s with the next format (HttpCreator.cs:159-162) and has nothing to download when it is empty.
  - A needle or format holding a `'` would break the XPath string literal; this is not modelled.
- `System.Uri` parsing is the `Env.parseUri` oracle, without normalisation, percent-encoding or the exact text of `ToString` and `AbsoluteUri`.
  - A base URL that does not parse makes the constructor throw. That is modelled as the constructor's precondition, so the side effect the constructor has before the throw, `Init()` emptying the save folder (HttpCreator.cs:34), is not modelled for that case.
- `Image.FromStream` and `img.Save` save the fetched bytes under the image name. Decoding failures and re-encoding are not modelled.
- The disk:
  - files are keyed by file name; `Path.Combine` with the constant save folder is left out;
  - file names are compared exactly, as on a case-sensitive file system. On a case-insensitive one (Windows, which HTTP_Fundamentals/Program.cs targets), `File.Exists` (HttpCreator.cs:144) treats `/A` as already written once `/a` is, and an image saved as `_A.png` replaces `_a.png`; the model crawls and keeps both;
  - write failures and other I/O exceptions are not modelled;
  - deleting and recreating the folder (`Init`) is modelled as emptying the map.
- The only exception modelled is `UriFormatException` from the fallback parse in `CreateUrl`. Nothing catches it, so it becomes an aborted status that every caller passes on.
- The `default: throw` branch of `GetHrefSelectors` is left out. It cannot be reached with a closed datatype of restrictions.
- Event plumbing is reduced to a `subscribed` flag and a log of delivered messages. That covers the `Progress` event, its handlers and the `sender` argument.
- `String.GetHashCode` is randomised per process in .NET. It is a parameter of `GetHashCode`.
- HTTP_Fundamentals/Program.cs, the entry point with its fixed configuration and console output, is not part of this model.
- The `level` parameter of `AnalysContent` is carried along and incremented before each recursive call, as in the code. No contract speaks of it, because nothing reads it.
- Crawler.HttpCreator.FollowLinks and Crawler.HttpCreator.FollowLink require every href to belong to the finite set of hrefs the web offers. Every caller meets this for the anchors of a fetched page; it is what makes the termination measure work.
- `visits`, the list of pages written, is ghost bookkeeping with no counterpart in the code. It exists to state that no page is written twice.
