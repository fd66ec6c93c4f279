/**
 * What the crawler reads from a parsed HTML page, and the two XPath selections
 * it evaluates on it. Parsing itself is an oracle (see module Web).
 */
module Html {
  import opened Strings

  /** An `a` element carrying an `href` attribute; `position` tells elements with equal hrefs apart. */
  datatype Node = Node(href: string, position: nat)

  /** A parsed page: its anchors with an href and the `src` of each `img`, both in document order. */
  datatype Document = Document(anchors: seq<Node>, images: seq<string>)

  /** `.//a[contains(@href,'needle')]/@href`: every anchor whose href contains `needle`, as often as it occurs, in document order. */
  function SelectAnchors(anchors: seq<Node>, needle: string): (r: seq<Node>)
    ensures forall n :: n in r <==> n in anchors && Contains(n.href, needle)
    ensures forall n :: multiset(r)[n] == (if Contains(n.href, needle) then multiset(anchors)[n] else 0)
    ensures IsSubsequence(r, anchors)
  {
    if anchors == [] then []
    else
      assert anchors == [anchors[0]] + anchors[1..];
      var rest := SelectAnchors(anchors[1..], needle);
      if Contains(anchors[0].href, needle) then
        [anchors[0]] + rest
      else
        SubsequenceSkip(rest, anchors);
        rest
  }

  /** `.//img[contains(@src,'format')]/@src`: every image source containing `format`, as often as it occurs, in document order. */
  function SelectImages(srcs: seq<string>, format: string): (r: seq<string>)
    ensures forall s :: s in r <==> s in srcs && Contains(s, format)
    ensures forall s :: multiset(r)[s] == (if Contains(s, format) then multiset(srcs)[s] else 0)
    ensures IsSubsequence(r, srcs)
  {
    if srcs == [] then []
    else
      assert srcs == [srcs[0]] + srcs[1..];
      var rest := SelectImages(srcs[1..], format);
      if Contains(srcs[0], format) then
        [srcs[0]] + rest
      else
        SubsequenceSkip(rest, srcs);
        rest
  }

  /** A subsequence of the tail is a subsequence of the whole. */
  lemma SubsequenceSkip<T>(a: seq<T>, b: seq<T>)
    requires b != [] && IsSubsequence(a, b[1..])
    ensures IsSubsequence(a, b)
  {
  }
}
