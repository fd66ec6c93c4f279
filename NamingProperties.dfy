/**
 * Consequences of the naming, depth and selector rules: which pages share a
 * file, how deep the loop considers a path, and how the restrictions nest.
 */
module NamingProperties {
  import opened Strings
  import opened Html
  import opened Web
  import opened Crawler

  /** A URI of the example host with the given path and query. */
  function At(path: string, query: string): Uri
  {
    Uri("http", "example.com", "example.com", path, query,
        "http://example.com" + path + query, "http://example.com" + path + query)
  }

  /**
   * A page's file name holds no '/', ends in ".html", and depends on the
   * resolved AbsolutePath alone.
   */
  lemma PageFileNameShape(u: Uri, v: Uri)
    ensures '/' !in PageFileName(u)
    ensures |PageFileName(u)| == |u.absolutePath| + 5 && PageFileName(u)[|u.absolutePath|..] == ".html"
    ensures u.absolutePath == v.absolutePath ==> PageFileName(u) == PageFileName(v)
  {
    var r := ReplaceSlashes(u.absolutePath);
    assert PageFileName(u) == r + ".html";
    assert forall i :: 0 <= i < |PageFileName(u)| ==> PageFileName(u)[i] != '/' by {
      forall i | 0 <= i < |PageFileName(u)|
        ensures PageFileName(u)[i] != '/'
      {
        if i < |r| {
          assert PageFileName(u)[i] == r[i];
        }
      }
    }
  }

  /**
   * An image's file name is the slash-free AbsolutePath followed by the format
   * verbatim, and depends on the resolved AbsolutePath and the format alone.
   */
  lemma ImageFileNameShape(u: Uri, v: Uri, format: string)
    ensures var n := ImageFileName(u, format);
      |n| == |u.absolutePath| + |format| && n[|u.absolutePath|..] == format &&
      '/' !in n[..|u.absolutePath|]
    ensures u.absolutePath == v.absolutePath ==> ImageFileName(u, format) == ImageFileName(v, format)
  {
    var r := ReplaceSlashes(u.absolutePath);
    assert ImageFileName(u, format)[..|u.absolutePath|] == r;
  }

  lemma {:induction false} ReplaceSlashesAppend(a: string, b: string)
    ensures ReplaceSlashes(a + b) == ReplaceSlashes(a) + ReplaceSlashes(b)
  {
    if a == [] {
      assert a + b == b;
    } else {
      assert (a + b)[0] == a[0] && (a + b)[1..] == a[1..] + b;
      ReplaceSlashesAppend(a[1..], b);
    }
  }

  lemma ReplaceSlashesFree(s: string)
    requires '/' !in s
    ensures ReplaceSlashes(s) == s
  {
    var r := ReplaceSlashes(s);
    forall i | 0 <= i < |s|
      ensures r[i] == s[i]
    {
      assert s[i] != '/';
    }
  }

  /**
   * For a two-segment path "/a/b" the image name is "_a_b" followed by the
   * format: "/img/logo.png" with ".png" gives "_img_logo.png.png".
   */
  lemma ImageFileNameOfSegments(u: Uri, a: string, b: string, format: string)
    requires '/' !in a && '/' !in b && u.absolutePath == "/" + a + "/" + b
    ensures ImageFileName(u, format) == "_" + a + "_" + b + format
  {
    ReplaceSlashesAppend("/" + a + "/", b);
    ReplaceSlashesAppend("/" + a, "/");
    ReplaceSlashesAppend("/", a);
    assert ReplaceSlashes("/") == "_";
    ReplaceSlashesFree(a);
    ReplaceSlashesFree(b);
  }

  /** Page names are injective on paths without '_': distinct such paths never share a file. */
  lemma PageFileNameInjective(u: Uri, v: Uri)
    requires '_' !in u.absolutePath && '_' !in v.absolutePath
    requires PageFileName(u) == PageFileName(v)
    ensures u.absolutePath == v.absolutePath
  {
    var a := ReplaceSlashes(u.absolutePath);
    var b := ReplaceSlashes(v.absolutePath);
    assert a == PageFileName(u)[..|a|];
    assert b == PageFileName(v)[..|b|];
    assert a == b;
    forall i | 0 <= i < |u.absolutePath|
      ensures u.absolutePath[i] == v.absolutePath[i]
    {
      assert a[i] == b[i];
      assert u.absolutePath[i] != '_' && v.absolutePath[i] != '_';
    }
  }

  /** With '_' allowed they are not: "/a/b" and "/a_b" are saved to the same file. */
  lemma PageFileNameCollision()
    ensures PageFileName(At("/a/b", "")) == PageFileName(At("/a_b", "")) == "_a_b.html"
    ensures At("/a/b", "").absolutePath != At("/a_b", "").absolutePath
  {
  }

  /** Pages that differ only in their query share a file: the name ignores the query. */
  lemma PageFileNameIgnoresQuery(u: Uri, q: string)
    ensures PageFileName(u.(query := q)) == PageFileName(u)
  {
  }

  /** The format ".html" names an image exactly like the page of the same path. */
  lemma ImageNamedLikePage(u: Uri)
    ensures ImageFileName(u, ".html") == PageFileName(u)
  {
  }

  /** A path and query made of slashes only, the root "/" among them, has depth one. */
  lemma DepthOfRoot(u: Uri)
    requires forall i :: 0 <= i < |PathAndQuery(u)| ==> PathAndQuery(u)[i] == '/'
    ensures Depth(u) == 1
  {
  }

  lemma {:induction false} CountCharAppend(a: string, b: string, c: char)
    ensures CountChar(a + b, c) == CountChar(a, c) + CountChar(b, c)
  {
    if a != [] {
      assert (a + b)[0] == a[0] && (a + b)[1..] == a[1..] + b;
      CountCharAppend(a[1..], b, c);
    } else {
      assert a + b == b;
    }
  }

  lemma {:induction false} CountCharFree(s: string, c: char)
    requires c !in s
    ensures CountChar(s, c) == 0
  {
    if s != [] {
      assert s[0] != c;
      assert c !in s[1..];
      CountCharFree(s[1..], c);
    }
  }

  /** Joining pieces free of `sep` puts exactly one `sep` between each two. */
  lemma {:induction false} CountJoin(parts: seq<string>, sep: char)
    requires |parts| > 0 && forall k :: 0 <= k < |parts| ==> sep !in parts[k]
    ensures CountChar(Join(parts, sep), sep) == |parts| - 1
    decreases |parts|
  {
    CountCharFree(parts[0], sep);
    if |parts| > 1 {
      CountJoin(parts[1..], sep);
      CountCharAppend(parts[0] + [sep], Join(parts[1..], sep), sep);
      CountCharAppend(parts[0], [sep], sep);
    }
  }

  /** Join starts like its first piece and ends like its last one. */
  lemma {:induction false} JoinEnds(parts: seq<string>, sep: char)
    requires |parts| > 0 && parts[0] != [] && parts[|parts| - 1] != []
    ensures var j := Join(parts, sep);
      j != [] && j[0] == parts[0][0] && j[|j| - 1] == parts[|parts| - 1][|parts[|parts| - 1]| - 1]
  {
    JoinLast(parts, sep);
  }

  lemma {:induction false} JoinLast(parts: seq<string>, sep: char)
    requires |parts| > 0 && parts[|parts| - 1] != []
    ensures var j := Join(parts, sep);
      j != [] && j[|j| - 1] == parts[|parts| - 1][|parts[|parts| - 1]| - 1]
    decreases |parts|
  {
    if |parts| > 1 {
      JoinLast(parts[1..], sep);
    }
  }

  /** `Trim` drops the slashes around a piece that neither starts nor ends with one. */
  lemma TrimAround(x: string, trailing: bool)
    requires x != [] && x[0] != '/' && x[|x| - 1] != '/'
    ensures Trim(['/'] + x + (if trailing then ['/'] else []), '/') == x
  {
    var s := ['/'] + x + (if trailing then ['/'] else []);
    assert s[1..] == x + (if trailing then ['/'] else []);
    assert TrimStart(s, '/') == s[1..];
    if trailing {
      assert s[1..][..|s[1..]| - 1] == x;
    }
  }

  /**
   * The depth rule counts path segments: "/s1/.../sn", with or without a
   * trailing slash, has depth n, an empty segment inside ("/a//b") included.
   */
  lemma DepthCountsSegments(u: Uri, segs: seq<string>, trailing: bool)
    requires |segs| > 0 && segs[0] != [] && segs[|segs| - 1] != []
    requires forall k :: 0 <= k < |segs| ==> '/' !in segs[k]
    requires PathAndQuery(u) == ['/'] + Join(segs, '/') + (if trailing then ['/'] else [])
    ensures Depth(u) == |segs|
  {
    JoinEnds(segs, '/');
    TrimAround(Join(segs, '/'), trailing);
    CountJoin(segs, '/');
  }

  /** A needle that occurs in `s` makes every prefix of the needle occur there too. */
  lemma ContainsPrefix(s: string, needle: string, p: string)
    requires Contains(s, needle) && StartsWith(needle, p)
    ensures Contains(s, p)
  {
    var i :| OccursAt(s, needle, i);
    assert s[i..i + |p|] == needle[..|p|];
    assert OccursAt(s, p, i);
  }

  /**
   * The restrictions are nested: when the base's Authority starts with its Host
   * (as it does, the port being appended), every anchor NoHigherWay selects is
   * also selected by OnlyCurrentDomain.
   */
  lemma NoHigherWayWithinDomain(baseUrl: Uri, anchors: seq<Node>)
    requires StartsWith(baseUrl.authority, baseUrl.host)
    ensures forall n :: n in SelectAnchors(anchors, GetHrefSelectors(baseUrl, NoHigherWay)) ==>
      n in SelectAnchors(anchors, GetHrefSelectors(baseUrl, OnlyCurrentDomain))
  {
    var narrow := GetHrefSelectors(baseUrl, NoHigherWay);
    assert StartsWith(narrow, baseUrl.host) by {
      assert narrow[..|baseUrl.host|] == baseUrl.authority[..|baseUrl.host|];
    }
    forall n | n in SelectAnchors(anchors, narrow)
      ensures n in SelectAnchors(anchors, GetHrefSelectors(baseUrl, OnlyCurrentDomain))
    {
      ContainsPrefix(n.href, narrow, baseUrl.host);
    }
  }
}
