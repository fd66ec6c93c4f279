/**
 * What `DownloadResources` does to the save folder and to the progress log,
 * proved about the specification functions DownloadSrcs and DownloadFormats:
 * the sources are handled in order up to the first one that does not resolve,
 * which aborts the crawl; each resolved source whose fetch yields a stream is
 * saved under the image name of its format; nothing else in the folder changes.
 */
module DownloadProperties {
  import opened Wrappers
  import opened Strings
  import opened Html
  import opened Web
  import opened Crawler

  /** Progress messages reach the log: verbose mode with a handler attached. */
  predicate Loud(c: Config)
  {
    c.verbose && c.subscribed
  }

  /** The index of the first source that does not resolve, or `|srcs|` when all do. */
  function FirstUnresolvable(e: Env, baseUrl: Uri, srcs: seq<string>): (k: nat)
    ensures k <= |srcs|
    ensures forall i :: 0 <= i < k ==> CreateUrl(e, baseUrl, srcs[i]).Some?
    ensures k < |srcs| ==> CreateUrl(e, baseUrl, srcs[k]).None?
    decreases |srcs|
  {
    if srcs == [] || CreateUrl(e, baseUrl, srcs[0]).None? then 0
    else
      var k := FirstUnresolvable(e, baseUrl, srcs[1..]);
      assert forall i :: 0 < i <= k ==> srcs[i] == srcs[1..][i - 1];
      1 + k
  }

  /** The messages announcing `srcs`, in order. */
  function Announced(srcs: seq<string>): (m: seq<string>)
    ensures |m| == |srcs|
    ensures forall i :: 0 <= i < |srcs| ==> m[i] == DownloadResource + srcs[i]
  {
    seq(|srcs|, i requires 0 <= i < |srcs| => DownloadResource + srcs[i])
  }

  /** The source resolves and its fetch yields a stream. */
  ghost predicate Fetched(e: Env, baseUrl: Uri, src: string)
  {
    match CreateUrl(e, baseUrl, src)
    case None => false
    case Some(u) => GetResource(e, u).Some?
  }

  /** The image names of the sources among `srcs` that resolve and whose fetch yields a stream. */
  ghost function Saved(e: Env, baseUrl: Uri, format: string, srcs: seq<string>): set<string>
  {
    set i | 0 <= i < |srcs| && Fetched(e, baseUrl, srcs[i]) :: ImageFileName(CreateUrl(e, baseUrl, srcs[i]).value, format)
  }

  lemma SavedCons(e: Env, baseUrl: Uri, format: string, srcs: seq<string>)
    requires srcs != [] && CreateUrl(e, baseUrl, srcs[0]).Some?
    ensures var u := CreateUrl(e, baseUrl, srcs[0]).value;
      Saved(e, baseUrl, format, srcs) ==
        (if GetResource(e, u).Some? then {ImageFileName(u, format)} else {}) + Saved(e, baseUrl, format, srcs[1..])
  {
    var u := CreateUrl(e, baseUrl, srcs[0]).value;
    var rest := Saved(e, baseUrl, format, srcs[1..]);
    forall p | p in Saved(e, baseUrl, format, srcs)
      ensures p in rest || (GetResource(e, u).Some? && p == ImageFileName(u, format))
    {
      var i :| 0 <= i < |srcs| && Fetched(e, baseUrl, srcs[i]) && p == ImageFileName(CreateUrl(e, baseUrl, srcs[i]).value, format);
      if i > 0 {
        assert srcs[1..][i - 1] == srcs[i];
      }
    }
    forall p | p in rest
      ensures p in Saved(e, baseUrl, format, srcs)
    {
      var i :| 0 <= i < |srcs[1..]| && Fetched(e, baseUrl, srcs[1..][i]) && p == ImageFileName(CreateUrl(e, baseUrl, srcs[1..][i]).value, format);
      assert srcs[i + 1] == srcs[1..][i];
    }
  }

  /** One format's loop aborts exactly at the first unresolvable source. */
  lemma {:induction false} DownloadSrcsStatus(e: Env, c: Config, st: State, format: string, srcs: seq<string>)
    ensures var k := FirstUnresolvable(e, c.baseUrl, srcs);
      DownloadSrcs(e, c, st, format, srcs).status == (if k == |srcs| then Completed else Crashed(srcs[k]))
    decreases |srcs|
  {
    if srcs != [] && CreateUrl(e, c.baseUrl, srcs[0]).Some? {
      var u := CreateUrl(e, c.baseUrl, srcs[0]).value;
      DownloadSrcsStatus(e, c, SaveImage(e, Progress(c, st, DownloadResource + srcs[0]), u, format), format, srcs[1..]);
    }
  }

  /** DownloadSrcs after one resolved source. */
  lemma DownloadSrcsUnfold(e: Env, c: Config, st: State, format: string, srcs: seq<string>)
    requires srcs != [] && CreateUrl(e, c.baseUrl, srcs[0]).Some?
    ensures DownloadSrcs(e, c, st, format, srcs) ==
      DownloadSrcs(e, c, SaveImage(e, Progress(c, st, DownloadResource + srcs[0]), CreateUrl(e, c.baseUrl, srcs[0]).value, format), format, srcs[1..])
  {
  }

  /**
   * One format's loop saves the images of the sources before the first
   * unresolvable one, and changes no other file.
   */
  lemma {:induction false} DownloadSrcsFiles(e: Env, c: Config, st: State, format: string, srcs: seq<string>)
    ensures var r := DownloadSrcs(e, c, st, format, srcs);
      var k := FirstUnresolvable(e, c.baseUrl, srcs);
      r.st.files.Keys == st.files.Keys + Saved(e, c.baseUrl, format, srcs[..k]) &&
      (forall p :: p in st.files && p !in Saved(e, c.baseUrl, format, srcs[..k]) ==> r.st.files[p] == st.files[p])
    decreases |srcs|
  {
    var k := FirstUnresolvable(e, c.baseUrl, srcs);
    if srcs == [] || CreateUrl(e, c.baseUrl, srcs[0]).None? {
      assert Saved(e, c.baseUrl, format, srcs[..k]) == {};
    } else {
      var u := CreateUrl(e, c.baseUrl, srcs[0]).value;
      var st2 := SaveImage(e, Progress(c, st, DownloadResource + srcs[0]), u, format);
      DownloadSrcsUnfold(e, c, st, format, srcs);
      DownloadSrcsFiles(e, c, st2, format, srcs[1..]);
      var k' := FirstUnresolvable(e, c.baseUrl, srcs[1..]);
      assert srcs[..k][1..] == srcs[1..][..k'];
      SavedCons(e, c.baseUrl, format, srcs[..k]);
      SaveImageFiles(e, c, st, srcs[0], u, format);
      FilesCons(st, st2, DownloadSrcs(e, c, st2, format, srcs[1..]).st,
        if GetResource(e, u).Some? then {ImageFileName(u, format)} else {},
        Saved(e, c.baseUrl, format, srcs[1..][..k']));
    }
  }

  lemma SaveImageFiles(e: Env, c: Config, st: State, m: string, u: Uri, format: string)
    ensures var st2 := SaveImage(e, Progress(c, st, m), u, format);
      var own: set<string> := if GetResource(e, u).Some? then {ImageFileName(u, format)} else {};
      st2.files.Keys == st.files.Keys + own &&
      forall p :: p in st.files && p !in own ==> st2.files[p] == st.files[p]
  {
  }

  /** Two rounds of saving compose. */
  lemma FilesCons(st: State, st2: State, r: State, own: set<string>, rest: set<string>)
    requires st2.files.Keys == st.files.Keys + own
    requires forall p :: p in st.files && p !in own ==> st2.files[p] == st.files[p]
    requires r.files.Keys == st2.files.Keys + rest
    requires forall p :: p in st2.files && p !in rest ==> r.files[p] == st2.files[p]
    ensures r.files.Keys == st.files.Keys + (own + rest)
    ensures forall p :: p in st.files && p !in own + rest ==> r.files[p] == st.files[p]
  {
  }

  /** The sources one format's loop announces: up to and including the first unresolvable one. */
  function Handled(e: Env, baseUrl: Uri, srcs: seq<string>): (h: seq<string>)
    ensures |h| <= |srcs| && h == srcs[..|h|]
    ensures forall i :: 0 <= i < |h| - 1 ==> CreateUrl(e, baseUrl, h[i]).Some?
    ensures |h| < |srcs| ==> h != [] && CreateUrl(e, baseUrl, h[|h| - 1]).None?
  {
    var k := FirstUnresolvable(e, baseUrl, srcs);
    if k == |srcs| then srcs else srcs[..k + 1]
  }

  lemma HandledCons(e: Env, baseUrl: Uri, srcs: seq<string>)
    requires srcs != [] && CreateUrl(e, baseUrl, srcs[0]).Some?
    ensures Handled(e, baseUrl, srcs) == [srcs[0]] + Handled(e, baseUrl, srcs[1..])
  {
    var k := FirstUnresolvable(e, baseUrl, srcs[1..]);
    assert FirstUnresolvable(e, baseUrl, srcs) == k + 1;
    if k < |srcs[1..]| {
      assert srcs[..k + 2] == [srcs[0]] + srcs[1..][..k + 1];
    } else {
      assert srcs == [srcs[0]] + srcs[1..];
    }
  }

  lemma AnnouncedCons(x: string, srcs: seq<string>)
    ensures Announced([x] + srcs) == [DownloadResource + x] + Announced(srcs)
  {
  }

  /**
   * In verbose mode one format's loop adds one message per source handled, the
   * aborting one included; otherwise the log is unchanged.
   */
  lemma {:induction false} DownloadSrcsLog(e: Env, c: Config, st: State, format: string, srcs: seq<string>)
    ensures DownloadSrcs(e, c, st, format, srcs).st.log ==
      (if Loud(c) then st.log + Announced(Handled(e, c.baseUrl, srcs)) else st.log)
    decreases |srcs|
  {
    if srcs == [] {
    } else if CreateUrl(e, c.baseUrl, srcs[0]).None? {
      assert Handled(e, c.baseUrl, srcs) == [srcs[0]];
    } else {
      var st2 := SaveImage(e, Progress(c, st, DownloadResource + srcs[0]), CreateUrl(e, c.baseUrl, srcs[0]).value, format);
      DownloadSrcsUnfold(e, c, st, format, srcs);
      DownloadSrcsLog(e, c, st2, format, srcs[1..]);
      HandledCons(e, c.baseUrl, srcs);
      LogCons(c, st, st2, srcs[0], DownloadSrcs(e, c, st2, format, srcs[1..]).st, Handled(e, c.baseUrl, srcs[1..]));
    }
  }

  lemma LogCons(c: Config, st: State, st2: State, x: string, r: State, h: seq<string>)
    requires st2.log == (if Loud(c) then st.log + [DownloadResource + x] else st.log)
    requires r.log == (if Loud(c) then st2.log + Announced(h) else st2.log)
    ensures r.log == (if Loud(c) then st.log + Announced([x] + h) else st.log)
  {
    AnnouncedCons(x, h);
  }

  /** An image source that every format's selection shares with the page. */
  lemma SelectedImage(images: seq<string>, format: string, i: nat)
    requires i < |SelectImages(images, format)|
    ensures SelectImages(images, format)[i] in images
  {
    assert SelectImages(images, format)[i] in SelectImages(images, format);
  }

  /**
   * All formats: an abort names a source of the page that does not resolve, so a
   * page whose image sources all resolve is downloaded to its end; the log only
   * grows, and not at all in quiet mode.
   */
  lemma {:induction false} DownloadFormatsOutcome(e: Env, c: Config, st: State, formats: seq<string>, images: seq<string>)
    ensures var r := DownloadFormats(e, c, st, formats, images);
      (r.status.Crashed? ==> r.status.culprit in images && CreateUrl(e, c.baseUrl, r.status.culprit).None?) &&
      ((forall i :: 0 <= i < |images| ==> CreateUrl(e, c.baseUrl, images[i]).Some?) ==> r.status == Completed) &&
      (!Loud(c) ==> r.st.log == st.log)
    decreases |formats|
  {
    if formats != [] {
      var srcs := SelectImages(images, formats[0]);
      var r := DownloadSrcs(e, c, st, formats[0], srcs);
      DownloadSrcsStatus(e, c, st, formats[0], srcs);
      DownloadSrcsLog(e, c, st, formats[0], srcs);
      var k := FirstUnresolvable(e, c.baseUrl, srcs);
      if k < |srcs| {
        SelectedImage(images, formats[0], k);
      }
      if r.status.Completed? {
        DownloadFormatsOutcome(e, c, r.st, formats[1..], images);
      }
    }
  }

  /**
   * The image names all formats save, in list order, up to and including the
   * format whose loop aborts.
   */
  ghost function FormatsSaved(e: Env, baseUrl: Uri, formats: seq<string>, images: seq<string>): set<string>
    decreases |formats|
  {
    if formats == [] then {}
    else
      var srcs := SelectImages(images, formats[0]);
      var k := FirstUnresolvable(e, baseUrl, srcs);
      Saved(e, baseUrl, formats[0], srcs[..k]) + (if k < |srcs| then {} else FormatsSaved(e, baseUrl, formats[1..], images))
  }

  /**
   * The messages all formats announce: for each format in list order, one per
   * source of its selection up to the first that does not resolve, which ends
   * the list.
   */
  function FormatsAnnounced(e: Env, baseUrl: Uri, formats: seq<string>, images: seq<string>): seq<string>
    decreases |formats|
  {
    if formats == [] then []
    else
      var srcs := SelectImages(images, formats[0]);
      var k := FirstUnresolvable(e, baseUrl, srcs);
      Announced(Handled(e, baseUrl, srcs)) + (if k < |srcs| then [] else FormatsAnnounced(e, baseUrl, formats[1..], images))
  }

  /**
   * All formats: the folder gains exactly the images of FormatsSaved, and every
   * other file is unchanged.
   */
  lemma {:induction false} DownloadFormatsFiles(e: Env, c: Config, st: State, formats: seq<string>, images: seq<string>)
    ensures var r := DownloadFormats(e, c, st, formats, images);
      var saved := FormatsSaved(e, c.baseUrl, formats, images);
      r.st.files.Keys == st.files.Keys + saved &&
      (forall p :: p in st.files && p !in saved ==> r.st.files[p] == st.files[p])
    decreases |formats|
  {
    if formats != [] {
      var srcs := SelectImages(images, formats[0]);
      var k := FirstUnresolvable(e, c.baseUrl, srcs);
      var r := DownloadSrcs(e, c, st, formats[0], srcs);
      DownloadSrcsFiles(e, c, st, formats[0], srcs);
      DownloadSrcsStatus(e, c, st, formats[0], srcs);
      if r.status.Completed? {
        DownloadFormatsFiles(e, c, r.st, formats[1..], images);
        FilesCons(st, r.st, DownloadFormats(e, c, r.st, formats[1..], images).st,
          Saved(e, c.baseUrl, formats[0], srcs[..k]), FormatsSaved(e, c.baseUrl, formats[1..], images));
      }
    }
  }

  /**
   * All formats: in verbose mode with a handler attached the log gains exactly
   * FormatsAnnounced, in format-list order; otherwise it is unchanged.
   */
  lemma {:induction false} DownloadFormatsLog(e: Env, c: Config, st: State, formats: seq<string>, images: seq<string>)
    ensures DownloadFormats(e, c, st, formats, images).st.log ==
      (if Loud(c) then st.log + FormatsAnnounced(e, c.baseUrl, formats, images) else st.log)
    decreases |formats|
  {
    if formats != [] {
      var srcs := SelectImages(images, formats[0]);
      var r := DownloadSrcs(e, c, st, formats[0], srcs);
      DownloadSrcsLog(e, c, st, formats[0], srcs);
      DownloadSrcsStatus(e, c, st, formats[0], srcs);
      FormatsAnnouncedUnfold(e, c.baseUrl, formats, images);
      if r.status.Completed? {
        var f := DownloadFormats(e, c, r.st, formats[1..], images);
        DownloadFormatsLog(e, c, r.st, formats[1..], images);
        LogAppend(c, st.log, r.st.log, f.st.log, Announced(Handled(e, c.baseUrl, srcs)),
          FormatsAnnounced(e, c.baseUrl, formats[1..], images));
      }
    }
  }

  lemma FormatsAnnouncedUnfold(e: Env, baseUrl: Uri, formats: seq<string>, images: seq<string>)
    requires formats != []
    ensures var srcs := SelectImages(images, formats[0]);
      var now := Announced(Handled(e, baseUrl, srcs));
      FormatsAnnounced(e, baseUrl, formats, images) ==
        if FirstUnresolvable(e, baseUrl, srcs) < |srcs| then now else now + FormatsAnnounced(e, baseUrl, formats[1..], images)
  {
  }

  /** Two rounds of announcing compose. */
  lemma LogAppend(c: Config, l1: seq<string>, l2: seq<string>, l3: seq<string>, a: seq<string>, b: seq<string>)
    requires l2 == (if Loud(c) then l1 + a else l1)
    requires l3 == (if Loud(c) then l2 + b else l2)
    ensures l3 == (if Loud(c) then l1 + (a + b) else l1)
  {
  }
}
