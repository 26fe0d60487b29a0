/** Paths on their way from the command line, through a request line, to the server's file tree. */
module Paths {
  import opened Bytes
  import opened Text
  import opened Percent

  const HTTP := Ascii("http://")
  const FILES := Ascii("files/")
  const PULL := Ascii("pull/")
  const ZIP := Ascii("api/zip/")
  const LIST := Ascii("api/list/")
  const QUESTION: byte := 63
  const HASH: byte := 35

  // ---------- the client: what a URL means ----------

  datatype Kind = Auto | Directory | SingleFile

  datatype Direct = Direct(remote: seq<byte>, kind: Kind)

  datatype Source = Source(base: seq<byte>, host: seq<byte>, direct: Option<Direct>)

  predicate EndsHost(b: byte) {
    b == SLASH || b == QUESTION || b == HASH
  }

  /** How far the host reaches. */
  function HostEnd(rest: seq<byte>): (n: nat)
    ensures n <= |rest|
  {
    if rest == [] || EndsHost(rest[0]) then 0 else 1 + HostEnd(rest[1..])
  }

  function StripEither(s: seq<byte>, a: seq<byte>, b: seq<byte>): Option<seq<byte>> {
    var first := StripPrefix(s, a);
    var sub := if first.Some? then first else StripPrefix(s, b);
    if sub.Some? && sub.value == [] then None else sub
  }

  function TrimEnd(s: seq<byte>, x: byte): seq<byte> {
    if EndsWith(s, x) then TrimEnd(s[..|s| - 1], x) else s
  }

  /** Without a path, the link is the fragment up to a question mark, leading slashes dropped. */
  function FragmentTarget(fragment: seq<byte>): Option<Direct> {
    var sub := TrimStart(fragment, SLASH);
    var cut := if SplitOnce(sub, QUESTION).Some? then SplitOnce(sub, QUESTION).value.0 else sub;
    if cut == [] then None else Some(Direct(Decode(cut), Directory))
  }

  function DirectOf(path: seq<byte>, fragment: seq<byte>): Option<Direct> {
    var file := StripEither(path, FILES, PULL);
    var dir := StripEither(path, ZIP, LIST);
    if file.Some? then Some(Direct(Decode(file.value), SingleFile))
    else if dir.Some? then Some(Direct(Decode(dir.value), Directory))
    else if path == [] then FragmentTarget(fragment)
    else
      var sub := TrimEnd(TrimStart(path, SLASH), SLASH);
      if sub == [] then None else Some(Direct(Decode(sub), Auto))
  }

  /** `None` for anything that is not an `http://` URL. */
  function ParseSource(url: seq<byte>): Option<Source> {
    var stripped := StripPrefix(url, HTTP);
    if stripped.None? then None else
      var rest := stripped.value;
      var host, tail := rest[..HostEnd(rest)], rest[HostEnd(rest)..];
      var after := if tail != [] && tail[0] == SLASH then tail[1..] else tail;
      var split := SplitOnce(after, HASH);
      var head := if split.Some? then split.value.0 else after;
      var fragment := if split.Some? then split.value.1 else [];
      var query := SplitOnce(head, QUESTION);
      var path := if query.Some? then query.value.0 else head;
      Some(Source(HTTP + host, host, DirectOf(path, fragment)))
  }

  // ---------- the server: which file a request names ----------

  datatype Prefix = FilesPrefix | PullPrefix

  function PrefixText(p: Prefix): seq<byte> {
    match p
    case FilesPrefix => [SLASH] + FILES
    case PullPrefix => [SLASH] + PULL
  }

  function RoutePath(path: seq<byte>): Option<Prefix> {
    if PrefixText(FilesPrefix) <= path then Some(FilesPrefix)
    else if PrefixText(PullPrefix) <= path then Some(PullPrefix)
    else None
  }

  function SubPath(path: seq<byte>, prefix: Prefix): seq<byte>
    requires RoutePath(path) == Some(prefix)
  {
    var rest := TrimStart(path[|PrefixText(prefix)|..], SLASH);
    if EndsWith(rest, SLASH) then [] else Decode(rest)
  }

  // ---------- what survives ----------

  lemma {:induction false} HostEndAt(host: seq<byte>, tail: seq<byte>)
    requires forall i :: 0 <= i < |host| ==> !EndsHost(host[i])
    requires tail != [] && EndsHost(tail[0])
    ensures HostEnd(host + tail) == |host|
  {
    if host == [] {
      assert host + tail == tail;
    } else {
      assert (host + tail)[1..] == host[1..] + tail;
      HostEndAt(host[1..], tail);
    }
  }

  /** An encoded path contains nothing that would end the path of a URL. */
  lemma EncodedIsPath(r: seq<byte>)
    ensures HASH !in EncodedPath(r) && QUESTION !in EncodedPath(r)
    ensures Decode(EncodedPath(r)) == r
  {
    var e := EncodedPath(r);
    EncodedBytes(r, KeptInPath);
    forall i | 0 <= i < |e| ensures e[i] != HASH && e[i] != QUESTION {
    }
    DecodeUndoesEncode(r, KeptInPath);
  }

  /** The four direct links, by the path in front of the encoded remote path. */
  function LinkPath(kind: Kind, viaSecond: bool): seq<byte> {
    match kind
    case SingleFile => if viaSecond then PULL else FILES
    case _ => if viaSecond then LIST else ZIP
  }

  lemma LinkIsRecognised(kind: Kind, viaSecond: bool, sub: seq<byte>, fragment: seq<byte>)
    requires !kind.Auto? && sub != []
    ensures DirectOf(LinkPath(kind, viaSecond) + sub, fragment) == Some(Direct(Decode(sub), kind))
  {
    var link := LinkPath(kind, viaSecond);
    var path := link + sub;
    assert path[|link|..] == sub;
    assert path[0] == link[0] && path[1] == link[1] && path[4] == link[4];
    assert FILES[0] == 102 && PULL[0] == 112 && ZIP[0] == 97 && LIST[0] == 97 && ZIP[4] == 122 && LIST[4] == 108;
  }

  /** What may follow the path of a URL. */
  datatype Rest = Rest(query: Option<seq<byte>>, fragment: Option<seq<byte>>)

  function RestText(rest: Rest): seq<byte> {
    (if rest.query.Some? then [QUESTION] + rest.query.value else [])
    + (if rest.fragment.Some? then [HASH] + rest.fragment.value else [])
  }

  predicate IsRest(rest: Rest) {
    rest.query.Some? ==> HASH !in rest.query.value
  }

  lemma SplitAround(path: seq<byte>, x: byte, tail: seq<byte>)
    requires x !in path && (tail == [] || tail[0] == x)
    ensures SplitOnce(path + tail, x) == if tail == [] then None else Some((path, tail[1..]))
  {
    if tail != [] {
      SplitOnceAt(path, x, tail[1..]);
      assert path + tail == path + [x] + tail[1..];
    } else {
      assert path + tail == path;
    }
  }

  /** After `http://host/`, the path reaches up to a query, which is ignored, or a fragment, which is not. */
  lemma UrlPath(host: seq<byte>, path: seq<byte>, rest: Rest)
    requires forall i :: 0 <= i < |host| ==> !EndsHost(host[i])
    requires HASH !in path && QUESTION !in path && IsRest(rest)
    ensures ParseSource(HTTP + (host + ([SLASH] + (path + RestText(rest)))))
         == Some(Source(HTTP + host, host, DirectOf(path, if rest.fragment.Some? then rest.fragment.value else [])))
  {
    var tail := [SLASH] + (path + RestText(rest));
    HostEndAt(host, tail);
    PathOfRest(path, rest);
    UrlParts(host, tail, path + RestText(rest));
  }

  lemma RestStarts(rest: Rest)
    ensures RestText(rest) != [] ==> RestText(rest)[0] == QUESTION || RestText(rest)[0] == HASH
  {
  }

  /** The same without a slash behind the host: there is no path then. */
  lemma UrlHost(host: seq<byte>, rest: Rest)
    requires forall i :: 0 <= i < |host| ==> !EndsHost(host[i])
    requires IsRest(rest)
    ensures ParseSource(HTTP + (host + RestText(rest)))
         == Some(Source(HTTP + host, host, DirectOf([], if rest.fragment.Some? then rest.fragment.value else [])))
  {
    var tail := RestText(rest);
    RestStarts(rest);
    HostEndBefore(host, tail);
    assert [] + tail == tail;
    PathOfRest([], rest);
    UrlParts(host, tail, tail);
  }

  /** What is read of a URL once its host is known. */
  lemma UrlParts(host: seq<byte>, tail: seq<byte>, after: seq<byte>)
    requires HostEnd(host + tail) == |host|
    requires if tail != [] && tail[0] == SLASH then after == tail[1..] else after == tail
    ensures
      var split := SplitOnce(after, HASH);
      var head := if split.Some? then split.value.0 else after;
      var query := SplitOnce(head, QUESTION);
      ParseSource(HTTP + (host + tail)) == Some(Source(HTTP + host, host, DirectOf(
        if query.Some? then query.value.0 else head, if split.Some? then split.value.1 else [])))
  {
    var rest := host + tail;
    assert (HTTP + rest)[|HTTP|..] == rest;
    assert rest[..|host|] == host && rest[|host|..] == tail;
  }

  lemma HostEndBefore(host: seq<byte>, tail: seq<byte>)
    requires forall i :: 0 <= i < |host| ==> !EndsHost(host[i])
    requires tail == [] || EndsHost(tail[0])
    ensures HostEnd(host + tail) == |host|
  {
    if tail == [] {
      HostEndAll(host);
      assert host + tail == host;
    } else {
      HostEndAt(host, tail);
    }
  }

  lemma {:induction false} HostEndAll(host: seq<byte>)
    requires forall i :: 0 <= i < |host| ==> !EndsHost(host[i])
    ensures HostEnd(host) == |host|
  {
    if host != [] {
      HostEndAll(host[1..]);
    }
  }

  /** The fragment is cut off first, then the query. */
  lemma PathOfRest(path: seq<byte>, rest: Rest)
    requires HASH !in path && QUESTION !in path && IsRest(rest)
    ensures
      var split := SplitOnce(path + RestText(rest), HASH);
      var head := if split.Some? then split.value.0 else path + RestText(rest);
      var query := SplitOnce(head, QUESTION);
      && (if query.Some? then query.value.0 else head) == path
      && (if split.Some? then split.value.1 else []) == (if rest.fragment.Some? then rest.fragment.value else [])
  {
    var query := if rest.query.Some? then [QUESTION] + rest.query.value else [];
    var fragment := if rest.fragment.Some? then [HASH] + rest.fragment.value else [];
    Associative(path, query, fragment);
    CutRest(path, query, fragment);
  }

  lemma CutRest(path: seq<byte>, query: seq<byte>, fragment: seq<byte>)
    requires HASH !in path && QUESTION !in path && HASH !in query
    requires query == [] || query[0] == QUESTION
    requires fragment == [] || fragment[0] == HASH
    ensures SplitOnce((path + query) + fragment, HASH) ==
      if fragment == [] then None else Some((path + query, fragment[1..]))
    ensures fragment == [] ==> (path + query) + fragment == path + query
    ensures SplitOnce(path + query, QUESTION) == if query == [] then None else Some((path, query[1..]))
    ensures query == [] ==> path + query == path
  {
    SplitAround(path + query, HASH, fragment);
    SplitAround(path, QUESTION, query);
  }

  /** A direct link built from an encoded path gives back the path, the host and what to fetch, whatever follows. */
  lemma DirectLinkRoundTrip(host: seq<byte>, kind: Kind, viaSecond: bool, r: seq<byte>, rest: Rest)
    requires forall i :: 0 <= i < |host| ==> !EndsHost(host[i])
    requires !kind.Auto? && r != []
    requires IsRest(rest)
    ensures ParseSource(HTTP + (host + ([SLASH] + ((LinkPath(kind, viaSecond) + EncodedPath(r)) + RestText(rest)))))
         == Some(Source(HTTP + host, host, Some(Direct(r, kind))))
  {
    EncodedIsPath(r);
    EncodedPathEnds(r);
    var fragment := if rest.fragment.Some? then rest.fragment.value else [];
    LinkIsRecognised(kind, viaSecond, EncodedPath(r), fragment);
    LinkIsPlain(kind, viaSecond);
    NotInEither(LinkPath(kind, viaSecond), EncodedPath(r));
    UrlPath(host, LinkPath(kind, viaSecond) + EncodedPath(r), rest);
  }

  lemma NotInEither(a: seq<byte>, b: seq<byte>)
    requires HASH !in a && QUESTION !in a && HASH !in b && QUESTION !in b
    ensures HASH !in a + b && QUESTION !in a + b
  {
  }

  lemma LinkIsPlain(kind: Kind, viaSecond: bool)
    ensures HASH !in LinkPath(kind, viaSecond) && QUESTION !in LinkPath(kind, viaSecond)
  {
    var link := LinkPath(kind, viaSecond);
    forall i | 0 <= i < |link| ensures link[i] >= 97 || link[i] == SLASH {
    }
  }

  lemma NothingToStrip(a: seq<byte>, b: seq<byte>)
    requires |a| > 0 && |b| > 0
    ensures StripEither([], a, b).None?
  {
  }

  lemma DirectOfFragment(fragment: seq<byte>)
    ensures DirectOf([], fragment) == FragmentTarget(fragment)
  {
    assert |FILES| == 6 && |PULL| == 5 && |ZIP| == 8 && |LIST| == 9;
    NothingToStrip(FILES, PULL);
    NothingToStrip(ZIP, LIST);
  }

  /** A fragment names its encoded path exactly when that path does not start with a slash. */
  lemma FragmentMeans(r: seq<byte>)
    requires r != []
    ensures (DirectOf([], EncodedPath(r)) == Some(Direct(r, Directory))) <==> r[0] != SLASH
  {
    var kept := TrimStart(r, SLASH);
    TrimCommutes(r);
    EncodedIsPath(kept);
    EncodedPathEnds(kept);
    DirectOfFragment(EncodedPath(r));
    assert SplitOnce(EncodedPath(kept), QUESTION).None?;
    if r[0] == SLASH {
      assert kept != r;
    }
  }

  /** The same through a fragment: the remote path is recovered under that condition, the host always. */
  lemma FragmentRoundTrip(host: seq<byte>, query: Option<seq<byte>>, r: seq<byte>)
    requires forall i :: 0 <= i < |host| ==> !EndsHost(host[i])
    requires query.Some? ==> HASH !in query.value
    requires r != []
    ensures
      var source := ParseSource(HTTP + (host + ([SLASH] + ([] + RestText(Rest(query, Some(EncodedPath(r))))))));
      && source.Some? && source.value.host == host
      && (source.value.direct == Some(Direct(r, Directory)) <==> r[0] != SLASH)
  {
    UrlPath(host, [], Rest(query, Some(EncodedPath(r))));
    FragmentMeans(r);
  }

  /** Encoding keeps slashes, so trimming before or after encoding is the same. */
  lemma {:induction false} TrimCommutes(r: seq<byte>)
    ensures TrimStart(EncodedPath(r), SLASH) == EncodedPath(TrimStart(r, SLASH))
    ensures TrimStart(r, SLASH) == r <==> r == [] || r[0] != SLASH
    ensures r != [] && EndsWith(r, SLASH) && TrimStart(r, SLASH) != [] ==> EndsWith(TrimStart(r, SLASH), SLASH)
  {
    EncodedPathEnds(r);
    if r != [] && r[0] == SLASH {
      assert EncodedPath(r) == [SLASH] + EncodedPath(r[1..]);
      assert EncodedPath(r)[1..] == EncodedPath(r[1..]);
      TrimCommutes(r[1..]);
    }
  }

  /** Reads as one of the four direct links, with something behind it. */
  predicate IsLink(r: seq<byte>) {
    || (FILES <= r && |r| > |FILES|) || (PULL <= r && |r| > |PULL|)
    || (ZIP <= r && |r| > |ZIP|) || (LIST <= r && |r| > |LIST|)
  }

  lemma LinkPrefixes(r: seq<byte>)
    ensures IsLink(EncodedPath(r)) <==> IsLink(r)
  {
    PrefixSurvives(FILES, r);
    PrefixSurvives(PULL, r);
    PrefixSurvives(ZIP, r);
    PrefixSurvives(LIST, r);
    LongerAfter(FILES, r);
    LongerAfter(PULL, r);
    LongerAfter(ZIP, r);
    LongerAfter(LIST, r);
  }

  lemma LongerAfter(prefix: seq<byte>, r: seq<byte>)
    requires prefix <= r ==> prefix <= EncodedPath(r)
    requires prefix <= r ==> EncodedPath(r)[|prefix|..] == EncodedPath(r[|prefix|..])
    ensures prefix <= r ==> (|EncodedPath(r)| > |prefix| <==> |r| > |prefix|)
  {
    if prefix <= r {
      EncodedPathEnds(r[|prefix|..]);
    }
  }

  /** Any other path behind the host is recovered too, unless a slash at an end is lost or it reads as a link. */
  lemma AutoRoundTrip(r: seq<byte>, fragment: seq<byte>)
    requires r != []
    ensures DirectOf(EncodedPath(r), fragment) == Some(Direct(r, Auto)) <==>
      r[0] != SLASH && !EndsWith(r, SLASH) && !IsLink(r)
  {
    var e := EncodedPath(r);
    LinkPrefixes(r);
    EncodedIsPath(r);
    EncodedPathEnds(r);
    AutoMeans(e, fragment);
    if r[0] != SLASH && !EndsWith(r, SLASH) && !IsLink(r) {
      assert TrimEnd(TrimStart(e, SLASH), SLASH) == e;
    } else if !IsLink(r) {
      TrimmedDiffers(r);
    }
  }

  lemma StripsEither(s: seq<byte>, a: seq<byte>, b: seq<byte>)
    requires !(a <= s && b <= s)
    ensures StripEither(s, a, b).Some? <==> (a <= s && |s| > |a|) || (b <= s && |s| > |b|)
  {
  }

  lemma AutoMeans(path: seq<byte>, fragment: seq<byte>)
    requires path != []
    ensures
      var sub, direct := TrimEnd(TrimStart(path, SLASH), SLASH), DirectOf(path, fragment);
      if IsLink(path) then direct.Some? && !direct.value.kind.Auto?
      else direct == if sub == [] then None else Some(Direct(Decode(sub), Auto))
  {
    assert FILES[0] == 102 && PULL[0] == 112 && ZIP[4] == 122 && LIST[4] == 108;
    StripsEither(path, FILES, PULL);
    StripsEither(path, ZIP, LIST);
  }

  lemma {:induction false} TrimEndShorter(s: seq<byte>)
    ensures |TrimEnd(s, SLASH)| <= |s|
    ensures EndsWith(s, SLASH) ==> |TrimEnd(s, SLASH)| < |s|
  {
    if EndsWith(s, SLASH) {
      TrimEndShorter(s[..|s| - 1]);
    }
  }

  /** Decoding never makes text longer, so what lost a slash cannot decode to the whole. */
  lemma TrimmedDiffers(r: seq<byte>)
    requires r != [] && (r[0] == SLASH || EndsWith(r, SLASH))
    ensures
      var sub := TrimEnd(TrimStart(EncodedPath(r), SLASH), SLASH);
      sub == [] || Decode(sub) != r
  {
    var sub := TrimEnd(TrimStart(EncodedPath(r), SLASH), SLASH);
    TrimCommutes(r);
    var kept := TrimStart(r, SLASH);
    EncodedPathEnds(kept);
    TrimEndCommutes(kept);
    var left := TrimEnd(kept, SLASH);
    EncodedIsPath(left);
    TrimEndShorter(kept);
    if r[0] != SLASH {
      assert kept == r;
    } else {
      assert kept != r && |kept| < |r|;
    }
  }

  lemma {:induction false} TrimEndCommutes(r: seq<byte>)
    ensures TrimEnd(EncodedPath(r), SLASH) == EncodedPath(TrimEnd(r, SLASH))
  {
    EncodedPathEnds(r);
    if EndsWith(r, SLASH) {
      EncodedSnoc(r[..|r| - 1]);
      assert r == r[..|r| - 1] + [SLASH];
      TrimEndCommutes(r[..|r| - 1]);
      assert EncodedPath(r)[..|EncodedPath(r)| - 1] == EncodedPath(r[..|r| - 1]);
    }
  }

  lemma {:induction false} EncodedSnoc(r: seq<byte>)
    ensures EncodedPath(r + [SLASH]) == EncodedPath(r) + [SLASH]
  {
    if r == [] {
      assert [SLASH][1..] == [] && EncodedPath([SLASH]) == [SLASH] + EncodedPath([]);
      assert r + [SLASH] == [SLASH];
    } else {
      assert (r + [SLASH])[1..] == r[1..] + [SLASH];
      EncodedSnoc(r[1..]);
      Associative(EncodeByte(r[0], KeptInPath), EncodedPath(r[1..]), [SLASH]);
    }
  }

  /**
   From the client's request to the file the server opens: either prefix and the encoded path name
   the very path that was asked for, if and only if it neither starts nor ends with a slash.
   */
  lemma RequestNamesThePath(p: Prefix, r: seq<byte>)
    ensures
      var path := PrefixText(p) + EncodedPath(r);
      && RoutePath(path) == Some(p)
      && (SubPath(path, p) == r <==> r == [] || (r[0] != SLASH && !EndsWith(r, SLASH)))
  {
    var prefix := PrefixText(p);
    var path := prefix + EncodedPath(r);
    assert path[1] == prefix[1];
    assert PrefixText(PullPrefix)[1] == PULL[0] == 112 && PrefixText(FilesPrefix)[1] == FILES[0] == 102;
    assert path[|prefix|..] == EncodedPath(r);
    TrimCommutes(r);
    var kept := TrimStart(r, SLASH);
    EncodedPathEnds(kept);
    EncodedIsPath(kept);
  }
}
