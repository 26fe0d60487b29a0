/** Serving `/files`: the path through the cache against the path around it. */
module ServeFiles {
  import opened Bytes
  import opened FileMetadata
  import opened HttpResponse
  import opened Disposition
  import opened CacheSpec
  import opened CacheHistory
  import opened FileCaching
  import opened NamedFiles

  /** Type inference and charset sniffing: fixed functions of the path and the first bytes. */
  datatype Library = Library(
    infer: string -> Option<Mime>,
    hasExtension: string -> bool,
    encodingOf: string -> Option<string>,
    needsCharset: (string, string) -> bool,
    guessCharset: seq<byte> -> Option<string>,
    detectText: seq<byte> -> Option<Mime>,
    fileName: string -> Option<Name>)

  predicate LacksCharset(lib: Library, m: Mime) {
    lib.needsCharset(m.top, m.sub) && m.charset.None?
  }

  function Fill(lib: Library, m: Mime, sample: seq<byte>): Mime {
    if LacksCharset(lib, m) then m.(charset := lib.guessCharset(sample)) else m
  }

  /** The type a builder settles on, given one or left to find one. */
  function ResolveType(lib: Library, path: string, given: Option<Mime>, sample: seq<byte>): Mime {
    var inferred := if given.Some? then given else lib.infer(path);
    var encoded := lib.encodingOf(path).Some?;
    if inferred.Some? then
      if encoded then inferred.value else Fill(lib, inferred.value, sample)
    else if !encoded && !lib.hasExtension(path) && lib.detectText(sample).Some? then
      lib.detectText(sample).value
    else OCTET_STREAM
  }

  /** The first bytes of the file, when it can be read. */
  function Sample(content: seq<byte>): seq<byte> {
    content[..Min(1024, |content|)]
  }

  /**
   Sniffing only ever fills gaps: a type that is given or inferred stays, and so does its charset;
   of an encoded file nothing is concluded from its bytes; without a type the bytes count only if
   the name has no extension.
   */
  lemma SniffingFillsGaps(lib: Library, path: string, given: Option<Mime>, sample: seq<byte>, other: seq<byte>)
    ensures
      var known := if given.Some? then given else lib.infer(path);
      var m := ResolveType(lib, path, given, sample);
      && (known.Some? ==> m.(charset := None) == known.value.(charset := None))
      && (known.Some? && known.value.charset.Some? ==> m == known.value)
      && (known.Some? && !lib.needsCharset(m.top, m.sub) ==> m == known.value)
      && (lib.encodingOf(path).Some? ==> m == ResolveType(lib, path, given, other))
      && (known.None? && lib.hasExtension(path) ==> m == OCTET_STREAM)
  {
  }

  /** `preload_threshold(0)` preloads empty files only. */
  function Build(lib: Library, path: string, m: FileMeta, given: Option<Mime>, content: seq<byte>): NamedFile {
    NamedFile(lib.fileName(path), m, ResolveType(lib, path, given, Sample(content)),
              None, lib.encodingOf(path), true, true, true, true,
              if m.len == 0 then Some([]) else None, 1024 * 1024, None)
  }

  const EMPTY_REPLY := Reply(None, NO_HEADERS, NoBody)

  function MissFile(lib: Library, path: string, m: FileMeta, content: seq<byte>): NamedFile
    requires m.Normal()
  {
    Build(lib, path, m, None, content).(etagOverride := EtagOf(m))
  }

  function ServeMiss(lib: Library, path: string, m: FileMeta, content: seq<byte>, req: Request, sendBody: bool): Reply
    requires m.Normal()
  {
    Outcome(MissFile(lib, path, m, content), req, EMPTY_REPLY, sendBody)
  }

  /** What a miss leaves in the cache, read back from the response it sent. */
  function Stored(lib: Library, path: string, m: FileMeta, content: seq<byte>,
                  req: Request, sendBody: bool): CachedHeaders
    requires m.Normal()
  {
    var sent := ServeMiss(lib, path, m, content, req, sendBody).headers;
    CachedHeaders(MissFile(lib, path, m, content).contentType, sent.lastModified, EtagOf(m), sent.disposition)
  }

  function HitFile(lib: Library, path: string, m: FileMeta, cached: CachedHeaders, content: seq<byte>): NamedFile {
    Build(lib, path, m, Some(cached.contentType), content).(
      etagOverride := cached.etag,
      disposition := cached.disposition)
  }

  function ServeHit(lib: Library, path: string, m: FileMeta, cached: CachedHeaders, content: seq<byte>,
                    req: Request, sendBody: bool): Reply
    requires m.Normal()
  {
    var primed := EMPTY_REPLY.(headers := NO_HEADERS.(lastModified := cached.lastModified));
    Outcome(HitFile(lib, path, m, cached, content), req, primed, sendBody)
  }

  /**
   The handler: serves from what `open` found and, on a miss, stores what it sent. The body
   is handed to the zero-copy path afterwards, so it is not part of the comparison.
   */
  method Serve(lib: Library, cache: FileCache, sub: string, path: string, file: nat, m: FileMeta,
               cached: Option<CachedHeaders>, content: seq<byte>, req: Request, res: Response, sendBody: bool, now: int)
    requires m.Normal() && cache.Valid() && View(res) == EMPTY_REPLY
    modifies res, cache.shards[cache.ShardIndex(sub)]
    ensures cache.Valid()
    ensures View(res) ==
      if cached.Some? then ServeHit(lib, path, m, cached.value, content, req, sendBody)
      else ServeMiss(lib, path, m, content, req, sendBody)
    ensures
      var shard := cache.shards[cache.ShardIndex(sub)];
      shard.log ==
        if cached.Some? then old(shard.log)
        else old(shard.log) + [Op.Insert(sub, Hit(path, file, m, Stored(lib, path, m, content, req, sendBody)), now)]
  {
    var given := if cached.Some? then Some(cached.value.contentType) else None;
    if cached.Some? && cached.value.lastModified.Some? {
      res.headers := res.headers.(lastModified := cached.value.lastModified);
    }
    var named := Build(lib, path, m, given, content);
    var etag := if cached.Some? then cached.value.etag else EtagOf(m);
    if etag.Some? {
      named := named.(etagOverride := etag);
    }
    if cached.Some? && cached.value.disposition.Some? {
      named := named.(disposition := cached.value.disposition);
    }
    SendInner(named, req, res, sendBody);
    if cached.None? {
      var headers := CachedHeaders(named.contentType, res.headers.lastModified, etag, res.headers.disposition);
      cache.Insert(sub, Hit(path, file, m, headers), now);
    }
  }

  /** What `symlink_metadata` reports. */
  datatype Lstat = Missing | NotAFile | Regular(metadata: FileMeta)

  datatype Opened = Opened(joined: string, file: nat, metadata: FileMeta, headers: Option<CachedHeaders>)

  /**
   A cached answer: everything in it comes from the insert at `j`, the last one of that path
   with no removal since, and the file was compared in all four fields at `v` or right now.
   */
  ghost predicate FromCache(log: seq<Op>, path: string, o: Opened, j: int, v: int, now: int, lstat: Lstat) {
    && 0 <= j <= v < |log|
    && o.headers.Some? && log[j].Insert? && log[j].key == path
    && log[j].hit == Hit(o.joined, o.file, o.metadata, o.headers.value)
    && (forall i :: j < i < |log| && log[i].key == path ==> !log[i].Insert? && !log[i].Remove?)
    && (v == j || (log[v].Get? && log[v].key == path && Matches(o.metadata, log[v].lstat)))
    && !log[v].Remove?
    && (now - log[v].now < REVALIDATE_MILLIS || (lstat.Regular? && Matches(o.metadata, lstat.metadata)))
  }

  /** What opening a path does to its shard after a first lookup that found nothing recent. */
  function SecondStep(path: string, lstat: Lstat, later: int): seq<Op> {
    match lstat
    case Missing => [Op.Remove(path)]
    case NotAFile => []
    case Regular(metadata) => [Op.Get(path, metadata, later)]
  }

  /** The file as it was opened afresh, if it could be; nothing is known of its headers yet. */
  function Reopened(joined: string, reopened: Option<(nat, FileMeta)>): Option<Opened> {
    if reopened.None? then None else Some(Opened(joined, reopened.value.0, reopened.value.1, None))
  }

  /**
   Finds the file for a path: a recently checked entry as it is, an older entry if `lstat`
   still agrees with it, and otherwise by opening the path again. A path that is gone gives up
   its entry. The shard's lock is taken for each step alone; between the two steps other
   requests do `others`, which may be anything.
   */
  method Open(cache: FileCache, path: string, joined: string, lstat: Lstat, reopened: Option<(nat, FileMeta)>,
              others: seq<Op>, now: int, later: int) returns (o: Option<Opened>)
    requires cache.Valid()
    requires forall k :: 0 <= k < |others| ==> cache.ShardIndex(others[k].key) == cache.ShardIndex(path)
    modifies cache.shards[cache.ShardIndex(path)]
    ensures cache.Valid()
    // A recent entry is used without a second step.
    ensures
      var log := old(cache.shards[cache.ShardIndex(path)].log);
      Owed(log, Answers(log), GetFresh(path, now)).Some? ==>
        && cache.shards[cache.ShardIndex(path)].log == log + [GetFresh(path, now)]
        && o.Some? && o.value.headers.Some?
        && exists j, v :: FromCache(log, path, o.value, j, v, now, lstat)
    // Otherwise the second step decides, on what the others have left.
    ensures
      var log := old(cache.shards[cache.ShardIndex(path)].log);
      var at := log + [GetFresh(path, now)] + others;
      Owed(log, Answers(log), GetFresh(path, now)).None? ==>
        && cache.shards[cache.ShardIndex(path)].log == at + SecondStep(path, lstat, later)
        && (o.Some? ==> lstat.Regular?)
        && (o.Some? && o.value.headers.Some? <==>
              lstat.Regular? && Owed(at, Answers(at), Op.Get(path, lstat.metadata, later)).Some?)
        && (o.Some? && o.value.headers.Some? ==> exists j, v :: FromCache(at, path, o.value, j, v, now, lstat))
        && (o.Some? ==> o.value.headers.Some? || o == Reopened(joined, reopened))
        && (lstat.Regular? && o.None? ==> reopened.None?)
        && (lstat.Missing? ==> Position(Replay(cache.shards[cache.ShardIndex(path)].log), path).None?)
  {
    var i := cache.ShardIndex(path);
    ghost var log := cache.shards[i].log;
    assert cache.Sound(i);
    AnswerIsOwed(log, GetFresh(path, now));
    var recent := cache.GetFresh(path, now);
    if recent.Some? {
      ghost var j, v := FreshHitIsBounded(log, path, now);
      var h := recent.value;
      o := Some(Opened(h.joined, h.file, h.metadata, Some(h.headers)));
      assert FromCache(log, path, o.value, j, v, now, lstat);
      return;
    }
    cache.OthersRequest(i, others);
    o := SecondLook(cache, path, joined, lstat, reopened, now, later);
  }

  /** The second step, behind a first one that found nothing recent. */
  method SecondLook(cache: FileCache, path: string, joined: string, lstat: Lstat, reopened: Option<(nat, FileMeta)>,
                    ghost now: int, later: int) returns (o: Option<Opened>)
    requires cache.Valid()
    modifies cache.shards[cache.ShardIndex(path)]
    ensures cache.Valid()
    ensures
      var at := old(cache.shards[cache.ShardIndex(path)].log);
      && cache.shards[cache.ShardIndex(path)].log == at + SecondStep(path, lstat, later)
      && (o.Some? ==> lstat.Regular?)
      && (o.Some? && o.value.headers.Some? <==>
            lstat.Regular? && Owed(at, Answers(at), Op.Get(path, lstat.metadata, later)).Some?)
      && (o.Some? && o.value.headers.Some? ==> exists j, v :: FromCache(at, path, o.value, j, v, now, lstat))
      && (o.Some? ==> o.value.headers.Some? || o == Reopened(joined, reopened))
      && (lstat.Regular? && o.None? ==> reopened.None?)
      && (lstat.Missing? ==> Position(Replay(cache.shards[cache.ShardIndex(path)].log), path).None?)
  {
    ghost var at := cache.shards[cache.ShardIndex(path)].log;
    assert cache.Sound(cache.ShardIndex(path));
    if lstat.Missing? {
      cache.Remove(path);
      RemovedIsGone(at, path);
      return None;
    }
    if lstat.NotAFile? {
      assert at + [] == at;
      return None;
    }
    AnswerIsOwed(at, Op.Get(path, lstat.metadata, later));
    var hit := cache.Get(path, lstat.metadata, later);
    if hit.Some? {
      var h := hit.value;
      ghost var j, v := CheckedHit(at, path, lstat.metadata, later);
      o := Some(Opened(h.joined, h.file, h.metadata, Some(h.headers)));
      assert FromCache(at, path, o.value, j, v, now, lstat);
      return;
    }
    if reopened.None? {
      return None;
    }
    o := Some(Opened(joined, reopened.value.0, reopened.value.1, None));
  }

  /** What a cached answer is compared by is what an entity tag is made of. */
  lemma MatchingIsSameTag(cached: FileMeta, lstat: FileMeta)
    requires cached.Normal() && lstat.Normal() && cached.mtime >= 0 && lstat.mtime >= 0
    ensures Matches(cached, lstat) <==> EtagOf(cached) == EtagOf(lstat)
  {
    EtagDeterminesFile(cached, lstat);
  }

  /** The reply to a request that misses the cache: what it says of the file, and which bytes it has. */
  lemma MissAnswers(lib: Library, path: string, m: FileMeta, content: seq<byte>, req: Request, sendBody: bool)
    requires m.Normal()
    ensures
      var f, sent := MissFile(lib, path, m, content), ServeMiss(lib, path, m, content, req, sendBody);
      var h, before := sent.headers, EMPTY_REPLY.(headers := EntityHeaders(f, NO_HEADERS));
      var t := ResolveType(lib, path, None, Sample(content));
      && h.contentType == Some(t) && h.contentEncoding == lib.encodingOf(path)
      && h.etag == EtagOf(m) && h.lastModified == (if m.mtime < 0 then None else Some(m.mtime))
      && h.disposition == Some(BuildContentDisposition(lib.fileName(path), t, None))
      && h.nosniff && h.acceptRanges
      && if Fails(req, EtagOf(m), Some(m.mtime)) then sent == before.(status := Some(412))
         else if HasIt(req, EtagOf(m), Some(m.mtime)) then sent == before.(status := Some(304))
         else AnswersRange(f, req.range, before, sent, sendBody)
  {
    var f := MissFile(lib, path, m, content);
    EveryReplyDescribesTheFile(f, req, NoBody, sendBody);
    ReplyOfRequest(f, req, EMPTY_REPLY, sendBody);
  }

  lemma RemovedIsGone(log: seq<Op>, path: string)
    ensures Position(Replay(log + [Op.Remove(path)]), path).None?
  {
    assert (log + [Op.Remove(path)])[..|log|] == log;
    ReplayBounded(log);
    WithoutIsGone(Replay(log), path);
    assert Kept(Replay(log), Op.Remove(path)) + Added(Replay(log), Op.Remove(path)) == Without(Replay(log), path);
  }

  lemma CheckedHit(log: seq<Op>, path: string, lstat: FileMeta, now: int) returns (j: int, v: int)
    requires Usable(Replay(log), Op.Get(path, lstat, now)).Some?
    ensures
      var item := Lookup(Replay(log), path).value;
      item.key == path && Matches(item.hit.metadata, lstat) && Backed(log, item, j, v)
  {
    j, v := Provenance(log, Position(Replay(log), path).value);
  }

  /** What a miss stores does not depend on the request that happened to miss. */
  lemma StoredIsRequestIndependent(lib: Library, path: string, m: FileMeta, content: seq<byte>,
                                   a: Request, aBody: bool, b: Request, bBody: bool)
    requires m.Normal()
    ensures Stored(lib, path, m, content, a, aBody) == Stored(lib, path, m, content, b, bBody)
  {
    StoredFields(lib, path, m, content, a, aBody);
    StoredFields(lib, path, m, content, b, bBody);
  }

  lemma StoredFields(lib: Library, path: string, m: FileMeta, content: seq<byte>, req: Request, sendBody: bool)
    requires m.Normal()
    ensures
      var f, t := MissFile(lib, path, m, content), m.Modified();
      Stored(lib, path, m, content, req, sendBody) == CachedHeaders(
        f.contentType,
        if t >= 0 then Some(t / NANOS) else None,
        EtagOf(m),
        Some(BuildContentDisposition(f.fileName, f.contentType, None)))
  {
    KeepsEntityHeaders(MissFile(lib, path, m, content), req, EMPTY_REPLY, sendBody);
  }

  /** Only a type detected from the content can still lack the charset that sniffing would add. */
  predicate Settled(lib: Library, path: string, content: seq<byte>) {
    var t := ResolveType(lib, path, None, Sample(content));
    || lib.infer(path).Some? || lib.encodingOf(path).Some?
    || !LacksCharset(lib, t) || lib.guessCharset(Sample(content)).None?
  }

  /**
   The cache agrees with reopening the file: whatever request filled it, every later request
   gets from a hit exactly the status, headers and body description a miss would send, if and
   only if resolving the stored type once more changes nothing.
   */
  lemma CacheAgreement(lib: Library, path: string, m: FileMeta, content: seq<byte>,
                       filler: Request, fillerBody: bool, req: Request, sendBody: bool)
    requires m.Normal()
    ensures
      var stored := Stored(lib, path, m, content, filler, fillerBody);
      ServeHit(lib, path, m, stored, content, req, sendBody) == ServeMiss(lib, path, m, content, req, sendBody)
      <==> Settled(lib, path, content)
  {
    StoredFields(lib, path, m, content, filler, fillerBody);
    var stored := Stored(lib, path, m, content, filler, fillerBody);
    var hit, miss := HitFile(lib, path, m, stored, content), MissFile(lib, path, m, content);
    TypeIsSettled(lib, path, content);
    SameButType(hit, miss, stored, req, sendBody);
  }

  lemma TypeIsSettled(lib: Library, path: string, content: seq<byte>)
    ensures
      var t := ResolveType(lib, path, None, Sample(content));
      ResolveType(lib, path, Some(t), Sample(content)) == t <==> Settled(lib, path, content)
  {
  }

  /** A hit's file differs from a miss's in its type at most; the stored headers cover the rest. */
  lemma SameButType(hit: NamedFile, miss: NamedFile, stored: CachedHeaders, req: Request, sendBody: bool)
    requires miss.metadata.Normal() && miss.useEtag && miss.useLastModified && miss.useDisposition
    requires miss.disposition.None? && miss.etagOverride == EtagOf(miss.metadata) == stored.etag
    requires stored.disposition == Some(BuildContentDisposition(miss.fileName, miss.contentType, None))
    requires var t := miss.metadata.Modified(); stored.lastModified == if t >= 0 then Some(t / NANOS) else None
    requires hit == miss.(contentType := hit.contentType, disposition := stored.disposition)
    ensures
      var primed := EMPTY_REPLY.(headers := NO_HEADERS.(lastModified := stored.lastModified));
      Outcome(hit, req, primed, sendBody) == Outcome(miss, req, EMPTY_REPLY, sendBody)
      <==> hit.contentType == miss.contentType
  {
    var primed := EMPTY_REPLY.(headers := NO_HEADERS.(lastModified := stored.lastModified));
    HeadersButType(hit, miss, stored);
    if hit.contentType == miss.contentType {
      OutcomeFromHeaders(hit, primed, miss, EMPTY_REPLY, req, sendBody);
    } else {
      KeepsEntityHeaders(hit, req, primed, sendBody);
      KeepsEntityHeaders(miss, req, EMPTY_REPLY, sendBody);
    }
  }

  lemma HeadersButType(hit: NamedFile, miss: NamedFile, stored: CachedHeaders)
    requires miss.metadata.Normal() && miss.useEtag && miss.useLastModified && miss.useDisposition
    requires miss.disposition.None? && miss.etagOverride == EtagOf(miss.metadata) == stored.etag
    requires stored.disposition == Some(BuildContentDisposition(miss.fileName, miss.contentType, None))
    requires var t := miss.metadata.Modified(); stored.lastModified == if t >= 0 then Some(t / NANOS) else None
    requires hit == miss.(contentType := hit.contentType, disposition := stored.disposition)
    ensures
      var a, b := EntityHeaders(hit, NO_HEADERS.(lastModified := stored.lastModified)), EntityHeaders(miss, NO_HEADERS);
      && a == b.(contentType := Some(hit.contentType))
      && b.contentType == Some(miss.contentType)
  {
  }

  /** Beyond the headers, a reply depends on the validators, the size and the preloaded body. */
  lemma OutcomeFromHeaders(a: NamedFile, ra: Reply, b: NamedFile, rb: Reply, req: Request, sendBody: bool)
    requires a.metadata == b.metadata && a.metadata.Normal()
    requires a.preread == b.preread && a.bufferSize == b.bufferSize
    requires SentEtag(a) == SentEtag(b) && SentModified(a) == SentModified(b)
    requires ra.status == rb.status && ra.body == rb.body
    requires EntityHeaders(a, ra.headers) == EntityHeaders(b, rb.headers)
    ensures Outcome(a, req, ra, sendBody) == Outcome(b, req, rb, sendBody)
  {
    var headers := EntityHeaders(a, ra.headers);
    assert ra.(headers := headers) == rb.(headers := headers);
    SameContent(a, b, req.range, ra.(headers := headers), sendBody);
  }

  lemma SameContent(a: NamedFile, b: NamedFile, range: RangeHeader, r: Reply, sendBody: bool)
    requires a.metadata == b.metadata && a.preread == b.preread && a.bufferSize == b.bufferSize
    ensures Content(a, range, r, sendBody) == Content(b, range, r, sendBody)
  {
  }

  // ---------- whole requests ----------

  /** The world a server runs in: its library, where a path leads, and what an open file holds. */
  datatype World = World(lib: Library, join: string -> string, read: (nat, FileMeta) -> seq<byte>)

  /** What any miss on this file stores. */
  function StoredFor(w: World, path: string, file: nat, m: FileMeta): CachedHeaders
    requires m.Normal()
  {
    Stored(w.lib, path, m, w.read(file, m), Request(Absent, None, Absent, None, NoRange), false)
  }

  /** An insert by a request that missed. */
  ghost predicate Honest(w: World, op: Op) {
    op.Insert? ==>
      && op.hit.metadata.Normal() && op.hit.joined == w.join(op.key)
      && op.hit.headers == StoredFor(w, op.hit.joined, op.hit.file, op.hit.metadata)
  }

  ghost predicate AllHonest(w: World, log: seq<Op>) {
    forall k :: 0 <= k < |log| ==> Honest(w, log[k])
  }

  lemma HonestSnoc(w: World, log: seq<Op>, ops: seq<Op>)
    requires AllHonest(w, log) && AllHonest(w, ops)
    ensures AllHonest(w, log + ops)
  {
  }

  /** What the cache hands out for a path is an earlier miss on the very path. */
  lemma CachedIsStored(w: World, log: seq<Op>, sub: string, o: Opened, j: int, v: int, now: int, lstat: Lstat)
    requires AllHonest(w, log) && FromCache(log, sub, o, j, v, now, lstat)
    ensures o.metadata.Normal() && o.joined == w.join(sub)
    ensures o.headers == Some(StoredFor(w, o.joined, o.file, o.metadata))
  {
    assert Honest(w, log[j]);
  }

  /** What is sent for an opened file is what a miss sends, whenever its type is settled or it was not cached. */
  lemma SameAsMiss(w: World, o: Opened, req: Request, sendBody: bool)
    requires o.metadata.Normal()
    requires o.headers.Some? ==> o.headers == Some(StoredFor(w, o.joined, o.file, o.metadata))
    ensures
      var content := w.read(o.file, o.metadata);
      var miss := ServeMiss(w.lib, o.joined, o.metadata, content, req, sendBody);
      var sent := if o.headers.None? then miss
                  else ServeHit(w.lib, o.joined, o.metadata, o.headers.value, content, req, sendBody);
      sent == miss <==> o.headers.None? || Settled(w.lib, o.joined, content)
  {
    CacheAgreement(w.lib, o.joined, o.metadata, w.read(o.file, o.metadata),
                   Request(Absent, None, Absent, None, NoRange), false, req, sendBody);
  }

  /** An answer from the cache, at the first step or the second, of a file checked within the window or right now. */
  ghost predicate Recalled(first: seq<Op>, second: seq<Op>, sub: string, o: Opened, now: int, lstat: Lstat) {
    || (exists j, v :: FromCache(first, sub, o, j, v, now, lstat))
    || (exists j, v :: FromCache(second, sub, o, j, v, now, lstat))
  }

  /** A request was answered as it should be, from what was opened for it. */
  ghost predicate Served(w: World, sub: string, req: Request, sendBody: bool, o: Option<Opened>, reply: Reply) {
    match o
    case None => reply == EMPTY_REPLY.(status := Some(404))
    case Some(Opened(joined, file, m, headers)) =>
      && joined == w.join(sub) && m.Normal()
      && (reply == ServeMiss(w.lib, joined, m, w.read(file, m), req, sendBody)
          <==> headers.None? || Settled(w.lib, joined, w.read(file, m)))
  }

  /**
   One request, with any others between its steps: 404 if nothing can be opened, else the reply that
   opening the file afresh would give, if and only if nothing was cached or the type is settled. And
   whatever it leaves in the cache, later requests can be served from in the same way.
   */
  method Handle(w: World, cache: FileCache, sub: string, lstat: Lstat, reopened: Option<(nat, FileMeta)>,
                others: seq<Op>, now: int, later: int, req: Request, res: Response, sendBody: bool)
    returns (o: Option<Opened>)
    requires cache.Valid() && View(res) == EMPTY_REPLY
    requires AllHonest(w, cache.shards[cache.ShardIndex(sub)].log) && AllHonest(w, others)
    requires forall k :: 0 <= k < |others| ==> cache.ShardIndex(others[k].key) == cache.ShardIndex(sub)
    requires reopened.Some? ==> reopened.value.1.Normal()
    modifies res, cache.shards[cache.ShardIndex(sub)]
    ensures cache.Valid() && AllHonest(w, cache.shards[cache.ShardIndex(sub)].log)
    ensures Served(w, sub, req, sendBody, o, View(res))
    ensures o.Some? && o.value.headers.Some? ==>
      var log := old(cache.shards[cache.ShardIndex(sub)].log);
      Recalled(log, log + [GetFresh(sub, now)] + others, sub, o.value, now, lstat)
  {
    ghost var log := cache.shards[cache.ShardIndex(sub)].log;
    ghost var at := log + [GetFresh(sub, now)] + others;
    HonestSnoc(w, log, [GetFresh(sub, now)]);
    HonestSnoc(w, log + [GetFresh(sub, now)], others);
    o := Open(cache, sub, w.join(sub), lstat, reopened, others, now, later);
    HonestSnoc(w, at, SecondStep(sub, lstat, later));
    if o.None? {
      res.status := Some(404);
      return;
    }
    var Opened(joined, file, m, cached) := o.value;
    if cached.Some? {
      ghost var from := if Owed(log, Answers(log), GetFresh(sub, now)).Some? then log else at;
      ghost var j, v :| FromCache(from, sub, o.value, j, v, now, lstat);
      CachedIsStored(w, from, sub, o.value, j, v, now, lstat);
    }
    SameAsMiss(w, o.value, req, sendBody);
    ghost var done := cache.shards[cache.ShardIndex(sub)].log;
    var content := w.read(file, m);
    Serve(w.lib, cache, sub, joined, file, m, cached, content, req, res, sendBody, later);
    if cached.None? {
      StoredIsRequestIndependent(w.lib, joined, m, content, req, sendBody,
                                 Request(Absent, None, Absent, None, NoRange), false);
      ghost var hit := Hit(joined, file, m, Stored(w.lib, joined, m, content, req, sendBody));
      HonestSnoc(w, done, [Op.Insert(sub, hit, later)]);
    }
  }

  /** Everything one request meets: the file tree as it finds it, and what others do meanwhile. */
  datatype Ask = Ask(sub: string, lstat: Lstat, reopened: Option<(nat, FileMeta)>, others: seq<Op>, now: int,
                     later: int, req: Request, sendBody: bool)

  ghost predicate Askable(w: World, cache: FileCache, ask: Ask) {
    && AllHonest(w, ask.others) && (ask.reopened.Some? ==> ask.reopened.value.1.Normal())
    && forall k :: 0 <= k < |ask.others| ==> cache.ShardIndex(ask.others[k].key) == cache.ShardIndex(ask.sub)
  }

  ghost predicate HonestCache(w: World, cache: FileCache)
    reads cache, cache.shards
  {
    cache.Valid() && forall i :: 0 <= i < |cache.shards| ==> AllHonest(w, cache.shards[i].log)
  }

  ghost predicate AllServed(w: World, asks: seq<Ask>, found: seq<Option<Opened>>, replies: seq<Reply>) {
    && |found| == |replies| == |asks|
    && forall k :: 0 <= k < |asks| ==> Served(w, asks[k].sub, asks[k].req, asks[k].sendBody, found[k], replies[k])
  }

  lemma ServedSnoc(w: World, asks: seq<Ask>, k: nat, found: seq<Option<Opened>>, replies: seq<Reply>,
                   o: Option<Opened>, reply: Reply)
    requires k < |asks| && AllServed(w, asks[..k], found, replies)
    requires Served(w, asks[k].sub, asks[k].req, asks[k].sendBody, o, reply)
    ensures AllServed(w, asks[..k + 1], found + [o], replies + [reply])
  {
    assert forall j :: 0 <= j < k ==> asks[..k + 1][j] == asks[..k][j];
  }

  /** Any sequence of requests on any files, starting from an empty cache or where others left it. */
  method RunRequests(w: World, cache: FileCache, asks: seq<Ask>)
    returns (replies: seq<Reply>, found: seq<Option<Opened>>)
    requires HonestCache(w, cache) && forall k :: 0 <= k < |asks| ==> Askable(w, cache, asks[k])
    modifies cache.shards
    ensures HonestCache(w, cache) && AllServed(w, asks, found, replies)
  {
    replies, found := [], [];
    for k := 0 to |asks|
      invariant HonestCache(w, cache) && AllServed(w, asks[..k], found, replies)
    {
      var ask := asks[k];
      var res := new Response();
      assert Askable(w, cache, ask);
      var o := Handle(w, cache, ask.sub, ask.lstat, ask.reopened, ask.others, ask.now, ask.later, ask.req, res,
                      ask.sendBody);
      ServedSnoc(w, asks, k, found, replies, o, View(res));
      replies, found := replies + [View(res)], found + [o];
    }
    assert asks[..|asks|] == asks;
  }

  /** Which types these are: detected from content alone, charset left out, and one to be found. */
  lemma UnsettledExactly(lib: Library, path: string, content: seq<byte>)
    ensures
      var sample := Sample(content);
      var detected := if lib.hasExtension(path) then None else lib.detectText(sample);
      var t := if detected.Some? then detected.value else OCTET_STREAM;
      !Settled(lib, path, content) <==>
        && lib.infer(path).None? && lib.encodingOf(path).None?
        && LacksCharset(lib, t) && lib.guessCharset(sample).Some?
  {
  }

  /** With a detection that leaves the charset out, the first download says one thing, the cached one another. */
  lemma UnsettledTypesExist() returns (lib: Library, path: string, content: seq<byte>)
    ensures !Settled(lib, path, content)
  {
    path, content := "notes", [104, 105];
    lib := Library(_ => None, _ => false, _ => None, (_, _) => true, _ => Some("utf-8"),
                   _ => Some(Mime("text", "plain", None, None)), _ => None);
  }
}
