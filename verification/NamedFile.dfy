/** Sending a file over HTTP: entity headers, preconditions, ranges. */
module NamedFiles {
  import opened Bytes
  import Text
  import opened Numerals
  import opened FileMetadata
  import opened HttpResponse
  import opened Disposition

  // ---------- requests ----------

  datatype Tags = Any | Listed(tags: seq<ETag>)

  /** A conditional header: `Malformed` is present but does not parse. */
  datatype TagHeader = Absent | Malformed | Parsed(tags: Tags)

  /** A parsed `Range` header is an arbitrary list of (start, length) pairs. */
  datatype RangeHeader = NoRange | NotText | Unparsable | Ranges(ranges: seq<(nat, nat)>)

  datatype Request = Request(
    ifMatch: TagHeader,
    ifUnmodifiedSince: Option<int>,
    ifNoneMatch: TagHeader,
    ifModifiedSince: Option<int>,
    range: RangeHeader)

  // ---------- the file to send ----------

  datatype NamedFile = NamedFile(
    fileName: Option<Name>,
    metadata: FileMeta,
    contentType: Mime,
    disposition: Option<string>,
    contentEncoding: Option<string>,
    useEtag: bool,
    useLastModified: bool,
    useDisposition: bool,
    nosniff: bool,
    preread: Option<seq<byte>>,
    bufferSize: nat,
    etagOverride: Option<ETag>)

  /** Nothing before the epoch gets an entity tag. */
  function EtagOf(m: FileMeta): Option<ETag>
    requires m.Normal()
  {
    var t := m.Modified();
    if t < 0 then None else Some(ETag(false, TagText(m.ino, m.len, t / NANOS, t % NANOS)))
  }

  function TagText(ino: nat, len: nat, secs: nat, nanos: nat): string {
    Numeral(ino, 16) + ['-'] + (Numeral(len, 16) + ['-'] + (Numeral(secs, 16) + ['-'] + Numeral(nanos, 16)))
  }

  /** No `If-Match`, or one that lists the tag; entity tags are compared strongly. */
  function AnyMatch(etag: Option<ETag>, h: TagHeader): bool {
    match h
    case Absent => true
    case Malformed => true
    case Parsed(Any) => true
    case Parsed(Listed(tags)) =>
      etag.Some? && exists i :: 0 <= i < |tags| && tags[i] == etag.value && !etag.value.weak
  }

  /** No `If-None-Match`, or one that does not list the tag; compared weakly. */
  function NoneMatch(etag: Option<ETag>, h: TagHeader): bool {
    match h
    case Absent => true
    case Malformed => true
    case Parsed(Any) => false
    case Parsed(Listed(tags)) =>
      etag.None? || forall i :: 0 <= i < |tags| ==> tags[i].tag != etag.value.tag
  }

  datatype Verdict = PreconditionFailed | NotModified | Proceed

  /** The outcome of the conditional headers, in the order the code evaluates them. */
  function Decide(etag: Option<ETag>, lastModified: Option<int>, req: Request): Verdict {
    if !AnyMatch(etag, req.ifMatch) then PreconditionFailed
    else if lastModified.Some? && req.ifUnmodifiedSince.Some?
            && req.ifUnmodifiedSince.value * NANOS < HttpDatePrecision(lastModified.value) then PreconditionFailed
    else if !NoneMatch(etag, req.ifNoneMatch) then NotModified
    else if req.ifNoneMatch.Absent? && lastModified.Some? && req.ifModifiedSince.Some?
            && req.ifModifiedSince.value * NANOS >= HttpDatePrecision(lastModified.value) then NotModified
    else Proceed
  }

  /** Which part of the file a request asks for. */
  datatype Selection = Whole | Part(start: nat, length: nat) | Unsatisfiable | BadRequest

  function Select(range: RangeHeader): Selection {
    match range
    case NoRange => Whole
    case NotText => BadRequest
    case Unparsable => Unsatisfiable
    case Ranges(ranges) =>
      if |ranges| == 1 then Part(ranges[0].0, ranges[0].1)
      else if |ranges| > 1 then Whole
      else Unsatisfiable
  }

  /** All that was asked for and is there: as long as asked, or up to the end of the file. */
  predicate IsPartSize(n: nat, start: nat, length: nat, size: nat) {
    && n <= length && (n > 0 ==> start + n <= size)
    && (n == length || start + n >= size)
  }

  /** The byte count a part really has, clamped to the file. */
  function PartSize(start: nat, length: nat, size: nat): (n: nat)
    ensures IsPartSize(n, start, length, size)
  {
    Min(length, if size > start then size - start else 0)
  }

  /**
   The inclusive end is one less than the exclusive one. If the header library subtracts without a
   check of its own, an empty range at offset zero wraps around in a build without overflow checks,
   as the release profile is; this is what is modelled.
   */
  function LastByte(start: nat, n: nat): nat {
    if start + n == 0 then U64_LIMIT - 1 else start + n - 1
  }

  function PartRangeText(start: nat, n: nat, size: nat): string {
    ContentRangeText(start, LastByte(start, n), size)
  }

  // ---------- the response, as a value ----------

  datatype Reply = Reply(status: Option<nat>, headers: Headers, body: Body)

  function FirstSome<T>(a: Option<T>, b: Option<T>): Option<T> {
    if a.Some? then a else b
  }

  function SentEtag(f: NamedFile): Option<ETag>
    requires f.metadata.Normal()
  {
    if !f.useEtag then None else FirstSome(f.etagOverride, EtagOf(f.metadata))
  }

  function SentModified(f: NamedFile): Option<int>
    requires f.metadata.Normal()
  {
    if f.useLastModified then Some(f.metadata.Modified()) else None
  }

  /** What the file is and how it is to be shown. */
  function Described(f: NamedFile, h: Headers): Headers {
    var effective := if h.contentType.Some? then h.contentType.value else f.contentType;
    h.(disposition :=
         if !f.useDisposition then h.disposition
         else if f.disposition.Some? then f.disposition
         else FirstSome(h.disposition, Some(BuildContentDisposition(f.fileName, effective, None))),
       contentType := Some(effective),
       nosniff := h.nosniff || f.nosniff)
  }

  /** Every header that describes the file, written before any early return. */
  function EntityHeaders(f: NamedFile, h: Headers): Headers
    requires f.metadata.Normal()
  {
    var modified := SentModified(f);
    var encodable := if modified.Some? && modified.value >= 0 then Some(modified.value / NANOS) else None;
    Described(f, h).(lastModified := FirstSome(h.lastModified, encodable),
                     etag := FirstSome(SentEtag(f), h.etag),
                     acceptRanges := true,
                     contentEncoding := FirstSome(f.contentEncoding, h.contentEncoding))
  }

  function PrereadSlice(bytes: seq<byte>, start: nat, n: nat): seq<byte> {
    var end := Min(start + n, |bytes|);
    bytes[Min(start, end)..end]
  }

  /** What a request gets, from a response that may already carry some headers. */
  function Outcome(f: NamedFile, req: Request, r: Reply, sendBody: bool): Reply
    requires f.metadata.Normal()
  {
    var r1 := r.(headers := EntityHeaders(f, r.headers));
    match Decide(SentEtag(f), SentModified(f), req)
    case PreconditionFailed => r1.(status := Some(412))
    case NotModified => r1.(status := Some(304))
    case Proceed => Content(f, req.range, r1, sendBody)
  }

  function View(res: Response): Reply
    reads res
  {
    Reply(res.status, res.headers, res.body)
  }

  /** Writes the response step by step, returning early on every status but 200 and 206. */
  method SendInner(f: NamedFile, req: Request, res: Response, sendBody: bool)
    requires f.metadata.Normal()
    modifies res
    ensures View(res) == Outcome(f, req, old(View(res)), sendBody)
  {
    var etag := if f.useEtag then FirstSome(f.etagOverride, EtagOf(f.metadata)) else None;
    var lastModified := if f.useLastModified then Some(f.metadata.Modified()) else None;

    var preconditionFailed := false;
    if !AnyMatch(etag, req.ifMatch) {
      preconditionFailed := true;
    } else if lastModified.Some? && req.ifUnmodifiedSince.Some? {
      preconditionFailed := req.ifUnmodifiedSince.value * NANOS < HttpDatePrecision(lastModified.value);
    }

    var notModified := false;
    if !NoneMatch(etag, req.ifNoneMatch) {
      notModified := true;
    } else if req.ifNoneMatch.Absent? && lastModified.Some? && req.ifModifiedSince.Some? {
      notModified := req.ifModifiedSince.value * NANOS >= HttpDatePrecision(lastModified.value);
    }

    WriteEntityHeaders(f, etag, lastModified, res);
    if preconditionFailed {
      res.status := Some(412);
      return;
    } else if notModified {
      res.status := Some(304);
      return;
    }
    WriteContent(f, req.range, res, sendBody);
  }

  method WriteDescription(f: NamedFile, res: Response)
    modifies res`headers
    ensures res.headers == Described(f, old(res.headers))
  {
    var effective := if res.headers.contentType.Some? then res.headers.contentType.value else f.contentType;
    if f.useDisposition {
      if f.disposition.Some? {
        res.headers := res.headers.(disposition := f.disposition);
      } else if res.headers.disposition.None? {
        res.headers := res.headers.(disposition := Some(BuildContentDisposition(f.fileName, effective, None)));
      }
    }
    if res.headers.contentType.None? {
      res.headers := res.headers.(contentType := Some(f.contentType));
    }
    if f.nosniff && !res.headers.nosniff {
      res.headers := res.headers.(nosniff := true);
    }
  }

  /** The headers that describe the file; they are complete before any status is decided. */
  method WriteEntityHeaders(f: NamedFile, etag: Option<ETag>, lastModified: Option<int>, res: Response)
    requires f.metadata.Normal() && etag == SentEtag(f) && lastModified == SentModified(f)
    modifies res`headers
    ensures res.headers == EntityHeaders(f, old(res.headers))
  {
    WriteDescription(f, res);
    if lastModified.Some? && lastModified.value >= 0 && res.headers.lastModified.None? {
      res.headers := res.headers.(lastModified := Some(lastModified.value / NANOS));
    }
    if etag.Some? {
      res.headers := res.headers.(etag := etag);
    }
    res.headers := res.headers.(acceptRanges := true);
    if f.contentEncoding.Some? {
      res.headers := res.headers.(contentEncoding := f.contentEncoding);
    }
  }

  function Content(f: NamedFile, range: RangeHeader, r: Reply, sendBody: bool): Reply {
    var size := f.metadata.len;
    match Select(range)
    case BadRequest => r.(status := Some(400))
    case Unsatisfiable =>
      r.(status := Some(416), headers := r.headers.(contentRange := Some("bytes */" + Numeral(size, 10))))
    case Whole =>
      r.(status := Some(200), headers := r.headers.(contentLength := Some(Numeral(size, 10))),
         body := if !sendBody then r.body
                 else if f.preread.Some? then Once(f.preread.value)
                 else Chunked(0, size, f.bufferSize))
    case Part(start, length) =>
      var n := PartSize(start, length, size);
      r.(status := Some(206),
         headers := r.headers.(contentRange := Some(PartRangeText(start, n, size)),
                               contentLength := Some(Numeral(n, 10))),
         body := if !sendBody then r.body
                 else if f.preread.Some? then Once(PrereadSlice(f.preread.value, start, n))
                 else Chunked(start, n, f.bufferSize))
  }

  /** The body of a file: the loaded bytes, cut to the part, or a stream of it. */
  predicate CarriesPart(f: NamedFile, body: Body, start: nat, n: nat) {
    match f.preread
    case None => body == Chunked(start, n, f.bufferSize)
    case Some(bytes) =>
      start + n <= |bytes| ==> body == Once(if n == 0 then [] else bytes[start..start + n])
  }

  /**
   What the range decides: which status, which length and range the client reads out of the
   headers, and which bytes the body is. An unreadable header is refused, an unsatisfiable one told
   the size; one range is answered with all of it that exists; several ranges with the whole file.
   */
  ghost predicate AnswersRange(f: NamedFile, range: RangeHeader, before: Reply, sent: Reply, sendBody: bool) {
    ElseUnchanged(before, sent, sendBody) &&
    match range
    case NotText => sent == before.(status := Some(400))
    case NoRange => AnswersWhole(f, before, sent, sendBody)
    case Unparsable => AnswersUnsatisfied(f, before, sent)
    case Ranges(ranges) =>
      if |ranges| == 0 then AnswersUnsatisfied(f, before, sent)
      else if |ranges| > 1 then AnswersWhole(f, before, sent, sendBody)
      else AnswersOneRange(f, ranges[0].0, ranges[0].1, sent, sendBody)
  }

  ghost predicate ElseUnchanged(before: Reply, sent: Reply, sendBody: bool) {
    && sent.headers.(contentRange := None, contentLength := None)
       == before.headers.(contentRange := None, contentLength := None)
    && (!sendBody ==> sent.body == before.body)
  }

  ghost predicate AnswersOneRange(f: NamedFile, start: nat, length: nat, sent: Reply, sendBody: bool) {
    exists n: nat :: IsPartSize(n, start, length, f.metadata.len) && AnswersPart(f, start, n, sent, sendBody)
  }

  ghost predicate AnswersUnsatisfied(f: NamedFile, before: Reply, sent: Reply) {
    && sent.status == Some(416) && sent.body == before.body
    && sent.headers.contentRange == Some("bytes */" + Numeral(f.metadata.len, 10))
    && sent.headers.contentLength == before.headers.contentLength
  }

  ghost predicate AnswersWhole(f: NamedFile, before: Reply, sent: Reply, sendBody: bool) {
    && sent.status == Some(200)
    && sent.headers.contentLength.Some? && ParseNumeral(sent.headers.contentLength.value, 10) == Some(f.metadata.len)
    && sent.headers.contentRange == before.headers.contentRange
    && (sendBody ==>
          sent.body == if f.preread.Some? then Once(f.preread.value) else Chunked(0, f.metadata.len, f.bufferSize))
  }

  ghost predicate AnswersPart(f: NamedFile, start: nat, n: nat, sent: Reply, sendBody: bool) {
    && sent.status == Some(206)
    && sent.headers.contentLength.Some? && ParseNumeral(sent.headers.contentLength.value, 10) == Some(n)
    && sent.headers.contentRange.Some?
    && ReadContentRange(sent.headers.contentRange.value)
       == Some((start, if start + n > 0 then start + n - 1 else U64_LIMIT - 1, f.metadata.len))
    && (sendBody ==> CarriesPart(f, sent.body, start, n))
  }

  lemma WholeAnswer(f: NamedFile, range: RangeHeader, r: Reply, sendBody: bool)
    requires Select(range).Whole?
    ensures AnswersWhole(f, r, Content(f, range, r, sendBody), sendBody)
  {
    NumeralRoundTrip(f.metadata.len, 10);
  }

  lemma PartHeadersRead(start: nat, n: nat, size: nat)
    ensures ParseNumeral(Numeral(n, 10), 10) == Some(n)
    ensures ReadContentRange(PartRangeText(start, n, size)) == Some((start, LastByte(start, n), size))
  {
    NumeralRoundTrip(n, 10);
    ContentRangeReadsBack(start, LastByte(start, n), size);
  }

  lemma PartBody(f: NamedFile, start: nat, n: nat, body: Body)
    requires body == if f.preread.Some? then Once(PrereadSlice(f.preread.value, start, n))
                     else Chunked(start, n, f.bufferSize)
    ensures CarriesPart(f, body, start, n)
  {
  }

  lemma PartAnswer(f: NamedFile, start: nat, length: nat, r: Reply, sendBody: bool)
    ensures AnswersOneRange(f, start, length, Content(f, Ranges([(start, length)]), r, sendBody), sendBody)
  {
    var n, sent := PartSize(start, length, f.metadata.len), Content(f, Ranges([(start, length)]), r, sendBody);
    assert Select(Ranges([(start, length)])) == Part(start, length);
    PartHeadersRead(start, n, f.metadata.len);
    if sendBody {
      PartBody(f, start, n, sent.body);
    }
    assert AnswersPart(f, start, n, sent, sendBody);
  }

  lemma UnsatisfiedAnswer(f: NamedFile, range: RangeHeader, r: Reply, sendBody: bool)
    requires Select(range).Unsatisfiable?
    ensures AnswersUnsatisfied(f, r, Content(f, range, r, sendBody))
  {
  }

  lemma ElseStays(f: NamedFile, range: RangeHeader, r: Reply, sendBody: bool)
    ensures ElseUnchanged(r, Content(f, range, r, sendBody), sendBody)
  {
  }

  lemma ContentAnswersRange(f: NamedFile, range: RangeHeader, r: Reply, sendBody: bool)
    ensures AnswersRange(f, range, r, Content(f, range, r, sendBody), sendBody)
  {
    ElseStays(f, range, r, sendBody);
    match range
    case NotText =>
    case NoRange => WholeAnswer(f, range, r, sendBody);
    case Unparsable => UnsatisfiedAnswer(f, range, r, sendBody);
    case Ranges(ranges) =>
      if |ranges| == 0 {
        UnsatisfiedAnswer(f, range, r, sendBody);
      } else if |ranges| > 1 {
        WholeAnswer(f, range, r, sendBody);
      } else {
        assert ranges == [(ranges[0].0, ranges[0].1)];
        PartAnswer(f, ranges[0].0, ranges[0].1, r, sendBody);
      }
  }

  /** The status, range headers and body of a request whose preconditions hold. */
  method WriteContent(f: NamedFile, range: RangeHeader, res: Response, sendBody: bool)
    modifies res
    ensures View(res) == Content(f, range, old(View(res)), sendBody)
    ensures AnswersRange(f, range, old(View(res)), View(res), sendBody)
  {
    ContentAnswersRange(f, range, View(res), sendBody);
    var offset, length, isPartial := 0, f.metadata.len, false;
    match range {
      case NoRange =>
      case NotText =>
        res.status := Some(400);
        return;
      case Unparsable =>
        res.headers := res.headers.(contentRange := Some("bytes */" + Numeral(length, 10)));
        res.status := Some(416);
        return;
      case Ranges(ranges) =>
        if |ranges| == 1 {
          offset, length, isPartial := ranges[0].0, ranges[0].1, true;
        } else if |ranges| == 0 {
          res.headers := res.headers.(contentRange := Some("bytes */" + Numeral(length, 10)));
          res.status := Some(416);
          return;
        }
    }
    if isPartial {
      res.status := Some(206);
      var total := PartSize(offset, length, f.metadata.len);
      res.headers := res.headers.(contentRange := Some(PartRangeText(offset, total, f.metadata.len)));
      res.headers := res.headers.(contentLength := Some(Numeral(total, 10)));
      if !sendBody {
        return;
      }
      res.body := if f.preread.Some? then Once(PrereadSlice(f.preread.value, offset, total))
                  else Chunked(offset, total, f.bufferSize);
    } else {
      res.status := Some(200);
      res.headers := res.headers.(contentLength := Some(Numeral(length, 10)));
      if !sendBody {
        return;
      }
      res.body := if f.preread.Some? then Once(f.preread.value) else Chunked(offset, length, f.bufferSize);
    }
  }

  /** No status and no early return loses a header that describes the file. */
  lemma KeepsEntityHeaders(f: NamedFile, req: Request, r: Reply, sendBody: bool)
    requires f.metadata.Normal()
    ensures
      var sent, entity := Outcome(f, req, r, sendBody).headers, EntityHeaders(f, r.headers);
      sent == entity.(contentRange := sent.contentRange, contentLength := sent.contentLength)
  {
  }

  // ---------- validators ----------

  lemma NoDashInHex(n: nat)
    ensures '-' !in Numeral(n, 16)
  {
    var s := Numeral(n, 16);
    forall i | 0 <= i < |s| ensures s[i] != '-' {
      assert IsDigit(s[i]);
    }
  }

  lemma DashSeparates(a: string, x: string, b: string, y: string)
    requires '-' !in a && '-' !in b
    requires a + ['-'] + x == b + ['-'] + y
    ensures a == b && x == y
  {
    Text.SplitOnceAt(a, '-', x);
    Text.SplitOnceAt(b, '-', y);
  }

  /** Two files carry the same tag only if they agree in all four fields. */
  lemma EtagDeterminesFile(a: FileMeta, b: FileMeta)
    requires a.Normal() && b.Normal() && a.mtime >= 0 && b.mtime >= 0
    ensures EtagOf(a).Some?
    ensures EtagOf(a) == EtagOf(b) <==> a == b
  {
    ModifiedIsNanoseconds(a);
    ModifiedIsNanoseconds(b);
    HexParts(a);
    HexParts(b);
    if EtagOf(a) == EtagOf(b) {
      NoDashInHex(a.ino); NoDashInHex(b.ino);
      NoDashInHex(a.len); NoDashInHex(b.len);
      NoDashInHex(a.mtime); NoDashInHex(b.mtime);
      DashSeparates(Numeral(a.ino, 16),
                    Numeral(a.len, 16) + ['-'] + (Numeral(a.mtime, 16) + ['-'] + Numeral(a.mtimeNsec, 16)),
                    Numeral(b.ino, 16),
                    Numeral(b.len, 16) + ['-'] + (Numeral(b.mtime, 16) + ['-'] + Numeral(b.mtimeNsec, 16)));
      DashSeparates(Numeral(a.len, 16), Numeral(a.mtime, 16) + ['-'] + Numeral(a.mtimeNsec, 16),
                    Numeral(b.len, 16), Numeral(b.mtime, 16) + ['-'] + Numeral(b.mtimeNsec, 16));
      DashSeparates(Numeral(a.mtime, 16), Numeral(a.mtimeNsec, 16), Numeral(b.mtime, 16), Numeral(b.mtimeNsec, 16));
      NumeralInjective(a.ino, b.ino, 16);
      NumeralInjective(a.len, b.len, 16);
      NumeralInjective(a.mtime, b.mtime, 16);
      NumeralInjective(a.mtimeNsec, b.mtimeNsec, 16);
    }
  }

  lemma HexParts(m: FileMeta)
    requires m.Normal() && m.mtime >= 0
    ensures EtagOf(m) == Some(ETag(false, TagText(m.ino, m.len, m.mtime, m.mtimeNsec)))
  {
    ModifiedIsNanoseconds(m);
    DivMod(m.mtime, m.mtimeNsec);
  }

  lemma DivMod(secs: nat, nanos: nat)
    requires nanos < NANOS
    ensures (secs * NANOS + nanos) / NANOS == secs && (secs * NANOS + nanos) % NANOS == nanos
  {
  }

  /** Some listed tag is this one, and it is a strong one. */
  predicate ListsStrongly(tags: seq<ETag>, etag: Option<ETag>) {
    etag.Some? && !etag.value.weak && etag.value in tags
  }

  predicate ListsText(tags: seq<ETag>, etag: Option<ETag>) {
    etag.Some? && exists i :: 0 <= i < |tags| && tags[i].tag == etag.value.tag
  }

  /** Whether a precondition of the request fails for a file last modified at `seconds`, if that is told. */
  predicate Fails(req: Request, etag: Option<ETag>, seconds: Option<int>) {
    || (req.ifMatch.Parsed? && req.ifMatch.tags.Listed? && !ListsStrongly(req.ifMatch.tags.tags, etag))
    || (req.ifUnmodifiedSince.Some? && seconds.Some? && req.ifUnmodifiedSince.value < seconds.value)
  }

  /** Whether the client already has the file; the date counts only where no tags were sent at all. */
  predicate HasIt(req: Request, etag: Option<ETag>, seconds: Option<int>) {
    match req.ifNoneMatch
    case Malformed => false
    case Parsed(Any) => true
    case Parsed(Listed(tags)) => ListsText(tags, etag)
    case Absent => req.ifModifiedSince.Some? && seconds.Some? && seconds.value <= req.ifModifiedSince.value
  }

  /** Every combination of conditional headers, decided on the seconds of the modification time. */
  lemma DecisionTable(m: FileMeta, dated: bool, etag: Option<ETag>, req: Request)
    requires m.Normal()
    ensures
      var seconds := if dated then Some(m.mtime) else None;
      Decide(etag, if dated then Some(m.Modified()) else None, req) ==
        if Fails(req, etag, seconds) then PreconditionFailed
        else if HasIt(req, etag, seconds) then NotModified
        else Proceed
  {
    HttpDateIsMtime(m);
    MatchesListed(etag, req.ifMatch);
    match req.ifUnmodifiedSince {
      case Some(since) => assert since * NANOS < m.mtime * NANOS <==> since < m.mtime;
      case None =>
    }
    match req.ifModifiedSince {
      case Some(since) => assert since * NANOS >= m.mtime * NANOS <==> since >= m.mtime;
      case None =>
    }
  }

  /** The whole reply: a failed precondition first, then an unchanged file, then the range. */
  lemma ReplyOfRequest(f: NamedFile, req: Request, r: Reply, sendBody: bool)
    requires f.metadata.Normal()
    ensures
      var sent, before := Outcome(f, req, r, sendBody), r.(headers := EntityHeaders(f, r.headers));
      var seconds := if f.useLastModified then Some(f.metadata.mtime) else None;
      if Fails(req, SentEtag(f), seconds) then sent == before.(status := Some(412))
      else if HasIt(req, SentEtag(f), seconds) then sent == before.(status := Some(304))
      else AnswersRange(f, req.range, before, sent, sendBody)
  {
    DecisionTable(f.metadata, f.useLastModified, SentEtag(f), req);
    ContentAnswersRange(f, req.range, r.(headers := EntityHeaders(f, r.headers)), sendBody);
  }

  lemma MatchesListed(etag: Option<ETag>, h: TagHeader)
    ensures AnyMatch(etag, h) <==> !(h.Parsed? && h.tags.Listed? && !ListsStrongly(h.tags.tags, etag))
  {
  }

  /**
   Whatever the status, a reply to which nothing was set before says what the file is, as far as it is
   to be told: its type, its tag, when it was last modified, and that ranges are served.
   */
  lemma EveryReplyDescribesTheFile(f: NamedFile, req: Request, body: Body, sendBody: bool)
    requires f.metadata.Normal()
    ensures
      var h := Outcome(f, req, Reply(None, NO_HEADERS, body), sendBody).headers;
      && h.contentType == Some(f.contentType) && h.contentEncoding == f.contentEncoding
      && h.acceptRanges && h.nosniff == f.nosniff
      && h.etag == (if !f.useEtag then None
                    else if f.etagOverride.Some? then f.etagOverride else EtagOf(f.metadata))
      && h.lastModified == (if !f.useLastModified || f.metadata.mtime < 0 then None else Some(f.metadata.mtime))
      && h.disposition == (if !f.useDisposition then None
                           else if f.disposition.Some? then f.disposition
                           else Some(BuildContentDisposition(f.fileName, f.contentType, None)))
  {
    KeepsEntityHeaders(f, req, Reply(None, NO_HEADERS, body), sendBody);
    ModifiedIsNanoseconds(f.metadata);
    DivMod(if f.metadata.mtime < 0 then 0 else f.metadata.mtime, f.metadata.mtimeNsec);
  }

  /** Type, disposition and date a handler has already set stay; tag and encoding are the file's. */
  lemma PresetHeadersStay(f: NamedFile, req: Request, r: Reply, sendBody: bool)
    requires f.metadata.Normal()
    ensures
      var h := Outcome(f, req, r, sendBody).headers;
      && (r.headers.contentType.Some? ==> h.contentType == r.headers.contentType)
      && (r.headers.disposition.Some? && f.disposition.None? ==> h.disposition == r.headers.disposition)
      && (r.headers.lastModified.Some? ==> h.lastModified == r.headers.lastModified)
      && (SentEtag(f).Some? ==> h.etag == SentEtag(f))
      && (f.contentEncoding.Some? ==> h.contentEncoding == f.contentEncoding)
  {
    KeepsEntityHeaders(f, req, r, sendBody);
  }

  /** A request that repeats, in any combination, the validators this file was sent with. */
  predicate Echoes(req: Request, etag: ETag, seconds: int) {
    && (req.ifMatch.Absent? || req.ifMatch == Parsed(Listed([etag])))
    && (req.ifUnmodifiedSince.None? || req.ifUnmodifiedSince == Some(seconds))
    && (req.ifNoneMatch.Absent? || req.ifNoneMatch == Parsed(Listed([etag])))
    && (req.ifModifiedSince.None? || req.ifModifiedSince == Some(seconds))
  }

  /**
   Echoing an unchanged file's validators never fails a precondition, and is answered with
   304 exactly when the client asked whether anything changed.
   */
  lemma EchoedValidators(m: FileMeta, req: Request)
    requires m.Normal() && m.mtime >= 0
    requires Echoes(req, EtagOf(m).value, m.mtime)
    ensures
      var verdict := Decide(EtagOf(m), Some(m.Modified()), req);
      && verdict != PreconditionFailed
      && (verdict == NotModified <==> !req.ifNoneMatch.Absent? || req.ifModifiedSince.Some?)
  {
    HttpDateIsMtime(m);
    ModifiedIsNanoseconds(m);
    var tag := EtagOf(m).value;
    assert [tag][0] == tag && !tag.weak;
  }

  /** With a date alone the answer only depends on whole seconds: a change within one goes unseen. */
  lemma DateAloneSeesSeconds(after: FileMeta, since: int)
    requires after.Normal()
    ensures
      var req := Request(Absent, None, Absent, Some(since), NoRange);
      Decide(EtagOf(after), Some(after.Modified()), req) == NotModified <==> after.mtime <= since
  {
    HttpDateIsMtime(after);
  }

  /** After any of the four fields changed, an `If-None-Match` with only the old tag is never answered 304. */
  lemma ChangedFileIsSent(before: FileMeta, after: FileMeta, req: Request)
    requires before.Normal() && after.Normal() && before.mtime >= 0 && before != after
    requires req.ifNoneMatch == Parsed(Listed([EtagOf(before).value]))
    ensures Decide(EtagOf(after), Some(after.Modified()), req) != NotModified
  {
    ModifiedIsNanoseconds(after);
    ModifiedIsNanoseconds(before);
    if after.mtime >= 0 {
      EtagDeterminesFile(before, after);
      HexParts(before);
      HexParts(after);
    }
  }
}
