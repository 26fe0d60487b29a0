/**
 The pull client: one keep-alive connection, responses read by their declared length, files
 that are either complete or absent.
 */
module PullClient {
  import opened Bytes

  const COPY_BUF: nat := 64 * 1024

  datatype Error =
    | Timeout
    | Connect
    | Http(status: nat)
    | Malformed
    | Io
    | Truncated(want: nat, got: nat)

  datatype Result<+T> = Ok(value: T) | Err(error: Error)

  /** What a server sends for one request; nothing makes it keep to the length it declares. */
  datatype Reply = Reply(status: nat, declared: Option<nat>, body: seq<byte>)

  predicate Surplus(r: Reply) {
    r.declared.Some? && |r.body| > r.declared.value
  }

  /** A response head, with the number of the request on its connection that it answers. */
  datatype Head = Head(request: nat, status: nat, length: Option<nat>)

  /** What travels towards the client: a head, or one body byte of the response to `request`. */
  datatype Cell = HeadCell(head: Head) | BodyCell(request: nat, b: byte)

  function BodyCells(request: nat, body: seq<byte>): (cells: seq<Cell>)
    ensures |cells| == |body|
  {
    seq(|body|, i requires 0 <= i < |body| => BodyCell(request, body[i]))
  }

  function CellBytes(cells: seq<Cell>): (bytes: seq<byte>)
    ensures |bytes| == |cells|
  {
    seq<byte>(|cells|, i requires 0 <= i < |cells| => if cells[i].BodyCell? then cells[i].b else 0)
  }

  lemma BodyOfCells(request: nat, body: seq<byte>, n: nat)
    requires n <= |body|
    ensures CellBytes(BodyCells(request, body)[..n]) == body[..n]
  {
  }

  datatype HeadRead = Got(head: Head) | TimedOut | Bad | Broken

  /** The head that announces a reply to request `n`. */
  function HeadOf(n: nat, reply: Reply): Head {
    Head(n, reply.status, reply.declared)
  }

  /** What came back for a request: the head that answers some request, or why there was none. */
  datatype Heard = Unheard | Answer(head: Head) | Silence | Garbage | Lost

  /**
   One request on a connection: what the server sends for it, what came back, and whether nothing
   was left of an earlier response when it was sent.
   */
  datatype Turn = Turn(path: seq<byte>, reply: Reply, heard: Heard, clean: bool)

  /** None of the first `n` replies was longer than declared. */
  predicate NoSurplus(past: seq<Turn>, n: nat)
    requires n <= |past|
  {
    forall k :: 0 <= k < n ==> !Surplus(past[k].reply)
  }

  /** The error a caller gets for want of a body: no answer, or one with another status. */
  function Reason(h: Heard): Option<Error> {
    match h
    case Unheard => Option.None
    case Answer(head) => if head.status == 200 then Option.None else Option.Some(Http(head.status))
    case Silence => Option.Some(Timeout)
    case Garbage => Option.Some(Malformed)
    case Lost => Option.Some(Io)
  }

  datatype BodyRead = Some(n: nat) | EndOfStream | IdleTooLong | Failed

  /** Where an answer is found: the connection, and the number of the request on it. */
  datatype Place = Place(conn: Conn, index: nat)

  /** One step of a call towards the server: a connection that was not made, or a request sent. */
  datatype Contact = Refused(dial: nat, error: Error) | Asked(at: Place)

  /** How the network answers each attempt to connect: not at all, or late, or with a connection. */
  type Dialing = d: nat -> Option<Error> | forall n :: d(n).Some? ==> d(n).value.Connect? || d(n).value.Timeout?
    witness _ => Option.None

  /** A connection is only reported as not made when the network refused it. */
  predicate Truthful(dialing: Dialing, tried: seq<Contact>) {
    forall k :: k in tried && k.Refused? ==> dialing(k.dial) == Option.Some(k.error)
  }

  /** A connection. The server answers a request only after it was sent; it may fall silent or close anywhere. */
  class Conn {
    /** Every request sent on it, in order. */
    var past: seq<Turn>
    /** Sent by the server and not consumed yet; the first `buffered` cells are pre-read. */
    var unread: seq<Cell>
    var buffered: nat
    /** What its socket last failed with while a body was read. */
    ghost var trouble: Option<Error>

    constructor ()
      ensures past == [] && Aligned()
    {
      past, unread, buffered, trouble := [], [], 0, Option.None;
    }

    /** Nothing of an earlier response is left, and the k-th head read answered the k-th request. */
    predicate Aligned()
      reads this
    {
      unread == [] && buffered == 0 && InStep()
    }

    predicate InStep()
      reads this`past
    {
      forall k :: 0 <= k < |past| ==> past[k].heard == Answer(HeadOf(k, past[k].reply))
    }

    /** The last request was for `path`, its head has just been read, and exactly its body is unread. */
    ghost predicate Answered(path: seq<byte>)
      reads this
    {
      && InStep() && past != [] && past[|past| - 1].path == path
      && unread == BodyCells(|past| - 1, past[|past| - 1].reply.body)
    }

    /**
     Writes a request, which is entered among the contacts of the pool; the answer, if one ever comes,
     queues up behind whatever is unread.
     */
    method Send(path: seq<byte>, ghost pool: Pool) returns (ok: bool)
      modifies this`past, this`unread, pool`contacts
      ensures |past| == |old(past)| + 1 && past[..|old(past)|] == old(past)
      ensures
        var n, turn := |old(past)|, past[|past| - 1];
        && turn.path == path && turn.clean == old(Aligned()) && turn.heard == (if ok then Unheard else Lost)
        && (|| unread == old(unread)
            || unread == old(unread) +
                 ([HeadCell(HeadOf(n, turn.reply))] + BodyCells(n, turn.reply.body)))
      ensures pool.contacts == old(pool.contacts) + [Asked(Place(this, |old(past)|))]
    {
      var reply: Reply :| true;
      var n, aligned := |past|, Aligned();
      pool.contacts := pool.contacts + [Asked(Place(this, n))];
      if * {
        unread := unread + ([HeadCell(HeadOf(n, reply))] + BodyCells(n, reply.body));
      }
      ok := *;
      past := past + [Turn(path, reply, if ok then Unheard else Lost, aligned)];
    }

    /** What came back for the last request. */
    method Note(heard: Heard)
      requires past != []
      modifies this`past
      ensures past == old(past)[|old(past)| - 1 := old(past)[|old(past)| - 1].(heard := heard)]
    {
      past := past[|past| - 1 := past[|past| - 1].(heard := heard)];
    }

    /**
     Reads a status line and headers; whatever the reader pre-reads with them is body. Bytes left
     over from an earlier body may pass for any head at all.
     */
    method ReadHead() returns (r: HeadRead)
      requires past != []
      modifies this`unread, this`buffered, this`past
      ensures buffered <= |unread|
      ensures
        var heard := match r
                     case Got(head) => Answer(head)
                     case TimedOut => Silence
                     case Bad => Garbage
                     case Broken => Lost;
        past == old(past)[|old(past)| - 1 := old(past)[|old(past)| - 1].(heard := heard)]
      ensures r.Got? ==> old(unread) != []
      ensures r.Got? && old(unread)[0].HeadCell? ==> old(unread)[0].head == r.head && unread == old(unread)[1..]
    {
      var n: nat :| n <= |unread|;
      var head: Head :| true;
      if unread != [] && unread[0].HeadCell? {
        n, head := 1, unread[0].head;
      }
      var empty := unread == [];
      unread := unread[n..];
      var k: nat :| k <= |unread|;
      buffered := k;
      if * {
        Note(Silence);
        return TimedOut;
      }
      if * {
        Note(Lost);
        return Broken;
      }
      var garbled := *;
      if empty || garbled {
        Note(Garbage);
        return Bad;
      }
      Note(Answer(head));
      r := Got(head);
    }

    /** One `read`: from what is pre-read as long as there is any, else from the socket. */
    method ReadBody(max: nat) returns (r: BodyRead)
      requires buffered <= |unread| && max > 0
      modifies this`trouble
      ensures trouble == (match r
                          case IdleTooLong => Option.Some(Timeout)
                          case Failed => Option.Some(Io)
                          case _ => old(trouble))
      ensures r.Some? ==> 0 < r.n <= max && r.n <= |unread| && (buffered > 0 ==> r.n <= buffered)
      ensures r.EndOfStream? ==> unread == []
      ensures buffered > 0 ==> r.Some?
    {
      if buffered == 0 {
        if * {
          trouble := Option.Some(Timeout);
          return IdleTooLong;
        }
        if * {
          trouble := Option.Some(Io);
          return Failed;
        }
        if unread == [] {
          return EndOfStream;
        }
      }
      var most := Min(max, if buffered > 0 then buffered else |unread|);
      var n: nat :| 0 < n <= most by {
        assert 0 < 1 <= most;
      }
      return BodyRead.Some(n);
    }

    /** Whether the time for a whole body is up. */
    method Expired() returns (expired: bool)
      modifies this`trouble
      ensures trouble == if expired then Option.Some(Timeout) else old(trouble)
    {
      expired := *;
      if expired {
        trouble := Option.Some(Timeout);
      }
    }

    /** Changing how the socket is driven, which the system may refuse. */
    method Switch() returns (ok: bool)
      modifies this`trouble
      ensures trouble == if ok then old(trouble) else Option.Some(Io)
    {
      ok := *;
      if !ok {
        trouble := Option.Some(Io);
      }
    }

    /** Moves `n` unread bytes out. */
    method Consume(n: nat) returns (bytes: seq<byte>)
      requires n <= |unread|
      modifies this`unread, this`buffered
      ensures bytes == CellBytes(old(unread)[..n]) && unread == old(unread)[n..]
      ensures buffered == if old(buffered) >= n then old(buffered) - n else 0
    {
      bytes := CellBytes(unread[..n]);
      unread := unread[n..];
      buffered := if buffered >= n then buffered - n else 0;
    }

    /** Takes the socket out of its reader: what was pre-read and not copied out is gone. */
    method DropBuffer()
      requires buffered <= |unread|
      modifies this`unread, this`buffered
      ensures unread == old(unread)[old(buffered)..] && buffered == 0
    {
      unread := unread[buffered..];
      buffered := 0;
    }
  }

  class Pool {
    const dialing: Dialing
    var conn: Conn?
    var dials: nat
    /** Every request sent and every connection refused, in order. */
    ghost var contacts: seq<Contact>

    constructor (dialing: Dialing)
      ensures conn == null && contacts == [] && this.dialing == dialing
    {
      this.dialing := dialing;
      conn, dials, contacts := null, 0, [];
    }

    /** A pooled connection is at a response boundary, unless its server sent more than it declared. */
    ghost predicate Valid()
      reads this, conn
    {
      conn != null && NoSurplus(conn.past, |conn.past|) ==> conn.Aligned()
    }

    /** The pooled connection, or a new one; connecting may be refused or take too long. */
    method Acquire() returns (c: Conn?, error: Error)
      requires Valid()
      modifies this
      ensures conn == null
      ensures old(conn) != null ==> c == old(conn) && dials == old(dials)
      ensures old(conn) == null ==>
        && dials == old(dials) + 1
        && (c == null <==> dialing(old(dials)) == Option.Some(error)) && (c == null <==> dialing(old(dials)).Some?)
        && (c != null ==> fresh(c) && c.past == [] && c.Aligned())
      ensures contacts == if c == null then old(contacts) + [Refused(old(dials), error)] else old(contacts)
    {
      error := Connect;
      if conn != null {
        c := conn;
        conn := null;
        return;
      }
      var refusal := dialing(dials);
      dials := dials + 1;
      if refusal.Some? {
        contacts := contacts + [Refused(dials - 1, refusal.value)];
        return null, refusal.value;
      }
      c := new Conn();
    }

    method Release(c: Conn)
      modifies this`conn
      ensures conn == c
    {
      conn := c;
    }
  }

  // ---------- what the history up to a request says of it ----------

  /** The request was for `path`. */
  predicate SentIn(past: seq<Turn>, path: seq<byte>) {
    past != [] && past[|past| - 1].path == path
  }

  /** Nothing was left of an earlier response when it was sent. */
  predicate TrustedIn(past: seq<Turn>) {
    past != [] && past[|past| - 1].clean
  }

  /** A connection whose server never sent too much has nothing in the way of the next answer. */
  predicate CleanUnlessSurplus(past: seq<Turn>) {
    past != [] && (NoSurplus(past, |past| - 1) ==> TrustedIn(past))
  }

  /** It found its connection dead: the write, or reading the head, failed. */
  predicate DeadIn(past: seq<Turn>) {
    past != [] && (past[|past| - 1].heard.Garbage? || past[|past| - 1].heard.Lost?)
  }

  /** A head was read for it, and with nothing in the way it was the head of its own answer. */
  predicate OwnHead(past: seq<Turn>) {
    && past != []
    && (past[|past| - 1].heard.Answer? && TrustedIn(past) ==>
          past[|past| - 1].heard.head == HeadOf(|past| - 1, past[|past| - 1].reply))
  }

  /** What went wrong behind a 200: the socket, the disk, or what the body says. */
  datatype Faults = Faults(socket: Option<Error>, disk: bool, unparsable: bool)

  /**
   The caller is told why there is no body, with the status if there was an answer. Behind a 200, a
   missing length is malformed, and every other error has its cause: the server stopped early, the
   socket or the disk failed, or the body is not what it should be.
   */
  predicate ReportedIn(past: seq<Turn>, error: Option<Error>, faults: Faults) {
    && past != []
    && var heard := past[|past| - 1].heard;
       if Reason(heard).Some? then error == Reason(heard)
       else if !heard.Answer? then false
       else if heard.head.length.None? then error == Option.Some(Malformed)
       else error.Some? ==> CausedBy(error.value, faults) && StoppedEarly(past, error.value)
  }

  /** A body is only reported as cut short when the server declared more than it sent. */
  predicate StoppedEarly(past: seq<Turn>, error: Error) {
    error.Truncated? && TrustedIn(past) ==> CutShortIn(past, error.want, error.got)
  }

  predicate CausedBy(error: Error, faults: Faults) {
    match error
    case Truncated(want, got) => got < want
    case Malformed => faults.unparsable
    case _ => Blames(error, faults.socket, faults.disk)
  }

  /** Whether the head that was read for it is a 200, and with which length. */
  predicate HeardOk(past: seq<Turn>, length: Option<nat>) {
    && past != [] && past[|past| - 1].heard.Answer?
    && past[|past| - 1].heard.head.status == 200 && past[|past| - 1].heard.head.length == length
  }

  /** `content` is exactly the declared bytes of the 200 that answers it, read as its answer. */
  predicate AnswerIn(past: seq<Turn>, content: seq<byte>) {
    && past != [] && past[|past| - 1].heard == Answer(HeadOf(|past| - 1, past[|past| - 1].reply))
    && var reply := past[|past| - 1].reply;
       && reply.status == 200 && reply.declared.Some? && reply.declared.value <= |reply.body|
       && content == reply.body[..reply.declared.value]
  }

  /** The server declared `want` bytes for it and sent only `got`. */
  predicate CutShortIn(past: seq<Turn>, want: nat, got: nat) {
    && past != []
    && past[|past| - 1].reply.declared == Option.Some(want) && got == |past[|past| - 1].reply.body|
  }

  /** The last request on a connection, with its place. */
  ghost function Last(c: Conn): Place
    reads c`past
  {
    Place(c, if c.past == [] then 0 else |c.past| - 1)
  }

  /** Whatever happened on a connection, it is still the same history, continued. */
  twostate predicate Grew(c: Conn)
    reads c`past
  {
    old(c.past) <= c.past
  }

  /** One request more than before, for `path`. */
  twostate predicate AskedOnce(c: Conn, path: seq<byte>)
    reads c`past
  {
    old(c.past) <= c.past && |c.past| == |old(c.past)| + 1 && c.past[|c.past| - 1].path == path
  }

  /** `r` is what was heard of the last request: the status and length of a head, or why there was none. */
  predicate HeardIn(past: seq<Turn>, r: Result<(nat, Option<nat>)>) {
    && past != []
    && match past[|past| - 1].heard
       case Unheard => false
       case Answer(head) => r == Ok((head.status, head.length))
       case Silence => r == Err(Timeout)
       case Garbage => r == Err(Malformed)
       case Lost => r == Err(Io)
  }

  /** Sends one request on a connection and reads the head of its answer. */
  method Request(c: Conn, path: seq<byte>, ghost pool: Pool) returns (r: Result<(nat, Option<nat>)>)
    modifies c, pool`contacts
    ensures AskedOnce(c, path) && c.past[|c.past| - 1].clean == old(c.Aligned())
    ensures pool.contacts == old(pool.contacts) + [Asked(Last(c))]
    ensures r.Ok? ==> c.buffered <= |c.unread|
    ensures r.Ok? && old(c.Aligned()) ==>
      var reply := c.past[|c.past| - 1].reply; c.Answered(path) && r.value == (reply.status, reply.declared)
    ensures HeardIn(c.past, r)
  {
    ghost var aligned := c.Aligned();
    var ok := c.Send(path, pool);
    if !ok {
      return Err(Io);
    }
    assert aligned ==> c.unread == [] || c.unread[0].HeadCell?;
    var head := c.ReadHead();
    match head
    case TimedOut => return Err(Timeout);
    case Bad => return Err(Malformed);
    case Broken => return Err(Io);
    case Got(h) =>
      assert aligned ==> c.unread == BodyCells(|c.past| - 1, c.past[|c.past| - 1].reply.body);
      return Ok((h.status, h.length));
  }

  /** Where the last contact of a call sent its request. */
  function Where(tried: seq<Contact>): Option<Place> {
    if tried != [] && tried[|tried| - 1].Asked? then Option.Some(tried[|tried| - 1].at) else Option.None
  }

  function ErrorIn<T>(r: Result<T>): Option<Error> {
    if r.Ok? then Option.None else Option.Some(r.error)
  }

  /**
   The contacts of one call, with what the connections of the first and the last of them had gone
   through, up to and including these requests.
   */
  datatype Talk = Talk(tried: seq<Contact>, first: seq<Turn>, last: seq<Turn>)

  /**
   A request for the call's own path, or a second one after the first found its connection dead, or no
   connection at all.
   */
  predicate TriedIn(path: seq<byte>, talk: Talk) {
    && 0 < |talk.tried| <= 2
    && (|talk.tried| == 2 ==> talk.tried[0].Asked? && SentIn(talk.first, path) && DeadIn(talk.first))
    && match talk.tried[|talk.tried| - 1]
       case Refused(_, e) => e.Connect? || e.Timeout?
       case Asked(_) => SentIn(talk.last, path) && OwnHead(talk.last) && CleanUnlessSurplus(talk.last)
  }

  /** What asking ends with: the refusal, or what the last head says; a 200 is no error. */
  predicate EndsWith(talk: Talk, error: Option<Error>) {
    && talk.tried != []
    && match talk.tried[|talk.tried| - 1]
       case Refused(_, e) => error == Option.Some(e)
       case Asked(_) =>
         && talk.last != [] && !talk.last[|talk.last| - 1].heard.Unheard?
         && error == Reason(talk.last[|talk.last| - 1].heard)
  }

  /** What a whole call reports: the same, unless it got a body and that went wrong. */
  predicate Reports(talk: Talk, error: Option<Error>, faults: Faults) {
    && talk.tried != []
    && match talk.tried[|talk.tried| - 1]
       case Refused(_, e) => error == Option.Some(e)
       case Asked(_) => ReportedIn(talk.last, error, faults)
  }

  /** How asking ends once a head was heard, or none. */
  lemma EndsAsHeard(talk: Talk, answer: Result<(nat, Option<nat>)>)
    requires talk.tried != [] && talk.tried[|talk.tried| - 1].Asked? && HeardIn(talk.last, answer)
    ensures answer.Err? ==> EndsWith(talk, Option.Some(answer.error))
    ensures answer.Ok? ==>
      EndsWith(talk, if answer.value.0 == 200 then Option.None else Option.Some(Http(answer.value.0)))
  {
  }

  lemma NoBodyReports(talk: Talk, error: Option<Error>, faults: Faults)
    requires EndsWith(talk, error) && error.Some?
    ensures Reports(talk, error, faults)
  {
  }

  /** Behind a 200 a call fails for want of a length, or with its body. */
  lemma BodyReports(talk: Talk, length: Option<nat>, error: Option<Error>, faults: Faults)
    requires EndsWith(talk, Option.None) && HeardOk(talk.last, length)
    requires if length.None? then error == Option.Some(Malformed)
             else error.Some? ==> CausedBy(error.value, faults) && StoppedEarly(talk.last, error.value)
    ensures Reports(talk, error, faults)
  {
  }

  /** This is what the connection of a contact went through, up to its request. */
  ghost predicate OnRecord(k: Contact, past: seq<Turn>)
    reads (if k.Asked? then {k.at.conn} else {})`past
  {
    k.Asked? ==> |past| == k.at.index + 1 && past <= k.at.conn.past
  }

  ghost predicate Recorded(talk: Talk)
    reads (set k | k in talk.tried && k.Asked? :: k.at.conn)`past
  {
    && talk.tried != []
    && OnRecord(talk.tried[0], talk.first) && OnRecord(talk.tried[|talk.tried| - 1], talk.last)
  }

  /** The head that was read came for `path`, with status 200 and this length, if nothing earlier was in the way. */
  ghost predicate Delivered(c: Conn, path: seq<byte>, length: Option<nat>)
    reads c
  {
    && SentIn(c.past, path) && HeardOk(c.past, length) && c.buffered <= |c.unread|
    && (TrustedIn(c.past) ==>
          var reply := c.past[|c.past| - 1].reply;
          c.Answered(path) && reply.status == 200 && reply.declared == length)
  }

  /**
   What a call does to the pooled connection `reused`, if there was one, and to at most one new one:
   one request each, and a second contact exactly if the reused connection was found dead.
   */
  twostate predicate Contacted(reused: Conn?, path: seq<byte>, new talk: Talk)
    reads (if reused == null then {} else {reused})`past
  {
    && 0 < |talk.tried| <= 2
    && (reused == null ==> |talk.tried| == 1)
    && (reused != null ==>
          && AskedOnce(reused, path) && talk.first == reused.past && talk.tried[0] == Asked(Last(reused))
          && (|talk.tried| == 2 <==> DeadIn(talk.first)))
    && match talk.tried[|talk.tried| - 1]
       case Refused(_, _) => true
       case Asked(at) => at.conn != reused ==> |talk.last| == 1
  }

  /** One round of the loop: a connection and a request on it. */
  method Attempt(pool: Pool, path: seq<byte>) returns (c: Conn?, r: Result<(nat, Option<nat>)>)
    requires pool.Valid()
    modifies pool, pool.conn
    ensures pool.conn == null
    ensures old(pool.conn) != null ==> c == old(pool.conn) && AskedOnce(old(pool.conn), path)
    ensures old(pool.conn) == null && c != null ==> fresh(c) && |c.past| == 1
    ensures c == null ==> r.Err? && (r.error.Connect? || r.error.Timeout?)
    ensures
      var k := if c == null then Refused(old(pool.dials), r.error) else Asked(Last(c));
      pool.contacts == old(pool.contacts) + [k] && Truthful(pool.dialing, [k])
    ensures c != null ==>
      && SentIn(c.past, path) && CleanUnlessSurplus(c.past) && HeardIn(c.past, r) && OwnHead(c.past)
      && (r.Err? && !r.error.Timeout? <==> DeadIn(c.past))
      && (r.Ok? && r.value.0 == 200 ==> Delivered(c, path, r.value.1))
  {
    var refusal;
    c, refusal := pool.Acquire();
    if c == null {
      return c, Err(refusal);
    }
    r := Request(c, path, pool);
  }

  /**
   Borrows or opens a connection and sends `GET`. A connection that was reused and turned out
   dead is replaced once; neither a timeout nor any answer leads to a second request.
   */
  method HttpGet(pool: Pool, path: seq<byte>) returns (r: Result<(Conn, Option<nat>)>, ghost talk: Talk)
    requires pool.Valid()
    modifies pool, pool.conn
    ensures pool.conn == null && pool.contacts == old(pool.contacts) + talk.tried
    ensures TriedIn(path, talk) && Recorded(talk) && Truthful(pool.dialing, talk.tried)
    ensures Contacted(old(pool.conn), path, talk) && NewOrReused(talk.tried, old(pool.conn))
    ensures EndsWith(talk, ErrorIn(r))
    ensures r.Ok? ==>
      && Where(talk.tried) == Option.Some(Last(r.value.0)) && talk.last == r.value.0.past
      && Delivered(r.value.0, path, r.value.1)
  {
    var reused := pool.conn != null;
    ghost var tried: seq<Contact>, first: seq<Turn> := [], [];
    while true
      invariant pool.Valid() && pool.contacts == old(pool.contacts) + tried && Truthful(pool.dialing, tried)
      invariant reused ==> tried == [] && pool.conn == old(pool.conn) && pool.conn != null && unchanged(pool.conn)
      invariant !reused ==> pool.conn == null
      invariant !reused && old(pool.conn) == null ==> tried == []
      invariant !reused && old(pool.conn) != null ==>
        && AskedOnce(old(pool.conn), path) && first == old(pool.conn).past
        && tried == [Asked(Last(old(pool.conn)))] && DeadIn(first)
      decreases reused
    {
      ghost var dial := pool.dials;
      var c, answer := Attempt(pool, path);
      if c == null {
        return Err(answer.error), Talk(tried + [Refused(dial, answer.error)], first, []);
      }
      tried := tried + [Asked(Last(c))];
      first := if |tried| == 1 then c.past else first;
      talk := Talk(tried, first, c.past);
      EndsAsHeard(talk, answer);
      match answer
      case Ok((status, length)) =>
        if status == 200 {
          return Ok((c, length)), talk;
        }
        return Err(Http(status)), talk;
      case Err(error) =>
        if !reused || error.Timeout? {
          return Err(error), talk;
        }
        reused := false;
    }
  }

  /** A call's contacts are on the connection it found in the pool, or on new ones. */
  twostate predicate NewOrReused(new tried: seq<Contact>, reused: Conn?) {
    forall k :: k in tried && k.Asked? ==> fresh(k.at.conn) || k.at.conn == reused
  }

  /** A local file: absent, or holding some bytes. */
  class LocalFile {
    var content: Option<seq<byte>>
    /** Whether creating or writing it failed, and whether removing it did. */
    ghost var failed: bool
    ghost var stuck: bool

    constructor ()
      ensures content == Option.None && !failed && !stuck
    {
      content, failed, stuck := Option.None, false, false;
    }

    /** Truncates or creates; leaves the file alone when it fails. */
    method Create() returns (ok: bool)
      modifies this
      ensures if ok then content == Option.Some([]) else content == old(content)
      ensures failed == !ok && !stuck
    {
      ok := *;
      failed, stuck := !ok, false;
      if ok {
        content := Option.Some([]);
      }
    }

    /** Appends all of `bytes`, or some of them when it fails. */
    method WriteAll(bytes: seq<byte>) returns (ok: bool)
      requires content.Some?
      modifies this
      ensures content.Some? && stuck == old(stuck)
      ensures ok ==> content == Option.Some(old(content).value + bytes) && failed == old(failed)
      ensures !ok ==> failed
    {
      ok := *;
      failed := failed || !ok;
      var n: nat :| n <= |bytes|;
      content := Option.Some(content.value + (if ok then bytes else bytes[..n]));
    }

    /** Removal may fail, which only leaves a warning behind. */
    method Discard() returns (removed: bool)
      modifies this
      ensures if removed then content == Option.None else content == old(content)
      ensures stuck == !removed && failed == old(failed)
    {
      removed := *;
      stuck := !removed;
      if removed {
        content := Option.None;
      }
    }
  }

  /** Cells taken off the front are the next ones, and their bytes continue those before. */
  lemma NextBytes(all: seq<Cell>, at: nat, n: nat)
    requires at + n <= |all|
    ensures CellBytes(all[..at]) + CellBytes(all[at..][..n]) == CellBytes(all[..at + n])
    ensures all[at..][n..] == all[at + n..]
  {
  }

  /** Takes the next `n` bytes and writes them to the file. */
  method CopyPart(c: Conn, file: LocalFile, ghost all: seq<Cell>, ghost at: nat, n: nat) returns (ok: bool)
    requires at + n <= |all| && c.unread == all[at..]
    requires file.content == Option.Some(CellBytes(all[..at]))
    modifies c`unread, c`buffered, file
    ensures c.unread == all[at + n..]
    ensures c.buffered == if old(c.buffered) >= n then old(c.buffered) - n else 0
    ensures ok ==> file.content == Option.Some(CellBytes(all[..at + n])) && file.failed == old(file.failed)
    ensures !ok ==> file.failed
    ensures file.stuck == old(file.stuck)
  {
    NextBytes(all, at, n);
    var bytes := c.Consume(n);
    ok := file.WriteAll(bytes);
  }

  /** A body fails for a reason: its socket failed this way, or the disk did. */
  predicate Blames(error: Error, trouble: Option<Error>, diskFailed: bool) {
    match error
    case Timeout => trouble == Option.Some(Timeout)
    case Io => trouble == Option.Some(Io) || diskFailed
    case _ => false
  }

  /**
   Moves a body into a file: what is pre-read first, cut to `want`, then reads of bounded size,
   until `want` bytes are there or the stream ends. What was pre-read beyond `want` is dropped.
   */
  method CopySync(c: Conn, file: LocalFile, want: nat) returns (r: Result<nat>)
    requires c.buffered <= |c.unread|
    modifies c`unread, c`buffered, c`trouble, file
    ensures !file.stuck
    ensures r.Ok? ==>
      && r.value == Min(want, |old(c.unread)|)
      && file.content == Option.Some(CellBytes(old(c.unread)[..r.value]))
      && c.unread == old(c.unread)[Max(old(c.buffered), r.value)..] && c.buffered == 0
    ensures r.Err? ==> Blames(r.error, c.trouble, file.failed)
  {
    ghost var all := c.unread;
    var created := file.Create();
    if !created {
      return Err(Io);
    }
    assert all[0..] == all && CellBytes(all[..0]) == [];
    var take := Min(c.buffered, want);
    var total := 0;
    if take > 0 {
      var ok := CopyPart(c, file, all, 0, take);
      if !ok {
        return Err(Io);
      }
      total := take;
    }
    NextBytes(all, total, c.buffered);
    c.DropBuffer();
    r := CopyRest(c, file, all, total, want);
  }

  /** The reads past what was pre-read. */
  method CopyRest(c: Conn, file: LocalFile, ghost all: seq<Cell>, start: nat, want: nat) returns (r: Result<nat>)
    requires start <= want && start <= |all| && c.buffered == 0
    requires |c.unread| <= |all| - start && c.unread == all[|all| - |c.unread|..]
    requires start < want ==> c.unread == all[start..]
    requires file.content == Option.Some(CellBytes(all[..start])) && !file.failed && !file.stuck
    modifies c`unread, c`buffered, c`trouble, file
    ensures !file.stuck
    ensures r.Ok? ==>
      && r.value == Min(want, |all|) && file.content == Option.Some(CellBytes(all[..r.value]))
      && c.unread == (if start < want then all[r.value..] else old(c.unread)) && c.buffered == 0
    ensures r.Err? ==> Blames(r.error, c.trouble, file.failed)
  {
    var total := start;
    while total < want
      invariant start <= total <= want && total <= |all| && c.buffered == 0
      invariant c.unread == if start < want then all[total..] else old(c.unread)
      invariant file.content == Option.Some(CellBytes(all[..total])) && !file.failed && !file.stuck
    {
      var room := Min(want - total, COPY_BUF);
      var read := c.ReadBody(room);
      match read
      case EndOfStream => return Ok(total);
      case IdleTooLong => return Err(Timeout);
      case Failed => return Err(Io);
      case Some(n) =>
        var ok := CopyPart(c, file, all, total, n);
        if !ok {
          return Err(Io);
        }
        total := total + n;
    }
    return Ok(total);
  }

  /** From what is unread to what the server sent: reading cuts the body, and may end at a boundary. */
  lemma ReadsAnswer(c: Conn, path: seq<byte>, n: nat, past: nat)
    requires c.Answered(path) && n <= past <= |c.unread|
    ensures
      var body := c.past[|c.past| - 1].reply.body;
      && |body| == |c.unread| && CellBytes(c.unread[..n]) == body[..n]
      && (c.unread[past..] == [] <==> |body| <= past)
  {
    BodyOfCells(|c.past| - 1, c.past[|c.past| - 1].reply.body, n);
  }

  /** Copies with the socket in blocking mode, which is undone afterwards or the socket is lost. */
  method CopyInBlocking(c: Conn, path: seq<byte>, file: LocalFile, want: nat) returns (r: Result<nat>)
    requires Delivered(c, path, Option.Some(want))
    modifies c`unread, c`buffered, c`trouble, file
    ensures !file.stuck
    ensures r.Ok? ==> r.value <= want && file.content.Some? && |file.content.value| == r.value
    ensures r.Ok? && TrustedIn(c.past) ==>
      var body := c.past[|c.past| - 1].reply.body;
      && r.value == Min(want, |body|) && file.content.value == body[..r.value]
      && old(c.buffered) <= |body| && (c.Aligned() <==> |body| <= Max(r.value, old(c.buffered)))
    ensures r.Err? ==> Blames(r.error, c.trouble, file.failed)
  {
    if TrustedIn(c.past) {
      var n := Min(want, |c.unread|);
      ReadsAnswer(c, path, n, Max(c.buffered, n));
    }
    r := CopySync(c, file, want);
    if r.Ok? {
      var modeRestored := c.Switch();
      if !modeRestored {
        return Err(Io);
      }
    }
  }

  /**
   Fetches one file. `Ok` means the file holds exactly the declared bytes of the answer to this
   very request; an error leaves what was there before, nothing, or the complete file, unless
   removing the remains failed. The connection that goes back to the pool is at a response
   boundary if and only if all the server sent too much had been read together with the head.
   */
  method FetchFile(pool: Pool, path: seq<byte>, file: LocalFile)
    returns (r: Result<nat>, ghost talk: Talk, ghost preread: nat)
    requires pool.Valid()
    modifies pool, pool.conn, file
    ensures pool.Valid() && pool.contacts == old(pool.contacts) + talk.tried
    ensures TriedIn(path, talk) && Recorded(talk) && Truthful(pool.dialing, talk.tried)
    ensures Reports(talk, ErrorIn(r), Faults(TroubleOf(talk), file.failed, false))
    ensures Contacted(old(pool.conn), path, talk) && NewOrReused(talk.tried, old(pool.conn))
    ensures if r.Ok? then Returned(pool, talk) else pool.conn == null
    ensures r.Ok? ==> file.content.Some? && |file.content.value| == r.value
    ensures r.Ok? && TrustedIn(talk.last) ==>
      var body := talk.last[|talk.last| - 1].reply.body;
      && AnswerIn(talk.last, file.content.value)
      && preread <= |body| && (pool.conn.Aligned() <==> |body| <= Max(r.value, preread))
    ensures r.Err? && !file.stuck ==>
      || file.content == old(file.content) || file.content == Option.None
      || (&& Where(talk.tried).Some? && file.content.Some?
          && (TrustedIn(talk.last) ==> AnswerIn(talk.last, file.content.value)))
  {
    preread := 0;
    var got;
    got, talk := HttpGet(pool, path);
    assert file.content == old(file.content);
    if got.Err? {
      NoBodyReports(talk, Option.Some(got.error), Faults(TroubleOf(talk), file.failed, false));
      return Err(got.error), talk, preread;
    }
    preread := got.value.0.buffered;
    r := Receive(pool, got.value.0, path, file, got.value.1, talk);
  }

  /** What remains to do behind a 200. */
  method Receive(pool: Pool, c: Conn, path: seq<byte>, file: LocalFile, length: Option<nat>, ghost talk: Talk)
    returns (r: Result<nat>)
    requires Delivered(c, path, length) && CleanUnlessSurplus(c.past) && pool.conn == null
    requires EndsWith(talk, Option.None) && c.past == talk.last && Where(talk.tried) == Option.Some(Last(c))
    modifies pool`conn, c`unread, c`buffered, c`trouble, file
    ensures pool.Valid() && Reports(talk, ErrorIn(r), Faults(c.trouble, file.failed, false))
    ensures pool.conn == if r.Ok? then c else null
    ensures r.Ok? ==> file.content.Some? && |file.content.value| == r.value
    ensures r.Ok? && TrustedIn(talk.last) ==>
      var body := talk.last[|talk.last| - 1].reply.body;
      && AnswerIn(talk.last, file.content.value)
      && old(c.buffered) <= |body| && (c.Aligned() <==> |body| <= Max(r.value, old(c.buffered)))
    ensures r.Err? && !file.stuck ==>
      || file.content == old(file.content) || file.content == Option.None
      || (file.content.Some? && (TrustedIn(talk.last) ==> AnswerIn(talk.last, file.content.value)))
  {
    if length.None? {
      BodyReports(talk, length, Option.Some(Malformed), Faults(c.trouble, file.failed, false));
      return Err(Malformed);
    }
    r := Store(pool, c, path, file, length.value);
    BodyReports(talk, length, ErrorIn(r), Faults(c.trouble, file.failed, false));
  }

  /** What went wrong on the socket of a call's last contact. */
  ghost function TroubleOf(talk: Talk): Option<Error>
    reads (if Where(talk.tried).Some? then {Where(talk.tried).value.conn} else {})`trouble
  {
    if Where(talk.tried).Some? then Where(talk.tried).value.conn.trouble else Option.None
  }

  /** The connection of a call's last contact went back to the pool. */
  ghost predicate Returned(pool: Pool, talk: Talk)
    reads pool, (if pool.conn == null then {} else {pool.conn})`past
  {
    && Where(talk.tried).Some? && pool.conn == Where(talk.tried).value.conn && pool.conn.past == talk.last
  }

  /** Copies the body, removes what is not complete, and gives the connection back after all of it. */
  method Store(pool: Pool, c: Conn, path: seq<byte>, file: LocalFile, want: nat)
    returns (r: Result<nat>)
    requires Delivered(c, path, Option.Some(want)) && CleanUnlessSurplus(c.past) && pool.conn == null
    modifies pool`conn, c`unread, c`buffered, c`trouble, file
    ensures pool.Valid()
    ensures if r.Ok? then pool.conn == c else pool.conn == null
    ensures r.Ok? ==> file.content.Some? && |file.content.value| == r.value
    ensures r.Ok? && TrustedIn(c.past) ==>
      var body := c.past[|c.past| - 1].reply.body;
      && AnswerIn(c.past, file.content.value)
      && old(c.buffered) <= |body| && (c.Aligned() <==> |body| <= Max(r.value, old(c.buffered)))
    ensures r.Err? ==> CausedBy(r.error, Faults(c.trouble, file.failed, false))
    ensures r.Err? ==> StoppedEarly(c.past, r.error)
    ensures r.Err? && !file.stuck ==>
      || file.content == old(file.content) || file.content == Option.None
      || (file.content.Some? && (TrustedIn(c.past) ==> AnswerIn(c.past, file.content.value)))
  {
    var copied := CopyInBlocking(c, path, file, want);
    if copied.Err? {
      var removed := file.Discard();
      return Err(copied.error);
    }
    if copied.value != want {
      var removed := file.Discard();
      return Err(Truncated(want, copied.value));
    }
    var registered := c.Switch();
    if !registered {
      return Err(Io);
    }
    pool.Release(c);
    return Ok(copied.value);
  }

  /** Reads up to `want` bytes of a body through the reader, within one overall time limit. */
  method ReadToEnd(c: Conn, want: nat) returns (r: Result<seq<byte>>)
    requires c.buffered <= |c.unread|
    modifies c`unread, c`buffered, c`trouble
    ensures r.Ok? ==>
      && |r.value| == Min(want, |old(c.unread)|) && r.value == CellBytes(old(c.unread)[..|r.value|])
      && c.unread == old(c.unread)[|r.value|..] && c.buffered <= |c.unread|
    ensures r.Err? ==> Blames(r.error, c.trouble, false)
  {
    ghost var all := c.unread;
    var body, total := [], 0;
    assert all[0..] == all && CellBytes(all[..0]) == [];
    while total < want
      invariant total <= want && total <= |all| && c.buffered <= |c.unread|
      invariant body == CellBytes(all[..total]) && c.unread == all[total..]
    {
      var expired := c.Expired();
      if expired {
        return Err(Timeout);
      }
      var read := c.ReadBody(want - total);
      match read
      case EndOfStream => return Ok(body);
      case IdleTooLong => return Err(Timeout);
      case Failed => return Err(Io);
      case Some(n) =>
        NextBytes(all, total, n);
        var bytes := c.Consume(n);
        body := body + bytes;
        total := total + n;
    }
    return Ok(body);
  }

  /** The same, for the body that answers the last request. */
  method ReadListing(c: Conn, path: seq<byte>, want: nat) returns (r: Result<seq<byte>>)
    requires Delivered(c, path, Option.Some(want))
    modifies c`unread, c`buffered, c`trouble
    ensures r.Ok? ==> |r.value| <= want
    ensures r.Ok? && TrustedIn(c.past) ==>
      var body := c.past[|c.past| - 1].reply.body;
      |r.value| == Min(want, |body|) && r.value == body[..|r.value|] && (c.Aligned() <==> |body| <= want)
    ensures r.Err? ==> Blames(r.error, c.trouble, false)
  {
    if TrustedIn(c.past) {
      var n := Min(want, |c.unread|);
      ReadsAnswer(c, path, n, n);
    }
    r := ReadToEnd(c, want);
  }

  /**
   Reads a listing's body to its declared length. The connection goes back only when all of it
   came, and is then at a response boundary if and only if the server sent no more than that.
   */
  method ListEntries(pool: Pool, path: seq<byte>, parses: seq<byte> -> bool)
    returns (r: Result<seq<byte>>, ghost talk: Talk, ghost body: seq<byte>)
    requires pool.Valid()
    modifies pool, pool.conn
    ensures pool.Valid() && pool.contacts == old(pool.contacts) + talk.tried
    ensures TriedIn(path, talk) && Recorded(talk) && Truthful(pool.dialing, talk.tried)
    ensures Reports(talk, ErrorIn(r), Faults(TroubleOf(talk), false, pool.conn != null && !parses(body)))
    ensures Contacted(old(pool.conn), path, talk) && NewOrReused(talk.tried, old(pool.conn))
    ensures r.Ok? ==> pool.conn != null
    ensures pool.conn != null ==> Returned(pool, talk)
    ensures pool.conn != null && TrustedIn(talk.last) ==> AnswerIn(talk.last, body)
    ensures pool.conn != null ==> r == if parses(body) then Ok(body) else Err(Malformed)
    ensures pool.conn != null && TrustedIn(talk.last) ==>
      (pool.conn.Aligned() <==> !Surplus(talk.last[|talk.last| - 1].reply))
  {
    var got;
    body := [];
    got, talk := HttpGet(pool, path);
    if got.Err? {
      NoBodyReports(talk, Option.Some(got.error), Faults(TroubleOf(talk), false, false));
      return Err(got.error), talk, body;
    }
    r, body := ReceiveListing(pool, got.value.0, path, got.value.1, parses, talk);
  }

  /** What remains to do behind a 200. */
  method ReceiveListing(pool: Pool, c: Conn, path: seq<byte>, length: Option<nat>, parses: seq<byte> -> bool,
                        ghost talk: Talk) returns (r: Result<seq<byte>>, ghost body: seq<byte>)
    requires Delivered(c, path, length) && CleanUnlessSurplus(c.past) && pool.conn == null
    requires EndsWith(talk, Option.None) && c.past == talk.last && Where(talk.tried) == Option.Some(Last(c))
    modifies pool`conn, c`unread, c`buffered, c`trouble
    ensures pool.Valid() && (pool.conn == null || pool.conn == c) && (r.Ok? ==> pool.conn == c)
    ensures Reports(talk, ErrorIn(r), Faults(c.trouble, false, pool.conn != null && !parses(body)))
    ensures pool.conn != null && TrustedIn(talk.last) ==> AnswerIn(talk.last, body)
    ensures pool.conn != null ==> r == if parses(body) then Ok(body) else Err(Malformed)
    ensures pool.conn != null && TrustedIn(talk.last) ==>
      (c.Aligned() <==> !Surplus(talk.last[|talk.last| - 1].reply))
  {
    if length.None? {
      BodyReports(talk, length, Option.Some(Malformed), Faults(c.trouble, false, false));
      return Err(Malformed), [];
    }
    r, body := ReadWhole(pool, c, path, length.value, parses);
    BodyReports(talk, length, ErrorIn(r), Faults(c.trouble, false, pool.conn != null && !parses(body)));
  }

  /** Reads the body, gives the connection back after all of it, and parses. */
  method ReadWhole(pool: Pool, c: Conn, path: seq<byte>, want: nat, parses: seq<byte> -> bool)
    returns (r: Result<seq<byte>>, ghost body: seq<byte>)
    requires Delivered(c, path, Option.Some(want)) && CleanUnlessSurplus(c.past) && pool.conn == null
    modifies pool`conn, c`unread, c`buffered, c`trouble
    ensures pool.Valid() && (pool.conn == null || pool.conn == c) && (r.Ok? ==> pool.conn == c)
    ensures pool.conn != null && TrustedIn(c.past) ==> AnswerIn(c.past, body)
    ensures pool.conn != null ==> r == if parses(body) then Ok(body) else Err(Malformed)
    ensures pool.conn != null && TrustedIn(c.past) ==> (c.Aligned() <==> !Surplus(c.past[|c.past| - 1].reply))
    ensures r.Err? ==> CausedBy(r.error, Faults(c.trouble, false, pool.conn != null && !parses(body)))
    ensures r.Err? && r.error.Truncated? ==> pool.conn == null
    ensures r.Err? ==> StoppedEarly(c.past, r.error)
  {
    var read := ReadListing(c, path, want);
    if read.Err? {
      return Err(read.error), [];
    }
    if |read.value| != want {
      return Err(Truncated(want, |read.value|)), [];
    }
    pool.Release(c);
    r := if parses(read.value) then Ok(read.value) else Err(Malformed);
    body := read.value;
  }

  /** A server that sends one byte too many leaves the pooled connection in the middle of a response. */
  method SurplusMisaligns(path: seq<byte>) returns (c: Conn, copied: Result<nat>)
    ensures fresh(c) && TrustedIn(c.past) && !NoSurplus(c.past, |c.past|)
    ensures copied.Ok? ==> !c.Aligned()
  {
    c := new Conn();
    var file := new LocalFile();
    c.past := [Turn(path, Reply(200, Option.Some(1), [7, 8]), Answer(Head(0, 200, Option.Some(1))), true)];
    c.unread, c.buffered := BodyCells(0, [7, 8]), 1;
    assert Surplus(c.past[0].reply);
    copied := CopyInBlocking(c, path, file, 1);
  }

  // ---------- any sequence of calls ----------

  datatype Call = Fetch(path: seq<byte>) | List(path: seq<byte>)

  /** What a call left behind, and how it talked to the server. */
  datatype Outcome =
    | Fetched(talk: Talk, faults: Faults, size: Result<nat>, content: Option<seq<byte>>, stuck: bool)
    | Listed(talk: Talk, faults: Faults, entries: Result<seq<byte>>, body: seq<byte>)

  /**
   The call reached the server for its own path and no other; if it succeeded, it has exactly the
   declared bytes of the 200 that answers its own request, and if it failed, nothing that could
   pass for it was left, as long as nothing of an earlier response was in the way when it asked.
   */
  predicate Faithful(call: Call, o: Outcome, parses: seq<byte> -> bool) {
    match call
    case Fetch(path) =>
      && o.Fetched? && TriedIn(path, o.talk) && Reports(o.talk, ErrorIn(o.size), o.faults)
      && (o.size.Ok? ==>
            && Where(o.talk.tried).Some? && o.content.Some? && |o.content.value| == o.size.value
            && (TrustedIn(o.talk.last) ==> AnswerIn(o.talk.last, o.content.value)))
      && (o.size.Err? && !o.stuck && o.content.Some? ==>
            Where(o.talk.tried).Some? && (TrustedIn(o.talk.last) ==> AnswerIn(o.talk.last, o.content.value)))
    case List(path) =>
      && o.Listed? && TriedIn(path, o.talk) && Reports(o.talk, ErrorIn(o.entries), o.faults)
      && (o.entries.Ok? ==> o.entries.value == o.body && parses(o.body))
      && (o.faults.unparsable ==> !parses(o.body))
      && (o.entries.Ok? || o.faults.unparsable ==>
            Where(o.talk.tried).Some? && (TrustedIn(o.talk.last) ==> AnswerIn(o.talk.last, o.body)))
  }

  predicate AllFaithful(calls: seq<Call>, outcomes: seq<Outcome>, parses: seq<byte> -> bool) {
    |outcomes| == |calls| && forall k :: 0 <= k < |calls| ==> Faithful(calls[k], outcomes[k], parses)
  }

  /** What the outcomes say of their connections is what these went through. */
  ghost predicate AllRecorded(outcomes: seq<Outcome>)
    reads (set o, k | o in outcomes && k in o.talk.tried && k.Asked? :: k.at.conn)`past
  {
    forall o :: o in outcomes ==> Recorded(o.talk)
  }

  /** All contacts of a run of calls, in order. */
  function Contacts(outcomes: seq<Outcome>): seq<Contact> {
    if outcomes == [] then [] else Contacts(outcomes[..|outcomes| - 1]) + outcomes[|outcomes| - 1].talk.tried
  }

  /** Any sequence of calls sharing one pool, whatever the servers and the disk do. */
  method RunCalls(pool: Pool, calls: seq<Call>, parses: seq<byte> -> bool) returns (ghost outcomes: seq<Outcome>)
    requires pool.Valid() && pool.conn == null
    modifies pool
    ensures pool.Valid() && AllFaithful(calls, outcomes, parses) && AllRecorded(outcomes)
    ensures forall o :: o in outcomes ==> Truthful(pool.dialing, o.talk.tried)
    ensures pool.contacts == old(pool.contacts) + Contacts(outcomes)
  {
    outcomes := [];
    for k := 0 to |calls|
      invariant pool.Valid() && (pool.conn != null ==> fresh(pool.conn))
      invariant |outcomes| == k && AllFaithful(calls[..k], outcomes, parses) && AllRecorded(outcomes)
      invariant forall o :: o in outcomes ==> NewOrReused(o.talk.tried, null) && Truthful(pool.dialing, o.talk.tried)
      invariant pool.contacts == old(pool.contacts) + Contacts(outcomes)
    {
      ghost var was := outcomes;
      ghost var o := PerformNext(pool, outcomes, calls[k], parses);
      outcomes := was + [o];
      assert outcomes[..k] == was && calls[..k + 1] == calls[..k] + [calls[k]];
      Associative(old(pool.contacts), Contacts(was), o.talk.tried);
    }
    assert calls[..|calls|] == calls;
  }

  /** One call more, after others whose records stay what they were. */
  method PerformNext(pool: Pool, ghost outcomes: seq<Outcome>, call: Call, parses: seq<byte> -> bool)
    returns (ghost o: Outcome)
    requires pool.Valid() && AllRecorded(outcomes)
    modifies pool, pool.conn
    ensures pool.Valid() && pool.contacts == old(pool.contacts) + o.talk.tried
    ensures Faithful(call, o, parses) && AllRecorded(outcomes + [o]) && Truthful(pool.dialing, o.talk.tried)
    ensures pool.conn != null ==> fresh(pool.conn) || pool.conn == old(pool.conn)
    ensures NewOrReused(o.talk.tried, old(pool.conn))
  {
    o := Perform(pool, call, parses);
    forall p | p in outcomes ensures Recorded(p.talk) {
      assert old(Recorded(p.talk));
    }
  }

  /** One call. */
  method Perform(pool: Pool, call: Call, parses: seq<byte> -> bool) returns (ghost o: Outcome)
    requires pool.Valid()
    modifies pool, pool.conn
    ensures pool.Valid() && pool.contacts == old(pool.contacts) + o.talk.tried
    ensures Faithful(call, o, parses) && Recorded(o.talk) && Truthful(pool.dialing, o.talk.tried)
    ensures pool.conn != null ==> fresh(pool.conn) || pool.conn == old(pool.conn)
    ensures old(pool.conn) != null ==> Grew(old(pool.conn))
    ensures NewOrReused(o.talk.tried, old(pool.conn))
  {
    match call
    case Fetch(path) =>
      var file := new LocalFile();
      var size, talk, preread := FetchFile(pool, path, file);
      o := Fetched(talk, Faults(TroubleOf(talk), file.failed, false), size, file.content, file.stuck);
    case List(path) =>
      var entries, talk, body := ListEntries(pool, path, parses);
      o := Listed(talk, Faults(TroubleOf(talk), false, pool.conn != null && !parses(body)), entries, body);
  }
}
