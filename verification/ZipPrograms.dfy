/**
 The two programs of the zip pipeline, written as the loops they are, over a buffer that is
 filled in place. While one of them runs, the other takes any steps it likes; everything that
 happens is a run of the pipeline, so what holds in every reachable state holds of them.
 */
module ZipPrograms {
  import opened Bytes
  import opened Walk
  import opened TreeListing
  import opened ZipPipeline

  /** The part of the state that only the producer changes. */
  function ProducerSide(s: State): (seq<Entry>, Producer, seq<Archived>, seq<byte>, seq<Msg>) {
    (s.todo, s.producer, s.made, s.reading, s.sent)
  }

  /** The part of the state that only the consumer changes. */
  function ConsumerSide(s: State): (Consumer, seq<Archived>, Archived, seq<Msg>) {
    (s.consumer, s.closed, s.partial, s.received)
  }

  lemma SidesAreSeparate(s: State, a: Action, s': State)
    requires Apply(s, a) == Some(s')
    ensures if a.Receive? || a.Write? then ProducerSide(s') == ProducerSide(s) else ConsumerSide(s') == ConsumerSide(s)
  {
  }

  /** Where a read of `n` bytes to `from` leaves the producer; `data` is the buffer after it. */
  function AfterRead(p: Producer, data: Buffer, from: nat, n: nat): Producer
    requires p.Filling? || p.Reading?
  {
    if p.Reading? then (if n == 0 then SendingEnd(p.name) else SendingChunk(p.name, data, n))
    else if n == 0 then SendingWhole(p.name, data, from)
    else if from + n < ZIP_CHUNK then Filling(p.name, data, from + n)
    else SendingStart(p.name, First(data, from + n))
  }

  /** How far a waiting consumer is from the next message, if every file ends now. */
  function StepsToSend(p: Producer): nat {
    match p
    case NextEntry => 1
    case TakingFirst(_) => 2
    case Taking(_) => 2
    case Filling(_, _, _) => 1
    case Reading(_, _) => 1
    case _ => 0
  }

  /** The read that `a` is returned bytes. */
  predicate Supplied(a: Action) {
    a.Read? && a.bytes != []
  }

  /** Messages the current file may still need. */
  function Pending(p: Producer): nat {
    match p
    case TakingFirst(_) => 3
    case Filling(_, _, _) => 3
    case SendingStart(_, First(_, _)) => 3
    case SendingStart(_, _) => 2
    case SendingChunk(_, _, _) => 2
    case SendingDir(_) => 1
    case SendingWhole(_, _, _) => 1
    case SendingEnd(_) => 1
    case Taking(_) => 1
    case Reading(_, _) => 1
    case _ => 0
  }

  /** A bound on the messages still to be received. */
  function Load(s: State, supply: nat): nat {
    |s.items| + supply + 3 * |s.todo| + Pending(s.producer)
  }

  lemma LoadFalls(s: State, a: Action, s': State, supply: nat)
    requires Apply(s, a) == Some(s') && (Supplied(a) ==> supply > 0)
    ensures Load(s', if Supplied(a) then supply - 1 else supply) + (if a.Receive? && s.items != [] then 1 else 0)
         <= Load(s, supply)
  {
  }

  /** What is offered fits its buffer, and goes into the queue if somebody receives. */
  lemma SendLeads(s: State)
    requires ProducerOk(s) && Offer(s.producer).Some? && (Receiving(s) ==> |s.items| < ZIP_QUEUE)
    ensures ItemOk(Offer(s.producer).value)
    ensures
      var item := Offer(s.producer).value;
      Apply(s, Send) == Some(
        if Receiving(s) then
          s.(items := s.items + [item], sent := s.sent + [Carried(item)],
             made := s.made + Completed(s.producer, s.reading), producer := Sent(s.producer))
        else s.(producer := Refused))
  {
  }

  lemma ReceiveLeads(s: State, supply: nat)
    requires QueueOk(s) && (s.consumer.Waiting? || s.consumer.InFile?) && (s.items != [] || !Producing(s))
    ensures Apply(s, Receive).Some?
    ensures
      var s' := Apply(s, Receive).value;
      && ProducerSide(s') == ProducerSide(s) && s'.closed == s.closed && s'.partial == s.partial
      && if s.items == [] then
           s'.consumer == (if s.consumer.InFile? then Closing else Finished) && Load(s', supply) <= Load(s, supply)
         else
           && ItemOk(s.items[0]) && s'.received == s.received + [Carried(s.items[0])]
           && s'.consumer == OnItem(s.consumer, s.items[0]) && Load(s', supply) < Load(s, supply)
  {
    ReceivingIsPossible(s);
    LoadFalls(s, Receive, Apply(s, Receive).value, supply);
  }

  /** A producer that goes on comes closer to a message, sends one, or is done. */
  lemma MoveLeads(entries: seq<Entry>, s: State, supply: nat)
    requires Inv(entries, s) && s.items == [] && Producing(s)
    ensures !ProducerMove(s).Receive? && !ProducerMove(s).Write? && Apply(s, ProducerMove(s)).Some?
    ensures
      var s' := Apply(s, ProducerMove(s)).value;
      && ConsumerSide(s') == ConsumerSide(s) && Load(s', supply) <= Load(s, supply)
      && (s'.items != [] || !Producing(s') || StepsToSend(s'.producer) < StepsToSend(s.producer))
  {
    ProducingIsPossible(s);
    var a := ProducerMove(s);
    SidesAreSeparate(s, a, Apply(s, a).value);
    LoadFalls(s, a, Apply(s, a).value, supply);
  }

  /** The parts of the invariant that a single step needs. */
  lemma InMemory(entries: seq<Entry>, run: seq<Action>, s: State)
    requires After(entries, run) == Some(s)
    ensures MemoryOk(s)
  {
    Reachable(entries, run);
  }

  lemma AtProducer(entries: seq<Entry>, run: seq<Action>, s: State)
    requires After(entries, run) == Some(s)
    ensures ProducerOk(s)
  {
    Reachable(entries, run);
  }

  lemma AtConsumer(entries: seq<Entry>, run: seq<Action>, s: State)
    requires After(entries, run) == Some(s)
    ensures ConsumerOk(s) && QueueOk(s)
  {
    Reachable(entries, run);
  }

  /** Once the walk is over, every entry was handed over with the bytes read for it. */
  lemma AllIsMade(entries: seq<Entry>, run: seq<Action>, s: State)
    requires After(entries, run) == Some(s) && s.producer.Done?
    ensures NamesOf(s.made) == entries && Contents(s.made) == Reads(run)
  {
    Reachable(entries, run);
    MadeInOrder(entries, s);
    MadeAsRead(run, s);
  }

  lemma ReadLeads(s: State, from: nat, bytes: seq<byte>)
    requires (s.producer.Filling? && s.producer.len == from) || (s.producer.Reading? && from == 0)
    requires |s.producer.data| == ZIP_CHUNK && from + |bytes| <= ZIP_CHUNK
    ensures
      var p := AfterRead(s.producer, Overwrite(s.producer.data, from, bytes), from, |bytes|);
      Apply(s, Read(bytes)) == Some(s.(reading := s.reading + bytes, producer := p))
  {
    if bytes == [] {
      assert Overwrite(s.producer.data, from, bytes) == s.producer.data;
    }
  }

  lemma TakeLeads(s: State, data: Buffer)
    requires (s.producer.TakingFirst? || s.producer.Taking?) && MemoryOk(s) && data == Taken(s.free).0
    ensures |data| == ZIP_CHUNK
    ensures
      var p := if s.producer.TakingFirst? then Filling(s.producer.name, data, 0) else Reading(s.producer.name, data);
      Apply(s, TakeBuffer) == Some(s.(free := Taken(s.free).1, producer := p))
  {
    assert s.free != [] ==> |s.free[0]| == ZIP_CHUNK;
  }

  method Fill(buf: array<byte>, from: nat, bytes: seq<byte>)
    requires from + |bytes| <= buf.Length
    modifies buf
    ensures buf[..] == Overwrite(old(buf[..]), from, bytes)
    ensures buf[from..from + |bytes|] == bytes && buf[..from] == old(buf[..from])
  {
    forall k | 0 <= k < |bytes| {
      buf[from + k] := bytes[k];
    }
  }

  lemma PreorderIs(dir: Node, prefix: string, rest: seq<Entry>)
    requires dir.Dir? && dir.readable
    ensures forall n :: n in SortByName(dir.children) ==> n in dir.children
    ensures
      var self, nodes := DirEntry(prefix + "/"), PreorderAll(dir, SortByName(dir.children), prefix);
      && Preorder(dir, prefix) == [self] + nodes
      && (Preorder(dir, prefix) + rest)[0] == self && (Preorder(dir, prefix) + rest)[1..] == nodes + rest
  {
    SameMembers(SortByName(dir.children), dir.children);
    var self, nodes := DirEntry(prefix + "/"), PreorderAll(dir, SortByName(dir.children), prefix);
    assert Preorder(dir, prefix) == [self] + nodes;
    FirstOff(self, nodes, rest);
  }

  lemma FirstOff<T>(x: T, xs: seq<T>, rest: seq<T>)
    ensures ([x] + xs + rest)[0] == x && ([x] + xs + rest)[1..] == xs + rest
  {
  }

  class Pipeline {
    const root: Node
    const folder: string
    /** What the walk of `root` hands over. */
    const entries: seq<Entry>
    var s: State
    ghost var run: seq<Action>
    /** How many more reads return bytes: files are finite, even growing ones. */
    var supply: nat
    /** The entries the walk has handed to its callback. */
    ghost var offered: seq<Entry>

    ghost predicate Valid()
      reads this
    {
      root.Dir? && entries == Preorder(root, folder) && After(entries, run) == Some(s)
    }

    constructor (root: Node, folder: string, supply: nat)
      requires root.Dir?
      ensures Valid() && s == Initial(entries) && offered == []
      ensures this.root == root && this.folder == folder
    {
      this.root, this.folder, this.supply := root, folder, supply;
      entries, offered := Preorder(root, folder), [];
      s, run := Initial(Preorder(root, folder)), [];
    }

    method Step(a: Action)
      requires Valid() && Apply(s, a).Some?
      modifies this`s, this`run
      ensures Valid() && Some(s) == Apply(old(s), a) && run == old(run) + [a]
    {
      s := Apply(s, a).value;
      run := run + [a];
      assert run[..|run| - 1] == old(run);
    }

    /** Any number of steps of the consumer, as far as they are possible. */
    method ConsumerRuns()
      requires Valid()
      modifies this`s, this`run
      ensures Valid() && ProducerSide(s) == ProducerSide(old(s)) && old(run) <= run
    {
      var n: nat :| true;
      for i := 0 to n
        invariant Valid() && ProducerSide(s) == ProducerSide(old(s)) && old(run) <= run
      {
        var a: Action := Receive;
        if * {
          a := Write(true);
        } else if * {
          a := Write(false);
        }
        if Apply(s, a).Some? {
          SidesAreSeparate(s, a, Apply(s, a).value);
          Step(a);
        }
      }
    }

    /** Any number of steps of the producer, as far as they are possible. */
    method ProducerRuns()
      requires Valid()
      modifies this`s, this`run, this`supply
      ensures Valid() && ConsumerSide(s) == ConsumerSide(old(s)) && old(run) <= run
      ensures Load(s, supply) <= old(Load(s, supply))
    {
      var n: nat :| true;
      for i := 0 to n
        invariant Valid() && ConsumerSide(s) == ConsumerSide(old(s)) && old(run) <= run
        invariant Load(s, supply) <= old(Load(s, supply))
      {
        var a: Action :| true;
        if !a.Receive? && !a.Write? && Apply(s, a).Some? && (Supplied(a) ==> supply > 0) {
          SidesAreSeparate(s, a, Apply(s, a).value);
          LoadFalls(s, a, Apply(s, a).value, supply);
          Step(a);
          supply := if Supplied(a) then supply - 1 else supply;
        }
      }
    }

    // ---------- the producer ----------

    /** A full queue empties: a consumer that goes on makes room. */
    method AwaitRoom()
      requires Valid()
      modifies this`s, this`run
      ensures Valid() && ProducerSide(s) == ProducerSide(old(s)) && old(run) <= run
      ensures Receiving(s) ==> |s.items| < ZIP_QUEUE
    {
      while Receiving(s) && |s.items| >= ZIP_QUEUE
        invariant Valid() && ProducerSide(s) == ProducerSide(old(s)) && old(run) <= run
        decreases |s.items|, if s.consumer.Waiting? || s.consumer.InFile? then 0 else 1
      {
        AtConsumer(entries, run, s);
        if s.consumer.Waiting? || s.consumer.InFile? {
          ReceivingIsPossible(s);
          SidesAreSeparate(s, Receive, Apply(s, Receive).value);
          Step(Receive);
        } else {
          WritingIsPossible(s);
          SidesAreSeparate(s, Write(true), Apply(s, Write(true)).value);
          Step(Write(true));
        }
      }
    }

    /** Waits for room; fails only when nobody receives any more. */
    method BlockingSend(item: Item) returns (ok: bool)
      requires Valid() && Offer(s.producer) == Some(item)
      modifies this`s, this`run
      ensures Valid() && old(run) < run
      ensures ok ==>
        && s.producer == Sent(old(s.producer)) && s.todo == old(s.todo) && s.reading == old(s.reading)
        && s.made == old(s.made) + Completed(old(s.producer), old(s.reading))
        && ItemOk(item) && s.sent == old(s.sent) + [Carried(item)]
      ensures !ok ==> s.producer.Refused? && !Receiving(s)
    {
      ConsumerRuns();
      AwaitRoom();
      AtProducer(entries, run, s);
      SendLeads(s);
      ok := Receiving(s);
      Step(Send);
    }

    /** `try_recv` on the free queue, or a new buffer. */
    method TakeFree() returns (buf: array<byte>)
      requires Valid() && (s.producer.TakingFirst? || s.producer.Taking?)
      modifies this`s, this`run
      ensures Valid() && fresh(buf) && buf.Length == ZIP_CHUNK && old(run) <= run
      ensures
        var p := old(s.producer);
        s.producer == if p.TakingFirst? then Filling(p.name, buf[..], 0) else Reading(p.name, buf[..])
      ensures s.todo == old(s.todo) && s.reading == old(s.reading) && s.made == old(s.made) && s.sent == old(s.sent)
    {
      ConsumerRuns();
      InMemory(entries, run, s);
      var data := Taken(s.free).0;
      TakeLeads(s, data);
      buf := new byte[ZIP_CHUNK](i requires 0 <= i < |data| => data[i]);
      assert buf[..] == data;
      Step(TakeBuffer);
    }

    /** What the disk gives for one read. */
    method AnyBytes(max: nat) returns (bytes: seq<byte>)
      ensures |bytes| <= max && (supply == 0 ==> bytes == [])
    {
      if supply == 0 || max == 0 {
        return [];
      }
      var any: seq<byte> :| true;
      bytes := any[..Min(|any|, max)];
    }

    /** One read into the buffer from `from` on: any number of bytes, none at the end or on an error. */
    method ReadInto(buf: array<byte>, from: nat) returns (n: nat)
      requires Valid() && buf.Length == ZIP_CHUNK && from < ZIP_CHUNK
      requires (s.producer.Filling? && s.producer.len == from) || (s.producer.Reading? && from == 0)
      requires s.producer.data == buf[..]
      modifies this`s, this`run, this`supply, buf
      ensures Valid() && from + n <= ZIP_CHUNK && old(run) <= run
      ensures supply <= old(supply) && (n > 0 ==> supply < old(supply))
      ensures buf[..from] == old(buf[..from]) && s.reading == old(s.reading) + buf[from..from + n]
      ensures s.producer == AfterRead(old(s.producer), buf[..], from, n)
      ensures s.todo == old(s.todo) && s.made == old(s.made) && s.sent == old(s.sent)
    {
      var bytes := AnyBytes(ZIP_CHUNK - from);
      n := |bytes|;
      supply := if n > 0 then supply - 1 else supply;
      ReadLeads(s, from, bytes);
      Fill(buf, from, bytes);
      Step(Read(bytes));
    }

    /** Fills one buffer as far as the file goes; a full one means there may be more. */
    method ReadFirstChunk() returns (buf: array<byte>, len: nat)
      requires Valid() && s.producer.TakingFirst? && s.reading == []
      modifies this`s, this`run, this`supply
      ensures Valid() && fresh(buf) && buf.Length == ZIP_CHUNK && len <= ZIP_CHUNK && old(run) <= run
      ensures s.reading == buf[..len]
      ensures
        var name := old(s.producer).name;
        s.producer == if len < ZIP_CHUNK then SendingWhole(name, buf[..], len)
                      else SendingStart(name, First(buf[..], len))
      ensures s.todo == old(s.todo) && s.made == old(s.made) && s.sent == old(s.sent)
    {
      ghost var name := s.producer.name;
      buf := TakeFree();
      len := 0;
      while len < ZIP_CHUNK
        invariant Valid() && len <= ZIP_CHUNK && buf.Length == ZIP_CHUNK && old(run) <= run
        invariant s.reading == buf[..len]
        invariant s.producer == if len < ZIP_CHUNK then Filling(name, buf[..], len)
                                else SendingStart(name, First(buf[..], len))
        invariant s.todo == old(s.todo) && s.made == old(s.made) && s.sent == old(s.sent)
      {
        var n := ReadInto(buf, len);
        assert buf[..len] + buf[len..len + n] == buf[..len + n];
        if n == 0 {
          break;
        }
        len := len + n;
      }
    }

    /** The rest of a file, a message for each read; `false` when nobody receives any more. */
    method SendFileChunks(name: string) returns (more: bool)
      requires Valid() && s.producer == Taking(name)
      modifies this`s, this`run, this`supply
      ensures Valid() && old(run) <= run
      ensures more ==> s.producer == SendingEnd(name) && s.todo == old(s.todo) && s.made == old(s.made)
      ensures more ==> old(s.reading) <= s.reading
      ensures !more ==> s.producer.Refused?
    {
      while true
        invariant Valid() && s.producer == Taking(name) && old(run) <= run
        invariant s.todo == old(s.todo) && s.made == old(s.made) && old(s.reading) <= s.reading
        decreases supply
      {
        var buf := TakeFree();
        var n := ReadInto(buf, 0);
        if n == 0 {
          return true;
        }
        assert s.made + [] == s.made;
        var ok := BlockingSend(ChunkItem(buf[..], n));
        if !ok {
          return false;
        }
      }
    }

    /** One file, by way of a single message if a first read gets all of it. */
    method SendOneFile(name: string) returns (more: bool)
      requires Valid() && s.producer.NextEntry? && s.todo != [] && s.todo[0] == FileEntry(name)
      modifies this`s, this`run, this`supply
      ensures Valid() && old(run) <= run
      ensures more ==>
        && s.producer.NextEntry? && s.todo == old(s.todo)[1..]
        && s.made == old(s.made) + [FileOf(name, s.reading)]
      ensures !more ==> s.producer.Refused?
    {
      var found := *;
      if !found {
        more := SendEmptyFile(name);
        return;
      }
      var small := *;
      Step(Open(true, small));
      if small {
        var done;
        more, done := SendSmallFile(name);
        if !more || done {
          return;
        }
      } else {
        more := BlockingSend(StartItem(name));
        assert s.made + [] == s.made;
        if !more {
          return;
        }
      }
      more := SendFileChunks(name);
      if more {
        more := BlockingSend(EndItem);
      }
    }

    /** A file that does not open still gets its entry. */
    method SendEmptyFile(name: string) returns (more: bool)
      requires Valid() && s.producer.NextEntry? && s.todo != [] && s.todo[0] == FileEntry(name)
      modifies this`s, this`run
      ensures Valid() && old(run) <= run
      ensures more ==>
        && s.producer.NextEntry? && s.todo == old(s.todo)[1..] && s.reading == []
        && s.made == old(s.made) + [FileOf(name, s.reading)]
      ensures !more ==> s.producer.Refused?
    {
      Step(Open(false, false));
      more := BlockingSend(StartItem(name));
      assert s.made + [] == s.made;
      if more {
        more := BlockingSend(EndItem);
      }
    }

    /** A file that looked small: one message if it is, else its first chunk, which is not lost. */
    method SendSmallFile(name: string) returns (more: bool, done: bool)
      requires Valid() && s.producer == TakingFirst(name) && s.reading == []
      modifies this`s, this`run, this`supply
      ensures Valid() && old(run) <= run
      ensures more ==> s.todo == old(s.todo)
      ensures more && done ==> s.producer.NextEntry? && s.made == old(s.made) + [FileOf(name, s.reading)]
      ensures more && !done ==> s.producer == Taking(name) && s.made == old(s.made) && |s.reading| == ZIP_CHUNK
      ensures !more ==> s.producer.Refused?
    {
      var buf, len := ReadFirstChunk();
      if len < ZIP_CHUNK {
        more := BlockingSend(WholeItem(name, buf[..], len));
        return more, true;
      }
      more := BlockingSend(StartItem(name));
      assert s.made + [] == s.made;
      if more {
        more := BlockingSend(ChunkItem(buf[..], len));
        assert s.made + [] == s.made;
      }
      return more, false;
    }

    /** The walk's callback: `false` stops the walk. */
    method SendEntry(e: Entry) returns (more: bool)
      requires Valid() && s.producer.NextEntry? && s.todo != [] && s.todo[0] == e
      modifies this
      ensures Valid() && old(run) <= run && offered == old(offered) + [e]
      ensures more ==> s.producer.NextEntry? && s.todo == old(s.todo)[1..]
      ensures !more ==> s.producer.Refused?
    {
      offered := offered + [e];
      match e
      case DirEntry(name) =>
        Step(NextStep);
        more := BlockingSend(DirItem(name));
      case FileEntry(name) =>
        more := SendOneFile(name);
    }

    /** Hands the preorder of the tree over, or a prefix of it that ends with the refused entry. */
    method WalkInner(dir: Node, prefix: string, ghost rest: seq<Entry>) returns (more: bool)
      requires Valid() && s.producer.NextEntry?
      requires dir.Dir? && s.todo == Preorder(dir, prefix) + rest
      modifies this
      ensures Valid() && old(run) <= run
      ensures Visited(old(offered), offered, Preorder(dir, prefix), more)
      ensures if more then s.producer.NextEntry? && s.todo == rest else s.producer.Refused?
      decreases dir, 1, 0
    {
      if !dir.readable {
        return true;
      }
      var self := DirEntry(prefix + "/");
      PreorderIs(dir, prefix, rest);
      more := SendEntry(self);
      if !more {
        assert Preorder(dir, prefix)[..1] == [self];
        return false;
      }
      var nodes := SortByName(dir.children);
      SameMembers(nodes, dir.children);
      PreorderIs(dir, prefix, rest);
      more := WalkNodes(dir, nodes, prefix, rest);
      if more {
        Associative(old(offered), [self], PreorderAll(dir, nodes, prefix));
      } else {
        StoppedInside(old(offered), [self], PreorderAll(dir, nodes, prefix), [], offered);
      }
    }

    /** The loop over the sorted entries of a directory. */
    method WalkNodes(dir: Node, nodes: seq<Node>, prefix: string, ghost rest: seq<Entry>) returns (more: bool)
      requires Valid() && s.producer.NextEntry?
      requires dir.Dir? && forall n :: n in nodes ==> n in dir.children
      requires s.todo == PreorderAll(dir, nodes, prefix) + rest
      modifies this
      ensures Valid() && old(run) <= run
      ensures Visited(old(offered), offered, PreorderAll(dir, nodes, prefix), more)
      ensures if more then s.producer.NextEntry? && s.todo == rest else s.producer.Refused?
      decreases dir, 0, 1
    {
      ghost var seen: seq<Entry> := [];
      var k := 0;
      assert nodes[0..] == nodes;
      while k < |nodes|
        invariant 0 <= k <= |nodes| && Valid() && old(run) <= run && s.producer.NextEntry?
        invariant offered == old(offered) + seen
        invariant seen + PreorderAll(dir, nodes[k..], prefix) == PreorderAll(dir, nodes, prefix)
        invariant s.todo == PreorderAll(dir, nodes[k..], prefix) + rest
        decreases |nodes| - k
      {
        assert nodes[k..][1..] == nodes[k + 1..];
        ghost var one := PreorderOne(dir, nodes[k], prefix);
        ghost var later := PreorderAll(dir, nodes[k + 1..], prefix);
        Associative(one, later, rest);
        more := VisitOne(dir, nodes[k], prefix, later + rest);
        if !more {
          StoppedInside(old(offered), seen, one, later, offered);
          return false;
        }
        Associative(old(offered), seen, one);
        Associative(seen, one, later);
        seen := seen + one;
        k := k + 1;
      }
      assert nodes[k..] == [] && seen + [] == seen && [] + rest == rest;
      return true;
    }

    /** One entry of a directory: descend, hand a file over, or skip. */
    method VisitOne(dir: Node, node: Node, prefix: string, ghost rest: seq<Entry>) returns (more: bool)
      requires Valid() && s.producer.NextEntry?
      requires dir.Dir? && node in dir.children && s.todo == PreorderOne(dir, node, prefix) + rest
      modifies this
      ensures Valid() && old(run) <= run
      ensures Visited(old(offered), offered, PreorderOne(dir, node, prefix), more)
      ensures if more then s.producer.NextEntry? && s.todo == rest else s.producer.Refused?
      decreases dir, 0, 0
    {
      ghost var one := PreorderOne(dir, node, prefix);
      match node
      case Dir(_, _, _) =>
        more := WalkInner(node, prefix + "/" + node.name, rest);
      case File(_) =>
        more := SendEntry(FileEntry(prefix + "/" + node.name));
        assert one[..1] == one;
      case Other(_) =>
        assert old(offered) + [] == old(offered);
        more := true;
    }

    /** The same, told by where things are in the tree. */
    method WalkTree(dir: Node, prefix: string, ghost rest: seq<Entry>) returns (more: bool)
      requires Valid() && s.producer.NextEntry?
      requires dir.Dir? && s.todo == Preorder(dir, prefix) + rest
      modifies this
      ensures Valid() && old(run) <= run && old(offered) <= offered
      ensures
        var handed := offered[|old(offered)|..];
        if more then FullListing(handed, dir, prefix) else ListingBegins(handed, dir, prefix)
      ensures Visited(old(offered), offered, Preorder(dir, prefix), more)
      ensures if more then s.producer.NextEntry? && s.todo == rest else s.producer.Refused?
    {
      more := WalkInner(dir, prefix, rest);
      PreorderIsListing(dir, prefix);
      ghost var handed := offered[|old(offered)|..];
      assert handed <= Preorder(dir, prefix) && (more ==> handed == Preorder(dir, prefix));
      PrefixBegins(handed, dir, prefix);
    }

    /** The blocking thread: the walk with its callback, until it ends or nobody receives any more. */
    method RunProducer()
      requires Valid() && s == Initial(entries) && offered == []
      modifies this
      ensures Valid()
      ensures s.producer.Done? || (s.producer.Refused? && Broke(run))
      ensures Visited([], offered, Preorder(root, folder), s.producer.Done?)
      ensures if s.producer.Done? then FullListing(offered, root, folder) else ListingBegins(offered, root, folder)
      ensures s.producer.Done? ==> FullListing(NamesOf(s.made), root, folder) && Contents(s.made) == Reads(run)
      ensures ListingBegins(NamesOf(s.closed), root, folder) && Contents(s.closed) <= Reads(run)
    {
      assert entries + [] == entries;
      var more := WalkTree(root, folder, []);
      if more {
        Step(NextStep);
        AllIsMade(entries, run, s);
      }
      ArchiveIsFaithful(entries, run);
      GivingUpIsBroken(entries, run);
      PreorderIsListing(root, folder);
      assert offered <= Preorder(root, folder);
      PrefixBegins(offered, root, folder);
      PrefixBegins(NamesOf(s.closed), root, folder);
    }

    // ---------- the consumer ----------

    /** An empty queue fills, or the channel closes: a producer that goes on offers a message. */
    method AwaitItem()
      requires Valid() && (s.consumer.Waiting? || s.consumer.InFile?)
      modifies this`s, this`run
      ensures Valid() && ConsumerSide(s) == ConsumerSide(old(s)) && old(run) <= run
      ensures Load(s, supply) <= old(Load(s, supply))
      ensures s.items != [] || !Producing(s)
    {
      while s.items == [] && Producing(s)
        invariant Valid() && ConsumerSide(s) == ConsumerSide(old(s)) && old(run) <= run
        invariant Load(s, supply) <= old(Load(s, supply))
        decreases s.items == [], Producing(s), StepsToSend(s.producer)
      {
        Reachable(entries, run);
        MoveLeads(entries, s, supply);
        Step(ProducerMove(s));
      }
    }

    /** `recv`: the next message, or `None` once the producer is gone and the queue is empty. */
    method Recv() returns (item: Option<Item>)
      requires Valid() && (s.consumer.Waiting? || s.consumer.InFile?)
      modifies this`s, this`run, this`supply
      ensures Valid() && old(run) < run
      ensures Load(s, supply) <= old(Load(s, supply)) && (item.Some? ==> Load(s, supply) < old(Load(s, supply)))
      ensures s.closed == old(s.closed) && s.partial == old(s.partial)
      ensures item.Some? ==> ItemOk(item.value) && s.consumer == OnItem(old(s.consumer), item.value)
      ensures item.Some? ==> s.received == old(s.received) + [Carried(item.value)]
      ensures item.None? ==> s.consumer == if old(s.consumer).InFile? then Closing else Finished
    {
      ProducerRuns();
      AwaitItem();
      AtConsumer(entries, run, s);
      item := if s.items == [] then None else Some(s.items[0]);
      ReceiveLeads(s, supply);
      Step(Receive);
    }

    /** Writes what is in hand to the archive and gives its buffer back, if the response still takes it. */
    method WriteOut() returns (ok: bool)
      requires Valid() && Receiving(s) && !s.consumer.Waiting? && !s.consumer.InFile?
      modifies this`s, this`run, this`supply
      ensures Valid() && old(run) < run && Load(s, supply) <= old(Load(s, supply))
      ensures ok ==> CanWrite(old(s.consumer), old(s.partial))
      ensures ok ==> (s.consumer, s.closed, s.partial) == Written(old(s.consumer), old(s.closed), old(s.partial))
      ensures !ok ==> s.consumer.Stopped? && s.closed == old(s.closed)
    {
      ProducerRuns();
      AtConsumer(entries, run, s);
      ok := *;
      WriteLeads(s, ok, supply);
      Step(Write(ok));
    }

    /**
     The task that writes the archive: message by message, with an inner loop for the chunks of a
     file, until the channel closes or the response breaks. It always gets there.
     */
    method RunConsumer()
      requires Valid() && s == Initial(entries)
      modifies this`s, this`run, this`supply
      ensures Valid() && (s.consumer.Finished? || (s.consumer.Stopped? && Broke(run)))
      ensures ListingBegins(NamesOf(s.closed), root, folder) && Contents(s.closed) <= Reads(run)
      ensures s.consumer.Finished? ==> FullListing(NamesOf(s.closed), root, folder) && Contents(s.closed) == Reads(run)
    {
      var more := true;
      while more
        invariant Valid() && (if more then s.consumer.Waiting? else s.consumer.Finished? || s.consumer.Stopped?)
        decreases more, Load(s, supply)
      {
        var item := Recv();
        match item {
          case None => more := false;
          case Some(StartItem(_)) =>
            more := WriteOut();
            if more {
              more := WriteFile();
            }
          case Some(DirItem(_)) => more := WriteOut();
          case Some(WholeItem(_, _, _)) => more := WriteOut();
          case Some(_) =>
        }
      }
      ArchiveIsFaithful(entries, run);
      GivingUpIsBroken(entries, run);
      PreorderIsListing(root, folder);
      PrefixBegins(NamesOf(s.closed), root, folder);
    }

    /** The chunks of one file, up to its end message or the end of all messages, and its close. */
    method WriteFile() returns (more: bool)
      requires Valid() && s.consumer.InFile?
      modifies this`s, this`run, this`supply
      ensures Valid() && Load(s, supply) <= old(Load(s, supply))
      ensures if more then s.consumer.Waiting? else s.consumer.Stopped?
    {
      while true
        invariant Valid() && s.consumer.InFile? && Load(s, supply) <= old(Load(s, supply))
        decreases Load(s, supply)
      {
        var item := Recv();
        var ok := WriteOut();
        if item.None? || !item.value.ChunkItem? || !ok {
          return ok;
        }
      }
    }
  }

  lemma WriteLeads(s: State, ok: bool, supply: nat)
    requires ConsumerOk(s) && Receiving(s) && !s.consumer.Waiting? && !s.consumer.InFile?
    ensures CanWrite(s.consumer, s.partial) && Apply(s, Write(ok)).Some?
    ensures
      var s' := Apply(s, Write(ok)).value;
      && Load(s', supply) <= Load(s, supply)
      && if ok then (s'.consumer, s'.closed, s'.partial) == Written(s.consumer, s.closed, s.partial)
         else s'.consumer.Stopped? && s'.closed == s.closed
  {
    WritingIsPossible(s);
    LoadFalls(s, Write(ok), Apply(s, Write(ok)).value, supply);
  }

  predicate CanWrite(c: Consumer, partial: Archived) {
    && (c.WritingWhole? || c.WritingChunk? ==> c.len <= |c.data|)
    && (c.WritingChunk? ==> partial.FileOf?)
  }

  /** What a successful write makes of the message in hand. */
  function Written(c: Consumer, closed: seq<Archived>, partial: Archived): (Consumer, seq<Archived>, Archived)
    requires CanWrite(c, partial)
  {
    match c
    case WritingDir(name) => (Waiting, closed + [Folder(name)], partial)
    case WritingWhole(name, data, len) => (Waiting, closed + [FileOf(name, data[..len])], partial)
    case Opening(name) => (InFile, closed, FileOf(name, []))
    case WritingChunk(data, len) => (InFile, closed, FileOf(partial.name, partial.bytes + data[..len]))
    case Closing => (Waiting, closed + [partial], partial)
    case _ => (c, closed, partial)
  }
}
