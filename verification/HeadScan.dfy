/** Finding the end of a response head in a byte stream that arrives in arbitrary pieces. */
module HeadScan {
  import opened Bytes

  const HEAD_END: seq<byte> := [13, 10, 13, 10]

  /** The terminator's last byte sits at index `i`. */
  predicate EndsAt(s: seq<byte>, i: int) {
    3 <= i < |s| && s[i - 3] == 13 && s[i - 2] == 10 && s[i - 1] == 13 && s[i] == 10
  }

  ghost predicate Unterminated(s: seq<byte>) {
    forall i :: !EndsAt(s, i)
  }

  /** `r` is where the first terminator of `s` ends, or `None` when `s` has none. */
  ghost predicate FirstEnd(s: seq<byte>, r: Option<int>) {
    match r
    case None => Unterminated(s)
    case Some(e) => EndsAt(s, e) && forall j :: j < e ==> !EndsAt(s, j)
  }

  lemma FirstEndIsUnique(s: seq<byte>, a: Option<int>, b: Option<int>)
    requires FirstEnd(s, a) && FirstEnd(s, b)
    ensures a == b
  {
    if a.Some? && b.Some? {
      assert !(a.value < b.value) && !(b.value < a.value);
    }
  }

  /** The last up-to-three bytes of `s`: everything a later call has to remember. */
  function Tail3(s: seq<byte>): (t: seq<byte>)
    ensures |t| == Min(|s|, 3)
  {
    if |s| <= 3 then s else s[|s| - 3..]
  }

  /** Substring search for the terminator, reporting its last byte. */
  method FirstEndIn(s: seq<byte>) returns (r: Option<nat>)
    ensures FirstEnd(s, r)
    ensures r.Some? ==> r.value < |s|
  {
    var start := 0;
    while start + 4 <= |s|
      invariant forall i :: i < start + 3 ==> !EndsAt(s, i)
    {
      if EndsAt(s, start + 3) {
        return Some(start + 3);
      }
      start := start + 1;
    }
    return None;
  }

  method FindHeadEnd(carry: seq<byte>, buf: seq<byte>) returns (r: Option<nat>)
    requires |carry| <= 3
    ensures r.Some? ==> r.value < |buf|
    ensures FirstEnd(carry + buf, if r.Some? then Some(|carry| + r.value) else None)
  {
    var carried := |carry|;
    if carried > 0 {
      var joined := new byte[6](_ => 0);
      var take := Min(|buf|, 3);
      forall k | 0 <= k < carried {
        joined[k] := carry[k];
      }
      forall k | 0 <= k < take {
        joined[carried + k] := buf[k];
      }
      var window := joined[..carried + take];
      assert window == carry + buf[..take];
      var inWindow := FirstEndIn(window);
      if inWindow.Some? {
        EndSurvivesMore(window, carry + buf, inWindow.value);
        return Some(inWindow.value - carried);
      }
      r := FirstEndIn(buf);
      NoEndInWindow(carry, buf, r);
    } else {
      r := FirstEndIn(buf);
      assert carry + buf == buf;
    }
  }

  /** Bytes that come later do not move a head end already found. */
  lemma EndSurvivesMore(some: seq<byte>, all: seq<byte>, e: int)
    requires some <= all
    requires FirstEnd(some, Some(e))
    ensures FirstEnd(all, Some(e))
  {
    forall j | j < e ensures !EndsAt(all, j) {
      assert !EndsAt(some, j);
    }
  }

  /** A terminator that starts in the carry ends inside the window; any other lies in `buf`. */
  lemma NoEndInWindow(carry: seq<byte>, buf: seq<byte>, r: Option<int>)
    requires Unterminated(carry + buf[..Min(|buf|, 3)])
    requires FirstEnd(buf, r)
    ensures FirstEnd(carry + buf, if r.Some? then Some(|carry| + r.value) else None)
  {
    var whole, window := carry + buf, carry + buf[..Min(|buf|, 3)];
    forall i ensures EndsAt(whole, i) <==> EndsAt(buf, i - |carry|) {
      if i < |carry| + 3 && i < |whole| {
        assert !EndsAt(window, i);
      }
    }
    forall j | r.Some? && j < |carry| + r.value ensures !EndsAt(whole, j) {
      assert !EndsAt(buf, j - |carry|);
    }
    if r.None? {
      forall i ensures !EndsAt(whole, i) {
        assert !EndsAt(buf, i - |carry|);
      }
    }
  }

  method Trailing(carry: seq<byte>, buf: seq<byte>) returns (out: seq<byte>, take: nat)
    ensures |out| == 3 && take <= 3
    ensures out[..take] == Tail3(carry + buf)
  {
    var total := |carry| + |buf|;
    take := Min(total, 3);
    var slots := new byte[3](_ => 0);
    var index := 0;
    while index < take
      invariant 0 <= index <= take
      invariant forall j :: 0 <= j < index ==> slots[j] == (carry + buf)[total - take + j]
    {
      var at := total - take + index;
      slots[index] := if at < |carry| then carry[at] else buf[at - |carry|];
      index := index + 1;
    }
    out := slots[..];
    assert out[..take] == Tail3(carry + buf);
  }

  // ---------- chunking independence ----------

  /** Three remembered bytes stand for a whole terminator-free prefix. */
  lemma TailSuffices(prefix: seq<byte>, buf: seq<byte>, r: Option<int>)
    requires Unterminated(prefix)
    requires FirstEnd(Tail3(prefix) + buf, r)
    ensures FirstEnd(prefix + buf, if r.Some? then Some(r.value + |prefix| - |Tail3(prefix)|) else None)
  {
    var tail := Tail3(prefix);
    var d := |prefix| - |tail|;
    forall i ensures EndsAt(prefix + buf, i) <==> EndsAt(tail + buf, i - d) {
      SameEnd(prefix, buf, i);
    }
    forall j | r.Some? && j < r.value + d ensures !EndsAt(prefix + buf, j) {
      assert !EndsAt(tail + buf, j - d);
    }
    if r.None? {
      forall i ensures !EndsAt(prefix + buf, i) {
        assert !EndsAt(tail + buf, i - d);
      }
    }
  }

  lemma SameEnd(prefix: seq<byte>, buf: seq<byte>, i: int)
    requires Unterminated(prefix)
    ensures EndsAt(prefix + buf, i) <==> EndsAt(Tail3(prefix) + buf, i - |prefix| + |Tail3(prefix)|)
  {
    var tail := Tail3(prefix);
    assert !EndsAt(prefix, i);
    if |prefix| > 3 {
      assert !EndsAt(tail, i - |prefix| + |tail|);
      assert prefix == prefix[..|prefix| - 3] + tail;
      assert prefix + buf == prefix[..|prefix| - 3] + (tail + buf);
    }
  }

  lemma TailOfTail(prefix: seq<byte>, buf: seq<byte>)
    ensures Tail3(Tail3(prefix) + buf) == Tail3(prefix + buf)
  {
  }

  datatype Scan = Scan(found: Option<nat>, carry: seq<byte>)

  /** Feeds the pieces one by one, carrying three bytes over, until a head end is found. */
  method ScanPieces(pieces: seq<seq<byte>>) returns (r: Scan)
    ensures FirstEnd(Flatten(pieces), r.found)
    ensures r.found.None? ==> r.carry == Tail3(Flatten(pieces))
  {
    var carry: seq<byte> := [];
    var base: nat := 0;
    var k := 0;
    assert pieces[..0] == [];
    while k < |pieces|
      invariant 0 <= k <= |pieces|
      invariant base == |Flatten(pieces[..k])|
      invariant Unterminated(Flatten(pieces[..k]))
      invariant carry == Tail3(Flatten(pieces[..k]))
    {
      ghost var prefix := Flatten(pieces[..k]);
      assert pieces[..k + 1] == pieces[..k] + [pieces[k]];
      FlattenSnoc(pieces[..k], pieces[k]);
      var end := FindHeadEnd(carry, pieces[k]);
      TailSuffices(prefix, pieces[k], if end.Some? then Some(|carry| + end.value) else None);
      if end.Some? {
        FlattenAppend(pieces[..k + 1], pieces[k + 1..]);
        assert pieces[..k + 1] + pieces[k + 1..] == pieces;
        EndSurvivesMore(Flatten(pieces[..k + 1]), Flatten(pieces), base + end.value);
        return Scan(Some(base + end.value), carry);
      }
      var out, take := Trailing(carry, pieces[k]);
      TailOfTail(prefix, pieces[k]);
      carry := out[..take];
      base := base + |pieces[k]|;
      k := k + 1;
    }
    assert pieces[..k] == pieces;
    return Scan(None, carry);
  }
}
