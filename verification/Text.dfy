/** The small text operations of Rust's `str` that the repository's parsers are made of. */
module Text {
  import opened Bytes

  function StripPrefix<T(==)>(s: seq<T>, prefix: seq<T>): (r: Option<seq<T>>)
    ensures r.Some? ==> s == prefix + r.value
  {
    if prefix <= s then Some(s[|prefix|..]) else None
  }

  /** Where `x` first occurs. */
  function FirstIndex<T(==)>(s: seq<T>, x: T): (r: Option<nat>)
    ensures r.Some? ==> r.value < |s| && s[r.value] == x && x !in s[..r.value]
    ensures r.None? ==> x !in s
  {
    if s == [] then None
    else if s[0] == x then Some(0)
    else
      var rest := FirstIndex(s[1..], x);
      if rest.None? then None else
        assert s[..rest.value + 1] == [s[0]] + s[1..][..rest.value];
        Some(rest.value + 1)
  }

  /** `split_once`: the text around the first occurrence of `x`. */
  function SplitOnce<T(==)>(s: seq<T>, x: T): (r: Option<(seq<T>, seq<T>)>)
    ensures r.Some? ==> s == r.value.0 + [x] + r.value.1 && x !in r.value.0
    ensures r.None? <==> x !in s
  {
    var at := FirstIndex(s, x);
    if at.None? then None else Some((s[..at.value], s[at.value + 1..]))
  }

  lemma SplitOnceAt<T>(a: seq<T>, x: T, b: seq<T>)
    requires x !in a
    ensures SplitOnce(a + [x] + b, x) == Some((a, b))
  {
    var s := a + [x] + b;
    assert s[|a|] == x;
    var r := SplitOnce(s, x).value;
    assert s[|r.0|] == x && forall i :: 0 <= i < |a| ==> s[i] == a[i];
    assert forall i :: 0 <= i < |r.0| ==> r.0[i] == s[i];
    assert r.0 == s[..|a|] == a && r.1 == s[|a| + 1..] == b;
  }

  function TrimStart<T(==)>(s: seq<T>, x: T): (r: seq<T>)
    ensures |r| <= |s| && r == s[|s| - |r|..]
    ensures r == [] || r[0] != x
  {
    if s != [] && s[0] == x then TrimStart(s[1..], x) else s
  }

  predicate EndsWith<T(==)>(s: seq<T>, x: T) {
    s != [] && s[|s| - 1] == x
  }

  /** The bytes of an ASCII literal. */
  function Ascii(s: string): (r: seq<byte>)
    requires forall i :: 0 <= i < |s| ==> s[i] as int < 128
    ensures |r| == |s|
  {
    seq<byte>(|s|, i requires 0 <= i < |s| => s[i] as int)
  }
}
