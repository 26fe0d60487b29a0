/** Percent-encoding, as the client, the server and the download headers use it. */
module Percent {
  import opened Bytes
  import opened Text

  const PERCENT: byte := 37

  /** The upper-case hexadecimal digit of a nibble. */
  function HexByte(d: nat): (b: byte)
    requires d < 16
    ensures HexValue(b) == Some(d)
  {
    if d < 10 then 48 + d else 55 + d
  }

  function HexValue(b: byte): (v: Option<nat>)
    ensures v.Some? ==> v.value < 16
  {
    if 48 <= b <= 57 then Some(b - 48)
    else if 97 <= b <= 102 then Some(b - 87)
    else if 65 <= b <= 70 then Some(b - 55)
    else None
  }

  function EncodeByte(b: byte, keep: byte -> bool): seq<byte> {
    if keep(b) then [b] else [PERCENT, HexByte(b / 16), HexByte(b % 16)]
  }

  function Encode(s: seq<byte>, keep: byte -> bool): seq<byte> {
    if s == [] then [] else EncodeByte(s[0], keep) + Encode(s[1..], keep)
  }

  /** The byte at the front of `s` and how much of `s` stands for it. */
  function DecodeStep(s: seq<byte>): (r: (byte, nat))
    requires s != []
    ensures 1 <= r.1 <= 3 && r.1 <= |s|
  {
    if s[0] == PERCENT && 2 < |s| && HexValue(s[1]).Some? && HexValue(s[2]).Some? then
      (HexValue(s[1]).value * 16 + HexValue(s[2]).value, 3)
    else (s[0], 1)
  }

  /** Anything that is not a well-formed escape stands for itself. */
  function Decode(s: seq<byte>): seq<byte> {
    if s == [] then [] else
      var (b, n) := DecodeStep(s);
      [b] + Decode(s[n..])
  }

  const LOWER_DIGITS := Ascii("0123456789abcdef")
  const UPPER_DIGITS := Ascii("0123456789ABCDEF")

  /** The digits of an escape, in either case, and nothing else. */
  lemma HexDigits(b: byte, d: nat)
    requires d < 16
    ensures HexValue(b) == Some(d) <==> b == LOWER_DIGITS[d] || b == UPPER_DIGITS[d]
  {
    assert LOWER_DIGITS == [48, 49, 50, 51, 52, 53, 54, 55, 56, 57, 97, 98, 99, 100, 101, 102];
    assert UPPER_DIGITS == [48, 49, 50, 51, 52, 53, 54, 55, 56, 57, 65, 66, 67, 68, 69, 70];
  }

  /** Up to the first percent sign nothing changes. */
  lemma {:induction false} DecodePlain(a: seq<byte>, s: seq<byte>)
    requires PERCENT !in a
    ensures Decode(a + s) == a + Decode(s)
  {
    if a == [] {
      assert a + s == s;
    } else {
      assert (a + s)[1..] == a[1..] + s;
      DecodePlain(a[1..], s);
    }
  }

  /** There, two digits make a byte; with anything else the sign stands for itself and decoding goes on behind it. */
  lemma DecodePercent(a: seq<byte>, s: seq<byte>)
    requires PERCENT !in a
    ensures Decode(a + ([PERCENT] + s)) ==
      if |s| >= 2 && HexValue(s[0]).Some? && HexValue(s[1]).Some?
      then a + ([HexValue(s[0]).value * 16 + HexValue(s[1]).value] + Decode(s[2..]))
      else a + ([PERCENT] + Decode(s))
  {
    var t := [PERCENT] + s;
    DecodePlain(a, t);
    assert t[1..] == s;
    if |s| >= 2 {
      assert t[1] == s[0] && t[2] == s[1] && t[3..] == s[2..];
    }
  }

  method PercentDecode(input: seq<byte>) returns (out: seq<byte>)
    ensures out == Decode(input)
  {
    out := [];
    var i := 0;
    while i < |input|
      invariant 0 <= i <= |input|
      invariant out + Decode(input[i..]) == Decode(input)
    {
      ghost var before := out;
      var rest := input[i..];
      if input[i] == PERCENT && i + 2 < |input| {
        var hi, lo := HexValue(input[i + 1]), HexValue(input[i + 2]);
        if hi.Some? && lo.Some? {
          var b: byte := hi.value * 16 + lo.value;
          assert DecodeStep(rest) == (b, 3) && rest[3..] == input[i + 3..];
          out := out + [b];
          Associative(before, [b], Decode(input[i + 3..]));
          i := i + 3;
          continue;
        }
      }
      assert DecodeStep(rest) == (input[i], 1) && rest[1..] == input[i + 1..];
      out := out + [input[i]];
      Associative(before, [input[i]], Decode(input[i + 1..]));
      i := i + 1;
    }
    assert input[i..] == [];
    assert out + [] == out;
  }

  lemma DecodeEncodedByte(b: byte, keep: byte -> bool, rest: seq<byte>)
    requires !keep(PERCENT)
    ensures Decode(EncodeByte(b, keep) + rest) == [b] + Decode(rest)
  {
    var s := EncodeByte(b, keep) + rest;
    if keep(b) {
      assert s[1..] == rest;
      assert DecodeStep(s) == (b, 1);
    } else {
      assert s[3..] == rest;
      assert DecodeStep(s) == (b, 3);
    }
  }

  /** Whatever is kept as it is, decoding undoes encoding, as long as `%` itself is escaped. */
  lemma {:induction false} DecodeUndoesEncode(s: seq<byte>, keep: byte -> bool)
    requires !keep(PERCENT)
    ensures Decode(Encode(s, keep)) == s
  {
    if s != [] {
      DecodeEncodedByte(s[0], keep, Encode(s[1..], keep));
      DecodeUndoesEncode(s[1..], keep);
    }
  }

  /** An encoding consists of kept bytes, percent signs and hexadecimal digits. */
  lemma {:induction false} EncodedBytes(s: seq<byte>, keep: byte -> bool)
    ensures forall i :: 0 <= i < |Encode(s, keep)| ==>
      var b := Encode(s, keep)[i]; (keep(b) && b in s) || b == PERCENT || HexValue(b).Some?
  {
    if s != [] {
      var head, tail := EncodeByte(s[0], keep), Encode(s[1..], keep);
      EncodedBytes(s[1..], keep);
      forall i | 0 <= i < |head + tail|
        ensures var b := (head + tail)[i]; (keep(b) && b in s) || b == PERCENT || HexValue(b).Some?
      {
        if i >= |head| {
          assert (head + tail)[i] == tail[i - |head|];
        }
      }
    }
  }

  // ---------- paths ----------

  const SLASH: byte := 47

  predicate IsAlphanumeric(b: byte) {
    48 <= b <= 57 || 97 <= b <= 122 || 65 <= b <= 90
  }

  /** The unreserved characters of RFC 3986, section 2.3, and the path separator. */
  predicate KeptInPath(b: byte) {
    IsAlphanumeric(b) || b == 45 || b == 95 || b == 46 || b == 126 || b == SLASH
  }

  lemma KeptIsUnreserved(b: byte)
    ensures KeptInPath(b) <==>
      || 'a' as int <= b <= 'z' as int || 'A' as int <= b <= 'Z' as int || '0' as int <= b <= '9' as int
      || b in Ascii("-._~/")
  {
    assert Ascii("-._~/") == [45, 46, 95, 126, 47];
  }

  function EncodedPath(path: seq<byte>): seq<byte> {
    Encode(path, KeptInPath)
  }

  method EncodePath(path: seq<byte>) returns (out: seq<byte>)
    ensures out == EncodedPath(path)
  {
    out := [];
    assert path[0..] == path;
    for i := 0 to |path|
      invariant out + EncodedPath(path[i..]) == EncodedPath(path)
    {
      ghost var before := out;
      var b := path[i];
      assert path[i..][1..] == path[i + 1..];
      if IsAlphanumeric(b) || b == 45 || b == 95 || b == 46 || b == 126 || b == SLASH {
        out := out + [b];
      } else {
        out := out + [PERCENT] + [HexByte(b / 16)] + [HexByte(b % 16)];
        assert out == before + [PERCENT, HexByte(b / 16), HexByte(b % 16)];
      }
      Associative(before, EncodeByte(b, KeptInPath), EncodedPath(path[i + 1..]));
    }
    assert path[|path|..] == [];
    assert out + [] == out;
  }

  /** What is kept as it is can be read off the front of an encoding. */
  lemma {:induction false} PrefixSurvives(prefix: seq<byte>, path: seq<byte>)
    requires forall i :: 0 <= i < |prefix| ==> KeptInPath(prefix[i])
    ensures prefix <= EncodedPath(path) <==> prefix <= path
    ensures prefix <= path ==> EncodedPath(path)[|prefix|..] == EncodedPath(path[|prefix|..])
  {
    if prefix != [] && path != [] {
      var head, tail := EncodeByte(path[0], KeptInPath), EncodedPath(path[1..]);
      PrefixSurvives(prefix[1..], path[1..]);
      if KeptInPath(path[0]) {
        assert (head + tail)[1..] == tail;
        assert prefix <= path <==> prefix[0] == path[0] && prefix[1..] <= path[1..];
        assert prefix <= head + tail <==> prefix[0] == path[0] && prefix[1..] <= (head + tail)[1..];
        if prefix <= path {
          assert path[|prefix|..] == path[1..][|prefix| - 1..];
          assert (head + tail)[|prefix|..] == tail[|prefix| - 1..];
        }
      } else {
        assert (head + tail)[0] == PERCENT;
      }
    }
  }

  /** Slashes at either end survive encoding, and encoding adds none. */
  lemma {:induction false} EncodedPathEnds(path: seq<byte>)
    ensures path == [] <==> EncodedPath(path) == []
    ensures path != [] ==> (EncodedPath(path)[0] == SLASH <==> path[0] == SLASH)
    ensures path != [] ==> (EndsWith(EncodedPath(path), SLASH) <==> EndsWith(path, SLASH))
  {
    if path != [] {
      EncodedPathEnds(path[1..]);
      var head, tail := EncodeByte(path[0], KeptInPath), EncodedPath(path[1..]);
      if |path| == 1 {
        assert tail == [] && head + tail == head;
      } else {
        assert (head + tail)[|head + tail| - 1] == tail[|tail| - 1];
      }
    }
  }
}
