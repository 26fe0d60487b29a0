/** `Content-Disposition`: when a file is shown or saved, and under which name. */
module Disposition {
  import opened Bytes
  import opened Text
  import opened HttpResponse
  import opened Percent

  /** A file name: Unicode scalar values. */
  type Name = seq<char>

  function Lower(c: char): char {
    if 'A' <= c <= 'Z' then ((c as int) + 32) as char else c
  }

  predicate EqIgnoreAsciiCase(a: string, b: string) {
    |a| == |b| && forall i :: 0 <= i < |a| ==> Lower(a[i]) == Lower(b[i])
  }

  /** Whether a browser rendering this type as a document could run script in it. */
  predicate IsScriptableXml(m: Mime) {
    || m.suffix == Some("xml")
    || EqIgnoreAsciiCase(if SplitOnce(m.sub, '-').Some? then SplitOnce(m.sub, '-').value.0 else m.sub, "xml")
    || EqIgnoreAsciiCase(m.sub, "xsl")
  }

  function DefaultDisposition(m: Mime, attached: bool): string {
    if attached || IsScriptableXml(m) then "attachment"
    else if m.top in ["image", "text", "video", "audio"] || m.sub in ["javascript", "json"] then "inline"
    else "attachment"
  }

  function Lowered(s: string): (r: string)
    ensures |r| == |s|
  {
    seq(|s|, i requires 0 <= i < |s| => Lower(s[i]))
  }

  lemma LoweredIsEqual(a: string, b: string)
    ensures EqIgnoreAsciiCase(a, b) <==> Lowered(a) == Lowered(b)
  {
    if Lowered(a) == Lowered(b) {
      forall i | 0 <= i < |a| ensures Lower(a[i]) == Lower(b[i]) {
        assert Lowered(a)[i] == Lowered(b)[i];
      }
    }
  }

  lemma SplitXmlDash(sub: string)
    requires "xml-" <= Lowered(sub)
    ensures SplitOnce(sub, '-') == Some((sub[..3], sub[4..])) && EqIgnoreAsciiCase(sub[..3], "xml")
  {
    var l := Lowered(sub);
    assert l[0] == 'x' && l[1] == 'm' && l[2] == 'l' && l[3] == '-';
    assert sub == sub[..3] + ['-'] + sub[4..];
    SplitOnceAt(sub[..3], '-', sub[4..]);
  }

  /** XML in any spelling of its subtype, with whatever follows a dash, and style sheets. */
  lemma ScriptableExactly(m: Mime)
    ensures IsScriptableXml(m) <==>
      m.suffix == Some("xml") || Lowered(m.sub) in ["xml", "xsl"] || "xml-" <= Lowered(m.sub)
  {
    var sub, split := m.sub, SplitOnce(m.sub, '-');
    var front := if split.Some? then split.value.0 else sub;
    assert Lowered("xml") == "xml" && Lowered("xsl") == "xsl";
    LoweredIsEqual(front, "xml");
    LoweredIsEqual(sub, "xsl");
    assert forall i :: 0 <= i < |sub| ==> (Lower(sub[i]) == '-' <==> sub[i] == '-');
    if split.Some? {
      assert sub[|front|] == '-' && Lowered(sub)[|front|] == '-';
      assert Lowered(front) == Lowered(sub)[..|front|];
      if Lowered(front) == "xml" {
        assert Lowered(sub)[..4] == "xml-";
      }
    }
    if "xml-" <= Lowered(sub) {
      SplitXmlDash(sub);
    }
  }

  predicate IsAscii(c: char) {
    c as int < 128
  }

  predicate IsControl(c: char) {
    c as int < 32 || c as int == 127
  }

  function EscapeChar(c: char): (e: string)
    ensures |e| >= 1
  {
    if c == '"' || c == '\\' then ['\\', c]
    else if c == '\t' then " "
    else if IsControl(c) || !IsAscii(c) then "_"
    else [c]
  }

  function Escaped(name: Name): string {
    if name == [] then [] else Escaped(name[..|name| - 1]) + EscapeChar(name[|name| - 1])
  }

  method EscapeQuotedFilename(name: Name) returns (escaped: string)
    ensures escaped == Escaped(name)
  {
    escaped := [];
    for i := 0 to |name|
      invariant escaped == Escaped(name[..i])
    {
      var c := name[i];
      assert name[..i + 1][..i] == name[..i];
      if c == '"' || c == '\\' {
        escaped := escaped + ['\\'];
        escaped := escaped + [c];
      } else if c == '\t' {
        escaped := escaped + [' '];
      } else if IsControl(c) || !IsAscii(c) {
        escaped := escaped + ['_'];
      } else {
        escaped := escaped + [c];
      }
      assert escaped == Escaped(name[..i]) + EscapeChar(c);
    }
    assert name[..|name|] == name;
  }

  /** The UTF-8 bytes of a name (RFC 3629, section 3). */
  function Utf8Char(c: char): (b: seq<byte>)
    ensures 1 <= |b| <= 4
  {
    var n := c as int;
    if n < 0x80 then [n]
    else if n < 0x800 then [0xC0 + n / 64, 0x80 + n % 64]
    else if n < 0x10000 then [0xE0 + n / 4096, 0x80 + n / 64 % 64, 0x80 + n % 64]
    else [0xF0 + n / 262144, 0x80 + n / 4096 % 64, 0x80 + n / 64 % 64, 0x80 + n % 64]
  }

  function Utf8(name: Name): seq<byte> {
    if name == [] then [] else Utf8(name[..|name| - 1]) + Utf8Char(name[|name| - 1])
  }

  /** Bytes that may stand for themselves in an extended parameter value. */
  predicate KeptInExtended(b: byte) {
    32 < b < 127 && b !in Ascii("\"%'()*,/:;<=>?@[\\]{}")
  }

  /** Text made of the given bytes, and the bytes of such text. */
  function AsText(bytes: seq<byte>): (s: string)
    ensures |s| == |bytes|
  {
    seq(|bytes|, i requires 0 <= i < |bytes| => bytes[i] as char)
  }

  function ExtendedValue(name: Name): string {
    AsText(Encode(Utf8(name), KeptInExtended))
  }

  /** What a recipient of an extended value recovers from it (RFC 5987, section 3.2). */
  function ExtendedDecoded(s: string): seq<byte> {
    Decode(seq<byte>(|s|, i requires 0 <= i < |s| => if s[i] as int < 256 then s[i] as int else 0))
  }

  lemma ExtendedValueDecodes(name: Name)
    ensures ExtendedDecoded(ExtendedValue(name)) == Utf8(name)
  {
    assert Ascii("\"%'()*,/:;<=>?@[\\]{}")[1] == PERCENT;
    DecodeUndoesEncode(Utf8(name), KeptInExtended);
    var s, bytes := ExtendedValue(name), Encode(Utf8(name), KeptInExtended);
    assert seq<byte>(|s|, i requires 0 <= i < |s| => if s[i] as int < 256 then s[i] as int else 0) == bytes;
  }

  /** The content of a quoted string up to its closing quote (RFC 9110, section 5.6.4). */
  function Unquote(s: string): Option<(string, string)> {
    if s == [] then None
    else if s[0] == '"' then Some(([], s[1..]))
    else if s[0] == '\\' then
      if |s| < 2 then None
      else
        var rest := Unquote(s[2..]);
        if rest.None? then None else Some(([s[1]] + rest.value.0, rest.value.1))
    else
      var rest := Unquote(s[1..]);
      if rest.None? then None else Some(([s[0]] + rest.value.0, rest.value.1))
  }

  /** What a recipient reads back for one character of the name. */
  function ShownChar(c: char): char {
    if c == '\t' then ' ' else if IsControl(c) || !IsAscii(c) then '_' else c
  }

  function Shown(name: Name): (s: string)
    ensures |s| == |name|
  {
    seq(|name|, i requires 0 <= i < |name| => ShownChar(name[i]))
  }

  /** The quoted form never ends early and reads back as the name with unprintables replaced. */
  lemma {:induction false} QuotedNameUnquotes(name: Name, tail: string)
    ensures Unquote(Escaped(name) + ['"'] + tail) == Some((Shown(name), tail))
    decreases |name|
  {
    UnquoteEscaped(name, ['"'] + tail, [], tail);
    assert Escaped(name) + ['"'] + tail == Escaped(name) + (['"'] + tail);
    assert (['"'] + tail)[1..] == tail;
    assert Shown(name) + [] == Shown(name);
  }

  lemma UnquoteChar(c: char, rest: string, content: string, tail: string)
    requires Unquote(rest) == Some((content, tail))
    ensures Unquote(EscapeChar(c) + rest) == Some(([ShownChar(c)] + content, tail))
  {
    var s := EscapeChar(c) + rest;
    if c == '"' || c == '\\' {
      assert s[2..] == rest;
    } else {
      assert s[1..] == rest;
    }
  }

  lemma {:induction false} UnquoteEscaped(name: Name, rest: string, content: string, tail: string)
    requires Unquote(rest) == Some((content, tail))
    ensures Unquote(Escaped(name) + rest) == Some((Shown(name) + content, tail))
    decreases |name|
  {
    if name == [] {
      assert Escaped(name) + rest == rest;
      assert Shown(name) + content == content;
    } else {
      var front, c := name[..|name| - 1], name[|name| - 1];
      var rest' := EscapeChar(c) + rest;
      UnquoteChar(c, rest, content, tail);
      UnquoteEscaped(front, rest', [ShownChar(c)] + content, tail);
      Associative(Escaped(front), EscapeChar(c), rest);
      assert Shown(name) == Shown(front) + [ShownChar(c)];
      Associative(Shown(front), [ShownChar(c)], content);
    }
  }

  lemma LastAlone(e: string, x: string, front: string, c: char)
    requires e + x == front + [c] && |e| >= |front| && |x| >= 1
    ensures e == front && x == [c]
  {
    assert (e + x)[..|front|] == e && (front + [c])[..|front|] == front;
    assert (e + x)[|front|] == x[0];
  }

  /** The quoted form is the name itself exactly when nothing had to be escaped or replaced. */
  lemma {:induction false} EscapedUnchanged(name: Name)
    ensures |Escaped(name)| >= |name|
    ensures Escaped(name) == name ==> Shown(name) == name
    decreases |name|
  {
    if name != [] {
      var front, c := name[..|name| - 1], name[|name| - 1];
      EscapedUnchanged(front);
      assert name == front + [c] && Shown(name) == Shown(front) + [ShownChar(c)];
      if Escaped(name) == name {
        LastAlone(Escaped(front), EscapeChar(c), front, c);
      }
    }
  }

  const QUOTED := "attachment; filename=\""
  const EXTENDED := "; filename*=UTF-8''"

  function Attachment(name: Name): string {
    var quoted := Escaped(name);
    if quoted == name then QUOTED + (quoted + ['"'] + [])
    else QUOTED + (quoted + ['"'] + (EXTENDED + ExtendedValue(name)))
  }

  function BuildContentDisposition(fileName: Option<Name>, m: Mime, attachedName: Option<Name>): string {
    if DefaultDisposition(m, attachedName.Some?) == "attachment" then
      Attachment(if attachedName.Some? then attachedName.value else if fileName.Some? then fileName.value else "file")
    else
      DefaultDisposition(m, attachedName.Some?)
  }

  /**
   A file is shown in place only if nobody asked for a download and its type is safe and renderable;
   in every other case it is saved, under the name asked for, else its own.
   */
  lemma ShownOnlyIfSafe(fileName: Option<Name>, m: Mime, attachedName: Option<Name>)
    ensures
      var header := BuildContentDisposition(fileName, m, attachedName);
      var safe := m.suffix != Some("xml") && Lowered(m.sub) !in ["xml", "xsl"] && !("xml-" <= Lowered(m.sub));
      var renderable := m.top in ["image", "text", "video", "audio"] || m.sub in ["javascript", "json"];
      header == if attachedName.None? && safe && renderable then "inline"
                else match (attachedName, fileName)
                     case (Some(name), _) => Attachment(name)
                     case (None, Some(name)) => Attachment(name)
                     case (None, None) => Attachment("file")
  {
    ScriptableExactly(m);
    assert "inline"[0] != "attachment"[0];
  }

  /** Whatever the name holds, the quoted form is printable ASCII: no control character reaches the header. */
  lemma {:induction false} EscapedIsPrintable(name: Name)
    ensures forall i :: 0 <= i < |Escaped(name)| ==> 32 <= Escaped(name)[i] as int < 127
  {
    if name != [] {
      EscapedIsPrintable(name[..|name| - 1]);
    }
  }

  /** The bytes kept are the ones an extended parameter may hold: `attr-char` of RFC 5987, section 3.2.1. */
  lemma KeptIsAttrChar(b: byte)
    ensures KeptInExtended(b) <==> IsAlphanumeric(b) || b in Ascii("!#$&+-.^_`|~")
  {
    var kept, escaped := Ascii("!#$&+-.^_`|~"), Ascii("\"%'()*,/:;<=>?@[\\]{}");
    assert kept == [33, 35, 36, 38, 43, 45, 46, 94, 95, 96, 124, 126];
    assert escaped == [34, 37, 39, 40, 41, 42, 44, 47, 58, 59, 60, 61, 62, 63, 64, 91, 92, 93, 123, 125];
  }

  /**
   Every attachment header carries the name: either its quoted form reads back as exactly the
   name and nothing follows it, or an extended form follows whose decoding is exactly the
   UTF-8 bytes of the name.
   */
  lemma AttachmentNameIsRecoverable(name: Name)
    ensures
      var header := Attachment(name);
      && QUOTED <= header
      && var read := Unquote(header[|QUOTED|..]);
         read.Some? && read.value.0 == Shown(name) &&
         (if Escaped(name) == name then read.value == (name, [])
          else EXTENDED <= read.value.1 && ExtendedDecoded(read.value.1[|EXTENDED|..]) == Utf8(name))
  {
    var header := Attachment(name);
    if Escaped(name) == name {
      QuotedNameUnquotes(name, []);
      EscapedUnchanged(name);
      assert header[|QUOTED|..] == Escaped(name) + ['"'] + [];
    } else {
      var extended := ExtendedValue(name);
      QuotedNameUnquotes(name, EXTENDED + extended);
      ExtendedValueDecodes(name);
      assert header[|QUOTED|..] == Escaped(name) + ['"'] + (EXTENDED + extended);
      assert (EXTENDED + extended)[|EXTENDED|..] == extended;
    }
  }
}
