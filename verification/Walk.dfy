/** Walking a directory tree for packing: preorder, names sorted, stopping when told to. */
module Walk {
  import opened Bytes

  /** A directory tree as the walk meets it; `Other` covers symbolic links and the like. */
  datatype Node =
    | Dir(name: string, readable: bool, children: seq<Node>)
    | File(name: string)
    | Other(name: string)

  datatype Entry =
    | DirEntry(name: string)
    | FileEntry(name: string)

  // ---------- sorting by name ----------

  /** Code point order, which is the byte order of UTF-8. */
  predicate Leq(a: string, b: string) {
    a == [] || (b != [] && (a[0] < b[0] || (a[0] == b[0] && Leq(a[1..], b[1..]))))
  }

  lemma {:induction false} LeqTotal(a: string, b: string)
    ensures Leq(a, b) || Leq(b, a)
  {
    if a != [] && b != [] && a[0] == b[0] {
      LeqTotal(a[1..], b[1..]);
    }
  }

  /** The order spelled out: a prefix, or smaller at the first difference. */
  lemma {:induction false} LeqIsLexicographic(a: string, b: string)
    ensures Leq(a, b) <==>
      a <= b || exists i :: 0 <= i < |a| && i < |b| && a[..i] == b[..i] && a[i] < b[i]
  {
    if a != [] && b != [] {
      LeqIsLexicographic(a[1..], b[1..]);
      var c, d := a[1..], b[1..];
      if Leq(a, b) && !(a <= b) {
        if a[0] < b[0] {
          assert a[..0] == b[..0];
        } else {
          var i :| 0 <= i < |c| && i < |d| && c[..i] == d[..i] && c[i] < d[i];
          assert a[..i + 1] == [a[0]] + c[..i] && b[..i + 1] == [b[0]] + d[..i];
          assert a[i + 1] < b[i + 1];
        }
      }
      if i :| 0 <= i < |a| && i < |b| && a[..i] == b[..i] && a[i] < b[i] {
        if i > 0 {
          assert a[0] == a[..i][0] == b[..i][0] == b[0];
          assert c[..i - 1] == a[..i][1..] && d[..i - 1] == b[..i][1..];
          assert c[i - 1] < d[i - 1];
        }
      }
    }
  }

  lemma {:induction false} LeqTransitive(a: string, b: string, c: string)
    requires Leq(a, b) && Leq(b, c)
    ensures Leq(a, c)
  {
    if a != [] && a[0] == b[0] && b[0] == c[0] {
      LeqTransitive(a[1..], b[1..], c[1..]);
    }
  }

  predicate SortedByName(nodes: seq<Node>) {
    forall i, j :: 0 <= i < j < |nodes| ==> Leq(nodes[i].name, nodes[j].name)
  }

  function InsertByName(nodes: seq<Node>, n: Node): (r: seq<Node>)
    ensures multiset(r) == multiset(nodes) + multiset{n}
  {
    if nodes == [] then [n]
    else if Leq(n.name, nodes[0].name) then [n] + nodes
    else
      assert nodes == [nodes[0]] + nodes[1..];
      [nodes[0]] + InsertByName(nodes[1..], n)
  }

  function SortByName(nodes: seq<Node>): (r: seq<Node>)
    ensures multiset(r) == multiset(nodes)
  {
    if nodes == [] then [] else
      assert nodes == nodes[..|nodes| - 1] + [nodes[|nodes| - 1]];
      InsertByName(SortByName(nodes[..|nodes| - 1]), nodes[|nodes| - 1])
  }

  lemma SameMembers(a: seq<Node>, b: seq<Node>)
    requires multiset(a) == multiset(b)
    ensures forall n :: n in a <==> n in b
  {
    forall n ensures n in a <==> n in b {
      assert n in a <==> n in multiset(a);
      assert n in b <==> n in multiset(b);
    }
  }

  lemma {:induction false} InsertKeepsSorted(nodes: seq<Node>, n: Node)
    requires SortedByName(nodes)
    ensures SortedByName(InsertByName(nodes, n))
  {
    if nodes != [] {
      if Leq(n.name, nodes[0].name) {
        forall j | 0 <= j < |nodes| ensures Leq(n.name, nodes[j].name) {
          if j > 0 {
            LeqTransitive(n.name, nodes[0].name, nodes[j].name);
          }
        }
      } else {
        LeqTotal(n.name, nodes[0].name);
        var rest := InsertByName(nodes[1..], n);
        InsertKeepsSorted(nodes[1..], n);
        assert multiset(rest) == multiset(nodes[1..] + [n]);
        SameMembers(rest, nodes[1..] + [n]);
        forall j | 0 <= j < |rest| ensures Leq(nodes[0].name, rest[j].name) {
          assert rest[j] in nodes[1..] + [n];
          if rest[j] != n {
            var k :| 0 <= k < |nodes[1..]| && nodes[1..][k] == rest[j];
            assert nodes[k + 1] == rest[j];
          }
        }
      }
    }
  }

  /** The order of entries in the archive does not depend on the order the disk lists them in. */
  lemma {:induction false} SortSorts(nodes: seq<Node>)
    ensures SortedByName(SortByName(nodes)) && multiset(SortByName(nodes)) == multiset(nodes)
  {
    if nodes != [] {
      SortSorts(nodes[..|nodes| - 1]);
      InsertKeepsSorted(SortByName(nodes[..|nodes| - 1]), nodes[|nodes| - 1]);
    }
  }

  // ---------- preorder ----------

  /** What a directory contributes: itself, then its entries by name. */
  function Preorder(dir: Node, prefix: string): seq<Entry>
    requires dir.Dir?
    decreases dir, 1, 0
  {
    if !dir.readable then [] else
      SameMembers(SortByName(dir.children), dir.children);
      [DirEntry(prefix + "/")] + PreorderAll(dir, SortByName(dir.children), prefix)
  }

  function PreorderAll(dir: Node, nodes: seq<Node>, prefix: string): seq<Entry>
    requires dir.Dir? && forall n :: n in nodes ==> n in dir.children
    decreases dir, 0, |nodes|
  {
    if nodes == [] then [] else
      PreorderOne(dir, nodes[0], prefix) + PreorderAll(dir, nodes[1..], prefix)
  }

  function PreorderOne(dir: Node, node: Node, prefix: string): seq<Entry>
    requires dir.Dir? && node in dir.children
    decreases dir, 0, 0
  {
    var name := prefix + "/" + node.name;
    match node
    case Dir(_, _, _) => Preorder(node, name)
    case File(_) => [FileEntry(name)]
    case Other(_) => []
  }

  ghost predicate Visited(before: seq<Entry>, got: seq<Entry>, all: seq<Entry>, more: bool) {
    if more then got == before + all
    else exists k :: 0 < k <= |all| && got == before + all[..k]
  }

  lemma StoppedInside(before: seq<Entry>, seen: seq<Entry>, one: seq<Entry>, after: seq<Entry>, got: seq<Entry>)
    requires Visited(before + seen, got, one, false)
    ensures Visited(before, got, seen + (one + after), false)
    ensures Visited(before, got, seen + one, false)
  {
    var k :| 0 < k <= |one| && got == before + seen + one[..k];
    var all := seen + (one + after);
    assert all[..|seen| + k] == seen + one[..k] == (seen + one)[..|seen| + k];
    assert got == before + all[..|seen| + k];
  }
}
