/**
 What belongs into an archive of a directory tree, and in which order, told by where things are in
 the tree and not by how it is walked.
 */
module TreeListing {
  import opened Bytes
  import opened Walk

  /** A place in a tree: which child to take at each level. */
  type Path = seq<nat>

  /** What is at a place, if readable directories lead there. */
  function NodeAt(root: Node, p: Path): Option<Node>
    decreases |p|
  {
    if p == [] then Some(root)
    else if root.Dir? && root.readable && p[0] < |root.children| then NodeAt(root.children[p[0]], p[1..])
    else None
  }

  /** The names on the way to a place, each behind a slash. */
  function Joined(root: Node, p: Path): string
    requires NodeAt(root, p).Some?
    decreases |p|
  {
    if p == [] then [] else "/" + root.children[p[0]].name + Joined(root.children[p[0]], p[1..])
  }

  /** Files, and directories that can be read. */
  predicate Listed(root: Node, p: Path) {
    var n := NodeAt(root, p);
    n.Some? && (n.value.File? || (n.value.Dir? && n.value.readable))
  }

  /** The entry of a place; directories end in a slash. */
  function EntryAt(root: Node, p: Path, prefix: string): Entry
    requires Listed(root, p)
  {
    var name := prefix + Joined(root, p);
    if NodeAt(root, p).value.Dir? then DirEntry(name + "/") else FileEntry(name)
  }

  /** A directory comes before all that is below it, and siblings, with all below them, come by name. */
  predicate Before(root: Node, p: Path, q: Path)
    decreases |p|
  {
    if p == [] then q != []
    else if q == [] || !root.Dir? || p[0] >= |root.children| || q[0] >= |root.children| then false
    else if p[0] == q[0] then Before(root.children[p[0]], p[1..], q[1..])
    else Leq(root.children[p[0]].name, root.children[q[0]].name)
  }

  lemma {:induction false} NeverBeforeItself(root: Node, p: Path)
    ensures !Before(root, p, p)
    decreases |p|
  {
    if p != [] && root.Dir? && p[0] < |root.children| {
      NeverBeforeItself(root.children[p[0]], p[1..]);
    }
  }

  /** `order` has every listed place and no other, in order, and `entries` are the entries of these places. */
  ghost predicate ListedBy(entries: seq<Entry>, root: Node, prefix: string, order: seq<Path>) {
    && |entries| == |order|
    && (forall p :: p in order <==> Listed(root, p))
    && EntriesAre(entries, root, prefix, order)
    && InOrder(root, order)
  }

  predicate EntriesAre(entries: seq<Entry>, root: Node, prefix: string, order: seq<Path>) {
    && |entries| == |order|
    && forall i :: 0 <= i < |order| ==> Listed(root, order[i]) && entries[i] == EntryAt(root, order[i], prefix)
  }

  lemma EntriesEither(a: seq<Entry>, root: Node, prefix: string, first: seq<Path>, b: seq<Entry>, rest: seq<Path>)
    requires EntriesAre(a, root, prefix, first) && EntriesAre(b, root, prefix, rest)
    ensures EntriesAre(a + b, root, prefix, first + rest)
  {
  }

  predicate InOrder(root: Node, order: seq<Path>) {
    forall i, j :: 0 <= i < j < |order| ==> Before(root, order[i], order[j])
  }

  lemma InOrderTogether(root: Node, a: seq<Path>, b: seq<Path>)
    requires InOrder(root, a) && InOrder(root, b)
    requires forall i, j :: 0 <= i < |a| && 0 <= j < |b| ==> Before(root, a[i], b[j])
    ensures InOrder(root, a + b)
  {
    var order := a + b;
    forall i, j | 0 <= i < j < |order| ensures Before(root, order[i], order[j]) {
      if j < |a| {
        assert order[i] == a[i] && order[j] == a[j];
      } else if i < |a| {
        assert order[i] == a[i] && order[j] == b[j - |a|];
      } else {
        assert order[i] == b[i - |a|] && order[j] == b[j - |a|];
      }
    }
  }

  /** The entries are a full listing of the tree. */
  ghost predicate FullListing(entries: seq<Entry>, root: Node, prefix: string) {
    exists order :: ListedBy(entries, root, prefix, order)
  }

  /** The entries are how a full listing begins. */
  ghost predicate ListingBegins(entries: seq<Entry>, root: Node, prefix: string) {
    exists all :: FullListing(all, root, prefix) && entries <= all
  }

  /** No place is listed twice. */
  lemma ListedOnce(entries: seq<Entry>, root: Node, prefix: string, order: seq<Path>)
    requires ListedBy(entries, root, prefix, order)
    ensures forall i, j :: 0 <= i < j < |order| ==> order[i] != order[j]
  {
    forall i, j | 0 <= i < j < |order| ensures order[i] != order[j] {
      assert Before(root, order[i], order[j]);
      NeverBeforeItself(root, order[i]);
    }
  }

  // ---------- the walk lists the tree ----------

  /** Which child each sorted entry is: every one exactly once. */
  ghost predicate Picks(nodes: seq<Node>, from: seq<Node>, picks: seq<nat>) {
    && |picks| == |nodes|
    && (forall i :: 0 <= i < |picks| ==> picks[i] < |from| && nodes[i] == from[picks[i]])
    && (forall i, j :: 0 <= i < j < |picks| ==> picks[i] != picks[j])
  }

  ghost predicate PicksAll(nodes: seq<Node>, from: seq<Node>, picks: seq<nat>) {
    Picks(nodes, from, picks) && forall k :: k in picks <==> 0 <= k < |from|
  }

  lemma {:induction false} InsertPlace(nodes: seq<Node>, n: Node) returns (at: nat)
    ensures at <= |nodes| && InsertByName(nodes, n) == nodes[..at] + [n] + nodes[at..]
  {
    if nodes == [] || Leq(n.name, nodes[0].name) {
      at := 0;
      assert nodes[..0] + [n] + nodes[0..] == [n] + nodes;
    } else {
      var rest := InsertPlace(nodes[1..], n);
      at := rest + 1;
      assert nodes[..at] == [nodes[0]] + nodes[1..][..rest] && nodes[at..] == nodes[1..][rest..];
      assert nodes[..at] + [n] + nodes[at..] == [nodes[0]] + (nodes[1..][..rest] + [n] + nodes[1..][rest..]);
    }
  }

  lemma {:induction false} SortPicks(nodes: seq<Node>) returns (picks: seq<nat>)
    ensures PicksAll(SortByName(nodes), nodes, picks)
  {
    if nodes == [] {
      picks := [];
    } else {
      var front, n := nodes[..|nodes| - 1], nodes[|nodes| - 1];
      var sorted := SortByName(front);
      var before := SortPicks(front);
      var at := InsertPlace(sorted, n);
      picks := PickAt(before, at, |front|);
      PickInserted(sorted, front, before, n, at, picks);
      assert front + [n] == nodes;
    }
  }

  function PickAt(before: seq<nat>, at: nat, k: nat): seq<nat>
    requires at <= |before|
  {
    before[..at] + [k] + before[at..]
  }

  lemma PickInserted(sorted: seq<Node>, front: seq<Node>, before: seq<nat>, n: Node, at: nat, picks: seq<nat>)
    requires PicksAll(sorted, front, before) && at <= |sorted| && picks == PickAt(before, at, |front|)
    ensures PicksAll(sorted[..at] + [n] + sorted[at..], front + [n], picks)
  {
    var now, from := sorted[..at] + [n] + sorted[at..], front + [n];
    forall i | 0 <= i < |picks| ensures picks[i] < |from| && now[i] == from[picks[i]] {
      if i < at {
        assert picks[i] == before[i];
      } else if i > at {
        assert picks[i] == before[i - 1];
      }
    }
    forall k ensures k in picks <==> 0 <= k < |from| {
      assert k in before <==> 0 <= k < |front|;
      assert before == before[..at] + before[at..];
      assert k in picks <==> k in before || k == |front|;
    }
    PicksDiffer(|front|, before, at);
  }

  lemma PicksDiffer(n: nat, before: seq<nat>, at: nat)
    requires at <= |before| && (forall i :: 0 <= i < |before| ==> before[i] < n)
    requires forall i, j :: 0 <= i < j < |before| ==> before[i] != before[j]
    ensures
      var picks := PickAt(before, at, n);
      forall i, j :: 0 <= i < j < |picks| ==> picks[i] != picks[j]
  {
    var picks := PickAt(before, at, n);
    forall i, j | 0 <= i < j < |picks| ensures picks[i] != picks[j] {
      var i', j' := if i <= at then i else i - 1, if j <= at then j else j - 1;
      if i != at && j != at {
        assert picks[i] == before[i'] && picks[j] == before[j'] && i' < j';
      } else if i == at {
        assert picks[j] == before[j - 1] && before[j - 1] in before;
      } else {
        assert picks[i] == before[i] && before[i] in before;
      }
    }
  }

  function Below(k: nat, order: seq<Path>): (r: seq<Path>)
    ensures |r| == |order|
  {
    seq(|order|, i requires 0 <= i < |order| => [k] + order[i])
  }

  /** What one entry of a directory contributes lists the tree below it. */
  lemma ListsOne(dir: Node, k: nat, prefix: string) returns (order: seq<Path>)
    requires dir.Dir? && k < |dir.children|
    ensures
      ListedBy(PreorderOne(dir, dir.children[k], prefix), dir.children[k], prefix + "/" + dir.children[k].name, order)
    decreases dir, 0, 0
  {
    var node := dir.children[k];
    match node
    case Dir(_, _, _) => order := ListsDir(node, prefix + "/" + node.name);
    case File(_) =>
      order := [[]];
      assert EntryAt(node, [], prefix + "/" + node.name) == FileEntry(prefix + "/" + node.name);
    case Other(_) => order := [];
  }

  /** The walk of a directory lists its tree. */
  lemma ListsDir(dir: Node, prefix: string) returns (order: seq<Path>)
    requires dir.Dir?
    ensures ListedBy(Preorder(dir, prefix), dir, prefix, order)
    decreases dir, 1, 0
  {
    if !dir.readable {
      return [];
    }
    var nodes := SortByName(dir.children);
    SortSorts(dir.children);
    SameMembers(nodes, dir.children);
    var picks := SortPicks(dir.children);
    var below := ListsAll(dir, nodes, picks, prefix);
    order := [[]] + below;
    assert EntryAt(dir, [], prefix) == DirEntry(prefix + "/");
    TopFirst(dir, prefix, PreorderAll(dir, nodes, prefix), picks, below);
  }

  /** `order` has the listed places below the picked children and no others, in order. */
  ghost predicate ListedBelow(entries: seq<Entry>, dir: Node, prefix: string, picks: seq<nat>, order: seq<Path>)
    requires dir.Dir?
  {
    && |entries| == |order|
    && (forall p :: p in order <==> p != [] && p[0] in picks && Listed(dir, p))
    && EntriesAre(entries, dir, prefix, order)
    && InOrder(dir, order)
  }

  lemma TopFirst(dir: Node, prefix: string, rest: seq<Entry>, picks: seq<nat>, below: seq<Path>)
    requires dir.Dir? && dir.readable && ListedBelow(rest, dir, prefix, picks, below)
    requires forall k :: k in picks <==> 0 <= k < |dir.children|
    ensures ListedBy([DirEntry(prefix + "/")] + rest, dir, prefix, [[]] + below)
  {
    var order := [[]] + below;
    assert prefix + [] == prefix;
    forall p ensures p in order <==> Listed(dir, p) {
      if p != [] {
        assert p in below <==> p in order;
        if Listed(dir, p) {
          assert p[0] in picks;
        }
      }
    }
    forall j | 0 <= j < |below| ensures Before(dir, [], below[j]) {
      assert below[j] in below;
    }
    InOrderTogether(dir, [[]], below);
  }

  lemma ListsAll(dir: Node, nodes: seq<Node>, picks: seq<nat>, prefix: string) returns (order: seq<Path>)
    requires dir.Dir? && dir.readable && forall n :: n in nodes ==> n in dir.children
    requires SortedByName(nodes) && Picks(nodes, dir.children, picks)
    ensures ListedBelow(PreorderAll(dir, nodes, prefix), dir, prefix, picks, order)
    decreases dir, 0, |nodes| + 1
  {
    if nodes == [] {
      return [];
    }
    var k := picks[0];
    var one := ListsOne(dir, k, prefix);
    var rest := ListsAll(dir, nodes[1..], picks[1..], prefix);
    order := Below(k, one) + rest;
    FirstChild(dir, k, prefix, PreorderOne(dir, nodes[0], prefix), one);
    ThenOthers(dir, nodes, picks, prefix, PreorderOne(dir, nodes[0], prefix), Below(k, one),
               PreorderAll(dir, nodes[1..], prefix), rest);
  }

  /** A listing of a child is one of the places below it. */
  lemma FirstChild(dir: Node, k: nat, prefix: string, entries: seq<Entry>, one: seq<Path>)
    requires dir.Dir? && dir.readable && k < |dir.children|
    requires ListedBy(entries, dir.children[k], prefix + "/" + dir.children[k].name, one)
    ensures ListedBelow(entries, dir, prefix, [k], Below(k, one))
  {
    var child, order := dir.children[k], Below(k, one);
    forall p ensures p in order <==> p != [] && p[0] in [k] && Listed(dir, p) {
      if p in order {
        var i :| 0 <= i < |order| && order[i] == p;
        assert p[1..] == one[i] && one[i] in one;
      }
      if p != [] && p[0] == k && Listed(dir, p) {
        assert Listed(child, p[1..]);
        var i :| 0 <= i < |one| && one[i] == p[1..];
        assert order[i] == p;
      }
    }
    forall i | 0 <= i < |order| ensures Listed(dir, order[i]) && entries[i] == EntryAt(dir, order[i], prefix) {
      assert order[i][1..] == one[i];
      Associative(prefix, "/" + child.name, Joined(child, one[i]));
      Associative(prefix, "/", child.name);
    }
    assert InOrder(dir, order) by {
      forall i, j | 0 <= i < j < |order| ensures Before(dir, order[i], order[j]) {
        assert order[i][1..] == one[i] && order[j][1..] == one[j];
      }
    }
  }

  /** The places below one child, followed by those below children with later names. */
  lemma ThenOthers(dir: Node, nodes: seq<Node>, picks: seq<nat>, prefix: string,
                   a: seq<Entry>, first: seq<Path>, b: seq<Entry>, rest: seq<Path>)
    requires dir.Dir? && nodes != [] && SortedByName(nodes) && Picks(nodes, dir.children, picks)
    requires ListedBelow(a, dir, prefix, [picks[0]], first) && ListedBelow(b, dir, prefix, picks[1..], rest)
    ensures ListedBelow(a + b, dir, prefix, picks, first + rest)
  {
    BelowEither(dir, picks, first, rest);
    EntriesEither(a, dir, prefix, first, b, rest);
    forall i, j | 0 <= i < |first| && 0 <= j < |rest| ensures Before(dir, first[i], rest[j]) {
      LaterName(dir, nodes, picks, first[i], rest[j]);
    }
    InOrderTogether(dir, first, rest);
  }

  lemma BelowEither(dir: Node, picks: seq<nat>, first: seq<Path>, rest: seq<Path>)
    requires picks != []
    requires forall p :: p in first <==> p != [] && p[0] in [picks[0]] && Listed(dir, p)
    requires forall p :: p in rest <==> p != [] && p[0] in picks[1..] && Listed(dir, p)
    ensures forall p :: p in first + rest <==> p != [] && p[0] in picks && Listed(dir, p)
  {
    assert picks == [picks[0]] + picks[1..];
    forall p ensures p in first + rest <==> p != [] && p[0] in picks && Listed(dir, p) {
      assert p in first + rest <==> p in first || p in rest;
    }
  }

  lemma LaterName(dir: Node, nodes: seq<Node>, picks: seq<nat>, p: Path, q: Path)
    requires dir.Dir? && nodes != [] && SortedByName(nodes) && Picks(nodes, dir.children, picks)
    requires p != [] && p[0] == picks[0] && q != [] && q[0] in picks[1..]
    ensures Before(dir, p, q)
  {
    var at :| 0 <= at < |picks[1..]| && picks[1..][at] == q[0];
    assert picks[at + 1] == q[0];
    assert Leq(nodes[0].name, nodes[at + 1].name);
  }

  /** The preorder of the walk is a full listing of the tree. */
  lemma PreorderIsListing(root: Node, prefix: string)
    requires root.Dir?
    ensures FullListing(Preorder(root, prefix), root, prefix)
  {
    var order := ListsDir(root, prefix);
  }

  lemma PrefixBegins(entries: seq<Entry>, root: Node, prefix: string)
    requires root.Dir? && entries <= Preorder(root, prefix)
    ensures ListingBegins(entries, root, prefix)
  {
    PreorderIsListing(root, prefix);
  }
}
