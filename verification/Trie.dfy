/**
 The routing trie of crates/gateway-router/src/trie.rs. A node owns its children outright, so a
 trie is a value and an insertion returns the updated node.
 */
module Trie {
  import opened Numbers
  import opened Paths

  datatype PathMatch =
    | Prefix(value: string)
    | Exact(value: string)
    | Regex(pattern: string)

  /** A declared route. */
  datatype Route = Route(id: string, path: PathMatch, method_: Option<string>, headers: map<string, string>)

  datatype Node = Node(segment: string, routes: seq<Route>, children: seq<Node>)

  // ---- Order on segments ----

  /** `str::cmp`: lexicographic by code point. */
  predicate Less(a: string, b: string)
  {
    b != "" && (a == "" || a[0] < b[0] || (a[0] == b[0] && Less(a[1..], b[1..])))
  }

  lemma {:induction false} LessTrichotomy(a: string, b: string)
    ensures Less(a, b) || a == b || Less(b, a)
    ensures !(Less(a, b) && Less(b, a))
    ensures Less(a, b) ==> a != b
  {
    if a != "" && b != "" && a[0] == b[0] {
      LessTrichotomy(a[1..], b[1..]);
      assert a == [a[0]] + a[1..] && b == [b[0]] + b[1..];
    }
  }

  lemma {:induction false} LessTransitive(a: string, b: string, c: string)
    requires Less(a, b) && Less(b, c)
    ensures Less(a, c)
  {
    if a != "" && a[0] == b[0] == c[0] {
      LessTransitive(a[1..], b[1..], c[1..]);
    }
  }

  ghost predicate Sorted(children: seq<Node>)
  {
    forall i, j | 0 <= i < j < |children| :: Less(children[i].segment, children[j].segment)
  }

  /** Every node's children are strictly sorted. */
  ghost predicate Valid(n: Node)
  {
    Sorted(n.children) && forall c | c in n.children :: Valid(c)
  }

  // ---- Meaning: the routes stored at each sequence of segments ----

  function FindChild(children: seq<Node>, head: string): Option<Node>
  {
    if children == [] then None
    else if children[0].segment == head then Some(children[0])
    else FindChild(children[1..], head)
  }

  function At(n: Node, segs: seq<string>): seq<Route>
    decreases |segs|
  {
    if segs == [] then n.routes
    else
      match FindChild(n.children, segs[0])
      case None => []
      case Some(c) => At(c, segs[1..])
  }

  lemma {:induction false} FindChildAt(children: seq<Node>, i: nat)
    requires i < |children|
    requires forall j | 0 <= j < i :: children[j].segment != children[i].segment
    ensures FindChild(children, children[i].segment) == Some(children[i])
  {
    if i > 0 {
      assert children[1..][i - 1] == children[i];
      FindChildAt(children[1..], i - 1);
    }
  }

  lemma {:induction false} FindChildAbsent(children: seq<Node>, head: string)
    requires forall i | 0 <= i < |children| :: children[i].segment != head
    ensures FindChild(children, head) == None
  {
    if children != [] { FindChildAbsent(children[1..], head); }
  }

  lemma SortedDistinct(children: seq<Node>, i: nat, j: nat)
    requires Sorted(children) && i < |children| && j < |children| && i != j
    ensures children[i].segment != children[j].segment
  {
    LessTrichotomy(children[i].segment, children[j].segment);
  }

  // ---- Searching ----

  /** `iter().position`: linear. */
  method Position(children: seq<Node>, head: string) returns (r: Option<nat>)
    ensures r.Some? ==> r.value < |children| && children[r.value].segment == head
    ensures r.None? ==> forall i | 0 <= i < |children| :: children[i].segment != head
  {
    for i := 0 to |children|
      invariant forall j | 0 <= j < i :: children[j].segment != head
    {
      if children[i].segment == head { return Some(i); }
    }
    r := None;
  }

  /** `binary_search_by`: complete because the children are sorted, and it finds the child `FindChild` finds. */
  method BinarySearch(children: seq<Node>, head: string) returns (r: Option<nat>)
    requires Sorted(children)
    ensures r.Some? ==> r.value < |children| && FindChild(children, head) == Some(children[r.value])
    ensures r.None? ==> FindChild(children, head) == None
  {
    var lo, hi := 0, |children|;
    while lo < hi
      invariant 0 <= lo <= hi <= |children|
      invariant forall i | 0 <= i < lo :: Less(children[i].segment, head)
      invariant forall i | hi <= i < |children| :: Less(head, children[i].segment)
    {
      var mid := (lo + hi) / 2;
      if children[mid].segment == head {
        FoundAt(children, mid);
        return Some(mid);
      }
      LessTrichotomy(children[mid].segment, head);
      if Less(children[mid].segment, head) {
        forall i | 0 <= i < mid ensures Less(children[i].segment, head) {
          LessTransitive(children[i].segment, children[mid].segment, head);
        }
        lo := mid + 1;
      } else {
        forall i | mid < i < |children| ensures Less(head, children[i].segment) {
          LessTransitive(head, children[mid].segment, children[i].segment);
        }
        hi := mid;
      }
    }
    NotFound(children, head, lo);
    r := None;
  }

  lemma FoundAt(children: seq<Node>, mid: nat)
    requires Sorted(children) && mid < |children|
    ensures FindChild(children, children[mid].segment) == Some(children[mid])
  {
    forall j | 0 <= j < mid ensures children[j].segment != children[mid].segment {
      SortedDistinct(children, j, mid);
    }
    FindChildAt(children, mid);
  }

  lemma NotFound(children: seq<Node>, head: string, k: nat)
    requires k <= |children|
    requires forall i | 0 <= i < k :: Less(children[i].segment, head)
    requires forall i | k <= i < |children| :: Less(head, children[i].segment)
    ensures FindChild(children, head) == None
  {
    forall i | 0 <= i < |children| ensures children[i].segment != head {
      LessTrichotomy(children[i].segment, head);
    }
    FindChildAbsent(children, head);
  }

  // ---- Sorting after a push ----

  function InsertSorted(c: Node, sorted: seq<Node>): seq<Node>
  {
    if sorted == [] then [c]
    else if Less(c.segment, sorted[0].segment) then [c] + sorted
    else [sorted[0]] + InsertSorted(c, sorted[1..])
  }

  /** `sort_by` on the segment: stable. */
  function SortChildren(children: seq<Node>): seq<Node>
  {
    if children == [] then []
    else InsertSorted(children[|children| - 1], SortChildren(children[..|children| - 1]))
  }

  lemma {:induction false} InsertAtEnd(c: Node, sorted: seq<Node>)
    requires forall i | 0 <= i < |sorted| :: !Less(c.segment, sorted[i].segment)
    ensures InsertSorted(c, sorted) == sorted + [c]
  {
    if sorted != [] { InsertAtEnd(c, sorted[1..]); }
  }

  lemma {:induction false} SortedIsFixed(children: seq<Node>)
    requires Sorted(children)
    ensures SortChildren(children) == children
  {
    if children != [] {
      var n := |children| - 1;
      SortedIsFixed(children[..n]);
      forall i | 0 <= i < n ensures !Less(children[n].segment, children[i].segment) {
        LessTrichotomy(children[i].segment, children[n].segment);
      }
      InsertAtEnd(children[n], children[..n]);
    }
  }

  lemma {:induction false} InsertMembers(c: Node, sorted: seq<Node>)
    ensures forall i | 0 <= i < |InsertSorted(c, sorted)| ::
              InsertSorted(c, sorted)[i] == c || InsertSorted(c, sorted)[i] in sorted
  {
    if sorted != [] {
      InsertMembers(c, sorted[1..]);
      var all, tail := InsertSorted(c, sorted), InsertSorted(c, sorted[1..]);
      forall i | 0 <= i < |all| ensures all[i] == c || all[i] in sorted {
        if Less(c.segment, sorted[0].segment) {
          if i > 0 { assert all[i] == sorted[i - 1]; }
        } else if i > 0 {
          assert all[i] == tail[i - 1];
        }
      }
    }
  }

  lemma {:induction false} InsertKeepsSorted(c: Node, sorted: seq<Node>)
    requires Sorted(sorted)
    requires forall x | x in sorted :: x.segment != c.segment
    ensures Sorted(InsertSorted(c, sorted))
  {
    if sorted != [] {
      var rest := sorted[1..];
      if Less(c.segment, sorted[0].segment) {
        forall i | 0 <= i < |sorted| ensures Less(c.segment, sorted[i].segment) {
          if i > 0 { LessTransitive(c.segment, sorted[0].segment, sorted[i].segment); }
        }
      } else {
        InsertKeepsSorted(c, rest);
        assert sorted[0] in sorted;
        LessTrichotomy(sorted[0].segment, c.segment);
        var tail := InsertSorted(c, rest);
        InsertMembers(c, rest);
        forall i | 0 <= i < |tail| ensures Less(sorted[0].segment, tail[i].segment) {
          if tail[i] != c {
            assert tail[i] == c || tail[i] in rest;
            var k :| 0 <= k < |rest| && rest[k] == tail[i];
            assert sorted[k + 1] == rest[k];
          }
        }
      }
    }
  }

  lemma {:induction false} InsertFinds(c: Node, sorted: seq<Node>, head: string)
    requires forall x | x in sorted :: x.segment != c.segment
    ensures FindChild(InsertSorted(c, sorted), head)
         == if head == c.segment then Some(c) else FindChild(sorted, head)
  {
    if sorted != [] {
      if Less(c.segment, sorted[0].segment) {
        assert ([c] + sorted)[1..] == sorted;
        if head == c.segment { FindChildAbsent(sorted, head); }
      } else {
        InsertFinds(c, sorted[1..], head);
        assert InsertSorted(c, sorted)[1..] == InsertSorted(c, sorted[1..]);
        assert sorted[0] in sorted;
      }
    }
  }

  // ---- Insertion ----

  lemma ReplaceChild(children: seq<Node>, i: nat, c: Node, head: string)
    requires Sorted(children) && i < |children| && c.segment == children[i].segment
    ensures Sorted(children[i := c])
    ensures FindChild(children[i := c], head)
         == if head == c.segment then Some(c) else FindChild(children, head)
  {
    var new_ := children[i := c];
    forall a, b | 0 <= a < b < |new_| ensures Less(new_[a].segment, new_[b].segment) {
      assert Less(children[a].segment, children[b].segment);
    }
    if head == c.segment {
      FoundAt(new_, i);
    } else {
      SameOtherChildren(children, i, c, head);
    }
  }

  lemma {:induction false} SameOtherChildren(children: seq<Node>, i: nat, c: Node, head: string)
    requires i < |children| && c.segment == children[i].segment != head
    ensures FindChild(children[i := c], head) == FindChild(children, head)
  {
    if i == 0 {
      assert children[i := c][1..] == children[1..];
    } else {
      SameOtherChildren(children[1..], i - 1, c, head);
      assert children[i := c][1..] == children[1..][i - 1 := c];
    }
  }

  lemma ValidReplace(n: Node, i: nat, c: Node)
    requires Valid(n) && i < |n.children| && c.segment == n.children[i].segment && Valid(c)
    ensures Valid(n.(children := n.children[i := c]))
  {
    ReplaceChild(n.children, i, c, "");
    var kids := n.children[i := c];
    forall x | x in kids ensures Valid(x) {
      var k :| 0 <= k < |kids| && kids[k] == x;
      if k != i { assert x == n.children[k]; }
    }
  }

  lemma SortAfterPush(children: seq<Node>, c: Node)
    requires Sorted(children)
    ensures SortChildren(children + [c]) == InsertSorted(c, children)
  {
    assert (children + [c])[..|children|] == children;
    SortedIsFixed(children);
  }

  lemma ValidAdd(n: Node, c: Node)
    requires Valid(n) && Valid(c)
    requires forall x | x in n.children :: x.segment != c.segment
    ensures Valid(n.(children := InsertSorted(c, n.children)))
  {
    var kids := InsertSorted(c, n.children);
    assert Sorted(kids) by { InsertKeepsSorted(c, n.children); }
    forall x | x in kids ensures Valid(x) {
      InsertMembers(c, n.children);
      var i :| 0 <= i < |kids| && kids[i] == x;
    }
  }

  lemma EmptyNodeAt(segment: string, segs: seq<string>)
    ensures At(Node(segment, [], []), segs) == []
  {}

  /** What one insertion does, everywhere: the route is appended at its own segments and nowhere else. */
  ghost predicate InsertsAt(n: Node, after: Node, target: seq<string>, route: Route)
  {
    forall segs :: At(after, segs) == At(n, segs) + if segs == target then [route] else []
  }

  lemma InsertBelow(n: Node, after: Node, child: Node, grown: Node,
                       head: string, rest: seq<string>, route: Route)
    requires n.routes == after.routes
    requires InsertsAt(child, grown, rest, route)
    requires forall h :: FindChild(after.children, h) == if h == head then Some(grown) else FindChild(n.children, h)
    requires FindChild(n.children, head) == Some(child)
             || (FindChild(n.children, head) == None && forall s :: At(child, s) == [])
    ensures InsertsAt(n, after, [head] + rest, route)
  {
    forall segs ensures At(after, segs) == At(n, segs) + if segs == [head] + rest then [route] else [] {
      assert At(n, segs) + [] == At(n, segs);
      if segs != [] {
        assert segs == [segs[0]] + segs[1..];
        var sub := segs[1..];
        if segs[0] == head {
          assert At(after, segs) == At(grown, sub);
          assert At(grown, sub) == At(child, sub) + if sub == rest then [route] else [];
          assert At(n, segs) == At(child, sub);
          assert ([head] + rest)[1..] == rest;
        } else {
          assert ([head] + rest)[0] == head;
        }
      }
    }
  }

  /** `insert_prefix`. */
  method InsertPrefix(n: Node, path: string, route: Route) returns (after: Node)
    requires Valid(n)
    ensures Valid(after) && after.segment == n.segment
    ensures InsertsAt(n, after, Segments(path), route)
    decreases |path|
  {
    if path == "" {
      after := n.(routes := n.routes + [route]);
      return;
    }
    var (head, tail) := SplitFirst(path);
    var at := Position(n.children, head);
    if at.Some? {
      var child := n.children[at.value];
      assert child in n.children;
      var grown := InsertPrefix(child, tail, route);
      after := n.(children := n.children[at.value := grown]);
      ValidReplace(n, at.value, grown);
      forall h ensures FindChild(after.children, h) == if h == head then Some(grown) else FindChild(n.children, h) {
        ReplaceChild(n.children, at.value, grown, h);
      }
      FoundAt(n.children, at.value);
      InsertBelow(n, after, child, grown, head, Segments(tail), route);
    } else {
      var child: Node := Node(head, [], []);
      var grown := InsertPrefix(child, tail, route);
      after := n.(children := SortChildren(n.children + [grown]));
      SortAfterPush(n.children, grown);
      ValidAdd(n, grown);
      forall h ensures FindChild(after.children, h) == if h == head then Some(grown) else FindChild(n.children, h) {
        InsertFinds(grown, n.children, h);
      }
      FindChildAbsent(n.children, head);
      forall s ensures At(child, s) == [] { EmptyNodeAt(head, s); }
      InsertBelow(n, after, child, grown, head, Segments(tail), route);
    }
  }

  // ---- Collection ----

  /** Routes at each prefix of `segs` of length up to `k`, the shortest prefix first. */
  function ByDepth(n: Node, segs: seq<string>, k: nat): seq<Route>
    requires k <= |segs|
  {
    if k == 0 then At(n, segs[..0]) else ByDepth(n, segs, k - 1) + At(n, segs[..k])
  }

  /** The same, seen from the child that the first segment leads to. */
  function Below(n: Node, segs: seq<string>, k: nat): seq<Route>
    requires segs != [] && k < |segs|
  {
    match FindChild(n.children, segs[0])
    case None => []
    case Some(c) => ByDepth(c, segs[1..], k)
  }

  lemma {:induction false} ByDepthBelow(n: Node, segs: seq<string>, k: nat)
    requires segs != [] && k < |segs|
    ensures ByDepth(n, segs, k + 1) == n.routes + Below(n, segs, k)
  {
    AtBelow(n, segs, k);
    if k > 0 {
      ByDepthBelow(n, segs, k - 1);
      BelowGrows(n, segs, k);
      Regroup(n.routes, Below(n, segs, k - 1), At(n, segs[..k + 1]));
    }
  }

  lemma BelowGrows(n: Node, segs: seq<string>, k: nat)
    requires segs != [] && 0 < k < |segs|
    ensures Below(n, segs, k) == Below(n, segs, k - 1) + At(n, segs[..k + 1])
  {
    AtBelow(n, segs, k);
  }

  /** The routes at a non-empty path are those of the child its first segment leads to. */
  lemma AtBelow(n: Node, segs: seq<string>, k: nat)
    requires segs != [] && k < |segs|
    ensures At(n, segs[..k + 1])
         == match FindChild(n.children, segs[0]) case None => [] case Some(c) => At(c, segs[1..][..k])
  {
    assert segs[..k + 1][0] == segs[0] && segs[..k + 1][1..] == segs[1..][..k];
  }

  /** `collect_prefix_matches`: extends the candidates with the routes of every prefix, shallow to deep. */
  method CollectPrefixMatches(n: Node, path: string, candidates: seq<Route>) returns (all: seq<Route>)
    requires Valid(n)
    ensures all == candidates + ByDepth(n, Segments(path), |Segments(path)|)
    decreases |path|
  {
    all := candidates + n.routes;
    if path == "" { return; }
    var (head, tail) := SplitFirst(path);
    ghost var segs := Segments(path);
    assert segs[0] == head && segs[1..] == Segments(tail);
    ByDepthBelow(n, segs, |segs| - 1);
    Regroup(candidates, n.routes, Below(n, segs, |segs| - 1));
    var at := BinarySearch(n.children, head);
    if at.Some? {
      assert n.children[at.value] in n.children;
      all := CollectPrefixMatches(n.children[at.value], tail, all);
    }
  }

  /** `find_exact`: the first route at exactly this path. */
  method FindExact(n: Node, path: string) returns (r: Option<Route>)
    requires Valid(n)
    ensures r == if At(n, Segments(path)) == [] then None else Some(At(n, Segments(path))[0])
    decreases |path|
  {
    if path == "" {
      return if n.routes == [] then None else Some(n.routes[0]);
    }
    var (head, tail) := SplitFirst(path);
    assert Segments(path)[1..] == Segments(tail);
    var at := BinarySearch(n.children, head);
    if at.Some? {
      assert n.children[at.value] in n.children;
      r := FindExact(n.children[at.value], tail);
    } else {
      r := None;
    }
  }
}
