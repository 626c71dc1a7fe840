/**
 `Router::build` and `Router::match_request` of crates/gateway-router/src/router.rs, against a
 specification that only scans the declared route list.
 */
module Router {
  import opened Numbers
  import opened Paths
  import opened Trie

  type Params = seq<(string, string)>

  /**
   A request: its raw path, whether a route's method and header conditions accept it, and what a
   regex captures on the raw path.
   */
  datatype Request = Request(path: string, passes: Route -> bool, captures: string -> Option<Params>)

  datatype MatchResult = Matched(route: Route, params: Params) | NoMatch(path: string)

  datatype BuildError = InvalidRegex(pattern: string)

  // ---- The specification: scans of the declared list ----

  datatype Kind = ExactKind | PrefixKind

  predicate DeclaredAt(r: Route, kind: Kind, segs: seq<string>)
  {
    match r.path
    case Exact(v) => kind == ExactKind && Pieces(v) == segs
    case Prefix(v) => kind == PrefixKind && Pieces(v) == segs
    case Regex(_) => false
  }

  /** The declared routes of one kind at one path, in declaration order. */
  function Declared(routes: seq<Route>, kind: Kind, segs: seq<string>): seq<Route>
  {
    if routes == [] then []
    else
      var r := routes[|routes| - 1];
      Declared(routes[..|routes| - 1], kind, segs) + if DeclaredAt(r, kind, segs) then [r] else []
  }

  function DeclaredRegex(routes: seq<Route>): seq<Route>
  {
    if routes == [] then []
    else
      var r := routes[|routes| - 1];
      DeclaredRegex(routes[..|routes| - 1]) + if r.path.Regex? then [r] else []
  }

  /** The last route of a list that passes. */
  function LastPassing(routes: seq<Route>, passes: Route -> bool): Option<Route>
  {
    if routes == [] then None
    else if passes(routes[|routes| - 1]) then Some(routes[|routes| - 1])
    else LastPassing(routes[..|routes| - 1], passes)
  }

  /** Only the first-declared exact route is tried. */
  function ExactTier(routes: seq<Route>, req: Request): Option<Route>
  {
    var here := Declared(routes, ExactKind, Pieces(req.path));
    if here != [] && req.passes(here[0]) then Some(here[0]) else None
  }

  /** Deepest prefix first; at one depth, the last declared. */
  function PrefixTier(routes: seq<Route>, segs: seq<string>, depth: nat, passes: Route -> bool): Option<Route>
    requires depth <= |segs|
  {
    match LastPassing(Declared(routes, PrefixKind, segs[..depth]), passes)
    case Some(r) => Some(r)
    case None => if depth == 0 then None else PrefixTier(routes, segs, depth - 1, passes)
  }

  predicate RegexAccepts(r: Route, req: Request)
  {
    r.path.Regex? && req.captures(r.path.pattern).Some? && req.passes(r)
  }

  /** First declared first. */
  function RegexTier(regexRoutes: seq<Route>, req: Request): Option<Route>
  {
    if regexRoutes == [] then None
    else if RegexAccepts(regexRoutes[0], req) then Some(regexRoutes[0])
    else RegexTier(regexRoutes[1..], req)
  }

  function MatchSpec(routes: seq<Route>, req: Request): MatchResult
  {
    var segs := Pieces(req.path);
    match ExactTier(routes, req)
    case Some(r) => Matched(r, [])
    case None =>
      match PrefixTier(routes, segs, |segs|, req.passes)
      case Some(r) => Matched(r, [])
      case None =>
        match RegexTier(DeclaredRegex(routes), req)
        case Some(r) =>
          RegexTierAccepts(DeclaredRegex(routes), req);
          Matched(r, req.captures(r.path.pattern).value)
        case None => NoMatch(req.path)
  }

  lemma RegexTierAccepts(regexRoutes: seq<Route>, req: Request)
    ensures RegexTier(regexRoutes, req).Some? ==> RegexAccepts(RegexTier(regexRoutes, req).value, req)
  {}

  // ---- The engine ----

  lemma {:induction false} LastPassingConcat(a: seq<Route>, b: seq<Route>, passes: Route -> bool)
    ensures LastPassing(a + b, passes)
         == if LastPassing(b, passes).Some? then LastPassing(b, passes) else LastPassing(a, passes)
  {
    if b == [] {
      assert a + b == a;
    } else {
      assert (a + b)[..|a + b| - 1] == a + b[..|b| - 1];
      LastPassingConcat(a, b[..|b| - 1], passes);
    }
  }

  /** A trie holds, at every sequence of segments, the routes declared there. */
  ghost predicate Holds(n: Node, routes: seq<Route>, kind: Kind)
  {
    Valid(n) && forall segs :: At(n, segs) == Declared(routes, kind, segs)
  }

  /** For each depth up to `k`, the prefix routes declared at exactly that many of the segments. */
  function DeclaredByDepth(routes: seq<Route>, segs: seq<string>, k: nat): seq<Route>
    requires k <= |segs|
  {
    if k == 0 then Declared(routes, PrefixKind, segs[..0])
    else DeclaredByDepth(routes, segs, k - 1) + Declared(routes, PrefixKind, segs[..k])
  }

  /** What the trie collects is the declared list, filtered depth by depth. */
  lemma {:induction false} CollectedIsDeclared(n: Node, routes: seq<Route>, segs: seq<string>, k: nat)
    requires Holds(n, routes, PrefixKind) && k <= |segs|
    ensures ByDepth(n, segs, k) == DeclaredByDepth(routes, segs, k)
  {
    assert At(n, segs[..k]) == Declared(routes, PrefixKind, segs[..k]);
    if k > 0 { CollectedIsDeclared(n, routes, segs, k - 1); }
  }

  lemma {:induction false} LastCandidate(routes: seq<Route>, segs: seq<string>, k: nat, passes: Route -> bool)
    requires k <= |segs|
    ensures LastPassing(DeclaredByDepth(routes, segs, k), passes) == PrefixTier(routes, segs, k, passes)
  {
    var here := Declared(routes, PrefixKind, segs[..k]);
    if k > 0 {
      LastCandidate(routes, segs, k - 1, passes);
      LastPassingConcat(DeclaredByDepth(routes, segs, k - 1), here, passes);
    }
  }

  lemma DeclaredAppend(routes: seq<Route>, r: Route, kind: Kind, segs: seq<string>)
    ensures Declared(routes + [r], kind, segs)
         == Declared(routes, kind, segs) + if DeclaredAt(r, kind, segs) then [r] else []
  {
    assert (routes + [r])[..|routes|] == routes;
  }

  lemma HoldsAfterInsert(n: Node, after: Node, routes: seq<Route>, r: Route, kind: Kind, value: string)
    requires Holds(n, routes, kind) && Valid(after)
    requires InsertsAt(n, after, Segments(Normalise(value)), r)
    requires r.path == (if kind == ExactKind then Exact(value) else Prefix(value))
    ensures Holds(after, routes + [r], kind)
  {
    SegmentsOfNormalised(value);
    forall segs ensures At(after, segs) == Declared(routes + [r], kind, segs) {
      DeclaredAppend(routes, r, kind, segs);
      assert At(after, segs) == At(n, segs) + if segs == Pieces(value) then [r] else [];
    }
  }

  lemma HoldsAfterSkip(n: Node, routes: seq<Route>, r: Route, kind: Kind)
    requires Holds(n, routes, kind)
    requires forall segs :: !DeclaredAt(r, kind, segs)
    ensures Holds(n, routes + [r], kind)
  {
    forall segs ensures At(n, segs) == Declared(routes + [r], kind, segs) {
      DeclaredAppend(routes, r, kind, segs);
    }
  }

  lemma HoldsEmpty(kind: Kind)
    ensures Holds(Node("", [], []), [], kind)
  {
    forall segs ensures At(Node("", [], []), segs) == [] { EmptyNodeAt("", segs); }
  }

  class Router {
    var exactTrie: Node
    var prefixTrie: Node
    var regexRoutes: seq<Route>
    ghost var declared: seq<Route>

    ghost predicate Valid()
      reads this
    {
      && Holds(exactTrie, declared, ExactKind)
      && Holds(prefixTrie, declared, PrefixKind)
      && regexRoutes == DeclaredRegex(declared)
    }

    constructor ()
      ensures Valid() && declared == []
    {
      exactTrie, prefixTrie, regexRoutes := Node("", [], []), Node("", [], []), [];
      declared := [];
      HoldsEmpty(ExactKind);
      HoldsEmpty(PrefixKind);
    }

    /** One turn of the loop in `build`. */
    method AddRoute(route: Route)
      requires Valid()
      modifies this
      ensures Valid() && declared == old(declared) + [route]
    {
      assert (declared + [route])[..|declared|] == declared;
      match route.path {
        case Exact(value) =>
          var normalised := NormalisePath(value);
          var grown := InsertPrefix(exactTrie, normalised, route);
          HoldsAfterInsert(exactTrie, grown, declared, route, ExactKind, value);
          HoldsAfterSkip(prefixTrie, declared, route, PrefixKind);
          exactTrie := grown;
        case Prefix(value) =>
          var normalised := NormalisePath(value);
          var grown := InsertPrefix(prefixTrie, normalised, route);
          HoldsAfterInsert(prefixTrie, grown, declared, route, PrefixKind, value);
          HoldsAfterSkip(exactTrie, declared, route, ExactKind);
          prefixTrie := grown;
        case Regex(pattern) =>
          HoldsAfterSkip(exactTrie, declared, route, ExactKind);
          HoldsAfterSkip(prefixTrie, declared, route, PrefixKind);
          regexRoutes := regexRoutes + [route];
      }
      declared := declared + [route];
    }

    method TryExact(req: Request, normalised: string) returns (r: Option<Route>)
      requires Valid() && Segments(normalised) == Pieces(req.path)
      ensures r == ExactTier(declared, req)
    {
      assert At(exactTrie, Pieces(req.path)) == Declared(declared, ExactKind, Pieces(req.path));
      var exact := FindExact(exactTrie, normalised);
      r := if exact.Some? && req.passes(exact.value) then exact else None;
    }

    method TryPrefixes(req: Request, normalised: string) returns (r: Option<Route>)
      requires Valid() && Segments(normalised) == Pieces(req.path)
      ensures r == PrefixTier(declared, Pieces(req.path), |Pieces(req.path)|, req.passes)
    {
      ghost var segs := Pieces(req.path);
      var candidates := CollectPrefixMatches(prefixTrie, normalised, []);
      assert candidates == ByDepth(prefixTrie, segs, |segs|);
      CollectedIsDeclared(prefixTrie, declared, segs, |segs|);
      LastCandidate(declared, segs, |segs|, req.passes);
      r := FirstPassingOfReversed(candidates, req.passes);
    }

    method TryRegexes(req: Request) returns (r: Option<Route>)
      ensures r == RegexTier(regexRoutes, req)
    {
      var i := 0;
      while i < |regexRoutes|
        invariant 0 <= i <= |regexRoutes|
        invariant RegexTier(regexRoutes, req) == RegexTier(regexRoutes[i..], req)
      {
        if RegexAccepts(regexRoutes[i], req) { return Some(regexRoutes[i]); }
        i := i + 1;
      }
      r := None;
    }

    /** The three tiers agree with the scan of the declared list, for every request. */
    method MatchRequest(req: Request) returns (m: MatchResult)
      requires Valid()
      ensures m == MatchSpec(declared, req)
      ensures RightAnswer(declared, req, m)
    {
      SpecIsRight(declared, req);
      var normalised := NormalisePath(req.path);
      SegmentsOfNormalised(req.path);
      var exact := TryExact(req, normalised);
      if exact.Some? { return Matched(exact.value, []); }
      var prefix := TryPrefixes(req, normalised);
      if prefix.Some? { return Matched(prefix.value, []); }
      var regex := TryRegexes(req);
      RegexTierAccepts(regexRoutes, req);
      if regex.Some? { return Matched(regex.value, req.captures(regex.value.path.pattern).value); }
      m := NoMatch(req.path);
    }
  }

  /** Reverses the candidates and takes the first that passes. */
  method FirstPassingOfReversed(candidates: seq<Route>, passes: Route -> bool) returns (r: Option<Route>)
    ensures r == LastPassing(candidates, passes)
  {
    var reversed: seq<Route> := [];
    for i := 0 to |candidates|
      invariant |reversed| == i
      invariant forall j | 0 <= j < i :: reversed[j] == candidates[i - 1 - j]
    {
      reversed := [candidates[i]] + reversed;
    }
    assert candidates[..|candidates|] == candidates;
    var k := 0;
    while k < |reversed|
      invariant 0 <= k <= |reversed|
      invariant LastPassing(candidates, passes) == LastPassing(candidates[..|candidates| - k], passes)
    {
      var rest := candidates[..|candidates| - k];
      assert rest[|rest| - 1] == reversed[k] && rest[..|rest| - 1] == candidates[..|candidates| - k - 1];
      if passes(reversed[k]) { return Some(reversed[k]); }
      k := k + 1;
    }
    r := None;
  }

  datatype BuildResult = Built(router: Router) | Failed(error: BuildError)

  /** `build`: fails on the first pattern that does not compile, and otherwise holds every route. */
  method Build(routes: seq<Route>, compiles: string -> bool) returns (r: BuildResult)
    ensures r.Built? ==> fresh(r.router) && r.router.Valid() && r.router.declared == routes
    ensures r.Built? <==> forall i | 0 <= i < |routes| && routes[i].path.Regex? :: compiles(routes[i].path.pattern)
    ensures r.Failed? ==>
              exists i | 0 <= i < |routes| ::
                && routes[i].path == Regex(r.error.pattern) && !compiles(r.error.pattern)
                && forall j | 0 <= j < i && routes[j].path.Regex? :: compiles(routes[j].path.pattern)
  {
    var router := new Router();
    for i := 0 to |routes|
      invariant fresh(router) && router.Valid() && router.declared == routes[..i]
      invariant forall j | 0 <= j < i && routes[j].path.Regex? :: compiles(routes[j].path.pattern)
    {
      var route := routes[i];
      if route.path.Regex? && !compiles(route.path.pattern) {
        return Failed(InvalidRegex(route.path.pattern));
      }
      router.AddRoute(route);
      assert routes[..i + 1] == routes[..i] + [route];
    }
    r := Built(router);
  }

  // ---- What the prefix tier picks, said directly ----

  predicate IsCandidate(r: Route, segs: seq<string>, passes: Route -> bool)
  {
    r.path.Prefix? && Pieces(r.path.value) <= segs && passes(r)
  }

  /** Route `i` wins: it is a candidate, and no candidate is deeper, nor as deep and declared later. */
  ghost predicate Wins(routes: seq<Route>, i: nat, segs: seq<string>, passes: Route -> bool)
  {
    && i < |routes| && IsCandidate(routes[i], segs, passes)
    && forall j | 0 <= j < |routes| && IsCandidate(routes[j], segs, passes) ::
         var di, dj := |Pieces(routes[i].path.value)|, |Pieces(routes[j].path.value)|;
         dj < di || (dj == di && j <= i)
  }

  /** The last passing route declared at one path, with its position. */
  lemma {:induction false} LastDeclared(routes: seq<Route>, segs: seq<string>, passes: Route -> bool)
    returns (i: int)
    ensures var last := LastPassing(Declared(routes, PrefixKind, segs), passes);
            if last.None? then
              forall j | 0 <= j < |routes| && DeclaredAt(routes[j], PrefixKind, segs) :: !passes(routes[j])
            else
              && 0 <= i < |routes| && routes[i] == last.value && DeclaredAt(last.value, PrefixKind, segs) && passes(last.value)
              && forall j | i < j < |routes| && DeclaredAt(routes[j], PrefixKind, segs) :: !passes(routes[j])
  {
    i := -1;
    if routes != [] {
      var n := |routes| - 1;
      i := LastDeclared(routes[..n], segs, passes);
      var last := if DeclaredAt(routes[n], PrefixKind, segs) then [routes[n]] else [];
      assert Declared(routes, PrefixKind, segs) == Declared(routes[..n], PrefixKind, segs) + last;
      LastPassingConcat(Declared(routes[..n], PrefixKind, segs), last, passes);
      if DeclaredAt(routes[n], PrefixKind, segs) && passes(routes[n]) { i := n; }
    }
  }

  lemma {:induction false} PrefixTierWins(routes: seq<Route>, segs: seq<string>, depth: nat, passes: Route -> bool)
    returns (i: int)
    requires depth <= |segs|
    ensures var r := PrefixTier(routes, segs, depth, passes);
            if r.None? then forall j | 0 <= j < |routes| :: !IsCandidate(routes[j], segs[..depth], passes)
            else 0 <= i < |routes| && routes[i] == r.value && Wins(routes, i, segs[..depth], passes)
  {
    i := LastDeclared(routes, segs[..depth], passes);
    if LastPassing(Declared(routes, PrefixKind, segs[..depth]), passes).None? {
      if depth > 0 {
        i := PrefixTierWins(routes, segs, depth - 1, passes);
        forall j | 0 <= j < |routes|
          ensures IsCandidate(routes[j], segs[..depth], passes) ==> IsCandidate(routes[j], segs[..depth - 1], passes)
          ensures IsCandidate(routes[j], segs[..depth - 1], passes) ==> IsCandidate(routes[j], segs[..depth], passes)
        {
          ShorterPrefix(routes[j], segs, depth, passes);
        }
      } else {
        assert segs[..0] == [];
      }
    } else {
      forall j | 0 <= j < |routes| && IsCandidate(routes[j], segs[..depth], passes)
        ensures var di, dj := depth, |Pieces(routes[j].path.value)|; dj < di || (dj == di && j <= i)
      {
        if |Pieces(routes[j].path.value)| == depth {
          assert Pieces(routes[j].path.value) == segs[..depth];
        }
      }
    }
  }

  /** A prefix of the first `depth` segments is either all of them or a prefix of one fewer. */
  lemma ShorterPrefix(r: Route, segs: seq<string>, depth: nat, passes: Route -> bool)
    requires 0 < depth <= |segs|
    ensures IsCandidate(r, segs[..depth], passes)
            <==> IsCandidate(r, segs[..depth - 1], passes) || (DeclaredAt(r, PrefixKind, segs[..depth]) && passes(r))
  {
    if r.path.Prefix? {
      var p := Pieces(r.path.value);
      if p <= segs[..depth] {
        assert p == segs[..depth][..|p|];
        if |p| < depth { assert p == segs[..depth - 1][..|p|]; }
      }
      if p <= segs[..depth - 1] { assert p == segs[..depth][..|p|]; }
    }
  }

  /** The prefix tier finds a route exactly when a declared prefix route passes, and then the winner. */
  lemma DeepestThenLastDeclared(routes: seq<Route>, req: Request)
    ensures var segs := Pieces(req.path); var r := PrefixTier(routes, segs, |segs|, req.passes);
            && (r.Some? <==> exists j | 0 <= j < |routes| :: IsCandidate(routes[j], segs, req.passes))
            && (r.Some? ==> exists i | 0 <= i < |routes| :: routes[i] == r.value && Wins(routes, i, segs, req.passes))
  {
    var segs := Pieces(req.path);
    assert segs[..|segs|] == segs;
    var i := PrefixTierWins(routes, segs, |segs|, req.passes);
    if PrefixTier(routes, segs, |segs|, req.passes).Some? {
      assert IsCandidate(routes[i], segs, req.passes);
    }
  }

  // ---- The answer, said directly ----

  predicate ExactAt(routes: seq<Route>, i: nat, req: Request)
  {
    i < |routes| && routes[i].path.Exact? && Pieces(routes[i].path.value) == Pieces(req.path)
  }

  /** Route `i` is the first declared exact route for this path, and its conditions accept the request. */
  ghost predicate ExactAnswer(routes: seq<Route>, i: nat, req: Request)
  {
    ExactAt(routes, i, req) && req.passes(routes[i]) && forall j: nat | j < i :: !ExactAt(routes, j, req)
  }

  predicate RegexAt(routes: seq<Route>, i: nat, req: Request)
  {
    && i < |routes| && routes[i].path.Regex?
    && req.captures(routes[i].path.pattern).Some? && req.passes(routes[i])
  }

  /** Route `i` is the first declared regex route that captures the path and accepts the request. */
  ghost predicate RegexAnswer(routes: seq<Route>, i: nat, req: Request)
  {
    RegexAt(routes, i, req) && forall j: nat | j < i :: !RegexAt(routes, j, req)
  }

  /** Route `i` answers: an exact route; or, without one, the winning prefix route; or, without either, a regex route. */
  ghost predicate Answers(routes: seq<Route>, i: nat, req: Request)
  {
    || ExactAnswer(routes, i, req)
    || ((forall j: nat :: !ExactAnswer(routes, j, req)) && Wins(routes, i, Pieces(req.path), req.passes))
    || ((forall j: nat :: !ExactAnswer(routes, j, req)) && (forall j: nat :: !Wins(routes, j, Pieces(req.path), req.passes))
        && RegexAnswer(routes, i, req))
  }

  /** The answer is that route with its captures, or no match if no declared route answers. */
  ghost predicate RightAnswer(routes: seq<Route>, req: Request, m: MatchResult)
  {
    if m.NoMatch? then m.path == req.path && forall i: nat :: !Answers(routes, i, req)
    else
      exists i: nat ::
        && Answers(routes, i, req) && m.route == routes[i]
        && m.params == if routes[i].path.Regex? then req.captures(routes[i].path.pattern).value else []
  }

  lemma ExactOnce(routes: seq<Route>, i: nat, j: nat, req: Request)
    requires ExactAnswer(routes, i, req) && ExactAnswer(routes, j, req)
    ensures i == j
  {
    assert ExactAt(routes, i, req) && ExactAt(routes, j, req);
  }

  lemma RegexOnce(routes: seq<Route>, i: nat, j: nat, req: Request)
    requires RegexAnswer(routes, i, req) && RegexAnswer(routes, j, req)
    ensures i == j
  {
    assert RegexAt(routes, i, req) && RegexAt(routes, j, req);
  }

  /** At most one route answers. */
  lemma AnswerIsUnique(routes: seq<Route>, i: nat, j: nat, req: Request)
    requires Answers(routes, i, req) && Answers(routes, j, req)
    ensures i == j
  {
    if ExactAnswer(routes, i, req) {
      assert ExactAnswer(routes, j, req);
      ExactOnce(routes, i, j, req);
    } else if !Wins(routes, i, Pieces(req.path), req.passes) {
      RegexOnce(routes, i, j, req);
    }
  }

  /** The first exact route of the declared list, if there is one. */
  lemma {:induction false} FirstExact(routes: seq<Route>, req: Request) returns (i: int)
    ensures var here := Declared(routes, ExactKind, Pieces(req.path));
            if here == [] then forall j: nat :: !ExactAt(routes, j, req)
            else 0 <= i && ExactAt(routes, i, req) && routes[i] == here[0] && forall j: nat | j < i :: !ExactAt(routes, j, req)
  {
    i := -1;
    if routes != [] {
      var n := |routes| - 1;
      i := FirstExact(routes[..n], req);
      forall j: nat | j < n ensures ExactAt(routes, j, req) <==> ExactAt(routes[..n], j, req) {}
      if Declared(routes[..n], ExactKind, Pieces(req.path)) == [] {
        forall j: nat | j < n ensures !ExactAt(routes, j, req) { assert !ExactAt(routes[..n], j, req); }
        if DeclaredAt(routes[n], ExactKind, Pieces(req.path)) { i := n; }
      }
    }
  }

  lemma ExactTierAnswers(routes: seq<Route>, req: Request)
    ensures var r := ExactTier(routes, req);
            if r.None? then forall j: nat :: !ExactAnswer(routes, j, req)
            else exists i: nat :: ExactAnswer(routes, i, req) && routes[i] == r.value
  {
    var i := FirstExact(routes, req);
    var here := Declared(routes, ExactKind, Pieces(req.path));
    if here != [] {
      var k: nat := i;
      if req.passes(here[0]) {
        assert ExactAnswer(routes, k, req);
      } else {
        forall j: nat ensures !ExactAnswer(routes, j, req) {
          assert ExactAt(routes, k, req) && !req.passes(routes[k]);
        }
      }
    }
  }

  lemma {:induction false} RegexTierConcat(a: seq<Route>, b: seq<Route>, req: Request)
    ensures RegexTier(a + b, req) == if RegexTier(a, req).Some? then RegexTier(a, req) else RegexTier(b, req)
  {
    if a == [] {
      assert a + b == b;
    } else {
      assert (a + b)[1..] == a[1..] + b;
      RegexTierConcat(a[1..], b, req);
    }
  }

  lemma {:induction false} RegexTierAnswers(routes: seq<Route>, req: Request) returns (i: int)
    ensures var r := RegexTier(DeclaredRegex(routes), req);
            if r.None? then forall j: nat :: !RegexAt(routes, j, req)
            else 0 <= i && RegexAnswer(routes, i, req) && routes[i] == r.value
  {
    i := -1;
    if routes != [] {
      var n := |routes| - 1;
      i := RegexTierAnswers(routes[..n], req);
      var last := if routes[n].path.Regex? then [routes[n]] else [];
      RegexTierConcat(DeclaredRegex(routes[..n]), last, req);
      forall j: nat | j < n ensures RegexAt(routes, j, req) <==> RegexAt(routes[..n], j, req) {}
      if RegexTier(DeclaredRegex(routes[..n]), req).None? {
        forall j: nat | j < n ensures !RegexAt(routes, j, req) { assert !RegexAt(routes[..n], j, req); }
        if RegexAt(routes, n, req) { i := n; }
      } else {
        forall j: nat | j < i ensures !RegexAt(routes, j, req) { assert !RegexAt(routes[..n], j, req); }
      }
    }
  }

  lemma PrefixTierAnswers(routes: seq<Route>, req: Request)
    ensures var segs := Pieces(req.path); var r := PrefixTier(routes, segs, |segs|, req.passes);
            if r.None? then forall j: nat :: !Wins(routes, j, segs, req.passes)
            else exists i: nat :: Wins(routes, i, segs, req.passes) && routes[i] == r.value
  {
    DeepestThenLastDeclared(routes, req);
  }

  /** The three tiers give the one answer that the declared list determines. */
  lemma SpecIsRight(routes: seq<Route>, req: Request)
    ensures RightAnswer(routes, req, MatchSpec(routes, req))
  {
    var segs := Pieces(req.path);
    ExactTierAnswers(routes, req);
    PrefixTierAnswers(routes, req);
    var k := RegexTierAnswers(routes, req);
    if ExactTier(routes, req).Some? {
      var i: nat :| ExactAnswer(routes, i, req) && routes[i] == ExactTier(routes, req).value;
      assert Answers(routes, i, req);
    } else if PrefixTier(routes, segs, |segs|, req.passes).Some? {
      var i: nat :| Wins(routes, i, segs, req.passes) && routes[i] == PrefixTier(routes, segs, |segs|, req.passes).value;
      assert Answers(routes, i, req);
    } else if RegexTier(DeclaredRegex(routes), req).Some? {
      var i: nat := k;
      assert Answers(routes, i, req);
    }
  }

  // ---- Reordering ----

  /** No two routes are declared for the same kind at the same normalised path. */
  ghost predicate DistinctPaths(routes: seq<Route>)
  {
    forall i, j, kind, segs | 0 <= i < j < |routes| && DeclaredAt(routes[i], kind, segs) ::
      !DeclaredAt(routes[j], kind, segs)
  }

  ghost predicate NoRegex(routes: seq<Route>)
  {
    forall i | 0 <= i < |routes| :: !routes[i].path.Regex?
  }

  /** At most one route is declared at a path, so the list there is determined by membership alone. */
  lemma {:induction false} DeclaredByMembership(routes: seq<Route>, kind: Kind, segs: seq<string>)
    requires DistinctPaths(routes)
    ensures forall r | r in routes && DeclaredAt(r, kind, segs) :: Declared(routes, kind, segs) == [r]
    ensures (forall r | r in routes :: !DeclaredAt(r, kind, segs)) ==> Declared(routes, kind, segs) == []
  {
    if routes != [] {
      var n := |routes| - 1;
      var before := routes[..n];
      assert routes == before + [routes[n]];
      assert DistinctPaths(before);
      DeclaredByMembership(before, kind, segs);
      if DeclaredAt(routes[n], kind, segs) {
        forall r | r in before ensures !DeclaredAt(r, kind, segs) {
          var i :| 0 <= i < n && before[i] == r;
          assert routes[i] == r;
        }
      }
    }
  }

  lemma MembersOfReordering(routes: seq<Route>, other: seq<Route>)
    requires multiset(routes) == multiset(other)
    ensures forall r :: r in routes <==> r in other
  {
    forall r ensures r in routes <==> r in other {
      assert r in routes <==> r in multiset(routes);
      assert r in other <==> r in multiset(other);
    }
  }

  lemma TwiceInMultiset(routes: seq<Route>, i: nat, j: nat)
    requires i < j < |routes| && routes[i] == routes[j]
    ensures multiset(routes)[routes[i]] >= 2
  {
    assert routes == routes[..j] + routes[j..];
    assert routes[..j][i] in multiset(routes[..j]);
    assert routes[j..][0] in multiset(routes[j..]);
  }

  lemma {:induction false} OnceInMultiset(routes: seq<Route>, r: Route)
    requires forall i, j | 0 <= i < j < |routes| :: routes[i] != routes[j]
    ensures multiset(routes)[r] <= 1
  {
    if routes != [] {
      var n := |routes| - 1;
      OnceInMultiset(routes[..n], r);
      assert routes == routes[..n] + [routes[n]];
      if routes[n] == r {
        assert r !in routes[..n];
        assert r !in multiset(routes[..n]);
      }
    }
  }

  lemma ReorderingKeepsDistinct(routes: seq<Route>, other: seq<Route>)
    requires multiset(routes) == multiset(other)
    requires DistinctPaths(routes) && NoRegex(routes)
    ensures DistinctPaths(other) && NoRegex(other)
  {
    MembersOfReordering(routes, other);
    forall i, j | 0 <= i < j < |routes| ensures routes[i] != routes[j] {
      var kind := if routes[i].path.Exact? then ExactKind else PrefixKind;
      assert DeclaredAt(routes[i], kind, Pieces(routes[i].path.value));
    }
    forall i | 0 <= i < |other| ensures !other[i].path.Regex? {
      assert other[i] in routes;
    }
    forall i, j, kind, segs | 0 <= i < j < |other| && DeclaredAt(other[i], kind, segs)
      ensures !DeclaredAt(other[j], kind, segs)
    {
      assert other[i] in routes && other[j] in routes;
      var a :| 0 <= a < |routes| && routes[a] == other[i];
      var b :| 0 <= b < |routes| && routes[b] == other[j];
      if a == b {
        TwiceInMultiset(other, i, j);
        OnceInMultiset(routes, other[i]);
        assert false;
      }
    }
  }

  lemma SameDeclared(routes: seq<Route>, other: seq<Route>, kind: Kind, segs: seq<string>)
    requires forall r :: r in routes <==> r in other
    requires DistinctPaths(routes) && DistinctPaths(other)
    ensures Declared(routes, kind, segs) == Declared(other, kind, segs)
  {
    DeclaredByMembership(routes, kind, segs);
    DeclaredByMembership(other, kind, segs);
    if r :| r in routes && DeclaredAt(r, kind, segs) {
      assert r in other;
    }
  }

  lemma {:induction false} SamePrefixTier(
    routes: seq<Route>, other: seq<Route>, segs: seq<string>, depth: nat, passes: Route -> bool)
    requires depth <= |segs|
    requires forall s :: Declared(routes, PrefixKind, s) == Declared(other, PrefixKind, s)
    ensures PrefixTier(routes, segs, depth, passes) == PrefixTier(other, segs, depth, passes)
  {
    var here := Declared(routes, PrefixKind, segs[..depth]);
    assert here == Declared(other, PrefixKind, segs[..depth]);
    assert LastPassing(here, passes) == LastPassing(Declared(other, PrefixKind, segs[..depth]), passes);
    if depth > 0 { SamePrefixTier(routes, other, segs, depth - 1, passes); }
  }

  lemma {:induction false} NoRegexTier(routes: seq<Route>)
    requires NoRegex(routes)
    ensures DeclaredRegex(routes) == []
  {
    if routes != [] { NoRegexTier(routes[..|routes| - 1]); }
  }

  /** With distinct exact and prefix paths and no regex, the order of declaration does not matter. */
  lemma ReorderingIsUnobservable(routes: seq<Route>, other: seq<Route>, req: Request)
    requires multiset(routes) == multiset(other)
    requires DistinctPaths(routes) && NoRegex(routes)
    ensures MatchSpec(routes, req) == MatchSpec(other, req)
  {
    ReorderingKeepsDistinct(routes, other);
    MembersOfReordering(routes, other);
    forall kind, s ensures Declared(routes, kind, s) == Declared(other, kind, s) {
      SameDeclared(routes, other, kind, s);
    }
    var segs := Pieces(req.path);
    SamePrefixTier(routes, other, segs, |segs|, req.passes);
    NoRegexTier(routes);
    NoRegexTier(other);
  }

  /**
   Harmless edits of the path are invisible to the exact and prefix tiers: a request they decide is
   decided the same way under every spelling of its path.
   */
  lemma SpellingsRouteAlike(routes: seq<Route>, req: Request, spellings: seq<string>)
    requires spellings != [] && spellings[0] == req.path
    requires forall k | 0 < k < |spellings| ::
               Similar(spellings[k - 1], spellings[k]) || Similar(spellings[k], spellings[k - 1])
    ensures var other := req.(path := spellings[|spellings| - 1]); var segs := Pieces(req.path);
            && ExactTier(routes, other) == ExactTier(routes, req)
            && PrefixTier(routes, Pieces(other.path), |Pieces(other.path)|, other.passes)
               == PrefixTier(routes, segs, |segs|, req.passes)
            && (ExactTier(routes, req).Some? || PrefixTier(routes, segs, |segs|, req.passes).Some? ==>
                  MatchSpec(routes, other) == MatchSpec(routes, req))
  {
    EditsAreIgnored(spellings);
    SegmentsOfNormalised(req.path);
    SegmentsOfNormalised(spellings[|spellings| - 1]);
  }
}
