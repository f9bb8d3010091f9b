/** `isPartOf` on types: can a value of one type lie inside a value of another? */
module TypeContainment {
  import opened Wrappers
  import opened TypeGraphs
  import opened TypeValues

  datatype AnalysisResult = ArNo | ArMaybe | ArYes

  // ---------------------------------------------------------------- the numbers that are marked

  /** The marker holds numbers of types; two types can have the same. */
  ghost function Ids(id: TypeId -> int, ts: set<TypeId>): set<int>
  {
    set t | t in ts :: id(t)
  }

  ghost predicate Injective(id: TypeId -> int, ts: set<TypeId>)
  {
    forall t, s :: t in ts && s in ts && id(t) == id(s) ==> t == s
  }

  lemma IdsOne(id: TypeId -> int, ts: set<TypeId>, t: TypeId)
    ensures Ids(id, ts + {t}) == Ids(id, ts) + {id(t)}
  {
  }

  /** A path of types whose numbers are different and not yet marked. */
  ghost predicate FreshPath(g: Graph, id: TypeId -> int, p: seq<TypeId>, marker: set<int>)
  {
    && |p| > 0 && p[0] in g && id(p[0]) !in marker
    && (|p| > 1 ==> p[1] in Inside(g[p[0]]) && FreshPath(g, id, p[1..], marker + {id(p[0])}))
  }

  ghost predicate FreshReaches(g: Graph, id: TypeId -> int, t: TypeId, x: TypeId, marker: set<int>)
  {
    exists p :: FreshPath(g, id, p, marker) && p[0] == t && p[|p| - 1] == x
  }

  lemma {:induction false} FresherPath(g: Graph, id: TypeId -> int, p: seq<TypeId>, marker: set<int>, less: set<int>)
    requires FreshPath(g, id, p, marker) && less <= marker
    ensures FreshPath(g, id, p, less) && IsPath(g, p)
  {
    if |p| > 1 {
      FresherPath(g, id, p[1..], marker + {id(p[0])}, less + {id(p[0])});
    }
  }

  lemma FreshReachesLess(g: Graph, id: TypeId -> int, t: TypeId, x: TypeId, marker: set<int>, less: set<int>)
    requires FreshReaches(g, id, t, x, marker) && less <= marker
    ensures FreshReaches(g, id, t, x, less) && Reaches(g, t, x)
  {
    var p :| FreshPath(g, id, p, marker) && p[0] == t && p[|p| - 1] == x;
    FresherPath(g, id, p, marker, less);
  }

  lemma FreshSelf(g: Graph, id: TypeId -> int, t: TypeId, marker: set<int>)
    requires t in g && id(t) !in marker
    ensures FreshReaches(g, id, t, t, marker)
  {
    assert FreshPath(g, id, [t], marker);
  }

  lemma FreshVia(g: Graph, id: TypeId -> int, t: TypeId, s: TypeId, x: TypeId, marker: set<int>)
    requires t in g && id(t) !in marker && s in Inside(g[t]) && FreshReaches(g, id, s, x, marker + {id(t)})
    ensures FreshReaches(g, id, t, x, marker)
  {
    var p :| FreshPath(g, id, p, marker + {id(t)}) && p[0] == s && p[|p| - 1] == x;
    var q := [t] + p;
    assert q[1..] == p;
    assert FreshPath(g, id, q, marker) && q[0] == t && q[|q| - 1] == x;
  }

  // ---------------------------------------------------------------- the search

  /** A witness: a match reached over numbers not marked before. */
  ghost predicate Found(g: Graph, id: TypeId -> int, from: set<TypeId>, hit: set<TypeId>, marker: set<int>)
  {
    exists t, x :: t in from && x in hit && FreshReaches(g, id, t, x, marker)
  }

  lemma FoundMore(g: Graph, id: TypeId -> int, from: set<TypeId>, all: set<TypeId>, hit: set<TypeId>, marker: set<int>, less: set<int>)
    requires Found(g, id, from, hit, marker) && from <= all && less <= marker
    ensures Found(g, id, all, hit, less)
  {
    var t, x :| t in from && x in hit && FreshReaches(g, id, t, x, marker);
    FreshReachesLess(g, id, t, x, marker, less);
  }

  /** A type that was marked is no match, and the numbers of all that lies inside it are marked as well. */
  ghost predicate Explored(g: Graph, id: TypeId -> int, t: TypeId, hit: set<TypeId>, marked: set<TypeId>)
  {
    t !in hit && t in g && Ids(id, Inside(g[t])) <= Ids(id, marked)
  }

  /** What a search from `from` has established that marked the numbers of `marked` before and those of `marked'` after it: a
      positive answer has a witness; after a negative one the numbers of `from` are marked and everything new is explored. */
  ghost predicate Searched(g: Graph, id: TypeId -> int, from: set<TypeId>, hit: set<TypeId>, marked: set<TypeId>,
                           result: AnalysisResult, marked': set<TypeId>)
  {
    marked <= marked' &&
    match result
    case ArYes => Found(g, id, from, hit, Ids(id, marked))
    case ArNo => Ids(id, from) <= Ids(id, marked') && forall t :: t in marked' - marked ==> Explored(g, id, t, hit, marked')
    case ArMaybe => false
  }

  /** The same, told by the marker alone. */
  ghost predicate Answered(g: Graph, id: TypeId -> int, from: set<TypeId>, hit: set<TypeId>, marker: set<int>, result: AnalysisResult,
                           marker': set<int>)
  {
    marker <= marker' &&
    match result
    case ArYes => Found(g, id, from, hit, marker)
    case ArNo => Ids(id, from) <= marker'
    case ArMaybe => false
  }

  lemma IdsMore(id: TypeId -> int, a: set<TypeId>, b: set<TypeId>)
    requires a <= b
    ensures Ids(id, a) <= Ids(id, b)
  {
  }

  lemma IdsBoth(id: TypeId -> int, a: set<TypeId>, b: set<TypeId>)
    ensures Ids(id, a + b) == Ids(id, a) + Ids(id, b)
  {
  }

  lemma SearchedBoth(g: Graph, id: TypeId -> int, from: set<TypeId>, also: set<TypeId>, hit: set<TypeId>,
                     m: set<TypeId>, m1: set<TypeId>, result: AnalysisResult, m2: set<TypeId>)
    requires Searched(g, id, from, hit, m, ArNo, m1) && Searched(g, id, also, hit, m1, result, m2)
    ensures Searched(g, id, from + also, hit, m, result, m2)
  {
    IdsMore(id, m, m1);
    IdsMore(id, m1, m2);
    if result == ArYes {
      FoundMore(g, id, also, from + also, hit, Ids(id, m1), Ids(id, m));
    } else {
      IdsBoth(id, from, also);
      forall t | t in m2 - m
        ensures Explored(g, id, t, hit, m2)
      {
        assert t in m1 - m ==> Explored(g, id, t, hit, m1);
      }
    }
  }

  lemma SearchedMore(g: Graph, id: TypeId -> int, from: set<TypeId>, all: set<TypeId>, hit: set<TypeId>, m: set<TypeId>, m': set<TypeId>)
    requires Searched(g, id, from, hit, m, ArYes, m') && from <= all
    ensures Searched(g, id, all, hit, m, ArYes, m')
  {
    FoundMore(g, id, from, all, hit, Ids(id, m), Ids(id, m));
  }

  /** One more step of a loop that searches `all` piece by piece. */
  lemma SearchedNext(g: Graph, id: TypeId -> int, done: set<TypeId>, next: set<TypeId>, rest: set<TypeId>, all: set<TypeId>, hit: set<TypeId>,
                     m: set<TypeId>, m1: set<TypeId>, result: AnalysisResult, m2: set<TypeId>)
    requires done + (next + rest) == all
    requires Searched(g, id, done, hit, m, ArNo, m1) && Searched(g, id, next, hit, m1, result, m2)
    ensures (done + next) + rest == all && result != ArMaybe
    ensures result == ArNo ==> Searched(g, id, done + next, hit, m, ArNo, m2)
    ensures result == ArYes ==> Searched(g, id, all, hit, m, ArYes, m2)
  {
    SearchedBoth(g, id, done, next, hit, m, m1, result, m2);
    if result == ArYes {
      SearchedMore(g, id, done + next, all, hit, m, m2);
    }
  }

  /** Marking a type and then searching what lies inside it searches the type. */
  lemma SearchedInside(g: Graph, id: TypeId -> int, t: TypeId, hit: set<TypeId>, marked: set<TypeId>, result: AnalysisResult, marked': set<TypeId>)
    requires t in g && t !in hit && id(t) !in Ids(id, marked) && Searched(g, id, Inside(g[t]), hit, marked + {t}, result, marked')
    ensures Searched(g, id, {t}, hit, marked, result, marked')
  {
    if result == ArYes {
      var s, x :| s in Inside(g[t]) && x in hit && FreshReaches(g, id, s, x, Ids(id, marked + {t}));
      IdsOne(id, marked, t);
      FreshVia(g, id, t, s, x, Ids(id, marked));
    }
  }

  /** A search that started with an empty marker: a positive answer is right, and so is a negative one if no two of the types
      met share a number. */
  lemma SearchedAll(g: Graph, id: TypeId -> int, t: TypeId, hit: set<TypeId>, d: set<TypeId>, result: AnalysisResult, marked': set<TypeId>)
    requires t in d && Closed(g, d) && marked' <= d && Searched(g, id, {t}, hit, {}, result, marked')
    ensures result == ArYes ==> exists x :: x in hit && FreshReaches(g, id, t, x, {}) && Reaches(g, t, x)
    ensures Injective(id, d) ==> (result == ArYes <==> exists x :: x in hit && Reaches(g, t, x))
    ensures result != ArMaybe
  {
    if result == ArYes {
      var s, x :| s in {t} && x in hit && FreshReaches(g, id, s, x, Ids(id, {}));
      FreshReachesLess(g, id, t, x, Ids(id, {}), {});
    } else if Injective(id, d) && exists x :: x in hit && Reaches(g, t, x) {
      var x :| x in hit && Reaches(g, t, x);
      var p :| IsPath(g, p) && p[0] == t && p[|p| - 1] == x;
      MarkedByNumber(id, {t}, d, marked');
      MarkedClosed(g, id, hit, d, marked');
      PathStays(g, p, marked');
    }
  }

  lemma MarkedByNumber(id: TypeId -> int, ts: set<TypeId>, d: set<TypeId>, marked: set<TypeId>)
    requires Injective(id, d) && ts <= d && marked <= d && Ids(id, ts) <= Ids(id, marked)
    ensures ts <= marked
  {
    forall t | t in ts
      ensures t in marked
    {
      assert id(t) in Ids(id, marked);
    }
  }

  lemma MarkedClosed(g: Graph, id: TypeId -> int, hit: set<TypeId>, d: set<TypeId>, marked: set<TypeId>)
    requires Injective(id, d) && Closed(g, d) && marked <= d && forall t :: t in marked ==> Explored(g, id, t, hit, marked)
    ensures Closed(g, marked)
  {
    forall t | t in marked
      ensures t in g && Inside(g[t]) <= marked
    {
      MarkedByNumber(id, Inside(g[t]), d, marked);
    }
  }

  /** The types that `compareTypes` equates with `b`; `matches` stands for it. */
  ghost function Hits(g: Graph, b: TypeId, matches: (TypeId, TypeId) -> bool): set<TypeId>
  {
    set x | x in g && matches(x, b)
  }

  /** The numbers of `d` that are not marked yet. */
  ghost function Room(id: TypeId -> int, d: set<TypeId>, marker: set<int>): nat
  {
    |Ids(id, d) - marker|
  }

  lemma RoomShrinks(id: TypeId -> int, d: set<TypeId>, marker: set<int>, marker': set<int>)
    requires marker <= marker'
    ensures Room(id, d, marker') <= Room(id, d, marker)
    ensures (exists i :: i in Ids(id, d) && i in marker' && i !in marker) ==> Room(id, d, marker') < Room(id, d, marker)
  {
    var more, less := Ids(id, d) - marker, Ids(id, d) - marker';
    assert more == less + (more - less);
    if i :| i in Ids(id, d) && i in marker' && i !in marker {
      assert i in more - less;
    }
  }

  /** What every step of the search needs and keeps: the marker holds the numbers of types in `d`. */
  ghost predicate Marks(id: TypeId -> int, d: set<TypeId>, marker: set<int>, marked: set<TypeId>)
  {
    marked <= d && marker == Ids(id, marked)
  }

  method IsPartOfRec(g: Graph, id: TypeId -> int, n: Rec, b: TypeId, matches: (TypeId, TypeId) -> bool, marker: set<int>,
                     ghost d: set<TypeId>, ghost marked: set<TypeId>)
    returns (result: AnalysisResult, marker': set<int>, ghost marked': set<TypeId>)
    requires Closed(g, d) && InRec(n) <= d && Marks(id, d, marker, marked)
    ensures Marks(id, d, marker', marked') && Searched(g, id, InRec(n), Hits(g, b, matches), marked, result, marked')
    ensures Answered(g, id, InRec(n), Hits(g, b, matches), marker, result, marker')
    decreases Room(id, d, marker), 1, n
  {
    ghost var hit := Hits(g, b, matches);
    result, marker', marked' := ArNo, marker, marked;
    match n
    case RecList(kids) =>
      result, marker', marked' := SearchKids(g, id, kids, b, matches, marker, d, marked);
    case RecCase(discriminator, branches) =>
      result, marker', marked' := IsPartOfType(g, id, discriminator, b, matches, marker, d, marked);
      if result == ArYes {
        SearchedMore(g, id, Opt(discriminator), InRec(n), hit, marked, marked');
        return;
      }
      ghost var before := marked';
      IdsMore(id, marked, marked');
      RoomShrinks(id, d, marker, marker');
      result, marker', marked' := SearchBranches(g, id, branches, b, matches, marker', d, marked');
      SearchedBoth(g, id, Opt(discriminator), InBranches(branches), hit, marked, before, result, marked');
    case RecSym(t) =>
      result, marker', marked' := IsPartOfType(g, id, t, b, matches, marker, d, marked);
    case OtherRec =>
  }

  method SearchKids(g: Graph, id: TypeId -> int, kids: seq<Rec>, b: TypeId, matches: (TypeId, TypeId) -> bool, marker: set<int>,
                    ghost d: set<TypeId>, ghost marked: set<TypeId>)
    returns (result: AnalysisResult, marker': set<int>, ghost marked': set<TypeId>)
    requires Closed(g, d) && InRecs(kids) <= d && Marks(id, d, marker, marked)
    ensures Marks(id, d, marker', marked') && Searched(g, id, InRecs(kids), Hits(g, b, matches), marked, result, marked')
    decreases Room(id, d, marker), 1, kids
  {
    ghost var hit := Hits(g, b, matches);
    result, marker', marked' := ArNo, marker, marked;
    ghost var done: set<TypeId> := {};
    for i := 0 to |kids|
      invariant done + InRecs(kids[i..]) == InRecs(kids) && result == ArNo
      invariant Marks(id, d, marker', marked') && Searched(g, id, done, hit, marked, ArNo, marked')
    {
      assert kids[i..][0] == kids[i] && kids[i..][1..] == kids[i + 1..];
      IdsMore(id, marked, marked');
      RoomShrinks(id, d, marker, marker');
      ghost var before := marked';
      result, marker', marked' := IsPartOfRec(g, id, kids[i], b, matches, marker', d, marked');
      SearchedNext(g, id, done, InRec(kids[i]), InRecs(kids[i + 1..]), InRecs(kids), hit, marked, before, result, marked');
      done := done + InRec(kids[i]);
      if result == ArYes {
        return;
      }
    }
  }

  method SearchBranches(g: Graph, id: TypeId -> int, branches: seq<Branch>, b: TypeId, matches: (TypeId, TypeId) -> bool, marker: set<int>,
                        ghost d: set<TypeId>, ghost marked: set<TypeId>)
    returns (result: AnalysisResult, marker': set<int>, ghost marked': set<TypeId>)
    requires Closed(g, d) && InBranches(branches) <= d && Marks(id, d, marker, marked)
    ensures Marks(id, d, marker', marked') && Searched(g, id, InBranches(branches), Hits(g, b, matches), marked, result, marked')
    decreases Room(id, d, marker), 1, branches
  {
    ghost var hit := Hits(g, b, matches);
    result, marker', marked' := ArNo, marker, marked;
    ghost var done: set<TypeId> := {};
    for i := 0 to |branches|
      invariant done + InBranches(branches[i..]) == InBranches(branches) && result == ArNo
      invariant Marks(id, d, marker', marked') && Searched(g, id, done, hit, marked, ArNo, marked')
    {
      assert branches[i..][0] == branches[i] && branches[i..][1..] == branches[i + 1..];
      IdsMore(id, marked, marked');
      RoomShrinks(id, d, marker, marker');
      ghost var before := marked';
      result, marker', marked' := IsPartOfBranch(g, id, branches[i], b, matches, marker', d, marked');
      SearchedNext(g, id, done, InBranch(branches[i]), InBranches(branches[i + 1..]), InBranches(branches), hit, marked, before, result, marked');
      done := done + InBranch(branches[i]);
      if result == ArYes {
        return;
      }
    }
  }

  method IsPartOfBranch(g: Graph, id: TypeId -> int, br: Branch, b: TypeId, matches: (TypeId, TypeId) -> bool, marker: set<int>,
                        ghost d: set<TypeId>, ghost marked: set<TypeId>)
    returns (result: AnalysisResult, marker': set<int>, ghost marked': set<TypeId>)
    requires Closed(g, d) && InBranch(br) <= d && Marks(id, d, marker, marked)
    ensures Marks(id, d, marker', marked') && Searched(g, id, InBranch(br), Hits(g, b, matches), marked, result, marked')
    decreases Room(id, d, marker), 1, br
  {
    result, marker', marked' := ArNo, marker, marked;
    match br
    case Branch(last) =>
      result, marker', marked' := IsPartOfRec(g, id, last, b, matches, marker, d, marked);
    case NoBranch =>
  }

  method IsPartOfType(g: Graph, id: TypeId -> int, a: Option<TypeId>, b: TypeId, matches: (TypeId, TypeId) -> bool, marker: set<int>,
                      ghost d: set<TypeId>, ghost marked: set<TypeId>)
    returns (result: AnalysisResult, marker': set<int>, ghost marked': set<TypeId>)
    requires Closed(g, d) && Opt(a) <= d && Marks(id, d, marker, marked)
    ensures Marks(id, d, marker', marked') && Searched(g, id, Opt(a), Hits(g, b, matches), marked, result, marked')
    ensures Answered(g, id, Opt(a), Hits(g, b, matches), marker, result, marker')
    decreases Room(id, d, marker), 0
  {
    ghost var hit := Hits(g, b, matches);
    result, marker', marked' := ArNo, marker, marked;
    if a.None? {
      return;
    }
    var t := a.value;
    assert t in Opt(a);
    if id(t) in marker {
      return;
    }
    marker', marked' := marker + {id(t)}, marked + {t};
    IdsOne(id, marked, t);
    RoomShrinks(id, d, marker, marker');
    if matches(t, b) {
      FreshSelf(g, id, t, Ids(id, marked));
      assert t in hit;
      return ArYes, marker', marked';
    }
    result, marker', marked' := SearchInside(g, id, t, b, matches, marker', d, marked');
    SearchedInside(g, id, t, hit, marked, result, marked');
  }

  /** The types directly inside `t`, kind by kind. */
  method SearchInside(g: Graph, id: TypeId -> int, t: TypeId, b: TypeId, matches: (TypeId, TypeId) -> bool, marker: set<int>,
                      ghost d: set<TypeId>, ghost marked: set<TypeId>)
    returns (result: AnalysisResult, marker': set<int>, ghost marked': set<TypeId>)
    requires Closed(g, d) && t in d && t in g && Marks(id, d, marker, marked)
    ensures Marks(id, d, marker', marked') && Searched(g, id, Inside(g[t]), Hits(g, b, matches), marked, result, marked')
    decreases Room(id, d, marker), 2, 1
  {
    result, marker', marked' := ArNo, marker, marked;
    match g[t]
    case Object(base, n) =>
      result, marker', marked' := SearchObject(g, id, base, n, b, matches, marker, d, marked);
    case Modifier(son) =>
      result, marker', marked' := IsPartOfType(g, id, son, b, matches, marker, d, marked);
    case SetOrArray(elem) =>
      result, marker', marked' := IsPartOfType(g, id, elem, b, matches, marker, d, marked);
    case Tuple(kids) =>
      result, marker', marked' := SearchTuple(g, id, kids, b, matches, marker, d, marked);
    case OtherType =>
  }

  method SearchObject(g: Graph, id: TypeId -> int, base: Option<TypeId>, n: Rec, b: TypeId, matches: (TypeId, TypeId) -> bool, marker: set<int>,
                      ghost d: set<TypeId>, ghost marked: set<TypeId>)
    returns (result: AnalysisResult, marker': set<int>, ghost marked': set<TypeId>)
    requires Closed(g, d) && Opt(base) + InRec(n) <= d && Marks(id, d, marker, marked)
    ensures Marks(id, d, marker', marked') && Searched(g, id, Opt(base) + InRec(n), Hits(g, b, matches), marked, result, marked')
    decreases Room(id, d, marker), 2, 0
  {
    ghost var hit := Hits(g, b, matches);
    result, marker', marked' := IsPartOfType(g, id, base, b, matches, marker, d, marked);
    if result == ArNo {
      IdsMore(id, marked, marked');
      RoomShrinks(id, d, marker, marker');
      ghost var before := marked';
      result, marker', marked' := IsPartOfRec(g, id, n, b, matches, marker', d, marked');
      SearchedBoth(g, id, Opt(base), InRec(n), hit, marked, before, result, marked');
    } else {
      SearchedMore(g, id, Opt(base), Opt(base) + InRec(n), hit, marked, marked');
    }
  }

  method SearchTuple(g: Graph, id: TypeId -> int, kids: seq<Option<TypeId>>, b: TypeId, matches: (TypeId, TypeId) -> bool, marker: set<int>,
                     ghost d: set<TypeId>, ghost marked: set<TypeId>)
    returns (result: AnalysisResult, marker': set<int>, ghost marked': set<TypeId>)
    requires Closed(g, d) && OptAll(kids) <= d && Marks(id, d, marker, marked)
    ensures Marks(id, d, marker', marked') && Searched(g, id, OptAll(kids), Hits(g, b, matches), marked, result, marked')
    decreases Room(id, d, marker), 1
  {
    ghost var hit := Hits(g, b, matches);
    result, marker', marked' := ArNo, marker, marked;
    ghost var done: set<TypeId> := {};
    for i := 0 to |kids|
      invariant done + OptAll(kids[i..]) == OptAll(kids) && result == ArNo
      invariant Marks(id, d, marker', marked') && Searched(g, id, done, hit, marked, ArNo, marked')
    {
      assert kids[i..][0] == kids[i] && kids[i..][1..] == kids[i + 1..];
      IdsMore(id, marked, marked');
      RoomShrinks(id, d, marker, marker');
      ghost var before := marked';
      result, marker', marked' := IsPartOfType(g, id, kids[i], b, matches, marker', d, marked');
      SearchedNext(g, id, done, Opt(kids[i]), OptAll(kids[i + 1..]), OptAll(kids), hit, marked, before, result, marked');
      done := done + Opt(kids[i]);
      if result == ArYes {
        return;
      }
    }
  }

  /** Whether `a` can be part of `b`: a positive answer means that following value edges from `b`, over types with different
      numbers, meets a type that matches `a`.  If no two types that `b` reaches share a number, the answer is positive exactly
      if any path does, however cyclic the graph is: the marker shared by all branches hides nothing. */
  method IsPartOf(g: Graph, id: TypeId -> int, a: Option<TypeId>, b: Option<TypeId>, matches: (TypeId, TypeId) -> bool)
    returns (result: AnalysisResult)
    requires Closed(g, g.Keys) && Opt(b) <= g.Keys
    ensures result == ArYes || result == ArNo
    ensures result == ArYes ==> a.Some? && b.Some? && exists x :: x in Hits(g, a.value, matches) && FreshReaches(g, id, b.value, x, {})
    ensures a.None? || b.None? || Injective(id, AllReached(g, b.value)) ==>
      (result == ArYes <==> a.Some? && b.Some? && exists x :: x in Hits(g, a.value, matches) && Reaches(g, b.value, x))
    ensures a.Some? && b.Some? && Injective(id, AllReached(g, b.value)) && result == ArNo ==>
      forall x :: x in g && matches(x, a.value) ==> !HasPart(g, b.value, x)
    ensures a.Some? && b.Some? && Injective(id, AllReached(g, b.value)) && AllLive(g, AllReached(g, b.value)) && result == ArYes ==>
      exists x :: x in g && matches(x, a.value) && HasPart(g, b.value, x)
  {
    if a.None? || b.None? {
      return ArNo;
    }
    var marker;
    ghost var marked;
    assert b.value in Opt(b);
    ReachedClosed(g, b.value);
    ghost var d := AllReached(g, b.value);
    result, marker, marked := IsPartOfType(g, id, b, a.value, matches, {}, d, {});
    SearchedAll(g, id, b.value, Hits(g, a.value, matches), d, result, marked);
    PartsFound(g, a.value, b.value, matches);
  }

  lemma PartsFound(g: Graph, a: TypeId, b: TypeId, matches: (TypeId, TypeId) -> bool)
    requires b in g && Closed(g, g.Keys)
    ensures (exists x :: x in g && matches(x, a) && HasPart(g, b, x)) ==> exists x :: x in Hits(g, a, matches) && Reaches(g, b, x)
    ensures AllLive(g, AllReached(g, b)) && (exists x :: x in Hits(g, a, matches) && Reaches(g, b, x)) ==>
      exists x :: x in g && matches(x, a) && HasPart(g, b, x)
  {
    if x :| x in g && matches(x, a) && HasPart(g, b, x) {
      PartsReached(g, b, x);
    }
    if x :| x in Hits(g, a, matches) && Reaches(g, b, x) {
      PartsReached(g, b, x);
    }
  }

  lemma SingleInside(g: Graph, outer: TypeId, inner: TypeId)
    requires outer in g && g[outer] == Modifier(Some(inner)) && inner in g && g[inner] == OtherType
    ensures HasPart(g, outer, inner)
  {
    var last := [Typed(Atom, inner)];
    var p := [Typed(Single(Atom), outer)] + last;
    assert Has(g, Atom, Some(inner)) && PartChain(g, last);
    assert p[1..] == last && PartChain(g, p);
  }

  /** Two types with one number: the second is taken for the first and skipped. */
  method SameNumber(matches: (TypeId, TypeId) -> bool, id: TypeId -> int, outer: TypeId, inner: TypeId) returns (result: AnalysisResult)
    requires outer != inner && id(outer) == id(inner) && matches(inner, inner) && !matches(outer, inner)
    ensures result == ArNo
    ensures Reaches(map[outer := Modifier(Some(inner)), inner := OtherType], outer, inner)
    ensures HasPart(map[outer := Modifier(Some(inner)), inner := OtherType], outer, inner)
  {
    var g := map[outer := Modifier(Some(inner)), inner := OtherType];
    result := IsPartOf(g, id, Some(inner), Some(outer), matches);
    assert [outer, inner][1..] == [inner] && IsPath(g, [inner]);
    assert IsPath(g, [outer, inner]) && [outer, inner][0] == outer && [outer, inner][1] == inner;
    SingleInside(g, outer, inner);
    forall x | x in Hits(g, inner, matches)
      ensures !FreshReaches(g, id, outer, x, {})
    {
      NoFreshPath(g, id, outer, inner, x);
    }
  }

  lemma NoFreshPath(g: Graph, id: TypeId -> int, outer: TypeId, inner: TypeId, x: TypeId)
    requires g == map[outer := Modifier(Some(inner)), inner := OtherType] && outer != inner && id(outer) == id(inner) && x != outer
    ensures !FreshReaches(g, id, outer, x, {})
  {
    if p :| FreshPath(g, id, p, {}) && p[0] == outer && p[|p| - 1] == x {
      NextFresh(g, id, p, {});
      assert false;
    }
  }

  lemma NextFresh(g: Graph, id: TypeId -> int, p: seq<TypeId>, marker: set<int>)
    requires FreshPath(g, id, p, marker)
    ensures |p| > 1 ==> p[1] in Inside(g[p[0]]) && id(p[1]) != id(p[0])
  {
    if |p| > 1 {
      assert p[1..][0] == p[1];
    }
  }
}
