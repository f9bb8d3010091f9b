/** What the types mean: which finite values they have, and what is part of a value.  It is told without asking which type lies
    inside which, and decides when the one implies the other. */
module TypeValues {
  import opened Wrappers
  import opened TypeGraphs

  /** An object has its base part and its fields, a variable of a modified type one value, a set or an array its elements. */
  datatype Value =
    | Atom
    | Obj(base: Value, fields: RecValue)
    | Single(inner: Value)
    | Elems(elems: seq<Value>)
    | Tup(kids: seq<Value>)

  /** The fields of a record; of the branches of a case only the one that is chosen. */
  datatype RecValue =
    | NoFields
    | Field(v: Value)
    | Fields(kids: seq<RecValue>)
    | Chosen(discriminator: Value, branch: Option<nat>, fields: RecValue)

  /** A component without a type has nothing inside. */
  ghost predicate Has(g: Graph, v: Value, t: Option<TypeId>)
    decreases v, 1
  {
    if t.None? then v == Atom else t.value in g && HasType(g, v, g[t.value])
  }

  ghost predicate HasType(g: Graph, v: Value, ty: Type)
    decreases v, 0
  {
    match ty
    case Object(base, n) => v.Obj? && Has(g, v.base, base) && HasRec(g, v.fields, n)
    case Modifier(son) => v.Single? && Has(g, v.inner, son)
    case SetOrArray(elem) => v.Elems? && forall i :: 0 <= i < |v.elems| ==> Has(g, v.elems[i], elem)
    case Tuple(kids) => v.Tup? && |v.kids| == |kids| && forall i :: 0 <= i < |kids| ==> Has(g, v.kids[i], kids[i])
    case OtherType => v == Atom
  }

  ghost predicate HasRec(g: Graph, r: RecValue, n: Rec)
    decreases r, 1
  {
    match n
    case RecList(ns) => r.Fields? && |r.kids| == |ns| && forall i :: 0 <= i < |ns| ==> HasRec(g, r.kids[i], ns[i])
    case RecCase(d, bs) =>
      && r.Chosen? && Has(g, r.discriminator, d)
      && (if r.branch.None? then r.fields == NoFields && (forall b :: b in bs ==> b.NoBranch?)
          else r.branch.value < |bs| && bs[r.branch.value].Branch? && HasRec(g, r.fields, bs[r.branch.value].last))
    case RecSym(t) => r.Field? && Has(g, r.v, t)
    case OtherRec => r == NoFields
  }

  /** `u` is a component of type `s` of the value `v` of the type `ty`. */
  ghost predicate Direct(v: Value, ty: Type, u: Value, s: TypeId)
  {
    match ty
    case Object(base, n) => v.Obj? && ((base == Some(s) && u == v.base) || DirectRec(v.fields, n, u, s))
    case Modifier(son) => v.Single? && son == Some(s) && u == v.inner
    case SetOrArray(elem) => v.Elems? && elem == Some(s) && u in v.elems
    case Tuple(kids) => v.Tup? && exists i :: 0 <= i < |kids| && i < |v.kids| && kids[i] == Some(s) && v.kids[i] == u
    case OtherType => false
  }

  ghost predicate DirectRec(r: RecValue, n: Rec, u: Value, s: TypeId)
    decreases n
  {
    match n
    case RecList(ns) => r.Fields? && exists i :: 0 <= i < |ns| && i < |r.kids| && DirectRec(r.kids[i], ns[i], u, s)
    case RecCase(d, bs) =>
      r.Chosen? && ((d == Some(s) && u == r.discriminator) ||
        (r.branch.Some? && r.branch.value < |bs| && bs[r.branch.value].Branch? && DirectRec(r.fields, bs[r.branch.value].last, u, s)))
    case RecSym(t) => r.Field? && t == Some(s) && u == r.v
    case OtherRec => false
  }

  datatype Typed = Typed(v: Value, t: TypeId)

  /** Values with their types, each a component of the one before it. */
  ghost predicate PartChain(g: Graph, p: seq<Typed>)
  {
    && |p| > 0 && p[0].t in g && HasType(g, p[0].v, g[p[0].t])
    && (|p| > 1 ==> Direct(p[0].v, g[p[0].t], p[1].v, p[1].t) && PartChain(g, p[1..]))
  }

  /** Some value of the type `b` has a part of the type `x`, perhaps itself. */
  ghost predicate HasPart(g: Graph, b: TypeId, x: TypeId)
  {
    exists p: seq<Typed> :: PartChain(g, p) && p[0].t == b && p[|p| - 1].t == x
  }

  // ---------------------------------------------------------------- types that have a value

  ghost predicate Inhabited(g: Graph, t: TypeId)
  {
    t in g && exists v :: HasType(g, v, g[t])
  }

  ghost predicate OptLive(g: Graph, t: Option<TypeId>)
  {
    t.Some? ==> Inhabited(g, t.value)
  }

  /** The record has a value. */
  ghost predicate RecLive(g: Graph, n: Rec)
  {
    match n
    case RecList(ns) => forall i :: 0 <= i < |ns| ==> RecLive(g, ns[i])
    case RecCase(d, bs) => OptLive(g, d) && ((forall b :: b in bs ==> b.NoBranch?) || exists i :: 0 <= i < |bs| && BranchLive(g, bs[i]))
    case RecSym(t) => OptLive(g, t)
    case OtherRec => true
  }

  ghost predicate BranchLive(g: Graph, b: Branch)
  {
    b.Branch? && RecLive(g, b.last)
  }

  ghost predicate InRecLive(g: Graph, n: Rec, s: TypeId)
  {
    RecLive(g, n) && Inhabited(g, s) &&
    match n
    case RecList(ns) => exists i :: 0 <= i < |ns| && InRecLive(g, ns[i], s)
    case RecCase(d, bs) => d == Some(s) || exists i :: 0 <= i < |bs| && bs[i].Branch? && InRecLive(g, bs[i].last, s)
    case RecSym(t) => t == Some(s)
    case OtherRec => false
  }

  /** `s` lies inside a value of the type `ty`, all of whose other components have values too. */
  ghost predicate LiveInside(g: Graph, ty: Type, s: TypeId)
  {
    Inhabited(g, s) &&
    match ty
    case Object(base, n) => OptLive(g, base) && RecLive(g, n) && (base == Some(s) || InRecLive(g, n, s))
    case Modifier(son) => son == Some(s)
    case SetOrArray(elem) => elem == Some(s)
    case Tuple(kids) => (forall i :: 0 <= i < |kids| ==> OptLive(g, kids[i])) && Some(s) in kids
    case OtherType => false
  }

  lemma OptValue(g: Graph, t: Option<TypeId>) returns (v: Value)
    requires OptLive(g, t)
    ensures Has(g, v, t)
  {
    v := Atom;
    if t.Some? {
      v :| HasType(g, v, g[t.value]);
    }
  }

  lemma {:induction false} MakeRec(g: Graph, n: Rec) returns (r: RecValue)
    requires RecLive(g, n)
    ensures HasRec(g, r, n)
    decreases n, 1
  {
    match n
    case RecList(ns) =>
      var rs := MakeRecs(g, ns);
      r := Fields(rs);
    case RecCase(d, bs) =>
      var dv := OptValue(g, d);
      if forall b :: b in bs ==> b.NoBranch? {
        r := Chosen(dv, None, NoFields);
      } else {
        var i :| 0 <= i < |bs| && BranchLive(g, bs[i]);
        var f := MakeRec(g, bs[i].last);
        r := Chosen(dv, Some(i), f);
      }
    case RecSym(t) =>
      var v := OptValue(g, t);
      r := Field(v);
    case OtherRec => r := NoFields;
  }

  lemma {:induction false} MakeRecs(g: Graph, ns: seq<Rec>) returns (rs: seq<RecValue>)
    requires forall i :: 0 <= i < |ns| ==> RecLive(g, ns[i])
    ensures |rs| == |ns| && forall i :: 0 <= i < |ns| ==> HasRec(g, rs[i], ns[i])
    decreases ns, 0
  {
    rs := [];
    if ns != [] {
      var r := MakeRec(g, ns[0]);
      var rest := MakeRecs(g, ns[1..]);
      rs := [r] + rest;
      forall i | 0 <= i < |ns|
        ensures HasRec(g, rs[i], ns[i])
      {
        if i > 0 { assert rs[i] == rest[i - 1] && ns[i] == ns[1..][i - 1]; }
      }
    }
  }

  /** A record value with `u` among its fields. */
  lemma {:induction false} MakeRecWith(g: Graph, n: Rec, u: Value, s: TypeId) returns (r: RecValue)
    requires InRecLive(g, n, s) && Has(g, u, Some(s))
    ensures HasRec(g, r, n) && DirectRec(r, n, u, s)
  {
    match n
    case RecList(ns) =>
      var i :| 0 <= i < |ns| && InRecLive(g, ns[i], s);
      var rs := MakeRecs(g, ns);
      var f := MakeRecWith(g, ns[i], u, s);
      r := Fields(rs[i := f]);
      assert DirectRec(r.kids[i], ns[i], u, s);
    case RecCase(d, bs) =>
      if d == Some(s) {
        var other := MakeRec(g, n);
        r := other.(discriminator := u);
      } else {
        var dv := OptValue(g, d);
        var i :| 0 <= i < |bs| && bs[i].Branch? && InRecLive(g, bs[i].last, s);
        var f := MakeRecWith(g, bs[i].last, u, s);
        r := Chosen(dv, Some(i), f);
      }
    case RecSym(t) => r := Field(u);
    case OtherRec =>
  }

  lemma {:induction false} MakeKids(g: Graph, kids: seq<Option<TypeId>>) returns (vs: seq<Value>)
    requires forall i :: 0 <= i < |kids| ==> OptLive(g, kids[i])
    ensures |vs| == |kids| && forall i :: 0 <= i < |kids| ==> Has(g, vs[i], kids[i])
  {
    vs := [];
    if kids != [] {
      var v := OptValue(g, kids[0]);
      var rest := MakeKids(g, kids[1..]);
      vs := [v] + rest;
      forall i | 0 <= i < |kids|
        ensures Has(g, vs[i], kids[i])
      {
        if i > 0 { assert vs[i] == rest[i - 1] && kids[i] == kids[1..][i - 1]; }
      }
    }
  }

  /** A value with `u` among its components. */
  lemma MakeWith(g: Graph, ty: Type, u: Value, s: TypeId) returns (v: Value)
    requires LiveInside(g, ty, s) && Has(g, u, Some(s))
    ensures HasType(g, v, ty) && Direct(v, ty, u, s)
  {
    match ty
    case Object(base, n) =>
      if base == Some(s) {
        var r := MakeRec(g, n);
        v := Obj(u, r);
      } else {
        var b := OptValue(g, base);
        var r := MakeRecWith(g, n, u, s);
        v := Obj(b, r);
      }
    case Modifier(_) => v := Single(u);
    case SetOrArray(_) => v := Elems([u]);
    case Tuple(kids) =>
      var i :| 0 <= i < |kids| && kids[i] == Some(s);
      var vs := MakeKids(g, kids);
      v := Tup(vs[i := u]);
      assert v.kids[i] == u;
    case OtherType =>
  }

  // ---------------------------------------------------------------- and back

  lemma HasLive(g: Graph, v: Value, t: Option<TypeId>)
    requires Has(g, v, t)
    ensures OptLive(g, t)
  {
    if t.Some? {
      assert HasType(g, v, g[t.value]);
    }
  }

  lemma {:induction false} RecHasValue(g: Graph, r: RecValue, n: Rec)
    requires HasRec(g, r, n)
    ensures RecLive(g, n)
    decreases n
  {
    match n
    case RecList(ns) =>
      forall i | 0 <= i < |ns|
        ensures RecLive(g, ns[i])
      {
        RecHasValue(g, r.kids[i], ns[i]);
      }
    case RecSym(t) => HasLive(g, r.v, t);
    case RecCase(d, bs) =>
      HasLive(g, r.discriminator, d);
      if r.branch.Some? {
        RecHasValue(g, r.fields, bs[r.branch.value].last);
        assert BranchLive(g, bs[r.branch.value]);
      }
    case _ =>
  }

  lemma {:induction false} DirectInRec(g: Graph, r: RecValue, n: Rec, u: Value, s: TypeId)
    requires HasRec(g, r, n) && DirectRec(r, n, u, s)
    ensures InRecLive(g, n, s) && Has(g, u, Some(s))
    decreases n
  {
    RecHasValue(g, r, n);
    match n
    case RecList(ns) =>
      var i :| 0 <= i < |ns| && DirectRec(r.kids[i], ns[i], u, s);
      DirectInRec(g, r.kids[i], ns[i], u, s);
    case RecCase(d, bs) =>
      if !(d == Some(s) && u == r.discriminator) {
        DirectInRec(g, r.fields, bs[r.branch.value].last, u, s);
      }
    case _ =>
  }

  lemma DirectIsInside(g: Graph, v: Value, ty: Type, u: Value, s: TypeId)
    requires HasType(g, v, ty) && Direct(v, ty, u, s)
    ensures LiveInside(g, ty, s) && Has(g, u, Some(s))
  {
    match ty
    case Object(base, n) =>
      HasLive(g, v.base, base);
      RecHasValue(g, v.fields, n);
      if !(base == Some(s) && u == v.base) {
        DirectInRec(g, v.fields, n, u, s);
      }
    case Tuple(kids) =>
      var i :| 0 <= i < |kids| && kids[i] == Some(s) && v.kids[i] == u;
      assert Has(g, v.kids[i], kids[i]);
      forall j | 0 <= j < |kids|
        ensures OptLive(g, kids[j])
      {
        HasLive(g, v.kids[j], kids[j]);
      }
    case SetOrArray(elem) =>
      var i :| 0 <= i < |v.elems| && v.elems[i] == u;
      HasLive(g, v.elems[i], elem);
    case Modifier(son) => HasLive(g, v.inner, son);
    case OtherType =>
  }

  // ---------------------------------------------------------------- parts and paths

  ghost predicate LivePath(g: Graph, p: seq<TypeId>)
  {
    |p| > 0 && Inhabited(g, p[0]) && (|p| > 1 ==> LiveInside(g, g[p[0]], p[1]) && LivePath(g, p[1..]))
  }

  ghost predicate LiveReaches(g: Graph, b: TypeId, x: TypeId)
  {
    exists p :: LivePath(g, p) && p[0] == b && p[|p| - 1] == x
  }

  lemma {:induction false} ChainToPath(g: Graph, p: seq<Typed>) returns (q: seq<TypeId>)
    requires PartChain(g, p)
    ensures LivePath(g, q) && q[0] == p[0].t && q[|q| - 1] == p[|p| - 1].t
  {
    q := [p[0].t];
    if |p| > 1 {
      var rest := ChainToPath(g, p[1..]);
      DirectIsInside(g, p[0].v, g[p[0].t], p[1].v, p[1].t);
      q := [p[0].t] + rest;
      assert q[1..] == rest;
    }
  }

  lemma {:induction false} PathToChain(g: Graph, q: seq<TypeId>) returns (p: seq<Typed>)
    requires LivePath(g, q)
    ensures PartChain(g, p) && p[0].t == q[0] && p[|p| - 1].t == q[|q| - 1]
  {
    if |q| == 1 {
      var v :| HasType(g, v, g[q[0]]);
      p := [Typed(v, q[0])];
    } else {
      var rest := PathToChain(g, q[1..]);
      var v := MakeWith(g, g[q[0]], rest[0].v, q[1]);
      p := [Typed(v, q[0])] + rest;
      assert p[1..] == rest;
    }
  }

  /** Some value of `b` has a part of the type `x` exactly if `x` is reached over types all of which have values, each inside
      one whose other components have values too. */
  lemma PartsExact(g: Graph, b: TypeId, x: TypeId)
    ensures HasPart(g, b, x) <==> LiveReaches(g, b, x)
  {
    if HasPart(g, b, x) {
      var p: seq<Typed> :| PartChain(g, p) && p[0].t == b && p[|p| - 1].t == x;
      var q := ChainToPath(g, p);
    }
    if LiveReaches(g, b, x) {
      var q :| LivePath(g, q) && q[0] == b && q[|q| - 1] == x;
      var p := PathToChain(g, q);
    }
  }

  // ---------------------------------------------------------------- which type lies inside which

  ghost predicate AllLive(g: Graph, ts: set<TypeId>)
  {
    forall t :: t in ts ==> Inhabited(g, t)
  }

  lemma {:induction false} InRecsIs(ns: seq<Rec>, s: TypeId)
    ensures s in InRecs(ns) <==> exists i :: 0 <= i < |ns| && s in InRec(ns[i])
  {
    if ns != [] {
      InRecsIs(ns[1..], s);
      if i :| 0 <= i < |ns| && s in InRec(ns[i]) {
        if i > 0 { assert ns[1..][i - 1] == ns[i]; }
      }
    }
  }

  lemma {:induction false} InBranchesIs(bs: seq<Branch>, s: TypeId)
    ensures s in InBranches(bs) <==> exists i :: 0 <= i < |bs| && bs[i].Branch? && s in InRec(bs[i].last)
  {
    if bs != [] {
      InBranchesIs(bs[1..], s);
      if i :| 0 <= i < |bs| && bs[i].Branch? && s in InRec(bs[i].last) {
        if i > 0 { assert bs[1..][i - 1] == bs[i]; }
      }
    }
  }

  lemma {:induction false} OptAllIs(ts: seq<Option<TypeId>>, s: TypeId)
    ensures s in OptAll(ts) <==> Some(s) in ts
  {
    if ts != [] {
      OptAllIs(ts[1..], s);
    }
  }

  lemma {:induction false} RecInside(g: Graph, n: Rec, s: TypeId)
    ensures InRecLive(g, n, s) ==> s in InRec(n)
    ensures AllLive(g, InRec(n)) ==> RecLive(g, n) && (s in InRec(n) ==> InRecLive(g, n, s))
  {
    match n
    case RecList(ns) =>
      InRecsIs(ns, s);
      forall i | 0 <= i < |ns|
        ensures InRecLive(g, ns[i], s) ==> s in InRec(ns[i])
        ensures AllLive(g, InRec(n)) ==> RecLive(g, ns[i]) && (s in InRec(ns[i]) ==> InRecLive(g, ns[i], s))
      {
        RecInside(g, ns[i], s);
        forall t | t in InRec(ns[i]) ensures t in InRec(n) { InRecsIs(ns, t); }
      }
    case RecCase(d, bs) =>
      InBranchesIs(bs, s);
      forall i | 0 <= i < |bs| && bs[i].Branch?
        ensures InRecLive(g, bs[i].last, s) ==> s in InRec(bs[i].last)
        ensures AllLive(g, InRec(n)) ==> BranchLive(g, bs[i]) && (s in InRec(bs[i].last) ==> InRecLive(g, bs[i].last, s))
      {
        assert bs[i].last < bs[i];
        RecInside(g, bs[i].last, s);
        forall t | t in InRec(bs[i].last) ensures t in InRec(n) { InBranchesIs(bs, t); }
      }
      if !(forall b :: b in bs ==> b.NoBranch?) {
        var i :| 0 <= i < |bs| && bs[i].Branch?;
      }
    case _ =>
  }

  lemma TypeInside(g: Graph, ty: Type, s: TypeId)
    ensures LiveInside(g, ty, s) ==> s in Inside(ty)
    ensures AllLive(g, Inside(ty)) && s in Inside(ty) ==> LiveInside(g, ty, s)
  {
    match ty
    case Object(base, n) =>
      RecInside(g, n, s);
    case Tuple(kids) =>
      OptAllIs(kids, s);
      if AllLive(g, Inside(ty)) {
        forall i | 0 <= i < |kids|
          ensures OptLive(g, kids[i])
        {
          if kids[i].Some? { OptAllIs(kids, kids[i].value); }
        }
      }
    case _ =>
  }

  lemma {:induction false} LivePathIsPath(g: Graph, p: seq<TypeId>)
    requires LivePath(g, p)
    ensures IsPath(g, p)
  {
    if |p| > 1 {
      TypeInside(g, g[p[0]], p[1]);
      LivePathIsPath(g, p[1..]);
    }
  }

  lemma {:induction false} PathIsLive(g: Graph, p: seq<TypeId>, d: set<TypeId>)
    requires IsPath(g, p) && p[0] in d && Closed(g, d) && AllLive(g, d)
    ensures LivePath(g, p)
  {
    if |p| > 1 {
      assert p[0] in d && Inside(g[p[0]]) <= d;
      TypeInside(g, g[p[0]], p[1]);
      PathIsLive(g, p[1..], d);
    }
  }

  /** A part of a value is always reached.  If all types that `b` reaches have values, everything reached is a part of one. */
  lemma PartsReached(g: Graph, b: TypeId, x: TypeId)
    requires b in g && Closed(g, g.Keys)
    ensures HasPart(g, b, x) ==> Reaches(g, b, x)
    ensures AllLive(g, AllReached(g, b)) && Reaches(g, b, x) ==> HasPart(g, b, x)
  {
    PartsExact(g, b, x);
    if HasPart(g, b, x) {
      var p :| LivePath(g, p) && p[0] == b && p[|p| - 1] == x;
      LivePathIsPath(g, p);
    }
    if AllLive(g, AllReached(g, b)) && Reaches(g, b, x) {
      var p :| IsPath(g, p) && p[0] == b && p[|p| - 1] == x;
      ReachedClosed(g, b);
      PathIsLive(g, p, AllReached(g, b));
    }
  }

  /** A tuple that holds a tuple of its own type has no finite value, so nothing is part of one, although its other field is
      reached. */
  lemma EndlessTuple(t: TypeId, x: TypeId)
    requires t != x
    ensures var g := map[t := Tuple([Some(t), Some(x)]), x := OtherType];
      Reaches(g, t, x) && !HasPart(g, t, x)
  {
    var g := map[t := Tuple([Some(t), Some(x)]), x := OtherType];
    OptAllIs([Some(t), Some(x)], x);
    assert [t, x][1..] == [x] && IsPath(g, [x]) && IsPath(g, [t, x]) && [t, x][0] == t && [t, x][1] == x;
    if HasPart(g, t, x) {
      var p: seq<Typed> :| PartChain(g, p) && p[0].t == t && p[|p| - 1].t == x;
      NoEndlessValue(g, t, x, p[0].v);
    }
  }

  lemma {:induction false} NoEndlessValue(g: Graph, t: TypeId, x: TypeId, v: Value)
    requires t in g && g[t] == Tuple([Some(t), Some(x)])
    ensures !HasType(g, v, g[t])
    decreases v
  {
    if HasType(g, v, g[t]) {
      assert Has(g, v.kids[0], Some(t));
      NoEndlessValue(g, t, x, v.kids[0]);
    }
  }
}
