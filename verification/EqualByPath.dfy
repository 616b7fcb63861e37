/** What the comparison means, node by node (utils/cmp/option.go). */
module EqualByPath {
  import opened Wrappers
  import opened GoValues
  import opened Equate

  // ----- Nodes of a value -----

  datatype Hop = Deref | Inside | Field(name: string) | KeyAt(key: string) | Item(index: nat)

  type Route = seq<Hop>

  function Child(v: Value, hop: Hop): Option<Value> {
    match (v, hop)
    case (Ptr(x), Deref) => Some(x)
    case (Any(_, x), Inside) => Some(x)
    case (Struct(fs), Field(f)) => if f in fs then Some(fs[f]) else None
    case (Map(m), KeyAt(k)) => if k in m then Some(m[k]) else None
    case (Slice(xs), Item(i)) => if i < |xs| then Some(xs[i]) else None
    case _ => None
  }

  function At(v: Value, route: Route): Option<Value> {
    if route == [] then Some(v)
    else match Child(v, route[0])
      case None => None
      case Some(x) => At(x, route[1..])
  }

  lemma AtStep(v: Value, hop: Hop, rest: Route)
    ensures At(v, [hop] + rest) == match Child(v, hop) case None => None case Some(x) => At(x, rest)
  {
    assert ([hop] + rest)[1..] == rest;
  }

  // ----- Zero values -----

  /** A node that makes no value non-zero: a zero scalar, an empty container, or a wrapper. */
  predicate Bare(v: Value) {
    match v
    case Bool(b) => !b
    case Num(n) => n == 0.0
    case Text(s) => s == ""
    case Label(s) => s == ""
    case Map(m) => m == map[]
    case Keyed(m) => m == map[]
    case Slice(xs) => xs == []
    case _ => true
  }

  predicate BareAt(v: Value, route: Route) {
    match At(v, route) case None => true case Some(x) => Bare(x)
  }

  lemma {:induction false} ZeroIsBare(v: Value, route: Route)
    requires IsZero(v)
    ensures BareAt(v, route)
    decreases |route|
  {
    if route != [] && Child(v, route[0]).Some? {
      ZeroIsBare(Child(v, route[0]).value, route[1..]);
    }
  }

  lemma BareBelow(v: Value, hop: Hop, x: Value)
    requires Child(v, hop) == Some(x) && forall route :: BareAt(v, route)
    ensures forall route :: BareAt(x, route)
  {
    forall route ensures BareAt(x, route) {
      AtStep(v, hop, route);
      assert BareAt(v, [hop] + route);
    }
  }

  /** A value is zero exactly when nothing in it has content. */
  lemma {:induction false} IsZeroByPath(v: Value)
    ensures IsZero(v) <==> forall route :: BareAt(v, route)
    decreases v
  {
    if IsZero(v) {
      forall route ensures BareAt(v, route) { ZeroIsBare(v, route); }
    } else if forall route :: BareAt(v, route) {
      assert BareAt(v, []);
      match v {
        case Ptr(x) =>
          BareBelow(v, Deref, x);
          IsZeroByPath(x);
        case Any(_, x) =>
          BareBelow(v, Inside, x);
          IsZeroByPath(x);
        case Struct(fs) =>
          forall f | f in fs ensures IsZero(fs[f]) {
            BareBelow(v, Field(f), fs[f]);
            IsZeroByPath(fs[f]);
          }
        case _ =>
      }
    }
  }

  // ----- Equal values -----

  /** Two nodes taken alone: the same scalar or quantity, or containers of one shape. */
  predicate NodesAlike(x: Value, y: Value, quantity: string -> Option<real>) {
    match (x, y)
    case (Text(a), Text(b)) => a == b || (quantity(a).Some? && quantity(b) == Some(quantity(a).value))
    case (Ptr(_), Ptr(_)) => true
    case (Any(t, _), Any(u, _)) => t == u
    case (Struct(fs), Struct(gs)) => fs.Keys == gs.Keys
    case (Map(m), Map(n)) => m.Keys == n.Keys
    case (Slice(xs), Slice(ys)) => |xs| == |ys|
    case _ => x == y
  }

  predicate ZeroAt(v: Value, route: Route) {
    match At(v, route) case Some(x) => IsZero(x) case None => false
  }

  predicate ZeroTogether(x: Value, y: Value, route: Route, n: nat)
    requires n <= |route|
  {
    ZeroAt(x, route[..n]) && ZeroAt(y, route[..n])
  }

  /** On the way to a node the two sides are zero together: the walk goes no further. */
  ghost predicate ZeroOnTheWay(x: Value, y: Value, route: Route) {
    exists n | 0 <= n <= |route| :: ZeroTogether(x, y, route, n)
  }

  predicate AlikeAt(x: Value, y: Value, route: Route, quantity: string -> Option<real>) {
    match (At(x, route), At(y, route))
    case (None, None) => true
    case (Some(a), Some(b)) => NodesAlike(a, b, quantity)
    case _ => false
  }

  ghost predicate AgreeAt(x: Value, y: Value, route: Route, quantity: string -> Option<real>) {
    ZeroOnTheWay(x, y, route) || AlikeAt(x, y, route, quantity)
  }

  lemma ZeroFromHere(x: Value, y: Value, route: Route)
    requires IsZero(x) && IsZero(y)
    ensures ZeroOnTheWay(x, y, route)
  {
    assert ZeroTogether(x, y, route, 0);
  }

  /** Below a node that is not zero on both sides, agreeing is agreeing of the children. */
  lemma AgreeBelow(x: Value, y: Value, hop: Hop, a: Value, b: Value, rest: Route, quantity: string -> Option<real>)
    requires !(IsZero(x) && IsZero(y)) && Child(x, hop) == Some(a) && Child(y, hop) == Some(b)
    ensures AgreeAt(x, y, [hop] + rest, quantity) <==> AgreeAt(a, b, rest, quantity)
  {
    var route := [hop] + rest;
    AtStep(x, hop, rest);
    AtStep(y, hop, rest);
    forall n | 0 <= n <= |rest| ensures ZeroTogether(x, y, route, n + 1) <==> ZeroTogether(a, b, rest, n) {
      assert route[..n + 1] == [hop] + rest[..n];
      AtStep(x, hop, rest[..n]);
      AtStep(y, hop, rest[..n]);
    }
    assert !ZeroTogether(x, y, route, 0);
    if ZeroOnTheWay(x, y, route) {
      var n :| 0 <= n <= |route| && ZeroTogether(x, y, route, n);
      assert ZeroTogether(a, b, rest, n - 1);
    }
    if ZeroOnTheWay(a, b, rest) {
      var n :| 0 <= n <= |rest| && ZeroTogether(a, b, rest, n);
      assert ZeroTogether(x, y, route, n + 1);
    }
  }

  lemma EqualNode(x: Value, y: Value, hop: Hop, quantity: string -> Option<real>)
    requires Equal(x, y, quantity) && !(IsZero(x) && IsZero(y))
    ensures NodesAlike(x, y, quantity)
    ensures Child(x, hop).Some? <==> Child(y, hop).Some?
    ensures Child(x, hop).Some? ==> Equal(Child(x, hop).value, Child(y, hop).value, quantity)
  {}

  lemma {:induction false} EqualAgrees(x: Value, y: Value, route: Route, quantity: string -> Option<real>)
    requires Equal(x, y, quantity)
    ensures AgreeAt(x, y, route, quantity)
    decreases |route|
  {
    if IsZero(x) && IsZero(y) {
      ZeroFromHere(x, y, route);
    } else if route == [] {
      EqualNode(x, y, Deref, quantity);
    } else {
      EqualNode(x, y, route[0], quantity);
      hide Equal;
      var (a, b) := (Child(x, route[0]), Child(y, route[0]));
      if a.Some? {
        EqualAgrees(a.value, b.value, route[1..], quantity);
        AgreeBelow(x, y, route[0], a.value, b.value, route[1..], quantity);
        assert route == [route[0]] + route[1..];
      }
    }
  }

  lemma ChildAgrees(x: Value, y: Value, hop: Hop, quantity: string -> Option<real>)
    requires !(IsZero(x) && IsZero(y)) && forall route :: AgreeAt(x, y, route, quantity)
    requires Child(x, hop).Some? && Child(y, hop).Some?
    ensures forall route :: AgreeAt(Child(x, hop).value, Child(y, hop).value, route, quantity)
  {
    var (a, b) := (Child(x, hop).value, Child(y, hop).value);
    forall route ensures AgreeAt(a, b, route, quantity) {
      AgreeBelow(x, y, hop, a, b, route, quantity);
      assert AgreeAt(x, y, [hop] + route, quantity);
    }
  }

  lemma RootsAlike(x: Value, y: Value, quantity: string -> Option<real>)
    requires !ZeroTogether(x, y, [], 0) && AgreeAt(x, y, [], quantity)
    ensures NodesAlike(x, y, quantity)
  {
    hide NodesAlike;
    hide ZeroTogether;
  }

  lemma EqualFromChildren(x: Value, y: Value, quantity: string -> Option<real>)
    requires NodesAlike(x, y, quantity)
    requires forall hop | Child(x, hop).Some? && Child(y, hop).Some? ::
      Equal(Child(x, hop).value, Child(y, hop).value, quantity)
    ensures Equal(x, y, quantity)
  {
    match (x, y)
    case (Ptr(a), Ptr(b)) => assert Child(x, Deref) == Some(a) && Child(y, Deref) == Some(b);
    case (Any(_, a), Any(_, b)) => assert Child(x, Inside) == Some(a) && Child(y, Inside) == Some(b);
    case (Struct(fs), Struct(gs)) =>
      forall f | f in fs ensures Equal(fs[f], gs[f], quantity) {
        assert Child(x, Field(f)) == Some(fs[f]) && Child(y, Field(f)) == Some(gs[f]);
      }
    case (Map(m), Map(n)) =>
      forall k | k in m ensures Equal(m[k], n[k], quantity) {
        assert Child(x, KeyAt(k)) == Some(m[k]) && Child(y, KeyAt(k)) == Some(n[k]);
      }
    case (Slice(xs), Slice(ys)) =>
      forall i | 0 <= i < |xs| ensures Equal(xs[i], ys[i], quantity) {
        assert Child(x, Item(i)) == Some(xs[i]) && Child(y, Item(i)) == Some(ys[i]);
      }
    case _ =>
  }

  /** The comparison says yes exactly when the two sides agree at every route. */
  lemma {:induction false} EqualExactly(x: Value, y: Value, quantity: string -> Option<real>)
    ensures Equal(x, y, quantity) <==> forall route :: AgreeAt(x, y, route, quantity)
    decreases x
  {
    if Equal(x, y, quantity) {
      forall route ensures AgreeAt(x, y, route, quantity) { EqualAgrees(x, y, route, quantity); }
    } else if forall route :: AgreeAt(x, y, route, quantity) {
      assert AgreeAt(x, y, [], quantity) && !ZeroTogether(x, y, [], 0);
      RootsAlike(x, y, quantity);
      hide Equal;
      hide NodesAlike;
      forall hop | Child(x, hop).Some? && Child(y, hop).Some?
        ensures Equal(Child(x, hop).value, Child(y, hop).value, quantity)
      {
        ChildAgrees(x, y, hop, quantity);
        EqualExactly(Child(x, hop).value, Child(y, hop).value, quantity);
      }
      EqualFromChildren(x, y, quantity);
    }
  }
}
