/** The comparison behind every drift check (utils/cmp/option.go). */
module Equate {
  import opened Wrappers
  import opened GoValues

  /** How the resource library reads a quantity; the empty string is not one. */
  ghost predicate ReadsQuantities(quantity: string -> Option<real>) {
    quantity("") == None
  }

  predicate IsZero(v: Value) {
    match v
    case Bool(b) => !b
    case Num(n) => n == 0.0
    case Text(s) => s == ""
    case Label(s) => s == ""
    case Ptr(x) => IsZero(x)
    case Struct(fs) => forall f | f in fs :: IsZero(fs[f])
    case Map(m) => |m| == 0
    case Keyed(m) => |m| == 0
    case Slice(xs) => |xs| == 0
    case Any(_, x) => IsZero(x)
    case NilPtr => true
    case NilMap => true
    case NilKeyed => true
    case NilSlice => true
    case NilAny => true
  }

  predicate SameQuantity(a: string, b: string, quantity: string -> Option<real>) {
    quantity(a).Some? && quantity(a) == quantity(b)
  }

  /** go-cmp's walk under the three options: two zero values are never compared any further, and only the type
      string itself is read as a quantity. */
  predicate Equal(x: Value, y: Value, quantity: string -> Option<real>)
    decreases x
  {
    (IsZero(x) && IsZero(y)) ||
    match (x, y)
    case (Text(a), Text(b)) => a == b || SameQuantity(a, b, quantity)
    case (Label(a), Label(b)) => a == b
    case (Bool(a), Bool(b)) => a == b
    case (Num(a), Num(b)) => a == b
    case (Ptr(a), Ptr(b)) => Equal(a, b, quantity)
    case (Struct(fs), Struct(gs)) => fs.Keys == gs.Keys && forall f | f in fs :: Equal(fs[f], gs[f], quantity)
    case (Map(m), Map(n)) => m.Keys == n.Keys && forall k | k in m :: Equal(m[k], n[k], quantity)
    case (Keyed(m), Keyed(n)) => m == n
    case (Slice(xs), Slice(ys)) => |xs| == |ys| && forall i | 0 <= i < |xs| :: Equal(xs[i], ys[i], quantity)
    case (Any(t, a), Any(u, b)) => t == u && Equal(a, b, quantity)
    case _ => false
  }

  lemma {:induction false} ZeroIsZero(t: Type)
    ensures IsZero(ZeroOf(t))
    decreases t
  {
    if t.TStruct? {
      forall f | f in t.fields ensures IsZero(ZeroOf(t.fields[f])) {
        ZeroIsZero(t.fields[f]);
      }
    }
  }

  lemma {:induction false} EqualReflexive(x: Value, quantity: string -> Option<real>)
    ensures Equal(x, x, quantity)
    decreases x
  {
    match x
    case Ptr(a) => EqualReflexive(a, quantity);
    case Any(_, a) => EqualReflexive(a, quantity);
    case Struct(fs) => forall f | f in fs ensures Equal(fs[f], fs[f], quantity) { EqualReflexive(fs[f], quantity); }
    case Map(m) => forall k | k in m ensures Equal(m[k], m[k], quantity) { EqualReflexive(m[k], quantity); }
    case Slice(xs) =>
      forall i | 0 <= i < |xs| ensures Equal(xs[i], xs[i], quantity) { EqualReflexive(xs[i], quantity); }
    case _ =>
  }

  lemma {:induction false} EqualSymmetric(x: Value, y: Value, quantity: string -> Option<real>)
    requires Equal(x, y, quantity)
    ensures Equal(y, x, quantity)
    decreases x
  {
    if !(IsZero(x) && IsZero(y)) {
      match (x, y)
      case (Ptr(a), Ptr(b)) => EqualSymmetric(a, b, quantity);
      case (Any(_, a), Any(_, b)) => EqualSymmetric(a, b, quantity);
      case (Struct(fs), Struct(gs)) =>
        forall f | f in gs ensures Equal(gs[f], fs[f], quantity) { EqualSymmetric(fs[f], gs[f], quantity); }
      case (Map(m), Map(n)) =>
        forall k | k in n ensures Equal(n[k], m[k], quantity) { EqualSymmetric(m[k], n[k], quantity); }
      case (Slice(xs), Slice(ys)) =>
        forall i | 0 <= i < |ys| ensures Equal(ys[i], xs[i], quantity) { EqualSymmetric(xs[i], ys[i], quantity); }
      case _ =>
    }
  }

  /** Being zero is seen alike on both sides, at every depth. */
  lemma {:induction false} ZeroIsShared(x: Value, y: Value, quantity: string -> Option<real>)
    requires Equal(x, y, quantity) && ReadsQuantities(quantity)
    ensures IsZero(x) <==> IsZero(y)
    decreases x
  {
    if !(IsZero(x) && IsZero(y)) {
      match (x, y)
      case (Ptr(a), Ptr(b)) => ZeroIsShared(a, b, quantity);
      case (Any(_, a), Any(_, b)) => ZeroIsShared(a, b, quantity);
      case (Struct(fs), Struct(gs)) =>
        forall f | f in fs ensures IsZero(fs[f]) <==> IsZero(gs[f]) { ZeroIsShared(fs[f], gs[f], quantity); }
      case (Map(m), Map(n)) =>
        assert |m| == |m.Keys| && |n| == |n.Keys|;
      case _ =>
    }
  }

  lemma QuantitiesChain(a: string, b: string, c: string, quantity: string -> Option<real>)
    requires a == b || SameQuantity(a, b, quantity)
    requires b == c || SameQuantity(b, c, quantity)
    ensures a == c || SameQuantity(a, c, quantity)
  {}

  /** So the comparison is an equivalence: no order of comparing decides whether three values are in sync. */
  lemma {:induction false} EqualTransitive(x: Value, y: Value, z: Value, quantity: string -> Option<real>)
    requires ReadsQuantities(quantity) && Equal(x, y, quantity) && Equal(y, z, quantity)
    ensures Equal(x, z, quantity)
    decreases x
  {
    hide IsZero;
    hide SameQuantity;
    ZeroIsShared(x, y, quantity);
    ZeroIsShared(y, z, quantity);
    if !IsZero(x) {
      match (x, y, z)
      case (Ptr(a), Ptr(b), Ptr(c)) => EqualTransitive(a, b, c, quantity);
      case (Any(_, a), Any(_, b), Any(_, c)) => EqualTransitive(a, b, c, quantity);
      case (Struct(fs), Struct(gs), Struct(hs)) =>
        forall f | f in fs ensures Equal(fs[f], hs[f], quantity) { EqualTransitive(fs[f], gs[f], hs[f], quantity); }
      case (Map(m), Map(n), Map(o)) =>
        forall k | k in m ensures Equal(m[k], o[k], quantity) { EqualTransitive(m[k], n[k], o[k], quantity); }
      case (Slice(xs), Slice(ys), Slice(zs)) =>
        forall i | 0 <= i < |xs| ensures Equal(xs[i], zs[i], quantity) {
          EqualTransitive(xs[i], ys[i], zs[i], quantity);
        }
      case (Text(a), Text(b), Text(c)) => QuantitiesChain(a, b, c, quantity);
      case _ =>
    }
  }

  /** The quantity rule needs the empty string to be no quantity: otherwise a nil, "" and "0" part ways. */
  lemma EmptyQuantityBreaksIt(quantity: string -> Option<real>)
    requires quantity("").Some? && quantity("0") == quantity("")
    ensures exists x, y, z ::
      Equal(x, y, quantity) && Equal(y, z, quantity) && !Equal(x, z, quantity)
  {
    var x, y, z := NilAny, Any(TText, Text("")), Any(TText, Text("0"));
    assert Equal(x, y, quantity) && Equal(y, z, quantity) && !Equal(x, z, quantity);
  }

  /** A zero value equals exactly the zero values. */
  lemma ZeroEqualsOnlyZero(x: Value, y: Value, quantity: string -> Option<real>)
    requires ReadsQuantities(quantity) && IsZero(x)
    ensures Equal(x, y, quantity) <==> IsZero(y)
  {
    if Equal(x, y, quantity) { ZeroIsShared(x, y, quantity); }
  }
}
