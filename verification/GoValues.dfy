/** Go values as typed trees: the part of reflection that projection and comparison walk. */
module GoValues {

  /** Struct fields go by their JSON names. */
  datatype Type =
    | TBool
    | TNum
    | TText
    | TLabel                  // a named string type
    | TPtr(to: Type)
    | TStruct(fields: map<string, Type>)
    | TMap(elem: Type)
    | TKeyed                  // a map whose keys are not strings
    | TSlice(elem: Type)
    | TAny                    // an empty interface

  datatype Value =
    | Bool(b: bool)
    | Num(n: real)
    | Text(s: string)
    | Label(s: string)
    | NilPtr
    | Ptr(to: Value)
    | Struct(fields: map<string, Value>)
    | NilMap
    | Map(entries: map<string, Value>)
    | NilKeyed
    | Keyed(pairs: map<int, string>)
    | NilSlice
    | Slice(items: seq<Value>)
    | NilAny
    | Any(dyn: Type, value: Value)

  ghost predicate HasType(v: Value, t: Type)
    decreases v
  {
    match (v, t)
    case (Bool(_), TBool) => true
    case (Num(_), TNum) => true
    case (Text(_), TText) => true
    case (Label(_), TLabel) => true
    case (NilPtr, TPtr(_)) => true
    case (Ptr(x), TPtr(to)) => HasType(x, to)
    case (Struct(fs), TStruct(ts)) => fs.Keys == ts.Keys && forall f | f in fs :: HasType(fs[f], ts[f])
    case (NilMap, TMap(_)) => true
    case (Map(m), TMap(elem)) => forall k | k in m :: HasType(m[k], elem)
    case (NilKeyed, TKeyed) => true
    case (Keyed(_), TKeyed) => true
    case (NilSlice, TSlice(_)) => true
    case (Slice(xs), TSlice(elem)) => forall i | 0 <= i < |xs| :: HasType(xs[i], elem)
    case (NilAny, TAny) => true
    case (Any(dyn, x), TAny) => !dyn.TAny? && HasType(x, dyn)
    case _ => false
  }

  /** reflect.Zero. */
  function ZeroOf(t: Type): Value {
    match t
    case TBool => Bool(false)
    case TNum => Num(0.0)
    case TText => Text("")
    case TLabel => Label("")
    case TPtr(_) => NilPtr
    case TStruct(ts) => Struct(map f | f in ts :: ZeroOf(ts[f]))
    case TMap(_) => NilMap
    case TKeyed => NilKeyed
    case TSlice(_) => NilSlice
    case TAny => NilAny
  }

  lemma {:induction false} ZeroHasType(t: Type)
    ensures HasType(ZeroOf(t), t)
    decreases t
  {
    if t.TStruct? {
      forall f | f in t.fields ensures HasType(ZeroOf(t.fields[f]), t.fields[f]) {
        ZeroHasType(t.fields[f]);
      }
    }
  }
}
