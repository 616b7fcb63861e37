/** Decoded JSON trees and the asymmetric subset matcher of children/drift.go. */
module JsonMatch {
  import opened Wrappers

  /** What encoding/json decodes into an `interface{}`. */
  datatype Json =
    | Null
    | Bool(b: bool)
    | Num(n: real)
    | Str(s: string)
    | Arr(elems: seq<Json>)
    | Obj(fields: map<string, Json>)

  type Fields = map<string, Json>

  /** "This key has no content": null, the empty map and the empty list. */
  predicate IsEmpty(v: Json) {
    match v
    case Null => true
    case Obj(fields) => |fields| == 0
    case Arr(elems) => |elems| == 0
    case _ => false
  }

  predicate Matches(desired: Json, observed: Json)
    decreases desired
  {
    match desired
    case Obj(d) =>
      if observed.Obj? then
        forall k | k in d ::
          if k in observed.fields then Matches(d[k], observed.fields[k]) else IsEmpty(d[k])
      else
        |d| == 0 && observed.Null?
    case Arr(d) =>
      if observed.Arr? then
        |d| == |observed.elems| && forall i | 0 <= i < |d| :: Matches(d[i], observed.elems[i])
      else
        |d| == 0 && observed.Null?
    case _ => desired == observed
  }

  predicate FieldMatches(d: Fields, o: Fields, k: string) {
    k in d ==> if k in o then Matches(d[k], o[k]) else IsEmpty(d[k])
  }

  lemma ObjectsMatchByField(d: Fields, o: Fields)
    ensures Matches(Obj(d), Obj(o)) <==> forall k :: FieldMatches(d, o, k)
  {
    if Matches(Obj(d), Obj(o)) {
      forall k ensures FieldMatches(d, o, k) {}
    }
    if forall k :: FieldMatches(d, o, k) {
      forall k | k in d ensures if k in o then Matches(d[k], o[k]) else IsEmpty(d[k]) {
        assert FieldMatches(d, o, k);
      }
    }
  }

  // ----- The matcher as a condition on paths -----

  datatype Step = Key(k: string) | Elem(i: nat)

  type Path = seq<Step>

  /** The child of `v` one step down, if there is one. */
  function Child(v: Json, step: Step): Option<Json> {
    match step
    case Key(k) => if v.Obj? && k in v.fields then Some(v.fields[k]) else None
    case Elem(i) => if v.Arr? && i < |v.elems| then Some(v.elems[i]) else None
  }

  function Lookup(v: Json, path: Path): Option<Json> {
    if path == [] then Some(v)
    else match Child(v, path[0])
      case None => None
      case Some(c) => Lookup(c, path[1..])
  }

  /** What the observed node must be where the desired tree has node `d`. */
  predicate NodeAccepts(d: Json, o: Option<Json>) {
    match d
    case Obj(fields) =>
      if |fields| > 0 then o.Some? && o.value.Obj?
      else o.None? || o.value.Null? || o.value.Obj?
    case Arr(elems) =>
      if |elems| > 0 then o.Some? && o.value.Arr? && |o.value.elems| == |elems|
      else o.None? || o.value.Null? || o.value == Arr([])
    case Null => o.None? || o.value.Null?
    case _ => o == Some(d)
  }

  function Under(v: Option<Json>, step: Step): Option<Json> {
    if v.None? then None else Child(v.value, step)
  }

  ghost predicate PathAccepts(desired: Json, observed: Option<Json>, path: Path) {
    var d := Lookup(desired, path);
    var o := if observed.None? then None else Lookup(observed.value, path);
    d.Some? ==> NodeAccepts(d.value, o)
  }

  ghost predicate EveryPathAccepts(desired: Json, observed: Option<Json>) {
    forall path :: PathAccepts(desired, observed, path)
  }

  /** A desired value under a map key that observed may lack. */
  predicate MatchesField(desired: Json, observed: Option<Json>) {
    match observed
    case None => IsEmpty(desired)
    case Some(o) => Matches(desired, o)
  }

  lemma PathAcceptsBelow(desired: Json, observed: Option<Json>, step: Step, rest: Path)
    requires Child(desired, step).Some?
    ensures PathAccepts(desired, observed, [step] + rest)
       <==> PathAccepts(Child(desired, step).value, Under(observed, step), rest)
  {
    assert ([step] + rest)[1..] == rest;
  }

  /** Every path of `desired` accepts iff its root does and every child, taken alone, does. */
  lemma EveryPathByChildren(desired: Json, observed: Option<Json>)
    ensures EveryPathAccepts(desired, observed)
       <==> NodeAccepts(desired, observed)
            && forall step | Child(desired, step).Some? ::
                 EveryPathAccepts(Child(desired, step).value, Under(observed, step))
  {
    if EveryPathAccepts(desired, observed) {
      assert PathAccepts(desired, observed, []);
      forall step | Child(desired, step).Some?
        ensures EveryPathAccepts(Child(desired, step).value, Under(observed, step))
      {
        forall rest: Path ensures PathAccepts(Child(desired, step).value, Under(observed, step), rest) {
          assert PathAccepts(desired, observed, [step] + rest);
          PathAcceptsBelow(desired, observed, step, rest);
        }
      }
    }
    if && NodeAccepts(desired, observed)
       && forall step | Child(desired, step).Some? ::
            EveryPathAccepts(Child(desired, step).value, Under(observed, step))
    {
      forall path: Path ensures PathAccepts(desired, observed, path) {
        if path != [] && Child(desired, path[0]).Some? {
          assert path == [path[0]] + path[1..];
          PathAcceptsBelow(desired, observed, path[0], path[1..]);
        }
      }
    }
  }

  lemma {:induction false} FieldMatchIsPathwise(desired: Json, observed: Option<Json>)
    ensures MatchesField(desired, observed) <==> EveryPathAccepts(desired, observed)
    decreases desired
  {
    EveryPathByChildren(desired, observed);
    match desired {
      case Obj(d) =>
        forall k | k in d
          ensures MatchesField(d[k], Under(observed, Key(k))) <==> EveryPathAccepts(d[k], Under(observed, Key(k)))
          ensures Child(desired, Key(k)) == Some(d[k])
        {
          FieldMatchIsPathwise(d[k], Under(observed, Key(k)));
        }
      case Arr(d) =>
        forall i: nat | i < |d|
          ensures MatchesField(d[i], Under(observed, Elem(i))) <==> EveryPathAccepts(d[i], Under(observed, Elem(i)))
          ensures Child(desired, Elem(i)) == Some(d[i])
        {
          FieldMatchIsPathwise(d[i], Under(observed, Elem(i)));
        }
      case _ =>
    }
  }

  /** The recursive matcher is exactly the path-by-path condition. */
  lemma MatchesIsPathwise(desired: Json, observed: Json)
    ensures Matches(desired, observed) <==> forall path :: PathAccepts(desired, Some(observed), path)
  {
    FieldMatchIsPathwise(desired, Some(observed));
    assert EveryPathAccepts(desired, Some(observed)) <==> forall path :: PathAccepts(desired, Some(observed), path);
  }

  // ----- Reflexivity and transitivity -----

  lemma {:induction false} MatchesReflexive(v: Json)
    ensures Matches(v, v)
    decreases v
  {
    match v {
      case Obj(fields) => forall k | k in fields { MatchesReflexive(fields[k]); }
      case Arr(elems) => forall i | 0 <= i < |elems| { MatchesReflexive(elems[i]); }
      case _ =>
    }
  }

  /** No map key, at any depth, holds null, an empty map or an empty list. */
  predicate NoEmptyUnderKey(v: Json)
    decreases v
  {
    match v
    case Obj(fields) => forall k | k in fields :: !IsEmpty(fields[k]) && NoEmptyUnderKey(fields[k])
    case Arr(elems) => forall i | 0 <= i < |elems| :: NoEmptyUnderKey(elems[i])
    case _ => true
  }

  lemma {:induction false} NonEmptyKeepsNonEmpty(a: Json, b: Json)
    requires Matches(a, b) && !IsEmpty(a) && NoEmptyUnderKey(a)
    ensures !IsEmpty(b)
  {
    if a.Obj? {
      var k :| k in a.fields;
    }
  }

  lemma {:induction false} MatchesTransitive(a: Json, b: Json, c: Json)
    requires NoEmptyUnderKey(a) && Matches(a, b) && Matches(b, c)
    ensures Matches(a, c)
    decreases a
  {
    match a {
      case Obj(d) =>
        if b.Obj? && c.Obj? {
          forall k | k in d
            ensures k in c.fields && Matches(d[k], c.fields[k])
          {
            NonEmptyKeepsNonEmpty(d[k], b.fields[k]);
            MatchesTransitive(d[k], b.fields[k], c.fields[k]);
          }
        }
      case Arr(d) =>
        if b.Arr? && c.Arr? {
          forall i | 0 <= i < |d| { MatchesTransitive(d[i], b.elems[i], c.elems[i]); }
        }
      case _ =>
    }
  }

  /** Where the side condition fails, so does transitivity: `b` drops the empty value, `c` fills it in. */
  lemma {:induction false} TransitivityBreaks(a: Json) returns (b: Json, c: Json)
    requires !NoEmptyUnderKey(a)
    ensures Matches(a, b) && Matches(b, c) && !Matches(a, c)
    decreases a
  {
    match a {
      case Obj(d) =>
        forall k | k in d { MatchesReflexive(d[k]); }
        var k :| k in d && (IsEmpty(d[k]) || !NoEmptyUnderKey(d[k]));
        if IsEmpty(d[k]) {
          b, c := Obj(d - {k}), Obj(d[k := Str("set")]);
        } else {
          var b', c' := TransitivityBreaks(d[k]);
          b, c := Obj(d[k := b']), Obj(d[k := c']);
        }
      case Arr(d) =>
        forall i | 0 <= i < |d| { MatchesReflexive(d[i]); }
        var i :| 0 <= i < |d| && !NoEmptyUnderKey(d[i]);
        var b', c' := TransitivityBreaks(d[i]);
        b, c := Arr(d[i := b']), Arr(d[i := c']);
    }
  }

  /** Exactly the trees without an empty value under a key are transitive starting points. */
  lemma TransitiveExactly(a: Json)
    ensures NoEmptyUnderKey(a)
       <==> forall b, c :: Matches(a, b) && Matches(b, c) ==> Matches(a, c)
  {
    hide Matches;
    hide NoEmptyUnderKey;
    if NoEmptyUnderKey(a) {
      forall b, c | Matches(a, b) && Matches(b, c) ensures Matches(a, c) { MatchesTransitive(a, b, c); }
    } else {
      var b, c := TransitivityBreaks(a);
      assert Matches(a, b) && Matches(b, c) && !Matches(a, c);
    }
  }

  // ----- What desired does not mention does not matter -----

  /** `v` with the entry for `key` in the object at `path` set, replaced or (None) removed. */
  function EditAt(v: Json, path: Path, key: string, entry: Option<Json>): Json
    requires Lookup(v, path).Some? && Lookup(v, path).value.Obj?
    decreases |path|
  {
    if path == [] then
      Obj(if entry.Some? then v.fields[key := entry.value] else v.fields - {key})
    else match path[0]
      case Key(k) => Obj(v.fields[k := EditAt(v.fields[k], path[1..], key, entry)])
      case Elem(i) => Arr(v.elems[i := EditAt(v.elems[i], path[1..], key, entry)])
  }

  /** Server-side defaults never cause drift, and removing them never does either. */
  lemma {:induction false} UnmentionedKeysAreIgnored(
    desired: Json, observed: Json, path: Path, key: string, entry: Option<Json>)
    requires Lookup(observed, path).Some? && Lookup(observed, path).value.Obj?
    requires Lookup(desired, path + [Key(key)]).None?
    ensures Matches(desired, EditAt(observed, path, key, entry)) <==> Matches(desired, observed)
    decreases |path|
  {
    if path == [] {
      assert Child(desired, Key(key)).None?;
    } else {
      var child := Child(desired, path[0]);
      assert (path + [Key(key)])[1..] == path[1..] + [Key(key)];
      if child.Some? {
        UnmentionedKeysAreIgnored(child.value, Child(observed, path[0]).value, path[1..], key, entry);
      }
    }
  }
}
