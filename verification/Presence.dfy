/** Projecting a value onto the fields the user wrote (base/presence.go). */
module Presence {
  import opened Wrappers
  import opened JsonMatch
  import opened GoValues

  datatype FieldPresence = FieldPresence(isObject: bool, present: bool, children: map<string, FieldPresence>)
  const OWNED := FieldPresence(false, true, map[])

  // ----- Which fields were written -----

  function PresenceOf(j: Json): FieldPresence {
    match j
    case Obj(m) => FieldPresence(true, true, map k | k in m :: PresenceOf(m[k]))
    case _ => OWNED
  }

  method PresenceFromMap(m: Fields) returns (p: FieldPresence)
    ensures p == PresenceOf(Obj(m))
    decreases Obj(m), 0
  {
    var children: map<string, FieldPresence> := map[];
    var rest := m.Keys;
    while rest != {}
      invariant rest <= m.Keys
      invariant children == map k | k in m && k !in rest :: PresenceOf(m[k])
      decreases |rest|
    {
      var k :| k in rest;
      rest := rest - {k};
      var child := PresenceFromValue(m[k]);
      children := children[k := child];
    }
    p := FieldPresence(true, true, children);
  }

  method PresenceFromValue(v: Json) returns (p: FieldPresence)
    ensures p == PresenceOf(v)
    decreases v, 1
  {
    if v.Obj? {
      p := PresenceFromMap(v.fields);
    } else {
      p := OWNED;
    }
  }

  // ----- Projection -----

  function Project(v: Value, t: Type, p: FieldPresence): Value
    decreases v, 1
  {
    if v.NilAny? then v
    else if v.Any? then Any(v.dyn, Project(v.value, v.dyn, p))
    else if !p.present then ZeroOf(t)
    else if !p.isObject then v
    else if v.Ptr? && t.TPtr? then Ptr(Project(v.to, t.to, p))
    else if v.Struct? && t.TStruct? then Struct(ProjectFields(v.fields, t.fields, p.children))
    else if v.Map? && t.TMap? then Map(ProjectEntries(v.entries, t.elem, p.children))
    else if v.Keyed? then NilKeyed
    else v
  }

  function ProjectFields(fs: map<string, Value>, ts: map<string, Type>, children: map<string, FieldPresence>)
    : map<string, Value>
    decreases Struct(fs), 0
  {
    map f | f in ts :: if f in children && f in fs then Project(fs[f], ts[f], children[f]) else ZeroOf(ts[f])
  }

  function ProjectEntries(m: map<string, Value>, elem: Type, children: map<string, FieldPresence>): map<string, Value>
    decreases Map(m), 0
  {
    map k | k in children && k in m :: Project(m[k], elem, children[k])
  }

  method ProjectValue(v: Value, t: Type, p: FieldPresence) returns (out: Value)
    ensures out == Project(v, t, p)
    decreases v, 1
  {
    if v.NilAny? { return NilAny; }
    if v.Any? {
      out := ProjectValue(v.value, v.dyn, p);
      return Any(v.dyn, out);
    }
    if !p.present { return ZeroOf(t); }
    if !p.isObject { return v; }
    if v.Ptr? && t.TPtr? {
      out := ProjectValue(v.to, t.to, p);
      return Ptr(out);
    }
    if v.Struct? && t.TStruct? {
      var fs := ProjectStruct(v.fields, t.fields, p.children);
      return Struct(fs);
    }
    if v.Map? && t.TMap? {
      var m := ProjectMap(v.entries, t.elem, p.children);
      return Map(m);
    }
    if v.Keyed? { return NilKeyed; }
    out := v;
  }

  lemma OneMoreField(
    fs: map<string, Value>, ts: map<string, Type>, children: map<string, FieldPresence>, rest: set<string>,
    name: string)
    requires name in rest && rest <= children.Keys
    ensures var before := ProjectFields(fs, ts, children - rest);
      var after := ProjectFields(fs, ts, children - (rest - {name}));
      after == if name in ts && name in fs then before[name := Project(fs[name], ts[name], children[name])] else before
  {
    hide Project;
    hide ZeroOf;
  }

  method ProjectStruct(fs: map<string, Value>, ts: map<string, Type>, children: map<string, FieldPresence>)
    returns (dst: map<string, Value>)
    ensures dst == ProjectFields(fs, ts, children)
    decreases Struct(fs), 0
  {
    dst := map f | f in ts :: ZeroOf(ts[f]);
    var rest := children.Keys;
    assert dst == ProjectFields(fs, ts, children - rest);
    while rest != {}
      invariant rest <= children.Keys && dst == ProjectFields(fs, ts, children - rest)
      decreases |rest|
    {
      var name :| name in rest;
      OneMoreField(fs, ts, children, rest, name);
      rest := rest - {name};
      if name !in ts || name !in fs { continue; }
      var projected := ProjectValue(fs[name], ts[name], children[name]);
      dst := dst[name := projected];
    }
    assert children - rest == children;
  }

  method ProjectMap(m: map<string, Value>, elem: Type, children: map<string, FieldPresence>)
    returns (dst: map<string, Value>)
    ensures dst == ProjectEntries(m, elem, children)
    decreases Map(m), 0
  {
    hide Project;
    dst := map[];
    var rest := children.Keys;
    while rest != {}
      invariant rest <= children.Keys
      invariant forall k :: k in dst <==> k in children && k !in rest && k in m
      invariant forall k | k in dst :: dst[k] == Project(m[k], elem, children[k])
      decreases |rest|
    {
      var name :| name in rest;
      rest := rest - {name};
      if name !in m { continue; }
      var projected := ProjectValue(m[name], elem, children[name]);
      dst := dst[name := projected];
    }
  }

  lemma {:induction false} ProjectHasType(v: Value, t: Type, p: FieldPresence)
    requires HasType(v, t)
    ensures HasType(Project(v, t, p), t)
    decreases v, 1
  {
    ZeroHasType(t);
    if v.Any? {
      ProjectHasType(v.value, v.dyn, p);
    } else if v.Ptr? {
      ProjectHasType(v.to, t.to, p);
    } else if v.Struct? {
      FieldsHaveTypes(v, t, p);
    } else if v.Map? {
      forall k | k in v.entries && k in p.children
        ensures HasType(Project(v.entries[k], t.elem, p.children[k]), t.elem)
      {
        ProjectHasType(v.entries[k], t.elem, p.children[k]);
      }
    }
  }

  lemma {:induction false} FieldsHaveTypes(v: Value, t: Type, p: FieldPresence)
    requires HasType(v, t) && v.Struct? && t.TStruct?
    ensures HasType(Struct(ProjectFields(v.fields, t.fields, p.children)), t)
    decreases v, 0
  {
    forall f | f in t.fields
      ensures HasType(ZeroOf(t.fields[f]), t.fields[f])
      ensures f in p.children ==> HasType(Project(v.fields[f], t.fields[f], p.children[f]), t.fields[f])
    {
      ZeroHasType(t.fields[f]);
      if f in p.children { ProjectHasType(v.fields[f], t.fields[f], p.children[f]); }
    }
  }

  /** Projecting twice is projecting once. */
  lemma {:induction false} ProjectIdempotent(v: Value, t: Type, p: FieldPresence)
    requires HasType(v, t)
    ensures Project(Project(v, t, p), t, p) == Project(v, t, p)
    decreases v
  {
    match (v, t)
    case (Any(dyn, x), _) => ProjectIdempotent(x, dyn, p);
    case (Ptr(x), TPtr(to)) => ProjectIdempotent(x, to, p);
    case (Struct(fs), TStruct(ts)) =>
      forall f | f in ts && f in p.children
        ensures Project(Project(fs[f], ts[f], p.children[f]), ts[f], p.children[f])
             == Project(fs[f], ts[f], p.children[f])
      {
        ProjectIdempotent(fs[f], ts[f], p.children[f]);
      }
    case (Map(m), TMap(elem)) =>
      forall k | k in m && k in p.children
        ensures Project(Project(m[k], elem, p.children[k]), elem, p.children[k]) == Project(m[k], elem, p.children[k])
      {
        ProjectIdempotent(m[k], elem, p.children[k]);
      }
    case _ =>
  }

  // ----- What a path of the presence tree sees -----

  type Path = seq<string>

  predicate IsPath(p: FieldPresence, path: Path) {
    path == [] || (p.present && p.isObject && path[0] in p.children && IsPath(p.children[path[0]], path[1..]))
  }

  /** Behind pointers and interfaces. */
  function Behind(v: Value): Value {
    match v
    case Ptr(x) => Behind(x)
    case Any(_, x) => Behind(x)
    case _ => v
  }

  function TypeBehind(v: Value, t: Type): Type
    decreases v
  {
    match (v, t)
    case (Ptr(x), TPtr(to)) => TypeBehind(x, to)
    case (Any(dyn, x), _) => TypeBehind(x, dyn)
    case _ => t
  }

  /** A container without its contents: nil or not, and of what dynamic type. Anything else is seen whole. */
  function Outline(v: Value, t: Type): Value
    decreases v
  {
    match (v, t)
    case (Any(dyn, x), _) => Any(dyn, Outline(x, dyn))
    case (Ptr(x), TPtr(to)) => Ptr(Outline(x, to))
    case (Struct(_), TStruct(_)) => ZeroOf(t)
    case (Map(_), TMap(_)) => Map(map[])
    case (Keyed(_), _) => NilKeyed
    case _ => v
  }

  /** Nothing of a value but the dynamic types of its interfaces. */
  function Blank(v: Value, t: Type): Value
    decreases v
  {
    match v
    case NilAny => NilAny
    case Any(dyn, x) => Any(dyn, Blank(x, dyn))
    case _ => ZeroOf(t)
  }

  /** Everything of a value; a nil interface is nil however it is owned. */
  function Seen(v: Value, t: Type, p: FieldPresence): Value {
    if !p.present then Blank(v, t) else if !p.isObject then v else Outline(v, t)
  }

  /** The field or entry `k` of what is behind `v`. */
  function Entry(v: Value, t: Type, k: string): Option<(Value, Type)> {
    var w, u := Behind(v), TypeBehind(v, t);
    if w.Struct? && u.TStruct? && k in w.fields && k in u.fields then Some((w.fields[k], u.fields[k]))
    else if w.Map? && u.TMap? && k in w.entries then Some((w.entries[k], u.elem))
    else None
  }

  /** What the node at `path` is, None when there is no such node. */
  function Look(v: Value, t: Type, p: FieldPresence, path: Path): Option<Value>
    requires IsPath(p, path)
    decreases path
  {
    if path == [] then Some(Seen(v, t, p))
    else match Entry(v, t, path[0])
      case None => None
      case Some((x, u)) => Look(x, u, p.children[path[0]], path[1..])
  }

  ghost predicate AgreeOn(a: Value, ta: Type, b: Value, tb: Type, p: FieldPresence) {
    forall path | IsPath(p, path) :: Look(a, ta, p, path) == Look(b, tb, p, path)
  }

  lemma {:induction false} ProjectBehind(v: Value, t: Type, p: FieldPresence)
    requires HasType(v, t) && p.present && p.isObject
    ensures HasType(Behind(v), TypeBehind(v, t))
    ensures Behind(Project(v, t, p)) == Project(Behind(v), TypeBehind(v, t), p)
    ensures TypeBehind(Project(v, t, p), t) == TypeBehind(v, t)
    decreases v
  {
    match (v, t)
    case (Any(dyn, x), _) => ProjectBehind(x, dyn, p);
    case (Ptr(x), TPtr(to)) => ProjectBehind(x, to, p);
    case _ =>
  }

  lemma {:induction false} ProjectSeen(v: Value, t: Type, p: FieldPresence)
    requires HasType(v, t)
    ensures Seen(Project(v, t, p), t, p) == Seen(v, t, p)
    decreases v
  {
    match (v, t)
    case (Any(dyn, x), _) => ProjectSeen(x, dyn, p);
    case (Ptr(x), TPtr(to)) => ProjectSeen(x, to, p);
    case _ =>
  }

  lemma EntryProjects(v: Value, t: Type, p: FieldPresence, k: string)
    requires HasType(v, t) && p.present && p.isObject && k in p.children && Entry(v, t, k).Some?
    ensures var (x, u) := Entry(v, t, k).value;
      HasType(x, u) && Entry(Project(v, t, p), t, k) == Some((Project(x, u, p.children[k]), u))
  {
    ProjectBehind(v, t, p);
  }

  /** Projection loses nothing the presence tree can see. */
  lemma {:induction false} ProjectKeepsLook(v: Value, t: Type, p: FieldPresence, path: Path)
    requires HasType(v, t) && IsPath(p, path)
    ensures Look(Project(v, t, p), t, p, path) == Look(v, t, p, path)
    decreases path
  {
    if path == [] {
      ProjectSeen(v, t, p);
    } else {
      ProjectBehind(v, t, p);
      var e := Entry(v, t, path[0]);
      if e.Some? {
        EntryProjects(v, t, p, path[0]);
        ProjectKeepsLook(e.value.0, e.value.1, p.children[path[0]], path[1..]);
      }
    }
  }

  // ----- Equal projections -----

  lemma StepInto(v: Value, t: Type, p: FieldPresence, k: string, rest: Path)
    requires p.present && p.isObject && k in p.children && IsPath(p.children[k], rest)
    ensures IsPath(p, [k] + rest)
    ensures Look(v, t, p, [k] + rest) == match Entry(v, t, k)
      case None => None
      case Some((x, u)) => Look(x, u, p.children[k], rest)
  {
    hide Entry;
    assert ([k] + rest)[1..] == rest;
  }

  lemma AgreeBelow(a: Value, ta: Type, b: Value, tb: Type, p: FieldPresence, k: string)
    requires AgreeOn(a, ta, b, tb, p) && p.present && p.isObject && k in p.children
    ensures Entry(a, ta, k).Some? <==> Entry(b, tb, k).Some?
    ensures Entry(a, ta, k).Some? ==> var ((x, u), (y, w)) := (Entry(a, ta, k).value, Entry(b, tb, k).value);
      AgreeOn(x, u, y, w, p.children[k])
  {
    assert Look(a, ta, p, [k] + []) == Look(b, tb, p, [k] + []) by { StepInto(a, ta, p, k, []); }
    StepInto(a, ta, p, k, []);
    StepInto(b, tb, p, k, []);
    hide Entry;
    if Entry(a, ta, k).Some? {
      var ((x, u), (y, w)) := (Entry(a, ta, k).value, Entry(b, tb, k).value);
      forall rest | IsPath(p.children[k], rest)
        ensures Look(x, u, p.children[k], rest) == Look(y, w, p.children[k], rest)
      {
        hide Look;
        StepInto(a, ta, p, k, rest);
        StepInto(b, tb, p, k, rest);
        assert Look(a, ta, p, [k] + rest) == Look(b, tb, p, [k] + rest);
      }
    }
  }

  lemma {:induction false} UnownedProjects(v: Value, t: Type, p: FieldPresence)
    requires HasType(v, t) && !(p.present && p.isObject)
    ensures Project(v, t, p) == Seen(v, t, p)
    decreases v
  {
    if v.Any? { UnownedProjects(v.value, v.dyn, p); }
  }

  lemma LookThrough(v: Value, t: Type, x: Value, u: Type, p: FieldPresence, path: Path)
    requires IsPath(p, path) && path != []
    requires Behind(v) == Behind(x) && TypeBehind(v, t) == TypeBehind(x, u)
    ensures Look(v, t, p, path) == Look(x, u, p, path)
  {
    hide Behind;
    hide TypeBehind;
  }

  /** A wrapper around both sides hides nothing. */
  lemma AgreeInside(a: Value, b: Value, t: Type, x: Value, y: Value, u: Type, p: FieldPresence)
    requires AgreeOn(a, t, b, t, p) && p.present && p.isObject
    requires Behind(a) == Behind(x) && TypeBehind(a, t) == TypeBehind(x, u)
    requires Behind(b) == Behind(y) && TypeBehind(b, t) == TypeBehind(y, u)
    requires Outline(x, u) == Outline(y, u)
    ensures AgreeOn(x, u, y, u, p)
  {
    forall path | IsPath(p, path) ensures Look(x, u, p, path) == Look(y, u, p, path) {
      hide Behind;
      hide TypeBehind;
      hide Outline;
      if path != [] {
        assert Look(a, t, p, path) == Look(b, t, p, path);
        LookThrough(a, t, x, u, p, path);
        LookThrough(b, t, y, u, p, path);
      }
    }
  }

  lemma {:induction false} AgreeingFields(a: Value, b: Value, t: Type, p: FieldPresence)
    requires HasType(a, t) && HasType(b, t) && a.Struct? && t.TStruct? && p.present && p.isObject
    requires AgreeOn(a, t, b, t, p)
    ensures Project(a, t, p) == Project(b, t, p)
    decreases a, 0
  {
    hide AgreeOn;
    forall f | f in t.fields && f in p.children
      ensures Project(a.fields[f], t.fields[f], p.children[f]) == Project(b.fields[f], t.fields[f], p.children[f])
    {
      AgreeBelow(a, t, b, t, p, f);
      AgreeingProject(a.fields[f], b.fields[f], t.fields[f], p.children[f]);
    }
    assert ProjectFields(a.fields, t.fields, p.children) == ProjectFields(b.fields, t.fields, p.children);
  }

  lemma {:induction false} AgreeingEntries(a: Value, b: Value, t: Type, p: FieldPresence)
    requires HasType(a, t) && HasType(b, t) && a.Map? && b.Map? && t.TMap? && p.present && p.isObject
    requires AgreeOn(a, t, b, t, p)
    ensures Project(a, t, p) == Project(b, t, p)
    decreases a, 0
  {
    hide AgreeOn;
    forall k | k in p.children
      ensures k in a.entries <==> k in b.entries
      ensures k in a.entries ==>
        Project(a.entries[k], t.elem, p.children[k]) == Project(b.entries[k], t.elem, p.children[k])
    {
      AgreeBelow(a, t, b, t, p, k);
      if k in a.entries { AgreeingProject(a.entries[k], b.entries[k], t.elem, p.children[k]); }
    }
    assert ProjectEntries(a.entries, t.elem, p.children) == ProjectEntries(b.entries, t.elem, p.children);
  }

  lemma {:induction false} AgreeingProject(a: Value, b: Value, t: Type, p: FieldPresence)
    requires HasType(a, t) && HasType(b, t) && AgreeOn(a, t, b, t, p)
    ensures Project(a, t, p) == Project(b, t, p)
    decreases a, 1
  {
    assert IsPath(p, []) && Look(a, t, p, []) == Look(b, t, p, []);
    hide AgreeOn;
    hide Look;
    if !(p.present && p.isObject) {
      UnownedProjects(a, t, p);
      UnownedProjects(b, t, p);
    } else if a.Any? {
      AgreeInside(a, b, t, a.value, b.value, a.dyn, p);
      AgreeingProject(a.value, b.value, a.dyn, p);
    } else if a.Ptr? {
      AgreeInside(a, b, t, a.to, b.to, t.to, p);
      AgreeingProject(a.to, b.to, t.to, p);
    } else if a.Struct? {
      AgreeingFields(a, b, t, p);
    } else if a.Map? {
      AgreeingEntries(a, b, t, p);
    }
  }

  /** Projection captures exactly the owned paths: equal projections agree at every path of the presence tree. */
  lemma ProjectionsEqualExactly(a: Value, b: Value, t: Type, p: FieldPresence)
    requires HasType(a, t) && HasType(b, t)
    ensures Project(a, t, p) == Project(b, t, p) <==> AgreeOn(a, t, b, t, p)
  {
    if Project(a, t, p) == Project(b, t, p) {
      forall path | IsPath(p, path) ensures Look(a, t, p, path) == Look(b, t, p, path) {
        ProjectKeepsLook(a, t, p, path);
        ProjectKeepsLook(b, t, p, path);
      }
    }
    if AgreeOn(a, t, b, t, p) {
      AgreeingProject(a, b, t, p);
    }
  }

  // ----- JSON -----

  /** encoding/json into an interface. */
  function Decode(j: Json): Value {
    match j
    case Null => NilAny
    case Bool(b) => Any(TBool, GoValues.Bool(b))
    case Num(n) => Any(TNum, GoValues.Num(n))
    case Str(s) => Any(TText, Text(s))
    case Arr(js) => Any(TSlice(TAny), Slice(seq(|js|, i requires 0 <= i < |js| => Decode(js[i]))))
    case Obj(m) => Any(TMap(TAny), Map(map k | k in m :: Decode(m[k])))
  }

  lemma {:induction false} DecodeHasType(j: Json)
    ensures HasType(Decode(j), TAny)
    decreases j
  {
    match j
    case Arr(js) => forall i | 0 <= i < |js| ensures HasType(Decode(js[i]), TAny) { DecodeHasType(js[i]); }
    case Obj(m) => forall k | k in m ensures HasType(Decode(m[k]), TAny) { DecodeHasType(m[k]); }
    case _ =>
  }

  /** Projected by its own fields, a JSON value is itself. */
  lemma {:induction false} OwnPresenceIsIdentity(j: Json)
    ensures Project(Decode(j), TAny, PresenceOf(j)) == Decode(j)
    decreases j
  {
    if j.Obj? {
      var m := j.fields;
      forall k | k in m ensures Project(Decode(m[k]), TAny, PresenceOf(m[k])) == Decode(m[k]) {
        OwnPresenceIsIdentity(m[k]);
      }
      var decoded, children := map k | k in m :: Decode(m[k]), map k | k in m :: PresenceOf(m[k]);
      assert ProjectEntries(decoded, TAny, children) == decoded;
    }
  }

  predicate Written(j: Json, path: Path) {
    path == [] || (j.Obj? && path[0] in j.fields && Written(j.fields[path[0]], path[1..]))
  }

  /** The tree of a written object has every node present, objects where objects were, a path for every key chain. */
  lemma {:induction false} PathsAreWritten(j: Json, path: Path)
    ensures IsPath(PresenceOf(j), path) <==> Written(j, path)
    decreases path
  {
    if path != [] && j.Obj? && path[0] in j.fields {
      PathsAreWritten(j.fields[path[0]], path[1..]);
    }
  }

  /** A nil input or an unowned root projects to the zero value. */
  function ProjectByPresence(v: Option<Value>, t: Type, p: FieldPresence): Value {
    if v.None? || !p.present then ZeroOf(t) else Project(v.value, t, p)
  }
}
