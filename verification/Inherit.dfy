/** Normalisers that copy fields between the two sides of a drift check (kargoinstance/kargoinstance.go). */
module Inherit {
  import opened Wrappers
  import opened GoValues
  import opened Presence

  // ----- Fields by path -----

  /** The type of the field a path of JSON names leads to, through structs and pointers. */
  function TypeAt(t: Type, at: Path): Option<Type>
    decreases t
  {
    if at == [] then Some(t)
    else if t.TPtr? then TypeAt(t.to, at)
    else if t.TStruct? && at[0] in t.fields then TypeAt(t.fields[at[0]], at[1..])
    else None
  }

  /** The field itself; None behind a nil pointer. */
  function Get(v: Value, at: Path): Option<Value>
    decreases v
  {
    if at == [] then Some(v)
    else if v.Ptr? then Get(v.to, at)
    else if v.Struct? && at[0] in v.fields then Get(v.fields[at[0]], at[1..])
    else None
  }

  function Put(v: Value, at: Path, x: Value): Value
    decreases v
  {
    if at == [] then x
    else if v.Ptr? then Ptr(Put(v.to, at, x))
    else if v.Struct? && at[0] in v.fields then Struct(v.fields[at[0] := Put(v.fields[at[0]], at[1..], x)])
    else v
  }

  lemma {:induction false} GetHasType(v: Value, t: Type, at: Path)
    requires HasType(v, t) && TypeAt(t, at).Some? && Get(v, at).Some?
    ensures HasType(Get(v, at).value, TypeAt(t, at).value)
    decreases v
  {
    if at == [] {
    } else if v.Ptr? {
      GetHasType(v.to, t.to, at);
    } else {
      GetHasType(v.fields[at[0]], t.fields[at[0]], at[1..]);
    }
  }

  lemma {:induction false} PutHasType(v: Value, t: Type, at: Path, x: Value)
    requires HasType(v, t) && TypeAt(t, at).Some? && HasType(x, TypeAt(t, at).value)
    ensures HasType(Put(v, at, x), t)
    decreases v
  {
    if at == [] {
    } else if v.Ptr? {
      PutHasType(v.to, t.to, at, x);
    } else if v.Struct? && at[0] in v.fields {
      PutHasType(v.fields[at[0]], t.fields[at[0]], at[1..], x);
    }
  }

  lemma {:induction false} PutBack(v: Value, at: Path)
    requires Get(v, at).Some?
    ensures Put(v, at, Get(v, at).value) == v
    decreases v
  {
    if at == [] {
    } else if v.Ptr? {
      PutBack(v.to, at);
    } else {
      PutBack(v.fields[at[0]], at[1..]);
    }
  }

  // ----- What the user owns of a field -----

  ghost predicate AllPresent(p: FieldPresence) {
    p.present && forall k | k in p.children :: AllPresent(p.children[k])
  }

  /** The presence tree below a field: whole below an owned value, None where the user wrote nothing. */
  function Residual(p: FieldPresence, at: Path): Option<FieldPresence>
    decreases at
  {
    if at == [] then Some(p)
    else if !p.isObject then Some(OWNED)
    else if at[0] in p.children then Residual(p.children[at[0]], at[1..])
    else None
  }

  lemma {:induction false} ResidualPresent(p: FieldPresence, at: Path)
    requires AllPresent(p) && Residual(p, at).Some?
    ensures Residual(p, at).value.present
    decreases at
  {
    if at != [] && p.isObject { ResidualPresent(p.children[at[0]], at[1..]); }
  }

  lemma {:induction false} OwnedIsWhole(v: Value, t: Type, p: FieldPresence)
    requires p.present && !p.isObject
    ensures Project(v, t, p) == v
    decreases v
  {
    if v.Any? { OwnedIsWhole(v.value, v.dyn, p); }
  }

  lemma FieldProjects(v: Value, t: Type, p: FieldPresence, k: string)
    requires HasType(v, t) && v.Struct? && p.present && p.isObject && k in t.fields
    ensures Project(v, t, p).Struct? && Project(v, t, p).fields.Keys == t.fields.Keys
    ensures Project(v, t, p).fields[k]
         == if k in p.children then Project(v.fields[k], t.fields[k], p.children[k]) else ZeroOf(t.fields[k])
  {}

  /** Two values alike in what is owned are alike in what is owned of a field. */
  lemma {:induction false} GetProjects(a: Value, b: Value, t: Type, p: FieldPresence, at: Path)
    requires HasType(a, t) && HasType(b, t) && AllPresent(p) && TypeAt(t, at).Some?
    requires Project(a, t, p) == Project(b, t, p) && Residual(p, at).Some?
    ensures Get(a, at).Some? <==> Get(b, at).Some?
    ensures Get(a, at).Some? ==>
      var u, r := TypeAt(t, at).value, Residual(p, at).value;
      Project(Get(a, at).value, u, r) == Project(Get(b, at).value, u, r)
    decreases a
  {
    if at == [] {
    } else if !p.isObject {
      OwnedIsWhole(a, t, p);
      OwnedIsWhole(b, t, p);
    } else if a.Ptr? && b.Ptr? {
      GetProjects(a.to, b.to, t.to, p, at);
    } else if a.Struct? && b.Struct? {
      FieldProjects(a, t, p, at[0]);
      FieldProjects(b, t, p, at[0]);
      GetProjects(a.fields[at[0]], b.fields[at[0]], t.fields[at[0]], p.children[at[0]], at[1..]);
    }
  }

  lemma UpdatedField(
    fs: map<string, Value>, ts: map<string, Type>, children: map<string, FieldPresence>, k: string, y: Value)
    requires k in fs && k in ts
    ensures var before := ProjectFields(fs, ts, children);
      ProjectFields(fs[k := y], ts, children)
      == if k in children then before[k := Project(y, ts[k], children[k])] else before
  {
    hide Project;
    hide ZeroOf;
    var before, after := ProjectFields(fs, ts, children), ProjectFields(fs[k := y], ts, children);
    assert forall f | f in ts && f != k :: after[f] == before[f];
  }

  /** Putting into a struct changes the projection of one field and no other. */
  lemma PutField(v: Value, t: Type, p: FieldPresence, at: Path, x: Value)
    requires HasType(v, t) && v.Struct? && p.present && p.isObject && at != [] && at[0] in v.fields
    ensures var k := at[0];
      Project(Put(v, at, x), t, p) == Struct(
        if k in p.children
        then Project(v, t, p).fields[k := Project(Put(v.fields[k], at[1..], x), t.fields[k], p.children[k])]
        else Project(v, t, p).fields)
  {
    UpdatedField(v.fields, t.fields, p.children, at[0], Put(v.fields[at[0]], at[1..], x));
  }

  /** Putting fields alike in what is owned of them keeps the two sides alike. */
  lemma {:induction false} PutProjects(a: Value, b: Value, t: Type, p: FieldPresence, at: Path, x: Value, y: Value)
    requires HasType(a, t) && HasType(b, t) && AllPresent(p)
    requires TypeAt(t, at).Some? && Get(a, at).Some? && Get(b, at).Some?
    requires HasType(x, TypeAt(t, at).value) && HasType(y, TypeAt(t, at).value)
    requires Project(a, t, p) == Project(b, t, p)
    requires Residual(p, at).Some? && Project(x, TypeAt(t, at).value, Residual(p, at).value)
                                   == Project(y, TypeAt(t, at).value, Residual(p, at).value)
    ensures Project(Put(a, at, x), t, p) == Project(Put(b, at, y), t, p)
    decreases a
  {
    if at == [] {
    } else if !p.isObject {
      OwnedIsWhole(a, t, p);
      OwnedIsWhole(b, t, p);
      OwnedIsWhole(x, TypeAt(t, at).value, OWNED);
      OwnedIsWhole(y, TypeAt(t, at).value, OWNED);
    } else if a.Ptr? {
      PutProjects(a.to, b.to, t.to, p, at, x, y);
    } else {
      var k := at[0];
      FieldProjects(a, t, p, k);
      FieldProjects(b, t, p, k);
      PutProjects(a.fields[k], b.fields[k], t.fields[k], p.children[k], at[1..], x, y);
      PutField(a, t, p, at, x);
      PutField(b, t, p, at, y);
    }
  }

  /** Putting where the user owns nothing shows nowhere. */
  lemma {:induction false} UnownedPut(v: Value, t: Type, p: FieldPresence, at: Path, x: Value)
    requires HasType(v, t) && AllPresent(p) && TypeAt(t, at).Some? && Residual(p, at).None?
    ensures Project(Put(v, at, x), t, p) == Project(v, t, p)
    decreases v
  {
    if v.Ptr? {
      UnownedPut(v.to, t.to, p, at, x);
    } else if v.Struct? && at[0] in v.fields {
      if at[0] in p.children {
        UnownedPut(v.fields[at[0]], t.fields[at[0]], p.children[at[0]], at[1..], x);
        FieldProjects(v, t, p, at[0]);
      }
      PutField(v, t, p, at, x);
    }
  }

  // ----- Copying rules -----

  /** The values a normaliser takes for "the user pinned nothing here". */
  predicate Unset(v: Value) {
    v in {NilPtr, NilMap, NilSlice, NilAny, Text(""), Label("")}
  }

  /** Of the kinds a rule may copy, that is exactly the zero value; scalars other than text and whole structs are never
      taken for unset. */
  lemma UnsetExactly(v: Value, t: Type)
    requires HasType(v, t)
    ensures t.TPtr? || t.TText? || t.TLabel? || t.TMap? || t.TSlice? || t.TAny? ==> (Unset(v) <==> v == ZeroOf(t))
    ensures t.TBool? || t.TNum? || t.TStruct? || t.TKeyed? ==> !Unset(v)
  {}

  /** Copy one field: onto desired from observed, or the other way; always, or when the receiving side is unset. */
  datatype Rule = Rule(ontoDesired: bool, at: Path, always: bool)

  function Copied(onto: Value, from: Value, r: Rule): Value {
    if Get(onto, r.at).Some? && Get(from, r.at).Some? && (r.always || Unset(Get(onto, r.at).value))
    then Put(onto, r.at, Get(from, r.at).value)
    else onto
  }

  function Applied(r: Rule, desired: Value, observed: Value): (Value, Value) {
    if r.ontoDesired then (Copied(desired, observed, r), observed) else (desired, Copied(observed, desired, r))
  }

  /** The rules in order. */
  function ByRules(rules: seq<Rule>, desired: Value, observed: Value): (Value, Value) {
    if rules == [] then (desired, observed)
    else
      var (d, o) := Applied(rules[0], desired, observed);
      ByRules(rules[1..], d, o)
  }

  ghost predicate WellTyped(rules: seq<Rule>, t: Type) {
    forall i | 0 <= i < |rules| :: TypeAt(t, rules[i].at).Some?
  }

  lemma UnsetIsSeen(x: Value, y: Value, u: Type, r: FieldPresence)
    requires HasType(x, u) && HasType(y, u) && r.present && Project(x, u, r) == Project(y, u, r)
    ensures Unset(x) <==> Unset(y)
  {}

  lemma CopiedHasType(onto: Value, from: Value, t: Type, r: Rule)
    requires HasType(onto, t) && HasType(from, t) && TypeAt(t, r.at).Some?
    ensures HasType(Copied(onto, from, r), t)
  {
    if Get(from, r.at).Some? {
      GetHasType(from, t, r.at);
      PutHasType(onto, t, r.at, Get(from, r.at).value);
    }
  }

  lemma CopyUnowned(onto: Value, from: Value, t: Type, p: FieldPresence, r: Rule)
    requires HasType(onto, t) && AllPresent(p) && TypeAt(t, r.at).Some? && Residual(p, r.at).None?
    ensures Project(Copied(onto, from, r), t, p) == Project(onto, t, p)
  {
    if Get(from, r.at).Some? { UnownedPut(onto, t, p, r.at, Get(from, r.at).value); }
  }

  /** One rule, on two pairs alike in what the user owns: a guard that reads an owned field decides alike, and a field
      the user does not own does not show. */
  lemma CopyKeepsAgreement(onto: Value, from: Value, onto': Value, from': Value, t: Type, p: FieldPresence, r: Rule)
    requires HasType(onto, t) && HasType(from, t) && HasType(onto', t) && HasType(from', t)
    requires AllPresent(p) && TypeAt(t, r.at).Some?
    requires Project(onto, t, p) == Project(onto', t, p) && Project(from, t, p) == Project(from', t, p)
    ensures Project(Copied(onto, from, r), t, p) == Project(Copied(onto', from', r), t, p)
  {
    var at := r.at;
    if Residual(p, at).None? {
      CopyUnowned(onto, from, t, p, r);
      CopyUnowned(onto', from', t, p, r);
    } else {
      GetProjects(onto, onto', t, p, at);
      GetProjects(from, from', t, p, at);
      ResidualPresent(p, at);
      hide Project;
      if Get(onto, at).Some? && Get(from, at).Some? {
        var u, w := TypeAt(t, at).value, Residual(p, at).value;
        GetHasType(onto, t, at);
        GetHasType(onto', t, at);
        GetHasType(from, t, at);
        GetHasType(from', t, at);
        UnsetIsSeen(Get(onto, at).value, Get(onto', at).value, u, w);
        PutProjects(onto, onto', t, p, at, Get(from, at).value, Get(from', at).value);
      }
    }
  }

  /** Two pairs of sides of one type, alike in what the user owns. */
  ghost predicate Alike(a: (Value, Value), b: (Value, Value), t: Type, p: FieldPresence) {
    && HasType(a.0, t) && HasType(a.1, t) && HasType(b.0, t) && HasType(b.1, t)
    && Project(a.0, t, p) == Project(b.0, t, p) && Project(a.1, t, p) == Project(b.1, t, p)
  }

  lemma AppliedKeepsAgreement(r: Rule, d: Value, o: Value, d': Value, o': Value, t: Type, p: FieldPresence)
    requires AllPresent(p) && TypeAt(t, r.at).Some? && Alike((d, o), (d', o'), t, p)
    ensures Alike(Applied(r, d, o), Applied(r, d', o'), t, p)
  {
    hide Project;
    hide HasType;
    hide Copied;
    if r.ontoDesired {
      CopyKeepsAgreement(d, o, d', o', t, p, r);
      CopiedHasType(d, o, t, r);
      CopiedHasType(d', o', t, r);
    } else {
      CopyKeepsAgreement(o, d, o', d', t, p, r);
      CopiedHasType(o, d, t, r);
      CopiedHasType(o', d', t, r);
    }
  }

  /** Any list of copying rules takes pairs alike in what the user owns to pairs alike in what the user owns. */
  lemma {:induction false} RulesKeepAgreement(
    rules: seq<Rule>, d: Value, o: Value, d': Value, o': Value, t: Type, p: FieldPresence)
    requires AllPresent(p) && WellTyped(rules, t) && Alike((d, o), (d', o'), t, p)
    ensures Alike(ByRules(rules, d, o), ByRules(rules, d', o'), t, p)
    decreases |rules|
  {
    hide Alike;
    hide Applied;
    if rules != [] {
      AppliedKeepsAgreement(rules[0], d, o, d', o', t, p);
      var a, b := Applied(rules[0], d, o), Applied(rules[0], d', o');
      RulesKeepAgreement(rules[1..], a.0, a.1, b.0, b.1, t, p);
    }
  }

  lemma {:induction false} RulesKeepType(rules: seq<Rule>, d: Value, o: Value, t: Type)
    requires HasType(d, t) && HasType(o, t) && WellTyped(rules, t)
    ensures HasType(ByRules(rules, d, o).0, t) && HasType(ByRules(rules, d, o).1, t)
    decreases |rules|
  {
    if rules != [] {
      var (x, y) := Applied(rules[0], d, o);
      CopiedHasType(d, o, t, rules[0]);
      CopiedHasType(o, d, t, rules[0]);
      RulesKeepType(rules[1..], x, y, t);
    }
  }

  /** A copy between two sides alike in what the user owns keeps them alike. */
  lemma CopyKeepsEcho(onto: Value, from: Value, t: Type, p: FieldPresence, r: Rule)
    requires HasType(onto, t) && HasType(from, t) && AllPresent(p) && TypeAt(t, r.at).Some?
    requires Project(onto, t, p) == Project(from, t, p)
    ensures Project(Copied(onto, from, r), t, p) == Project(from, t, p)
  {
    var at := r.at;
    if Residual(p, at).None? {
      CopyUnowned(onto, from, t, p, r);
    } else if Get(onto, at).Some? && Get(from, at).Some? {
      var x := Get(from, at).value;
      GetHasType(from, t, at);
      PutProjects(onto, from, t, p, at, x, x);
      PutBack(from, at);
    }
  }

  /** Two sides of one type, alike in what the user owns. */
  ghost predicate Echoing(a: (Value, Value), t: Type, p: FieldPresence) {
    HasType(a.0, t) && HasType(a.1, t) && Project(a.0, t, p) == Project(a.1, t, p)
  }

  lemma AppliedKeepsEcho(r: Rule, d: Value, o: Value, t: Type, p: FieldPresence)
    requires AllPresent(p) && TypeAt(t, r.at).Some? && Echoing((d, o), t, p)
    ensures Echoing(Applied(r, d, o), t, p)
  {
    hide Project;
    hide HasType;
    hide Copied;
    if r.ontoDesired {
      CopiedHasType(d, o, t, r);
      CopyKeepsEcho(d, o, t, p, r);
    } else {
      CopiedHasType(o, d, t, r);
      CopyKeepsEcho(o, d, t, p, r);
    }
  }

  /** So no rule turns an echo of what the user wrote into drift. */
  lemma {:induction false} RulesKeepEcho(rules: seq<Rule>, d: Value, o: Value, t: Type, p: FieldPresence)
    requires AllPresent(p) && WellTyped(rules, t) && Echoing((d, o), t, p)
    ensures Echoing(ByRules(rules, d, o), t, p)
    decreases |rules|
  {
    hide Echoing;
    hide Applied;
    if rules != [] {
      AppliedKeepsEcho(rules[0], d, o, t, p);
      var a := Applied(rules[0], d, o);
      RulesKeepEcho(rules[1..], a.0, a.1, t, p);
    }
  }

  // ----- The KargoInstance rules -----

  function OntoDesired(at: Path): Rule { Rule(true, at, false) }

  /** Workspace is not exported; the rest is defaulted, retained or owned elsewhere by the server. */
  const KARGO_INSTANCE_RULES: seq<Rule> := [
    Rule(false, ["workspace"], false),
    OntoDesired(["kargo", "subdomain"]),
    OntoDesired(["kargo", "kargoInstanceSpec", "akuityIntelligence"]),
    OntoDesired(["kargo", "kargoInstanceSpec", "gcConfig"]),
    OntoDesired(["kargo", "oidcConfig"]),
    OntoDesired(["kargo", "kargoInstanceSpec", "defaultShardAgent"])]

  /** The part of the KargoInstance parameters the rules reach into. */
  function KargoInstanceFields(): Type {
    TStruct(map["workspace" := TText, "kargo" := TStruct(map[
      "subdomain" := TText, "oidcConfig" := TPtr(TStruct(map[])),
      "kargoInstanceSpec" := TStruct(map[
        "akuityIntelligence" := TPtr(TStruct(map[])), "gcConfig" := TPtr(TStruct(map[])),
        "defaultShardAgent" := TText])])])
  }

  lemma KargoInstanceRulesAreTyped()
    ensures WellTyped(KARGO_INSTANCE_RULES, KargoInstanceFields())
  {
    var t := KargoInstanceFields();
    var kargo := t.fields["kargo"];
    var spec := kargo.fields["kargoInstanceSpec"];
    forall i | 0 <= i < |KARGO_INSTANCE_RULES| ensures TypeAt(t, KARGO_INSTANCE_RULES[i].at).Some? {
      var at := KARGO_INSTANCE_RULES[i].at;
      if i > 0 {
        assert TypeAt(t, at) == TypeAt(kargo, at[1..]);
        if i in {2, 3, 5} {
          assert TypeAt(kargo, at[1..]) == TypeAt(spec, at[1..][1..]);
        }
      }
    }
  }

  // ----- What the rules copy -----

  /** Neither path leads into the other. */
  predicate Apart(a: Path, b: Path) { !(a <= b) && !(b <= a) }

  lemma {:induction false} PutGet(v: Value, at: Path, x: Value)
    requires Get(v, at).Some?
    ensures Get(Put(v, at, x), at) == Some(x)
    decreases v
  {
    if at == [] {
    } else if v.Ptr? {
      PutGet(v.to, at, x);
    } else {
      PutGet(v.fields[at[0]], at[1..], x);
    }
  }

  lemma {:induction false} PutElsewhere(v: Value, at: Path, x: Value, other: Path)
    requires Apart(at, other)
    ensures Get(Put(v, at, x), other) == Get(v, other)
    decreases v
  {
    if v.Ptr? {
      PutElsewhere(v.to, at, x, other);
    } else if v.Struct? && at[0] in v.fields && at[0] == other[0] {
      assert at == [at[0]] + at[1..] && other == [at[0]] + other[1..];
      PutElsewhere(v.fields[at[0]], at[1..], x, other[1..]);
    }
  }

  /** What a field holds after a rule: the other side's value where both have the field and this one is unset (or the
      rule always copies), and its own otherwise. */
  function Settled(mine: Option<Value>, theirs: Option<Value>, always: bool): Option<Value> {
    if mine.Some? && theirs.Some? && (always || Unset(mine.value)) then theirs else mine
  }

  lemma CopiedExactly(onto: Value, from: Value, r: Rule, at: Path)
    ensures at == r.at ==> Get(Copied(onto, from, r), at) == Settled(Get(onto, at), Get(from, at), r.always)
    ensures Apart(r.at, at) ==> Get(Copied(onto, from, r), at) == Get(onto, at)
  {
    if Get(onto, r.at).Some? && Get(from, r.at).Some? {
      PutGet(onto, r.at, Get(from, r.at).value);
      if Apart(r.at, at) { PutElsewhere(onto, r.at, Get(from, r.at).value, at); }
    }
  }

  /** Rules about other fields leave a field alone on both sides. */
  lemma {:induction false} RulesElsewhere(rules: seq<Rule>, d: Value, o: Value, at: Path)
    requires forall i | 0 <= i < |rules| :: Apart(rules[i].at, at)
    ensures var (x, y) := ByRules(rules, d, o);
      Get(x, at) == Get(d, at) && Get(y, at) == Get(o, at)
    decreases |rules|
  {
    if rules != [] {
      CopiedExactly(d, o, rules[0], at);
      CopiedExactly(o, d, rules[0], at);
      hide Copied;
      var (d', o') := Applied(rules[0], d, o);
      RulesElsewhere(rules[1..], d', o', at);
    }
  }

  /** Where no rule's field lies within another's, each rule does what it would do alone. */
  lemma {:induction false} RulesActAlone(rules: seq<Rule>, d: Value, o: Value, i: nat)
    requires i < |rules|
    requires forall j, k | 0 <= j < |rules| && 0 <= k < |rules| && j != k :: Apart(rules[j].at, rules[k].at)
    ensures var (x, y) := ByRules(rules, d, o);
      var (r, at) := (rules[i], rules[i].at);
      && Get(x, at) == (if r.ontoDesired then Settled(Get(d, at), Get(o, at), r.always) else Get(d, at))
      && Get(y, at) == (if r.ontoDesired then Get(o, at) else Settled(Get(o, at), Get(d, at), r.always))
    decreases |rules|
  {
    var at := rules[i].at;
    CopiedExactly(d, o, rules[0], at);
    CopiedExactly(o, d, rules[0], at);
    hide Copied;
    var (d', o') := Applied(rules[0], d, o);
    var rest := rules[1..];
    if i == 0 {
      assert forall j | 0 <= j < |rest| :: rest[j] == rules[j + 1];
      RulesElsewhere(rest, d', o', at);
    } else {
      RulesActAlone(rest, d', o', i - 1);
    }
  }

  lemma DifferAt(a: Path, b: Path, i: nat)
    requires i < |a| && i < |b| && |a[i]| != |b[i]|
    ensures Apart(a, b)
  {}

  lemma KargoInstanceRulesApart(j: nat, k: nat)
    requires j < |KARGO_INSTANCE_RULES| && k < |KARGO_INSTANCE_RULES| && j != k
    ensures Apart(KARGO_INSTANCE_RULES[j].at, KARGO_INSTANCE_RULES[k].at)
  {
    var (a, b) := (KARGO_INSTANCE_RULES[j].at, KARGO_INSTANCE_RULES[k].at);
    hide Apart;
    DifferAt(a, b, if j == 0 || k == 0 then 0 else if |a[1]| != |b[1]| then 1 else 2);
  }

  lemma KargoInstanceRuleActs(d: Value, o: Value, i: nat)
    requires i < |KARGO_INSTANCE_RULES|
    ensures var (x, y) := ByRules(KARGO_INSTANCE_RULES, d, o);
      var (r, at) := (KARGO_INSTANCE_RULES[i], KARGO_INSTANCE_RULES[i].at);
      && Get(x, at) == (if r.ontoDesired then Settled(Get(d, at), Get(o, at), r.always) else Get(d, at))
      && Get(y, at) == (if r.ontoDesired then Get(o, at) else Settled(Get(o, at), Get(d, at), r.always))
  {
    hide Apart;
    hide ByRules;
    hide Get;
    hide Settled;
    forall j, k | 0 <= j < |KARGO_INSTANCE_RULES| && 0 <= k < |KARGO_INSTANCE_RULES| && j != k
      ensures Apart(KARGO_INSTANCE_RULES[j].at, KARGO_INSTANCE_RULES[k].at)
    {
      KargoInstanceRulesApart(j, k);
    }
    RulesActAlone(KARGO_INSTANCE_RULES, d, o, i);
  }

  /** A KargoInstance inherits these fields from the platform while the user has not set them. */
  const KARGO_INHERITED: seq<Path> := [
    ["kargo", "subdomain"], ["kargo", "kargoInstanceSpec", "akuityIntelligence"],
    ["kargo", "kargoInstanceSpec", "gcConfig"], ["kargo", "oidcConfig"],
    ["kargo", "kargoInstanceSpec", "defaultShardAgent"]]

  predicate ApartFromRules(at: Path) {
    Apart(at, ["workspace"]) && forall i | 0 <= i < |KARGO_INHERITED| :: Apart(at, KARGO_INHERITED[i])
  }

  /** Five fields are inherited, the workspace is lent to the platform, and nothing else moves. */
  lemma KargoInstanceInherits(d: Value, o: Value)
    ensures var (x, y) := ByRules(KARGO_INSTANCE_RULES, d, o);
      && (forall i | 0 <= i < |KARGO_INHERITED| ::
            var at := KARGO_INHERITED[i];
            Get(x, at) == Settled(Get(d, at), Get(o, at), false) && Get(y, at) == Get(o, at))
      && Get(y, ["workspace"]) == Settled(Get(o, ["workspace"]), Get(d, ["workspace"]), false)
      && Get(x, ["workspace"]) == Get(d, ["workspace"])
      && (forall at | ApartFromRules(at) :: Get(x, at) == Get(d, at) && Get(y, at) == Get(o, at))
  {
    hide ByRules;
    hide Get;
    hide Settled;
    var (x, y) := ByRules(KARGO_INSTANCE_RULES, d, o);
    KargoInstanceRuleActs(d, o, 0);
    forall i | 0 <= i < |KARGO_INHERITED|
      ensures KARGO_INSTANCE_RULES[i + 1] == OntoDesired(KARGO_INHERITED[i])
    {}
    forall i | 0 <= i < |KARGO_INHERITED|
      ensures var at := KARGO_INHERITED[i];
        Get(x, at) == Settled(Get(d, at), Get(o, at), false) && Get(y, at) == Get(o, at)
    {
      KargoInstanceRuleActs(d, o, i + 1);
    }
    forall at | ApartFromRules(at)
      ensures Get(x, at) == Get(d, at) && Get(y, at) == Get(o, at)
    {
      forall j | 0 <= j < |KARGO_INSTANCE_RULES| ensures Apart(KARGO_INSTANCE_RULES[j].at, at) {
        if j > 0 { assert KARGO_INSTANCE_RULES[j] == OntoDesired(KARGO_INHERITED[j - 1]); }
      }
      hide Apart;
      RulesElsewhere(KARGO_INSTANCE_RULES, d, o, at);
    }
  }
}
