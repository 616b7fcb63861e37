/** Deciding whether a resource is up to date (base/drift.go). */
module Drift {
  import opened Wrappers
  import opened Ordering
  import opened Reason
  import opened JsonMatch
  import opened GoValues
  import opened Presence
  import opened Equate
  import opened Inherit

  class Cell {
    var value: Value

    constructor (value: Value)
      ensures this.value == value
    {
      this.value := value;
    }
  }

  // ----- Comparison options -----

  /** Fields of the root struct that are not compared, and whether lists of strings are compared as sorted. */
  datatype Options = Options(ignored: set<string>, unordered: bool)

  predicate AllText(xs: seq<Value>) {
    forall i | 0 <= i < |xs| :: xs[i].Text?
  }

  function TextOf(v: Value): string { if v.Text? then v.s else "" }

  predicate TextLe(a: Value, b: Value) { LexLe(TextOf(a), TextOf(b)) }

  /** `v` with every list of strings in it sorted. */
  function Unordered(v: Value): Value {
    match v
    case Ptr(x) => Ptr(Unordered(x))
    case Struct(fs) => Struct(map f | f in fs :: Unordered(fs[f]))
    case Map(m) => Map(map k | k in m :: Unordered(m[k]))
    case Slice(xs) =>
      if AllText(xs) then Slice(SortedForm(xs, TextLe))
      else Slice(seq(|xs|, i requires 0 <= i < |xs| => Unordered(xs[i])))
    case Any(t, x) => Any(t, Unordered(x))
    case _ => v
  }

  function UnorderedEach(m: map<string, Value>): map<string, Value> {
    map k | k in m :: Unordered(m[k])
  }

  /** Alike up to the order within lists of strings. */
  predicate Shuffled(v: Value, w: Value)
    decreases v
  {
    match (v, w)
    case (Ptr(x), Ptr(y)) => Shuffled(x, y)
    case (Struct(fs), Struct(gs)) => fs.Keys == gs.Keys && forall f | f in fs :: Shuffled(fs[f], gs[f])
    case (Map(m), Map(n)) => m.Keys == n.Keys && forall k | k in m :: Shuffled(m[k], n[k])
    case (Slice(xs), Slice(ys)) =>
      if AllText(xs) && AllText(ys) then multiset(xs) == multiset(ys)
      else |xs| == |ys| && forall i | 0 <= i < |xs| :: Shuffled(xs[i], ys[i])
    case (Any(t, x), Any(u, y)) => t == u && Shuffled(x, y)
    case _ => v == w
  }

  lemma TextOrder()
    ensures TotalPreorder(TextLe)
  {
    forall a, b ensures TextLe(a, b) || TextLe(b, a) { LexTotal(TextOf(a), TextOf(b)); }
    forall a, b, c | TextLe(a, b) && TextLe(b, c) ensures TextLe(a, c) {
      LexTransitive(TextOf(a), TextOf(b), TextOf(c));
    }
  }

  lemma SortedTextsExactly(xs: seq<Value>, ys: seq<Value>)
    requires AllText(xs) && AllText(ys)
    ensures SortedForm(xs, TextLe) == SortedForm(ys, TextLe) <==> multiset(xs) == multiset(ys)
  {
    TextOrder();
    SortedFormSorts(xs, TextLe);
    SortedFormSorts(ys, TextLe);
    if multiset(xs) == multiset(ys) {
      var sx := SortedForm(xs, TextLe);
      forall a | a in sx ensures a.Text? && TextLe(a, a) {
        assert a in multiset(xs);
        LexTotal(a.s, a.s);
      }
      forall a, b | a in sx && b in sx && TextLe(a, b) && TextLe(b, a) ensures a == b { LexTotal(a.s, b.s); }
      SortedIsUnique(sx, SortedForm(ys, TextLe), TextLe);
    }
  }

  lemma SortedTextsStayText(xs: seq<Value>)
    requires AllText(xs)
    ensures AllText(SortedForm(xs, TextLe))
  {
    TextOrder();
    SortedFormSorts(xs, TextLe);
    var sx := SortedForm(xs, TextLe);
    forall i | 0 <= i < |sx| ensures sx[i].Text? { assert sx[i] in multiset(xs); }
  }

  lemma {:induction false} UnorderedListsExactly(xs: seq<Value>, ys: seq<Value>)
    requires !(AllText(xs) && AllText(ys))
    requires forall i | 0 <= i < |xs| && i < |ys| :: Unordered(xs[i]) == Unordered(ys[i]) <==> Shuffled(xs[i], ys[i])
    ensures Unordered(Slice(xs)) == Unordered(Slice(ys)) <==> Shuffled(Slice(xs), Slice(ys))
  {
    var us, vs := Unordered(Slice(xs)).items, Unordered(Slice(ys)).items;
    assert |us| == |xs| && |vs| == |ys|;
    if AllText(xs) {
      SortedTextsStayText(xs);
      var i :| 0 <= i < |ys| && !ys[i].Text?;
      assert vs[i] == Unordered(ys[i]) && !vs[i].Text?;
    } else if AllText(ys) {
      SortedTextsStayText(ys);
      var i :| 0 <= i < |xs| && !xs[i].Text?;
      assert us[i] == Unordered(xs[i]) && !us[i].Text?;
    } else {
      assert forall i | 0 <= i < |xs| :: us[i] == Unordered(xs[i]);
      assert forall i | 0 <= i < |ys| :: vs[i] == Unordered(ys[i]);
      if Shuffled(Slice(xs), Slice(ys)) { assert us == vs; }
    }
  }

  lemma EachUnfolds(m: map<string, Value>)
    ensures Unordered(Struct(m)) == Struct(UnorderedEach(m)) && Unordered(Map(m)) == Map(UnorderedEach(m))
  {}

  lemma UnorderedEntriesExactly(m: map<string, Value>, n: map<string, Value>)
    requires forall k | k in m && k in n :: Unordered(m[k]) == Unordered(n[k]) <==> Shuffled(m[k], n[k])
    ensures UnorderedEach(m) == UnorderedEach(n) <==> m.Keys == n.Keys && forall k | k in m :: Shuffled(m[k], n[k])
  {
    hide Shuffled;
    hide Unordered;
    var us, vs := UnorderedEach(m), UnorderedEach(n);
    assert us.Keys == m.Keys && vs.Keys == n.Keys;
    forall k | k in m && k in n ensures us[k] == vs[k] <==> Shuffled(m[k], n[k]) {}
    if m.Keys == n.Keys && forall k | k in m :: Shuffled(m[k], n[k]) {
      assert us == vs;
    }
  }

  lemma UnorderedLeaves(v: Value, w: Value)
    requires !(v.Ptr? && w.Ptr?) && !(v.Any? && w.Any?) && !(v.Struct? && w.Struct?) && !(v.Map? && w.Map?)
    requires !(v.Slice? && w.Slice?)
    ensures Unordered(v) == Unordered(w) <==> Shuffled(v, w)
  {
    assert Shuffled(v, w) <==> v == w;
    hide Shuffled;
  }

  /** Sorting every list of strings forgets their order and nothing else. */
  lemma {:induction false} UnorderedExactly(v: Value, w: Value)
    ensures Unordered(v) == Unordered(w) <==> Shuffled(v, w)
    decreases v, 1
  {
    hide SortedForm;
    if v.Ptr? && w.Ptr? {
      UnorderedExactly(v.to, w.to);
    } else if v.Any? && w.Any? {
      UnorderedExactly(v.value, w.value);
    } else if (v.Struct? && w.Struct?) || (v.Map? && w.Map?) {
      UnorderedMaps(v, w);
    } else if v.Slice? && w.Slice? {
      UnorderedSlices(v, w);
    } else {
      UnorderedLeaves(v, w);
    }
  }

  lemma {:induction false} UnorderedMaps(v: Value, w: Value)
    requires (v.Struct? && w.Struct?) || (v.Map? && w.Map?)
    ensures Unordered(v) == Unordered(w) <==> Shuffled(v, w)
    decreases v, 0
  {
    var m, n := if v.Struct? then v.fields else v.entries, if w.Struct? then w.fields else w.entries;
    forall k | k in m && k in n ensures Unordered(m[k]) == Unordered(n[k]) <==> Shuffled(m[k], n[k]) {
      UnorderedExactly(m[k], n[k]);
    }
    UnorderedEntriesExactly(m, n);
    EachUnfolds(m);
    EachUnfolds(n);
    hide Unordered;
    hide UnorderedEach;
  }

  lemma {:induction false} UnorderedSlices(v: Value, w: Value)
    requires v.Slice? && w.Slice?
    ensures Unordered(v) == Unordered(w) <==> Shuffled(v, w)
    decreases v, 0
  {
    var xs, ys := v.items, w.items;
    if AllText(xs) && AllText(ys) {
      SortedTextsExactly(xs, ys);
    } else {
      forall i | 0 <= i < |xs| && i < |ys| ensures Unordered(xs[i]) == Unordered(ys[i]) <==> Shuffled(xs[i], ys[i]) {
        UnorderedExactly(xs[i], ys[i]);
      }
      UnorderedListsExactly(xs, ys);
    }
  }

  /** What the options leave of a value. */
  function Canonical(o: Options, v: Value): Value {
    var kept := if v.Struct? then Struct(v.fields - o.ignored) else v;
    if o.unordered then Unordered(kept) else kept
  }

  predicate Same(o: Options, x: Value, y: Value, quantity: string -> Option<real>) {
    Equal(Canonical(o, x), Canonical(o, y), quantity)
  }

  // ----- The recipe -----

  /** Normalize may change both sides; a side check answers yes, no, or fails. */
  datatype DriftSpec = DriftSpec(options: Options, normalize: Option<(Value, Value) -> (Value, Value)>,
                                 presence: Option<FieldPresence>, sides: seq<Result<bool, Error>>)

  function Normalized(d: DriftSpec, desired: Value, observed: Value): (Value, Value) {
    if d.normalize.Some? then d.normalize.value(desired, observed) else (desired, observed)
  }

  function Owned(d: DriftSpec, v: Value, t: Type): Value {
    if d.presence.Some? then ProjectByPresence(Some(v), t, d.presence.value) else v
  }

  /** The two values that are compared. */
  function Compared(d: DriftSpec, desired: Value, observed: Value, t: Type): (Value, Value) {
    var (x, y) := Normalized(d, desired, observed);
    (Owned(d, x, t), Owned(d, y, t))
  }

  predicate InSync(d: DriftSpec, desired: Value, observed: Value, t: Type, quantity: string -> Option<real>) {
    var (x, y) := Compared(d, desired, observed, t);
    Same(d.options, x, y, quantity)
  }

  /** The first side check that does not say yes says `r`. */
  predicate FirstRefusal(sides: seq<Result<bool, Error>>, r: Result<bool, Error>) {
    exists i :: 0 <= i < |sides| && sides[i] == r && r != Ok(true) && forall j | 0 <= j < i :: sides[j] == Ok(true)
  }

  method UpToDate(d: DriftSpec, desired: Cell, observed: Cell, t: Type, quantity: string -> Option<real>)
    returns (result: Result<bool, Error>)
    requires desired != observed
    modifies desired, observed
    ensures (desired.value, observed.value) == Compared(d, old(desired.value), old(observed.value), t)
    ensures result == Ok(true) <==>
      && InSync(d, old(desired.value), old(observed.value), t, quantity)
      && forall i | 0 <= i < |d.sides| :: d.sides[i] == Ok(true)
    ensures result.Err? ==>
      InSync(d, old(desired.value), old(observed.value), t, quantity) && FirstRefusal(d.sides, result)
    ensures result == Ok(false) ==>
      !InSync(d, old(desired.value), old(observed.value), t, quantity) || FirstRefusal(d.sides, result)
  {
    if d.normalize.Some? {
      var (x, y) := d.normalize.value(desired.value, observed.value);
      desired.value, observed.value := x, y;
    }
    if d.presence.Some? {
      desired.value := ProjectByPresence(Some(desired.value), t, d.presence.value);
      observed.value := ProjectByPresence(Some(observed.value), t, d.presence.value);
    }
    if !Same(d.options, desired.value, observed.value, quantity) { return Ok(false); }
    for i := 0 to |d.sides|
      invariant forall j | 0 <= j < i :: d.sides[j] == Ok(true)
    {
      if d.sides[i].Err? { return Err(d.sides[i].error); }
      if !d.sides[i].value { return Ok(false); }
    }
    result := Ok(true);
  }

  // ----- What decides the comparison -----

  /** Whatever the normaliser: two observed states are compared alike exactly when, normalised, they agree with each
      other, and so do the two normalised desired sides, at every path the user owns. */
  lemma UnownedFieldsAreIgnored(d: DriftSpec, desired: Value, before: Value, after: Value, t: Type)
    requires d.presence.Some?
    requires var ((x, y), (x', y')) := (Normalized(d, desired, before), Normalized(d, desired, after));
      HasType(x, t) && HasType(y, t) && HasType(x', t) && HasType(y', t)
    ensures var ((x, y), (x', y')) := (Normalized(d, desired, before), Normalized(d, desired, after));
      var p := d.presence.value;
      && (AgreeOn(x, t, x', t, p) && AgreeOn(y, t, y', t, p) ==>
            Compared(d, desired, before, t) == Compared(d, desired, after, t))
      && (p.present && Compared(d, desired, before, t) == Compared(d, desired, after, t) ==>
            AgreeOn(x, t, x', t, p) && AgreeOn(y, t, y', t, p))
  {
    var ((x, y), (x', y')) := (Normalized(d, desired, before), Normalized(d, desired, after));
    hide AgreeOn;
    hide HasType;
    if d.presence.value.present {
      ProjectionsEqualExactly(x, x', t, d.presence.value);
      ProjectionsEqualExactly(y, y', t, d.presence.value);
    }
  }

  /** The recipe of a normaliser that only copies fields between the sides. */
  function CopyingSpec(o: Options, rules: seq<Rule>, p: FieldPresence, sides: seq<Result<bool, Error>>): DriftSpec {
    DriftSpec(o, Some((x, y) => ByRules(rules, x, y)), Some(p), sides)
  }

  /** Under such a recipe the observed fields the user does not own never decide anything. */
  lemma CopyingIgnoresUnowned(
    o: Options, rules: seq<Rule>, p: FieldPresence, sides: seq<Result<bool, Error>>,
    desired: Value, before: Value, after: Value, t: Type)
    requires AllPresent(p) && WellTyped(rules, t)
    requires HasType(desired, t) && HasType(before, t) && HasType(after, t) && AgreeOn(before, t, after, t, p)
    ensures var d := CopyingSpec(o, rules, p, sides);
      Compared(d, desired, before, t) == Compared(d, desired, after, t)
  {
    ProjectionsEqualExactly(before, after, t, p);
    RulesKeepAgreement(rules, desired, before, desired, after, t, p);
  }

  /** And a platform that shows every owned field as it was written, with anything else around it, is in sync. */
  lemma EchoIsInSync(
    o: Options, rules: seq<Rule>, p: FieldPresence, sides: seq<Result<bool, Error>>,
    sent: Value, observed: Value, t: Type, quantity: string -> Option<real>)
    requires AllPresent(p) && WellTyped(rules, t)
    requires HasType(sent, t) && HasType(observed, t) && AgreeOn(sent, t, observed, t, p)
    ensures InSync(CopyingSpec(o, rules, p, sides), sent, observed, t, quantity)
  {
    var d := CopyingSpec(o, rules, p, sides);
    ProjectionsEqualExactly(sent, observed, t, p);
    RulesKeepEcho(rules, sent, observed, t, p);
    var (x, y) := Compared(d, sent, observed, t);
    assert x == y;
    hide Canonical;
    EqualReflexive(Canonical(o, x), quantity);
  }

  /** A presence tree read off a written object has every node present. */
  lemma {:induction false} WrittenIsPresent(j: Json)
    ensures AllPresent(PresenceOf(j))
    decreases j
  {
    if j.Obj? {
      forall k | k in j.fields ensures AllPresent(PresenceOf(j.fields[k])) { WrittenIsPresent(j.fields[k]); }
    }
  }

  /** The KargoInstance recipe: additive, hash-checked and write-only fields are compared elsewhere. */
  function KargoInstanceSpec(written: Fields, sides: seq<Result<bool, Error>>): DriftSpec {
    CopyingSpec(Options({"resources", "kargoConfigMap", "kargoRepoCredentialSecretRefs"}, true),
                KARGO_INSTANCE_RULES, PresenceOf(Obj(written)), sides)
  }

  /** For a KargoInstance only what the user wrote decides, and an echo of it is in sync. */
  lemma KargoInstanceDrift(
    written: Fields, sides: seq<Result<bool, Error>>, desired: Value, before: Value, after: Value, t: Type,
    quantity: string -> Option<real>)
    requires WellTyped(KARGO_INSTANCE_RULES, t) && HasType(desired, t) && HasType(before, t) && HasType(after, t)
    ensures var (d, p) := (KargoInstanceSpec(written, sides), PresenceOf(Obj(written)));
      && (AgreeOn(before, t, after, t, p) ==>
            (InSync(d, desired, before, t, quantity) <==> InSync(d, desired, after, t, quantity)))
      && (AgreeOn(desired, t, after, t, p) ==> InSync(d, desired, after, t, quantity))
  {
    hide AgreeOn;
    hide HasType;
    hide Same;
    var (d, p) := (KargoInstanceSpec(written, sides), PresenceOf(Obj(written)));
    WrittenIsPresent(Obj(written));
    if AgreeOn(before, t, after, t, p) {
      CopyingIgnoresUnowned(d.options, KARGO_INSTANCE_RULES, p, sides, desired, before, after, t);
    }
    if AgreeOn(desired, t, after, t, p) {
      EchoIsInSync(d.options, KARGO_INSTANCE_RULES, p, sides, desired, after, t, quantity);
    }
  }

  /** The platform listing strings in another order is not drift. */
  lemma OrderIsIgnored(
    d: DriftSpec, desired: Value, before: Value, after: Value, t: Type, quantity: string -> Option<real>)
    requires d.options.unordered
    requires Compared(d, desired, before, t).0 == Compared(d, desired, after, t).0
    requires Shuffled(Compared(d, desired, before, t).1, Compared(d, desired, after, t).1)
    ensures InSync(d, desired, before, t, quantity) <==> InSync(d, desired, after, t, quantity)
  {
    var y, y' := Compared(d, desired, before, t).1, Compared(d, desired, after, t).1;
    var kept, kept' := if y.Struct? then Struct(y.fields - d.options.ignored) else y,
      if y'.Struct? then Struct(y'.fields - d.options.ignored) else y';
    assert Shuffled(kept, kept');
    UnorderedExactly(kept, kept');
  }

  lemma SameChains(o: Options, a: Value, b: Value, b': Value, c: Value, quantity: string -> Option<real>)
    requires ReadsQuantities(quantity)
    requires Same(o, a, b, quantity) && Same(o, b, b', quantity) && Same(o, b', c, quantity)
    ensures Same(o, a, c, quantity) && Same(o, c, a, quantity)
  {
    hide Canonical;
    hide Equal;
    EqualTransitive(Canonical(o, a), Canonical(o, b), Canonical(o, b'), quantity);
    EqualTransitive(Canonical(o, a), Canonical(o, b'), Canonical(o, c), quantity);
    EqualSymmetric(Canonical(o, a), Canonical(o, c), quantity);
  }

  lemma SameReflexive(o: Options, a: Value, quantity: string -> Option<real>)
    ensures Same(o, a, a, quantity)
  {
    hide Canonical;
    EqualReflexive(Canonical(o, a), quantity);
  }

  /** Being in sync chains through a value whose two normalised forms compare equal; without a normaliser they always
      do, and being in sync is symmetric and transitive. */
  lemma InSyncIsAnEquivalence(d: DriftSpec, x: Value, y: Value, z: Value, t: Type, quantity: string -> Option<real>)
    requires ReadsQuantities(quantity) && InSync(d, x, y, t, quantity) && InSync(d, y, z, t, quantity)
    requires d.normalize.Some? ==> Same(d.options, Compared(d, x, y, t).1, Compared(d, y, z, t).0, quantity)
    ensures var (a, c) := (Compared(d, x, y, t).0, Compared(d, y, z, t).1);
      Same(d.options, a, c, quantity) && Same(d.options, c, a, quantity)
    ensures d.normalize.None? ==> InSync(d, x, z, t, quantity) && InSync(d, z, x, t, quantity)
  {
    hide Same;
    hide Owned;
    var (a, b) := Compared(d, x, y, t);
    var (b', c) := Compared(d, y, z, t);
    if d.normalize.None? { SameReflexive(d.options, b, quantity); }
    SameChains(d.options, a, b, b', c, quantity);
  }

  lemma SameOnBothSides(o: Options, x: Value, y: Value, x': Value, y': Value, quantity: string -> Option<real>)
    requires ReadsQuantities(quantity) && Same(o, x, x', quantity) && Same(o, y, y', quantity)
    ensures Same(o, x, y, quantity) <==> Same(o, x', y', quantity)
  {
    hide Same;
    SameReflexive(o, x, quantity);
    SameReflexive(o, y, quantity);
    SameChains(o, x, x, x, x', quantity);
    SameChains(o, y, y, y, y', quantity);
    if Same(o, x, y, quantity) { SameChains(o, x', x, y, y', quantity); }
    if Same(o, x', y', quantity) { SameChains(o, x, x', y', y, quantity); }
  }

  /** Nor does it matter which of two states that compare equal is observed. */
  lemma VerdictRespectsEquality(
    d: DriftSpec, desired: Value, before: Value, after: Value, t: Type, quantity: string -> Option<real>)
    requires ReadsQuantities(quantity)
    requires Same(d.options, Compared(d, desired, before, t).0, Compared(d, desired, after, t).0, quantity)
    requires Same(d.options, Compared(d, desired, before, t).1, Compared(d, desired, after, t).1, quantity)
    ensures InSync(d, desired, before, t, quantity) <==> InSync(d, desired, after, t, quantity)
  {
    hide Same;
    hide Compared;
    var (a, b) := (Compared(d, desired, before, t), Compared(d, desired, after, t));
    SameOnBothSides(d.options, a.0, a.1, b.0, b.1, quantity);
  }
}
