/** What drift means, node by node and field by field (base/drift.go). */
module DriftByPath {
  import opened Wrappers
  import opened Ordering
  import opened Reason
  import JsonMatch
  import opened GoValues
  import opened Presence
  import opened Equate
  import opened EqualByPath
  import opened Drift
  import opened Inherit

  // ----- The nodes that are compared -----

  /** A node as the options have it read: strings of a list in sorted order. */
  function Read(unordered: bool, v: Value): Value {
    if unordered && v.Slice? && AllText(v.items) then Slice(SortedForm(v.items, TextLe)) else v
  }

  function ReadAt(unordered: bool, v: Value, route: Route): Option<Value>
    decreases |route|
  {
    if route == [] then Some(v)
    else match Child(Read(unordered, v), route[0])
      case None => None
      case Some(x) => ReadAt(unordered, x, route[1..])
  }

  /** A route that does not lead into an ignored field of the root. */
  predicate Reaches(o: Options, route: Route) {
    route == [] || !route[0].Field? || route[0].name !in o.ignored
  }

  /** Zero, at the root in all that is not ignored. */
  predicate ZeroBut(o: Options, v: Value, root: bool) {
    if root && v.Struct? then forall f | f in v.fields && f !in o.ignored :: IsZero(v.fields[f]) else IsZero(v)
  }

  /** Alike taken alone, at the root in the fields that are not ignored. */
  predicate AlikeBut(o: Options, x: Value, y: Value, root: bool, quantity: string -> Option<real>) {
    if root && x.Struct? && y.Struct? then x.fields.Keys - o.ignored == y.fields.Keys - o.ignored
    else NodesAlike(x, y, quantity)
  }

  predicate ReadsZero(o: Options, v: Value, route: Route) {
    match ReadAt(o.unordered, v, route) case Some(x) => ZeroBut(o, x, route == []) case None => false
  }

  predicate ReadsAlike(o: Options, x: Value, y: Value, route: Route, quantity: string -> Option<real>) {
    match (ReadAt(o.unordered, x, route), ReadAt(o.unordered, y, route))
    case (None, None) => true
    case (Some(a), Some(b)) => AlikeBut(o, a, b, route == [], quantity)
    case _ => false
  }

  predicate BothZero(o: Options, x: Value, y: Value, route: Route, n: nat)
    requires n <= |route|
  {
    ReadsZero(o, x, route[..n]) && ReadsZero(o, y, route[..n])
  }

  /** At this node the two sides are zero together, here or on the way, or alike, or both without it. */
  ghost predicate SyncedAt(o: Options, x: Value, y: Value, route: Route, quantity: string -> Option<real>) {
    (exists n | 0 <= n <= |route| :: BothZero(o, x, y, route, n)) || ReadsAlike(o, x, y, route, quantity)
  }

  // ----- Sorting and the nodes -----

  function UnorderedIf(unordered: bool, v: Value): Value { if unordered then Unordered(v) else v }

  lemma {:induction false} UnorderedKeepsZero(v: Value)
    ensures IsZero(Unordered(v)) <==> IsZero(v)
    decreases v
  {
    match v
    case Ptr(x) => UnorderedKeepsZero(x);
    case Any(_, x) => UnorderedKeepsZero(x);
    case Struct(fs) =>
      forall f | f in fs ensures IsZero(Unordered(fs[f])) <==> IsZero(fs[f]) { UnorderedKeepsZero(fs[f]); }
      assert Unordered(v).fields.Keys == fs.Keys;
    case Map(m) =>
      assert Unordered(v).entries.Keys == m.Keys;
      assert |m| == |m.Keys| && |Unordered(v).entries| == |Unordered(v).entries.Keys|;
    case _ =>
  }

  lemma UnorderedShape(v: Value)
    ensures var u := Unordered(v);
      match v
      case Ptr(_) => u.Ptr?
      case Any(t, _) => u.Any? && u.dyn == t
      case Struct(fs) => u.Struct? && u.fields.Keys == fs.Keys
      case Map(m) => u.Map? && u.entries.Keys == m.Keys
      case Slice(xs) => u.Slice? && |u.items| == |xs|
      case _ => u == v
  {}

  lemma UnorderedKeepsNodes(x: Value, y: Value, quantity: string -> Option<real>)
    ensures NodesAlike(Unordered(x), Unordered(y), quantity) <==> NodesAlike(x, y, quantity)
  {
    UnorderedShape(x);
    UnorderedShape(y);
    hide Unordered;
  }

  lemma UnorderedChild(v: Value, hop: Hop)
    ensures Child(Unordered(v), hop) == match Child(Read(true, v), hop)
      case None => None
      case Some(x) => Some(Unordered(x))
  {
    if v.Slice? && AllText(v.items) && hop.Item? {
      SortedTextsStayText(v.items);
    }
  }

  lemma {:induction false} UnorderedNodes(unordered: bool, v: Value, route: Route)
    ensures At(UnorderedIf(unordered, v), route) == match ReadAt(unordered, v, route)
      case None => None
      case Some(x) => Some(UnorderedIf(unordered, x))
    decreases |route|
  {
    if route != [] {
      UnorderedChild(v, route[0]);
      hide Unordered;
      var c := Child(Read(unordered, v), route[0]);
      if c.Some? { UnorderedNodes(unordered, c.value, route[1..]); }
    }
  }

  // ----- What is compared of the two sides -----

  lemma CanonicalNodes(o: Options, v: Value, route: Route)
    requires Reaches(o, route) && route != []
    ensures At(Canonical(o, v), route) == match ReadAt(o.unordered, v, route)
      case None => None
      case Some(x) => Some(UnorderedIf(o.unordered, x))
  {
    var kept := if v.Struct? then Struct(v.fields - o.ignored) else v;
    UnorderedNodes(o.unordered, kept, route);
    assert Canonical(o, v) == UnorderedIf(o.unordered, kept);
    hide Unordered;
    hide UnorderedIf;
    assert Child(Read(o.unordered, kept), route[0]) == Child(Read(o.unordered, v), route[0]);
  }

  lemma CanonicalZero(o: Options, v: Value)
    ensures IsZero(Canonical(o, v)) <==> ZeroBut(o, v, true)
  {
    var kept := if v.Struct? then Struct(v.fields - o.ignored) else v;
    UnorderedKeepsZero(kept);
    hide Unordered;
    if v.Struct? {
      assert forall f | f in v.fields && f !in o.ignored :: f in kept.fields && kept.fields[f] == v.fields[f];
    }
  }

  lemma CanonicalRoots(o: Options, x: Value, y: Value, quantity: string -> Option<real>)
    ensures NodesAlike(Canonical(o, x), Canonical(o, y), quantity) <==> AlikeBut(o, x, y, true, quantity)
  {
    var kx := if x.Struct? then Struct(x.fields - o.ignored) else x;
    var ky := if y.Struct? then Struct(y.fields - o.ignored) else y;
    UnorderedKeepsNodes(kx, ky, quantity);
    hide Unordered;
    assert x.Struct? ==> kx.fields.Keys == x.fields.Keys - o.ignored;
    assert y.Struct? ==> ky.fields.Keys == y.fields.Keys - o.ignored;
  }

  lemma ZeroCanonical(o: Options, v: Value, route: Route)
    requires Reaches(o, route)
    ensures ZeroAt(Canonical(o, v), route) <==> ReadsZero(o, v, route)
  {
    if route == [] {
      CanonicalZero(o, v);
    } else {
      CanonicalNodes(o, v, route);
      hide Canonical;
      var a := ReadAt(o.unordered, v, route);
      if a.Some? { UnorderedKeepsZero(a.value); }
      hide Unordered;
      hide IsZero;
    }
  }

  lemma AlikeCanonical(o: Options, x: Value, y: Value, route: Route, quantity: string -> Option<real>)
    requires Reaches(o, route)
    ensures AlikeAt(Canonical(o, x), Canonical(o, y), route, quantity) <==> ReadsAlike(o, x, y, route, quantity)
  {
    if route == [] {
      CanonicalRoots(o, x, y, quantity);
    } else {
      CanonicalNodes(o, x, route);
      CanonicalNodes(o, y, route);
      var (a, b) := (ReadAt(o.unordered, x, route), ReadAt(o.unordered, y, route));
      if a.Some? && b.Some? { UnorderedKeepsNodes(a.value, b.value, quantity); }
      hide Canonical;
      hide Unordered;
      hide NodesAlike;
    }
  }

  lemma SyncedCanonical(o: Options, x: Value, y: Value, route: Route, quantity: string -> Option<real>)
    requires Reaches(o, route)
    ensures AgreeAt(Canonical(o, x), Canonical(o, y), route, quantity) <==> SyncedAt(o, x, y, route, quantity)
  {
    AlikeCanonical(o, x, y, route, quantity);
    forall n | 0 <= n <= |route|
      ensures ZeroTogether(Canonical(o, x), Canonical(o, y), route, n) <==> BothZero(o, x, y, route, n)
    {
      ZeroCanonical(o, x, route[..n]);
      ZeroCanonical(o, y, route[..n]);
      hide ZeroAt;
      hide ReadsZero;
    }
    hide Canonical;
    hide ZeroTogether;
    hide BothZero;
    hide AlikeAt;
    hide ReadsAlike;
  }

  lemma IgnoredIsGone(o: Options, x: Value, y: Value, route: Route, quantity: string -> Option<real>)
    requires !Reaches(o, route)
    ensures AgreeAt(Canonical(o, x), Canonical(o, y), route, quantity)
  {
    forall v ensures At(Canonical(o, v), route) == None {
      var kept := if v.Struct? then Struct(v.fields - o.ignored) else v;
      UnorderedShape(kept);
      hide Unordered;
    }
  }

  /** The comparison says yes exactly when the two sides are in step at every node outside the ignored fields. */
  lemma SameExactly(o: Options, x: Value, y: Value, quantity: string -> Option<real>)
    ensures Same(o, x, y, quantity) <==> forall route | Reaches(o, route) :: SyncedAt(o, x, y, route, quantity)
  {
    EqualExactly(Canonical(o, x), Canonical(o, y), quantity);
    hide Equal;
    hide Canonical;
    forall route
      ensures Reaches(o, route) ==>
        (AgreeAt(Canonical(o, x), Canonical(o, y), route, quantity) <==> SyncedAt(o, x, y, route, quantity))
      ensures !Reaches(o, route) ==> AgreeAt(Canonical(o, x), Canonical(o, y), route, quantity)
    {
      if Reaches(o, route) {
        SyncedCanonical(o, x, y, route, quantity);
      } else {
        IgnoredIsGone(o, x, y, route, quantity);
      }
    }
    hide AgreeAt;
    hide SyncedAt;
  }

  // ----- Ignored fields never decide -----

  /** The same struct outside the ignored fields. */
  ghost predicate DifferOnlyIn(ignored: set<string>, x: Value, y: Value) {
    && x.Struct? && y.Struct?
    && forall f | f !in ignored :: (f in x.fields <==> f in y.fields) && (f in x.fields ==> x.fields[f] == y.fields[f])
  }

  lemma IgnoredFieldsNeverDecide(
    o: Options, x: Value, y: Value, x': Value, y': Value, quantity: string -> Option<real>)
    requires DifferOnlyIn(o.ignored, x, x') && DifferOnlyIn(o.ignored, y, y')
    ensures Same(o, x, y, quantity) <==> Same(o, x', y', quantity)
    ensures Same(o, x, x', quantity)
  {
    assert x.fields - o.ignored == x'.fields - o.ignored && y.fields - o.ignored == y'.fields - o.ignored;
    SameReflexive(o, x, quantity);
    hide Unordered;
    hide Equal;
  }

  // ----- Owned differences are always reported -----

  /** The raw node at a path of JSON names, behind pointers and interfaces. */
  function NodeAt(v: Value, t: Type, path: Path): Option<Value>
    decreases |path|
  {
    if path == [] then Some(v)
    else match Entry(v, t, path[0])
      case None => None
      case Some((x, u)) => NodeAt(x, u, path[1..])
  }

  /** The user wrote the node at this path, and all of it. */
  predicate OwnsWhole(p: FieldPresence, path: Path) {
    p.present && if path == [] then !p.isObject
    else p.isObject && path[0] in p.children && OwnsWhole(p.children[path[0]], path[1..])
  }

  lemma {:induction false} OwnedPathExists(p: FieldPresence, path: Path)
    requires OwnsWhole(p, path)
    ensures IsPath(p, path)
    decreases |path|
  {
    if path != [] { OwnedPathExists(p.children[path[0]], path[1..]); }
  }

  lemma {:induction false} OwnedIsLooked(v: Value, t: Type, p: FieldPresence, path: Path)
    requires OwnsWhole(p, path)
    ensures IsPath(p, path) && Look(v, t, p, path) == NodeAt(v, t, path)
    decreases |path|
  {
    hide Entry;
    if path != [] && Entry(v, t, path[0]).Some? {
      var (x, u) := Entry(v, t, path[0]).value;
      OwnedIsLooked(x, u, p.children[path[0]], path[1..]);
    }
    if path != [] && Entry(v, t, path[0]).None? { OwnedPathExists(p, path); }
  }

  lemma ProjectionKeepsOwned(v: Value, t: Type, p: FieldPresence, path: Path)
    requires HasType(v, t) && OwnsWhole(p, path)
    ensures NodeAt(Project(v, t, p), t, path) == NodeAt(v, t, path)
  {
    hide Project;
    hide Look;
    OwnedIsLooked(v, t, p, path);
    OwnedIsLooked(Project(v, t, p), t, p, path);
    ProjectKeepsLook(v, t, p, path);
  }

  /** Two sides of a node: both nothing, absent or zero, or compared equal. */
  predicate InStep(a: Option<Value>, b: Option<Value>, quantity: string -> Option<real>) {
    || ((a.None? || IsZero(a.value)) && (b.None? || IsZero(b.value)))
    || (a.Some? && b.Some? && Equal(a.value, b.value, quantity))
  }

  lemma EntryInside(v: Value, t: Type, k: string)
    ensures v.Ptr? && t.TPtr? ==> Entry(v, t, k) == Entry(v.to, t.to, k)
    ensures v.Any? ==> Entry(v, t, k) == Entry(v.value, v.dyn, k)
  {}

  lemma {:induction false} EntryHasType(v: Value, t: Type, k: string)
    requires HasType(v, t) && Entry(v, t, k).Some?
    ensures var (x, u) := Entry(v, t, k).value; HasType(x, u) && (IsZero(v) ==> IsZero(x))
    decreases v
  {
    EntryInside(v, t, k);
    match v
    case Ptr(x) => EntryHasType(x, t.to, k);
    case Any(dyn, x) => EntryHasType(x, dyn, k);
    case _ =>
  }

  function ValueOf(e: Option<(Value, Type)>): Option<Value> { if e.Some? then Some(e.value.0) else None }

  /** Two entries in step, and of one type unless both are zero. */
  predicate EntriesMatch(a: Option<(Value, Type)>, b: Option<(Value, Type)>, quantity: string -> Option<real>) {
    && InStep(ValueOf(a), ValueOf(b), quantity)
    && (a.Some? && b.Some? ==> (IsZero(a.value.0) && IsZero(b.value.0)) || a.value.1 == b.value.1)
  }

  lemma EntriesOfZero(x: Value, y: Value, t: Type, k: string, quantity: string -> Option<real>)
    requires HasType(x, t) && HasType(y, t) && IsZero(x) && IsZero(y)
    ensures EntriesMatch(Entry(x, t, k), Entry(y, t, k), quantity)
  {
    if Entry(x, t, k).Some? { EntryHasType(x, t, k); }
    if Entry(y, t, k).Some? { EntryHasType(y, t, k); }
    hide Entry;
    hide HasType;
    hide IsZero;
  }

  lemma EntryDirect(v: Value, t: Type, k: string)
    requires HasType(v, t) && !v.Ptr? && !v.Any?
    ensures v.Struct? ==> t.TStruct? && t.fields.Keys == v.fields.Keys
    ensures v.Map? ==> t.TMap?
    ensures Entry(v, t, k) ==
      if v.Struct? && k in v.fields then Some((v.fields[k], t.fields[k]))
      else if v.Map? && k in v.entries then Some((v.entries[k], t.elem))
      else None
  {}

  lemma EntriesOfContainers(x: Value, y: Value, t: Type, k: string, quantity: string -> Option<real>)
    requires HasType(x, t) && HasType(y, t) && Equal(x, y, quantity) && !(IsZero(x) && IsZero(y))
    requires !x.Ptr? && !x.Any?
    ensures EntriesMatch(Entry(x, t, k), Entry(y, t, k), quantity)
  {
    EntryDirect(x, t, k);
    EntryDirect(y, t, k);
    hide Entry;
    hide HasType;
    hide IsZero;
  }

  lemma TypeInside(v: Value, t: Type)
    requires HasType(v, t)
    ensures v.Ptr? ==> t.TPtr? && HasType(v.to, t.to)
    ensures v.Any? ==> HasType(v.value, v.dyn)
  {}

  lemma EqualInside(x: Value, y: Value, quantity: string -> Option<real>)
    requires Equal(x, y, quantity) && !(IsZero(x) && IsZero(y))
    ensures x.Ptr? ==> y.Ptr? && Equal(x.to, y.to, quantity)
    ensures x.Any? ==> y.Any? && x.dyn == y.dyn && Equal(x.value, y.value, quantity)
  {}

  /** Entries of compared-equal values match. */
  lemma {:induction false} EntriesInStep(x: Value, y: Value, t: Type, k: string, quantity: string -> Option<real>)
    requires HasType(x, t) && HasType(y, t) && Equal(x, y, quantity)
    ensures EntriesMatch(Entry(x, t, k), Entry(y, t, k), quantity)
    decreases x
  {
    if IsZero(x) && IsZero(y) {
      EntriesOfZero(x, y, t, k, quantity);
    } else if !x.Ptr? && !x.Any? {
      EntriesOfContainers(x, y, t, k, quantity);
    } else {
      TypeInside(x, t);
      TypeInside(y, t);
      EqualInside(x, y, quantity);
      EntryInside(x, t, k);
      EntryInside(y, t, k);
      hide Entry;
      hide EntriesMatch;
      hide Equal;
      hide HasType;
      hide IsZero;
      if x.Ptr? {
        EntriesInStep(x.to, y.to, t.to, k, quantity);
      } else {
        EntriesInStep(x.value, y.value, x.dyn, k, quantity);
      }
    }
  }

  lemma {:induction false} ZeroNodes(v: Value, t: Type, path: Path)
    requires HasType(v, t) && IsZero(v)
    ensures NodeAt(v, t, path).Some? ==> IsZero(NodeAt(v, t, path).value)
    decreases |path|
  {
    if path != [] && Entry(v, t, path[0]).Some? {
      EntryHasType(v, t, path[0]);
      hide Entry;
      ZeroNodes(Entry(v, t, path[0]).value.0, Entry(v, t, path[0]).value.1, path[1..]);
    }
  }

  /** Nodes of compared-equal values are in step. */
  lemma {:induction false} NodesInStep(x: Value, y: Value, t: Type, path: Path, quantity: string -> Option<real>)
    requires HasType(x, t) && HasType(y, t) && Equal(x, y, quantity)
    ensures InStep(NodeAt(x, t, path), NodeAt(y, t, path), quantity)
    decreases |path|
  {
    if path != [] {
      var (a, b) := (Entry(x, t, path[0]), Entry(y, t, path[0]));
      EntriesInStep(x, y, t, path[0], quantity);
      if a.Some? { EntryHasType(x, t, path[0]); }
      if b.Some? { EntryHasType(y, t, path[0]); }
      hide Entry;
      hide HasType;
      hide IsZero;
      hide Equal;
      if a.Some? && IsZero(a.value.0) { ZeroNodes(a.value.0, a.value.1, path[1..]); }
      if b.Some? && IsZero(b.value.0) { ZeroNodes(b.value.0, b.value.1, path[1..]); }
      if a.Some? && b.Some? && !(IsZero(a.value.0) && IsZero(b.value.0)) {
        NodesInStep(a.value.0, b.value.0, a.value.1, path[1..], quantity);
      }
    }
  }

  // ----- Sorting and the fields -----

  lemma {:induction false} UnorderedHasType(v: Value, t: Type)
    requires HasType(v, t)
    ensures HasType(Unordered(v), t)
    decreases v
  {
    match (v, t)
    case (Ptr(x), TPtr(to)) => UnorderedHasType(x, to);
    case (Any(dyn, x), _) => UnorderedHasType(x, dyn);
    case (Struct(fs), TStruct(ts)) =>
      forall f | f in fs ensures HasType(Unordered(fs[f]), ts[f]) { UnorderedHasType(fs[f], ts[f]); }
      assert Unordered(v).fields.Keys == fs.Keys;
    case (Map(m), TMap(elem)) =>
      forall k | k in m ensures HasType(Unordered(m[k]), elem) { UnorderedHasType(m[k], elem); }
    case (Slice(xs), TSlice(elem)) =>
      if AllText(xs) {
        SortedTextsStayText(xs);
      } else {
        forall i | 0 <= i < |xs| ensures HasType(Unordered(xs[i]), elem) { UnorderedHasType(xs[i], elem); }
      }
    case _ =>
  }

  lemma {:induction false} UnorderedEntry(v: Value, t: Type, k: string)
    requires HasType(v, t)
    ensures Entry(Unordered(v), t, k) == match Entry(v, t, k)
      case None => None
      case Some((x, u)) => Some((Unordered(x), u))
    decreases v
  {
    EntryInside(v, t, k);
    EntryInside(Unordered(v), t, k);
    match (v, t)
    case (Ptr(x), TPtr(to)) => UnorderedEntry(x, to, k);
    case (Any(dyn, x), _) => UnorderedEntry(x, dyn, k);
    case _ =>
  }

  function UnorderedValue(unordered: bool, v: Option<Value>): Option<Value> {
    if v.Some? then Some(UnorderedIf(unordered, v.value)) else None
  }

  lemma {:induction false} UnorderedNodeAt(unordered: bool, v: Value, t: Type, path: Path)
    requires HasType(v, t)
    ensures NodeAt(UnorderedIf(unordered, v), t, path) == UnorderedValue(unordered, NodeAt(v, t, path))
    decreases |path|
  {
    if unordered && path != [] {
      UnorderedEntry(v, t, path[0]);
      if Entry(v, t, path[0]).Some? { EntryHasType(v, t, path[0]); }
      hide Entry;
      hide Unordered;
      var e := Entry(v, t, path[0]);
      if e.Some? { UnorderedNodeAt(unordered, e.value.0, e.value.1, path[1..]); }
    }
  }

  /** The type of what the ignored fields leave. */
  function TypeBut(o: Options, t: Type): Type { if t.TStruct? then TStruct(t.fields - o.ignored) else t }

  lemma CanonicalNodeAt(o: Options, v: Value, t: Type, path: Path)
    requires HasType(v, t) && path != [] && path[0] !in o.ignored
    ensures HasType(Canonical(o, v), TypeBut(o, t))
    ensures NodeAt(Canonical(o, v), TypeBut(o, t), path) == UnorderedValue(o.unordered, NodeAt(v, t, path))
  {
    var kept, u := if v.Struct? then Struct(v.fields - o.ignored) else v, TypeBut(o, t);
    if v.Struct? {
      assert kept.fields.Keys == u.fields.Keys;
    }
    assert HasType(kept, u) && NodeAt(kept, u, path) == NodeAt(v, t, path);
    if o.unordered { UnorderedHasType(kept, u); }
    UnorderedNodeAt(o.unordered, kept, u, path);
    hide Unordered;
  }

  /** In sync means in step at every node the user wrote whole, outside the ignored fields. */
  lemma OwnedNodesInStep(
    d: DriftSpec, desired: Value, observed: Value, t: Type, path: Path, quantity: string -> Option<real>)
    requires var (x, y) := if d.normalize.Some? then d.normalize.value(desired, observed) else (desired, observed);
      HasType(x, t) && HasType(y, t)
    requires path != [] && path[0] !in d.options.ignored && (d.presence.Some? ==> OwnsWhole(d.presence.value, path))
    requires InSync(d, desired, observed, t, quantity)
    ensures var (x, y) := if d.normalize.Some? then d.normalize.value(desired, observed) else (desired, observed);
      InStep(UnorderedValue(d.options.unordered, NodeAt(x, t, path)),
             UnorderedValue(d.options.unordered, NodeAt(y, t, path)), quantity)
  {
    var (x, y) := Normalized(d, desired, observed);
    var (a, b) := Compared(d, desired, observed, t);
    if d.presence.Some? {
      ProjectHasType(x, t, d.presence.value);
      ProjectHasType(y, t, d.presence.value);
      ProjectionKeepsOwned(x, t, d.presence.value, path);
      ProjectionKeepsOwned(y, t, d.presence.value, path);
    }
    CanonicalNodeAt(d.options, a, t, path);
    CanonicalNodeAt(d.options, b, t, path);
    NodesInStep(Canonical(d.options, a), Canonical(d.options, b), TypeBut(d.options, t), path, quantity);
    hide Canonical;
    hide NodeAt;
    hide Equal;
    hide HasType;
    hide Project;
  }

  /** So a text the user wrote, outside the ignored fields, that differs and is no equal quantity is always drift. */
  lemma OwnedTextIsReported(
    d: DriftSpec, desired: Value, observed: Value, t: Type, path: Path, quantity: string -> Option<real>,
    mine: string, theirs: string)
    requires var (x, y) := if d.normalize.Some? then d.normalize.value(desired, observed) else (desired, observed);
      && HasType(x, t) && HasType(y, t)
      && NodeAt(x, t, path) == Some(Text(mine)) && NodeAt(y, t, path) == Some(Text(theirs))
    requires path != [] && path[0] !in d.options.ignored && (d.presence.Some? ==> OwnsWhole(d.presence.value, path))
    requires mine != theirs && !SameQuantity(mine, theirs, quantity)
    ensures !InSync(d, desired, observed, t, quantity)
  {
    hide InSync;
    hide NodeAt;
    if InSync(d, desired, observed, t, quantity) { OwnedNodesInStep(d, desired, observed, t, path, quantity); }
  }

  // ----- A KargoInstance -----

  /** Filling an unset field leaves every text there is. */
  lemma {:induction false} TextSurvivesPut(v: Value, t: Type, at: Path, x: Value, path: Path, text: string)
    requires HasType(v, t) && Get(v, at).Some? && Unset(Get(v, at).value)
    requires NodeAt(v, t, path) == Some(Text(text)) && text != ""
    ensures NodeAt(Put(v, at, x), t, path) == Some(Text(text))
    decreases v
  {
    if at != [] && path != [] {
      TypeInside(v, t);
      EntryInside(v, t, path[0]);
      EntryInside(Put(v, at, x), t, path[0]);
      if v.Ptr? {
        hide Entry;
        hide HasType;
        TextSurvivesPut(v.to, t.to, at, x, path, text);
      } else {
        EntryDirect(v, t, path[0]);
        var field := Put(v.fields[at[0]], at[1..], x);
        assert Put(v, at, x) == Struct(v.fields[at[0] := field]);
        if path[0] == at[0] { TextSurvivesPut(v.fields[at[0]], t.fields[at[0]], at[1..], x, path[1..], text); }
      }
    }
  }

  lemma TextSurvivesRule(onto: Value, from: Value, r: Rule, t: Type, path: Path, text: string)
    requires HasType(onto, t) && !r.always && NodeAt(onto, t, path) == Some(Text(text)) && text != ""
    ensures NodeAt(Copied(onto, from, r), t, path) == Some(Text(text))
  {
    if Get(onto, r.at).Some? && Get(from, r.at).Some? && Unset(Get(onto, r.at).value) {
      TextSurvivesPut(onto, t, r.at, Get(from, r.at).value, path, text);
    }
  }

  lemma {:induction false} TextsSurviveRules(
    rules: seq<Rule>, d: Value, o: Value, t: Type, path: Path, mine: string, theirs: string)
    requires HasType(d, t) && HasType(o, t) && WellTyped(rules, t) && forall i | 0 <= i < |rules| :: !rules[i].always
    requires NodeAt(d, t, path) == Some(Text(mine)) && NodeAt(o, t, path) == Some(Text(theirs))
    requires mine != "" && theirs != ""
    ensures var (x, y) := ByRules(rules, d, o);
      && HasType(x, t) && HasType(y, t)
      && NodeAt(x, t, path) == Some(Text(mine)) && NodeAt(y, t, path) == Some(Text(theirs))
    decreases |rules|
  {
    if rules != [] {
      CopiedHasType(d, o, t, rules[0]);
      CopiedHasType(o, d, t, rules[0]);
      TextSurvivesRule(d, o, rules[0], t, path, mine);
      TextSurvivesRule(o, d, rules[0], t, path, theirs);
      var (d', o') := Applied(rules[0], d, o);
      hide Copied;
      hide HasType;
      hide NodeAt;
      TextsSurviveRules(rules[1..], d', o', t, path, mine, theirs);
    }
  }

  /** Under any normaliser that fills unset fields, a text that the user wrote and the platform shows otherwise is
      drift. */
  lemma CopyingTextIsReported(
    o: Options, rules: seq<Rule>, p: FieldPresence, sides: seq<Result<bool, Error>>, desired: Value, observed: Value,
    t: Type, path: Path, mine: string, theirs: string, quantity: string -> Option<real>)
    requires WellTyped(rules, t) && HasType(desired, t) && HasType(observed, t)
    requires forall i | 0 <= i < |rules| :: !rules[i].always
    requires OwnsWhole(p, path) && path != [] && path[0] !in o.ignored
    requires NodeAt(desired, t, path) == Some(Text(mine)) && NodeAt(observed, t, path) == Some(Text(theirs))
    requires mine != "" && theirs != "" && mine != theirs && !SameQuantity(mine, theirs, quantity)
    ensures !InSync(CopyingSpec(o, rules, p, sides), desired, observed, t, quantity)
  {
    var d := CopyingSpec(o, rules, p, sides);
    TextsSurviveRules(rules, desired, observed, t, path, mine, theirs);
    assert d.normalize.value(desired, observed) == ByRules(rules, desired, observed);
    hide ByRules;
    hide NodeAt;
    hide InSync;
    OwnedTextIsReported(d, desired, observed, t, path, quantity, mine, theirs);
  }

  lemma KargoInstanceRulesFill()
    ensures forall i | 0 <= i < |KARGO_INSTANCE_RULES| :: !KARGO_INSTANCE_RULES[i].always
  {}

  /** So for a KargoInstance, unless the two are one quantity; only the three fields that are compared elsewhere, and
      texts empty on one side, are exempt. */
  lemma KargoInstanceTextIsReported(
    written: JsonMatch.Fields, sides: seq<Result<bool, Error>>, desired: Value, observed: Value, t: Type, path: Path,
    mine: string, theirs: string, quantity: string -> Option<real>)
    requires WellTyped(KARGO_INSTANCE_RULES, t) && HasType(desired, t) && HasType(observed, t)
    requires OwnsWhole(PresenceOf(JsonMatch.Obj(written)), path)
    requires path != [] && path[0] !in {"resources", "kargoConfigMap", "kargoRepoCredentialSecretRefs"}
    requires NodeAt(desired, t, path) == Some(Text(mine)) && NodeAt(observed, t, path) == Some(Text(theirs))
    requires mine != "" && theirs != "" && mine != theirs && !SameQuantity(mine, theirs, quantity)
    ensures !InSync(KargoInstanceSpec(written, sides), desired, observed, t, quantity)
  {
    var (o, p) := (KargoInstanceSpec(written, sides).options, PresenceOf(JsonMatch.Obj(written)));
    assert KargoInstanceSpec(written, sides) == CopyingSpec(o, KARGO_INSTANCE_RULES, p, sides);
    hide CopyingSpec;
    hide InSync;
    hide NodeAt;
    KargoInstanceRulesFill();
    CopyingTextIsReported(o, KARGO_INSTANCE_RULES, p, sides, desired, observed, t, path, mine, theirs, quantity);
  }
}
