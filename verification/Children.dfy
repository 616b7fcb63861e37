/** Declarative child resources: identities, stripping, indexing and drift (children/drift.go). */
module Children {
  import opened Wrappers
  import opened JsonMatch
  import opened Ordering
  import opened Framing

  // ----- Identities -----

  datatype Identity = Identity(apiVersion: string, kind: string, namespace: string, name: string) {
    function String(): string {
      apiVersion + "/" + kind + "/" + (if namespace == "" then "-" else namespace) + "/" + name
    }

    /** The Kubernetes naming rules that make String() unambiguous. */
    predicate WellNamed() {
      && '/' !in kind && '/' !in namespace && '/' !in name
      && namespace != "-"
    }
  }

  lemma IdentityStringInjective(a: Identity, b: Identity)
    requires a.WellNamed() && b.WellNamed()
    ensures a.String() == b.String() <==> a == b
  {
    if a.String() == b.String() {
      var na := if a.namespace == "" then "-" else a.namespace;
      var nb := if b.namespace == "" then "-" else b.namespace;
      var ka, kb := a.apiVersion + "/" + a.kind, b.apiVersion + "/" + b.kind;
      assert a.String() == (ka + "/" + na) + ['/'] + a.name && b.String() == (kb + "/" + nb) + ['/'] + b.name;
      SplitLast(ka + "/" + na, a.name, kb + "/" + nb, b.name, '/');
      SplitLast(ka, na, kb, nb, '/');
      SplitLast(a.apiVersion, a.kind, b.apiVersion, b.kind, '/');
    }
  }

  /** The text before the last slash still has one when there were two. */
  lemma SlashesLeft(head: string, rest: string, tail: string)
    ensures var s := head + ['/'] + rest + ['/'] + tail;
      '/' in s && head + ['/'] <= BeforeLast(s, '/') && '/' in BeforeLast(s, '/')
  {
    var front := head + ['/'] + rest;
    LastOf(front, tail, '/');
    var s := front + ['/'] + tail;
    assert BeforeLast(s, '/')[|head|] == front[|head|] == '/';
  }

  lemma PrintedParts(a: Identity)
    ensures var s := a.String();
      '/' in s && '/' in BeforeLast(s, '/') && '/' in BeforeLast(BeforeLast(s, '/'), '/')
  {
    var shown := if a.namespace == "" then "-" else a.namespace;
    var head := a.apiVersion + ['/'] + a.kind;
    assert a.String() == head + ['/'] + shown + ['/'] + a.name;
    hide Identity.String;
    SlashesLeft(head, shown, a.name);
    var first := BeforeLast(head + ['/'] + shown + ['/'] + a.name, '/');
    var more := first[|head| + 1..];
    assert first == a.apiVersion + ['/'] + a.kind + ['/'] + more;
    SlashesLeft(a.apiVersion, a.kind, more);
  }

  /** The namespace a reader of the printed identity would see. */
  function ShownNamespace(a: Identity): string {
    PrintedParts(a);
    AfterLast(BeforeLast(a.String(), '/'), '/')
  }

  lemma WellNamedShows(a: Identity)
    requires a.WellNamed()
    ensures ShownNamespace(a) == if a.namespace == "" then "-" else a.namespace
  {
    var shown := if a.namespace == "" then "-" else a.namespace;
    var head := a.apiVersion + "/" + a.kind;
    assert a.String() == (head + "/" + shown) + ['/'] + a.name && head + "/" + shown == head + ['/'] + shown;
    LastOf(head + "/" + shown, a.name, '/');
    LastOf(head, shown, '/');
  }

  lemma ReadBack(a: Identity) returns (b: Identity)
    requires ShownNamespace(a) != ""
    ensures b.WellNamed() && b.String() == a.String()
  {
    PrintedParts(a);
    var s := a.String();
    var first := BeforeLast(s, '/');
    var second := BeforeLast(first, '/');
    var (kind, shown, name) := (AfterLast(second, '/'), AfterLast(first, '/'), AfterLast(s, '/'));
    hide BeforeLast;
    hide AfterLast;
    b := Identity(BeforeLast(second, '/'), kind, if shown == "-" then "" else shown, name);
    assert second == b.apiVersion + ['/'] + kind && first == second + ['/'] + shown && s == first + ['/'] + name;
  }

  /** A child outside those rules prints like some well-named one exactly when its printed form shows a namespace. */
  lemma IdentityStringCollidesExactly(a: Identity)
    requires !a.WellNamed()
    ensures (exists b: Identity :: b.WellNamed() && b != a && b.String() == a.String()) <==> ShownNamespace(a) != ""
  {
    if ShownNamespace(a) != "" {
      var b := ReadBack(a);
    }
    forall b: Identity | b.WellNamed() && b.String() == a.String() ensures ShownNamespace(a) != "" {
      WellNamedShows(b);
    }
  }

  /** Both kinds exist. */
  lemma IdentityStringCollides()
    ensures exists a: Identity, b: Identity :: a.WellNamed() && !b.WellNamed() && a.String() == b.String()
  {
    var a, b := Identity("v1", "Role", "", "x"), Identity("v1", "Role", "-", "x");
    assert a != b && a.String() == b.String();
  }

  function StringField(obj: Fields, key: string): string {
    if key in obj && obj[key].Str? then obj[key].s else ""
  }

  datatype IdentityError = MissingMetadata | MissingName

  function IdentityOf(obj: Fields): Result<Identity, IdentityError> {
    if "metadata" !in obj || !obj["metadata"].Obj? then Err(MissingMetadata)
    else
      var md := obj["metadata"].fields;
      if StringField(md, "name") == "" then Err(MissingName)
      else Ok(Identity(StringField(obj, "apiVersion"), StringField(obj, "kind"),
                       StringField(md, "namespace"), StringField(md, "name")))
  }

  /** `obj` made to carry an identity, whatever else is in it. */
  function Identified(obj: Fields, id: Identity): Fields {
    var md := if "metadata" in obj && obj["metadata"].Obj? then obj["metadata"].fields else map[];
    obj["apiVersion" := Str(id.apiVersion)]["kind" := Str(id.kind)]
       ["metadata" := Obj(md["name" := Str(id.name)]["namespace" := Str(id.namespace)])]
  }

  /** Every identity with a name is read back from a manifest that carries it, and no other field has a part in it. */
  lemma IdentityRoundTrips(obj: Fields, id: Identity)
    requires id.name != ""
    ensures IdentityOf(Identified(obj, id)) == Ok(id)
    ensures IdentityOf(Identified(obj, id.(name := ""))) == Err(MissingName)
  {
    assert "apiVersion" != "kind" && "apiVersion" != "metadata" && "kind" != "metadata" && "name" != "namespace";
  }

  /** A manifest without one of the texts has the empty string for it; without metadata or a name it has no identity. */
  lemma IdentityDefaults(obj: Fields, id: Identity)
    requires IdentityOf(obj) == Ok(id)
    ensures Identified(obj, id).Keys >= obj.Keys && IdentityOf(Identified(obj, id)) == IdentityOf(obj)
    ensures "apiVersion" !in obj ==> id.apiVersion == ""
    ensures "kind" !in obj ==> id.kind == ""
    ensures "namespace" !in obj["metadata"].fields ==> id.namespace == ""
  {
    IdentityRoundTrips(obj, id);
  }

  // ----- Server-owned fields -----

  const SERVER_META_FIELDS: seq<string> :=
    ["resourceVersion", "uid", "generation", "creationTimestamp", "managedFields", "selfLink",
     "deletionTimestamp", "deletionGracePeriodSeconds"]

  function StrippedMeta(md: Fields): Fields {
    map k | k in md && k !in SERVER_META_FIELDS :: md[k]
  }

  function Stripped(obj: Fields): Fields {
    map k | k in obj && k != "status" ::
      if k == "metadata" && obj[k].Obj? then Obj(StrippedMeta(obj[k].fields)) else obj[k]
  }

  method StripMeta(md: Fields) returns (out: Fields)
    ensures out == StrippedMeta(md)
  {
    out := map[];
    var rest := md.Keys;
    while rest != {}
      invariant rest <= md.Keys
      invariant out == map k | k in md && k !in rest && k !in SERVER_META_FIELDS :: md[k]
      decreases |rest|
    {
      var k :| k in rest;
      rest := rest - {k};
      if k !in SERVER_META_FIELDS {
        out := out[k := md[k]];
      }
    }
  }

  method Strip(obj: Fields) returns (out: Fields)
    ensures out == Stripped(obj)
  {
    out := map[];
    var rest := obj.Keys;
    while rest != {}
      invariant rest <= obj.Keys
      invariant out.Keys == set k | k in obj && k !in rest && k != "status"
      invariant forall k | k in out :: k in Stripped(obj) && out[k] == Stripped(obj)[k]
      decreases |rest|
    {
      var k :| k in rest;
      rest := rest - {k};
      if k == "status" { continue; }
      var v := obj[k];
      if k == "metadata" && v.Obj? {
        var md := StripMeta(v.fields);
        v := Obj(md);
      }
      out := out[k := v];
    }
  }

  /** Two copies of a child that differ at most where the server writes. */
  ghost predicate SameUserContent(a: Fields, b: Fields) {
    && (forall k | k != "status" :: k in a <==> k in b)
    && (forall k | k in a && k in b && k != "status" && k != "metadata" :: a[k] == b[k])
    && ("metadata" in a && "metadata" in b ==>
          if a["metadata"].Obj? && b["metadata"].Obj? then
            forall f | f !in SERVER_META_FIELDS ::
              && (f in a["metadata"].fields <==> f in b["metadata"].fields)
              && (f in a["metadata"].fields ==> a["metadata"].fields[f] == b["metadata"].fields[f])
          else a["metadata"] == b["metadata"])
  }

  /** Stripping forgets exactly what the server owns. */
  lemma StrippedExactly(a: Fields, b: Fields)
    ensures Stripped(a) == Stripped(b) <==> SameUserContent(a, b)
  {
    var sa, sb := Stripped(a), Stripped(b);
    forall k | k != "status" ensures (k in sa <==> k in a) && (k in sb <==> k in b) {}
    if sa == sb {
      forall k | k != "status" ensures k in a <==> k in b { assert k in sa <==> k in sb; }
      forall k | k in a && k in b && k != "status" && k != "metadata" ensures a[k] == b[k] {
        assert sa[k] == sb[k];
      }
      if "metadata" in a && "metadata" in b {
        assert sa["metadata"] == sb["metadata"];
        if a["metadata"].Obj? && b["metadata"].Obj? {
          var ma, mb := StrippedMeta(a["metadata"].fields), StrippedMeta(b["metadata"].fields);
          assert ma == mb;
          forall f | f !in SERVER_META_FIELDS
            ensures f in a["metadata"].fields <==> f in b["metadata"].fields
            ensures f in a["metadata"].fields ==> a["metadata"].fields[f] == b["metadata"].fields[f]
          {
            assert f in ma <==> f in mb;
          }
        }
      }
    }
    if SameUserContent(a, b) {
      if "metadata" in a && "metadata" in b && a["metadata"].Obj? && b["metadata"].Obj? {
        assert StrippedMeta(a["metadata"].fields) == StrippedMeta(b["metadata"].fields);
      }
      assert sa.Keys == sb.Keys;
      assert sa == sb;
    }
  }

  lemma ServerContentKeepsIdentity(a: Fields, b: Fields)
    requires SameUserContent(a, b)
    ensures IdentityOf(a) == IdentityOf(b)
  {
    assert "metadata" != "status" && "apiVersion" != "status" && "kind" != "status";
    assert "name" !in SERVER_META_FIELDS && "namespace" !in SERVER_META_FIELDS;
  }

  // ----- Indexing -----

  type ChildIndex = map<Identity, Fields>

  /** A raw spec entry: no bytes, bytes that are not a JSON object, or a decoded object. */
  datatype Payload = Empty | Invalid | Decoded(obj: Fields)
  datatype IndexError =
    | EmptyPayload(i: nat)
    | InvalidJson(i: nat)
    | BadIdentity(i: nat, cause: IdentityError)
    | DuplicateChild(i: nat, id: Identity)

  function AddChild(idx: ChildIndex, i: nat, obj: Fields): Result<ChildIndex, IndexError> {
    match IdentityOf(obj)
    case Err(e) => Err(BadIdentity(i, e))
    case Ok(id) => if id in idx then Err(DuplicateChild(i, id)) else Ok(idx[id := Stripped(obj)])
  }

  /** The index of a bundle, or the error of its first unacceptable entry. */
  function Indexed(raw: seq<Payload>): Result<ChildIndex, IndexError> {
    if raw == [] then Ok(map[])
    else
      var i := |raw| - 1;
      match Indexed(raw[..i])
      case Err(e) => Err(e)
      case Ok(idx) =>
        match raw[i]
        case Empty => Err(EmptyPayload(i))
        case Invalid => Err(InvalidJson(i))
        case Decoded(obj) => AddChild(idx, i, obj)
  }

  lemma {:induction false} FirstErrorStands(raw: seq<Payload>, n: nat)
    requires n <= |raw| && Indexed(raw[..n]).Err?
    ensures Indexed(raw) == Indexed(raw[..n])
    decreases |raw|
  {
    if n == |raw| {
      assert raw[..n] == raw;
    } else {
      assert raw[..|raw| - 1][..n] == raw[..n];
      FirstErrorStands(raw[..|raw| - 1], n);
    }
  }

  method Index(raw: seq<Payload>) returns (r: Result<ChildIndex, IndexError>)
    ensures r == Indexed(raw)
  {
    var out: ChildIndex := map[];
    for i := 0 to |raw|
      invariant Indexed(raw[..i]) == Ok(out)
    {
      assert raw[..i + 1][..i] == raw[..i];
      if Indexed(raw[..i + 1]).Err? { FirstErrorStands(raw, i + 1); }
      match raw[i] {
        case Empty => return Err(EmptyPayload(i));
        case Invalid => return Err(InvalidJson(i));
        case Decoded(obj) =>
          match IdentityOf(obj) {
            case Err(e) => return Err(BadIdentity(i, e));
            case Ok(id) =>
              if id in out { return Err(DuplicateChild(i, id)); }
              var child := Strip(obj);
              out := out[id := child];
          }
      }
    }
    assert raw[..|raw|] == raw;
    return Ok(out);
  }

  /** What the gateway exports: nil entries are skipped, the others are already decoded. */
  function IndexedStructs(structs: seq<Option<Fields>>): Result<ChildIndex, IndexError> {
    if structs == [] then Ok(map[])
    else
      var i := |structs| - 1;
      match IndexedStructs(structs[..i])
      case Err(e) => Err(e)
      case Ok(idx) => if structs[i].None? then Ok(idx) else AddChild(idx, i, structs[i].value)
  }

  lemma {:induction false} FirstStructErrorStands(structs: seq<Option<Fields>>, n: nat)
    requires n <= |structs| && IndexedStructs(structs[..n]).Err?
    ensures IndexedStructs(structs) == IndexedStructs(structs[..n])
    decreases |structs|
  {
    if n == |structs| {
      assert structs[..n] == structs;
    } else {
      assert structs[..|structs| - 1][..n] == structs[..n];
      FirstStructErrorStands(structs[..|structs| - 1], n);
    }
  }

  method IndexStructs(structs: seq<Option<Fields>>) returns (r: Result<ChildIndex, IndexError>)
    ensures r == IndexedStructs(structs)
  {
    var out: ChildIndex := map[];
    for i := 0 to |structs|
      invariant IndexedStructs(structs[..i]) == Ok(out)
    {
      assert structs[..i + 1][..i] == structs[..i];
      if IndexedStructs(structs[..i + 1]).Err? { FirstStructErrorStands(structs, i + 1); }
      if structs[i].None? { continue; }
      var obj := structs[i].value;
      match IdentityOf(obj) {
        case Err(e) => return Err(BadIdentity(i, e));
        case Ok(id) =>
          if id in out { return Err(DuplicateChild(i, id)); }
          var child := Strip(obj);
          out := out[id := child];
      }
    }
    assert structs[..|structs|] == structs;
    return Ok(out);
  }

  // ----- What an export group holds -----

  predicate GoodStruct(s: Option<Fields>) { s.Some? ==> IdentityOf(s.value).Ok? }

  /** Two entries that give one name. */
  predicate Clash(a: Option<Fields>, b: Option<Fields>) {
    a.Some? && b.Some? && IdentityOf(a.value).Ok? && IdentityOf(a.value) == IdentityOf(b.value)
  }

  /** Every non-nil struct names itself, and no two name themselves alike. */
  ghost predicate GoodGroup(structs: seq<Option<Fields>>) {
    && (forall s | s in structs :: GoodStruct(s))
    && (forall i, j :: 0 <= i < j < |structs| ==> !Clash(structs[i], structs[j]))
  }

  predicate IsExport(s: Option<Fields>, id: Identity, child: Fields) {
    s.Some? && IdentityOf(s.value) == Ok(id) && child == Stripped(s.value)
  }

  /** Some non-nil struct of the group is `child`, under its own name. */
  ghost predicate Exports(structs: seq<Option<Fields>>, id: Identity, child: Fields) {
    exists s :: s in structs && IsExport(s, id, child)
  }

  ghost predicate HoldsExports(idx: ChildIndex, structs: seq<Option<Fields>>) {
    forall id, child :: (id in idx && idx[id] == child) <==> Exports(structs, id, child)
  }

  lemma GoodGroupStep(structs: seq<Option<Fields>>, last: Option<Fields>)
    ensures GoodGroup(structs + [last]) <==>
      GoodGroup(structs) && GoodStruct(last) && forall s | s in structs :: !Clash(s, last)
  {
    hide Clash;
    hide GoodStruct;
    var all := structs + [last];
    if GoodGroup(all) {
      assert forall i | 0 <= i < |structs| :: structs[i] == all[i];
      assert all[|structs|] == last && last in all;
      assert forall s | s in structs :: s in all;
    }
  }

  lemma HoldsOneMore(idx: ChildIndex, structs: seq<Option<Fields>>, obj: Fields, id: Identity)
    requires HoldsExports(idx, structs) && IdentityOf(obj) == Ok(id) && id !in idx
    ensures HoldsExports(idx[id := Stripped(obj)], structs + [Some(obj)])
  {
    hide IdentityOf;
    hide Stripped;
    var next, all := idx[id := Stripped(obj)], structs + [Some(obj)];
    forall k, child ensures (k in next && next[k] == child) <==> Exports(all, k, child) {
      assert Exports(structs, k, child) <==> k in idx && idx[k] == child;
      if k in next && next[k] == child {
        if k == id {
          assert Some(obj) in all && IsExport(Some(obj), k, child);
        } else {
          var s :| s in structs && IsExport(s, k, child);
          assert s in all;
        }
      }
      if Exports(all, k, child) {
        var s :| s in all && IsExport(s, k, child);
        if s in structs { assert Exports(structs, k, child); } else { assert s == Some(obj); }
      }
    }
  }

  lemma HoldsNil(idx: ChildIndex, structs: seq<Option<Fields>>)
    requires HoldsExports(idx, structs)
    ensures HoldsExports(idx, structs + [None])
  {
    hide IdentityOf;
    hide Stripped;
    forall id, child ensures Exports(structs + [None], id, child) <==> Exports(structs, id, child) {
      if Exports(structs, id, child) {
        var s :| s in structs && IsExport(s, id, child);
        assert s in structs + [None];
      }
    }
  }

  lemma NamedIsExported(structs: seq<Option<Fields>>, s: Option<Fields>, id: Identity)
    requires s in structs
    ensures s.Some? && IdentityOf(s.value) == Ok(id) ==> Exports(structs, id, Stripped(s.value))
  {
    if s.Some? && IdentityOf(s.value) == Ok(id) { assert IsExport(s, id, Stripped(s.value)); }
  }

  lemma GroupStep(init: seq<Option<Fields>>, last: Option<Fields>, idx: ChildIndex)
    requires IndexedStructs(init) == Ok(idx) && HoldsExports(idx, init)
    ensures IndexedStructs(init + [last]).Ok? <==> GoodStruct(last) && forall s | s in init :: !Clash(s, last)
    ensures IndexedStructs(init + [last]).Ok? ==> HoldsExports(IndexedStructs(init + [last]).value, init + [last])
  {
    assert (init + [last])[..|init|] == init;
    if last.None? {
      HoldsNil(idx, init);
    } else if IdentityOf(last.value).Ok? {
      var id := IdentityOf(last.value).value;
      hide IdentityOf;
      hide Stripped;
      if id in idx {
        assert Exports(init, id, idx[id]);
        var s :| s in init && IsExport(s, id, idx[id]);
        assert Clash(s, last);
      } else {
        forall s | s in init ensures !Clash(s, last) { NamedIsExported(init, s, id); }
        HoldsOneMore(idx, init, last.value, id);
      }
    }
  }

  /** Indexing a group succeeds on exactly the good groups, and then loses and invents nothing. */
  lemma {:induction false} IndexedStructsExactly(structs: seq<Option<Fields>>)
    ensures IndexedStructs(structs).Ok? <==> GoodGroup(structs)
    ensures IndexedStructs(structs).Ok? ==> HoldsExports(IndexedStructs(structs).value, structs)
    decreases |structs|
  {
    if structs != [] {
      var init, last := structs[..|structs| - 1], structs[|structs| - 1];
      assert structs == init + [last];
      IndexedStructsExactly(init);
      GoodGroupStep(init, last);
      if IndexedStructs(init).Ok? {
        GroupStep(init, last, IndexedStructs(init).value);
      }
    }
  }

  /** The name a raw entry gives itself, if it decodes to a child at all. */
  function Named(p: Payload): Option<Identity> {
    if p.Decoded? && IdentityOf(p.obj).Ok? then Some(IdentityOf(p.obj).value) else None
  }

  /** Every entry decodes and names itself, and no two name themselves alike. */
  ghost predicate GoodBundle(raw: seq<Payload>) {
    && (forall i | 0 <= i < |raw| :: Named(raw[i]).Some?)
    && (forall i, j :: 0 <= i < j < |raw| ==> Named(raw[i]) != Named(raw[j]))
  }

  /** `idx` holds exactly the stripped entries of `raw`, under their own names. */
  ghost predicate IndexOf(idx: ChildIndex, raw: seq<Payload>) {
    && (forall id | id in idx :: exists p :: p in raw && Named(p) == Some(id))
    && (forall p | p in raw && Named(p).Some? :: Named(p).value in idx && idx[Named(p).value] == Stripped(p.obj))
  }

  lemma IndexOfStep(idx: ChildIndex, raw: seq<Payload>, last: Payload, id: Identity)
    requires IndexOf(idx, raw) && Named(last) == Some(id) && id !in idx
    ensures IndexOf(idx[id := Stripped(last.obj)], raw + [last])
  {
    var idx' := idx[id := Stripped(last.obj)];
    assert last in raw + [last];
    forall k | k in idx' ensures exists p :: p in raw + [last] && Named(p) == Some(k) {
      if k != id {
        var p :| p in raw && Named(p) == Some(k);
        assert p in raw + [last];
      }
    }
  }

  lemma IndexedStep(raw: seq<Payload>, last: Payload)
    ensures Indexed(raw + [last]).Ok? <==>
      Indexed(raw).Ok? && Named(last).Some? && Named(last).value !in Indexed(raw).value
    ensures Indexed(raw + [last]).Ok? ==>
      Indexed(raw + [last]).value == Indexed(raw).value[Named(last).value := Stripped(last.obj)]
  {
    assert (raw + [last])[..|raw|] == raw;
  }

  lemma GoodBundleStep(raw: seq<Payload>, last: Payload)
    ensures GoodBundle(raw + [last]) <==>
      GoodBundle(raw) && Named(last).Some? && forall p | p in raw :: Named(p) != Named(last)
  {
    var all := raw + [last];
    if GoodBundle(all) {
      assert forall i | 0 <= i < |raw| :: raw[i] == all[i];
      assert all[|raw|] == last;
    }
  }

  /** Indexing succeeds on exactly the good bundles, and then loses and invents nothing. */
  lemma {:induction false} IndexedExactly(raw: seq<Payload>)
    ensures Indexed(raw).Ok? <==> GoodBundle(raw)
    ensures Indexed(raw).Ok? ==> IndexOf(Indexed(raw).value, raw)
    decreases |raw|
  {
    if raw != [] {
      var init, last := raw[..|raw| - 1], raw[|raw| - 1];
      assert raw == init + [last];
      IndexedExactly(init);
      IndexedStep(init, last);
      GoodBundleStep(init, last);
      if Indexed(init).Ok? && Named(last).Some? {
        var idx, id := Indexed(init).value, Named(last).value;
        if id in idx {
          var p :| p in init && Named(p) == Some(id);
        } else {
          IndexOfStep(idx, init, last, id);
        }
      }
    }
  }

  /** Entry `i` is the first unacceptable one, and `e` says why. */
  ghost predicate RejectedAt(raw: seq<Payload>, i: nat, e: IndexError) {
    && i < |raw| && GoodBundle(raw[..i])
    && match raw[i]
       case Empty => e == EmptyPayload(i)
       case Invalid => e == InvalidJson(i)
       case Decoded(obj) =>
         match IdentityOf(obj)
         case Err(cause) => e == BadIdentity(i, cause)
         case Ok(id) => e == DuplicateChild(i, id) && exists p :: p in raw[..i] && Named(p) == Some(id)
  }

  /** A bundle that does not index is refused for its first unacceptable entry. */
  lemma {:induction false} RejectedForTheFirst(raw: seq<Payload>) returns (i: nat)
    requires Indexed(raw).Err?
    ensures RejectedAt(raw, i, Indexed(raw).error)
    decreases |raw|
  {
    var n := |raw| - 1;
    if Indexed(raw[..n]).Err? {
      i := RejectedForTheFirst(raw[..n]);
      assert raw[..n][..i] == raw[..i];
    } else {
      i := n;
      IndexedExactly(raw[..n]);
    }
  }

  lemma IndexIsUnique(a: ChildIndex, b: ChildIndex, raw: seq<Payload>, shuffled: seq<Payload>)
    requires forall p :: p in raw <==> p in shuffled
    requires IndexOf(a, raw) && IndexOf(b, shuffled)
    ensures a == b
  {
    forall id ensures (id in a <==> id in b) && (id in a && id in b ==> a[id] == b[id]) {
      if id in a { var p :| p in raw && Named(p) == Some(id); }
      if id in b { var p :| p in shuffled && Named(p) == Some(id); }
    }
  }

  /** The order of spec entries does not reach the index. */
  lemma IndexIgnoresOrder(raw: seq<Payload>, shuffled: seq<Payload>)
    requires multiset(raw) == multiset(shuffled) && Indexed(raw).Ok?
    ensures Indexed(shuffled) == Indexed(raw)
  {
    IndexedExactly(raw);
    assert NoDuplicates(raw);
    PermutationKeepsDistinct(raw, shuffled);
    forall i | 0 <= i < |shuffled| ensures exists i' :: 0 <= i' < |raw| && raw[i'] == shuffled[i] {
      assert shuffled[i] in raw;
    }
    assert GoodBundle(shuffled);
    IndexedExactly(shuffled);
    IndexIsUnique(Indexed(raw).value, Indexed(shuffled).value, raw, shuffled);
  }

  /** Nor does anything the server owns. */
  lemma {:induction false} IndexIgnoresServerContent(raw: seq<Payload>, other: seq<Payload>)
    requires |raw| == |other|
    requires forall i | 0 <= i < |raw| ::
      if raw[i].Decoded? && other[i].Decoded? then SameUserContent(raw[i].obj, other[i].obj) else raw[i] == other[i]
    ensures Indexed(raw) == Indexed(other)
    decreases |raw|
  {
    if raw != [] {
      var i := |raw| - 1;
      IndexIgnoresServerContent(raw[..i], other[..i]);
      if raw[i].Decoded? && other[i].Decoded? {
        StrippedExactly(raw[i].obj, other[i].obj);
        ServerContentKeepsIdentity(raw[i].obj, other[i].obj);
      }
    }
  }

  // ----- Comparing -----

  predicate SameTriple(a: Identity, b: Identity) {
    a.apiVersion == b.apiVersion && a.kind == b.kind && a.name == b.name
  }

  ghost function Candidates(observed: ChildIndex, id: Identity): set<Identity> {
    set k | k in observed && SameTriple(k, id)
  }

  /** The one observed child with the same apiVersion, kind and name, if it is the only one. */
  ghost predicate UniqueAnywhere(observed: ChildIndex, id: Identity, r: Option<Fields>) {
    match r
    case Some(obs) => exists k :: k in observed && Candidates(observed, id) == {k} && observed[k] == obs
    case None => forall k :: k in observed ==> Candidates(observed, id) != {k}
  }

  /** Which observed child stands for a desired identity. */
  ghost predicate Resolves(observed: ChildIndex, id: Identity, r: Option<Fields>) {
    if id in observed then r == Some(observed[id])
    else if id.namespace != "" then r == None
    else UniqueAnywhere(observed, id, r)
  }

  ghost function Resolve(observed: ChildIndex, id: Identity): (r: Option<Fields>)
    ensures Resolves(observed, id, r)
    ensures forall other :: Resolves(observed, id, other) ==> other == r
  {
    if id in observed then Some(observed[id])
    else if id.namespace != "" then None
    else if exists k :: k in observed && Candidates(observed, id) == {k} then
      var k :| k in observed && Candidates(observed, id) == {k};
      assert forall k' | k' in observed && Candidates(observed, id) == {k'} :: k' in {k};
      Some(observed[k])
    else None
  }

  method LookupAnyNamespace(observed: ChildIndex, id: Identity) returns (r: Option<Fields>)
    ensures UniqueAnywhere(observed, id, r)
  {
    r := None;
    var rest := observed.Keys;
    ghost var seen: set<Identity> := {};
    while rest != {}
      invariant rest <= observed.Keys
      invariant seen == set k | k in observed && k !in rest && SameTriple(k, id)
      invariant r.None? ==> seen == {}
      invariant r.Some? ==> exists k :: k in observed && seen == {k} && observed[k] == r.value
      decreases |rest|
    {
      var k :| k in rest;
      rest := rest - {k};
      if SameTriple(k, id) {
        ghost var before := seen;
        seen := seen + {k};
        if r.Some? {
          ghost var first :| first in observed && before == {first};
          assert first in Candidates(observed, id) && k in Candidates(observed, id) && first != k;
          return None;
        }
        r := Some(observed[k]);
        assert seen == {k};
      }
    }
    assert seen == Candidates(observed, id);
  }

  datatype DriftReport = DriftReport(missing: seq<Identity>, changed: seq<Identity>) {
    predicate Empty() { missing == [] && changed == [] }
  }

  predicate IdentityLe(a: Identity, b: Identity) {
    LexLe(a.String(), b.String())
  }

  lemma IdentityOrder()
    ensures TotalPreorder(IdentityLe)
  {
    forall a, b ensures IdentityLe(a, b) || IdentityLe(b, a) { LexTotal(a.String(), b.String()); }
    forall a, b, c | IdentityLe(a, b) && IdentityLe(b, c) ensures IdentityLe(a, c) {
      LexTransitive(a.String(), b.String(), c.String());
    }
  }

  /** The identities of an index, sorted by their printed form. */
  method SortedIdentities(idx: ChildIndex) returns (keys: seq<Identity>)
    ensures Lists(keys, idx.Keys, IdentityLe)
  {
    IdentityOrder();
    keys := SortedKeys(idx, IdentityLe);
  }

  ghost predicate Missing(desired: ChildIndex, observed: ChildIndex, id: Identity) {
    id in desired && Resolve(observed, id).None?
  }

  ghost predicate Changed(desired: ChildIndex, observed: ChildIndex, id: Identity) {
    id in desired && Resolve(observed, id).Some? && !Matches(Obj(desired[id]), Obj(Resolve(observed, id).value))
  }

  ghost function MissingIn(scope: set<Identity>, desired: ChildIndex, observed: ChildIndex): set<Identity> {
    set id | id in scope && Missing(desired, observed, id)
  }

  ghost function ChangedIn(scope: set<Identity>, desired: ChildIndex, observed: ChildIndex): set<Identity> {
    set id | id in scope && Changed(desired, observed, id)
  }

  lemma ScopeExtends(scope: set<Identity>, id: Identity, desired: ChildIndex, observed: ChildIndex)
    ensures MissingIn(scope + {id}, desired, observed)
      == MissingIn(scope, desired, observed) + (if Missing(desired, observed, id) then {id} else {})
    ensures ChangedIn(scope + {id}, desired, observed)
      == ChangedIn(scope, desired, observed) + (if Changed(desired, observed, id) then {id} else {})
  {}

  lemma ListsExtend<T(!new)>(xs: seq<T>, s: set<T>, x: T, le: (T, T) -> bool)
    requires Lists(xs, s, le) && x !in s && forall y | y in s :: le(y, x)
    ensures Lists(xs + [x], s + {x}, le)
  {
    forall i | 0 <= i < |xs| ensures le(xs[i], x) && xs[i] != x {
      assert xs[i] in xs;
    }
  }

  /** The report names each drifting child once, in order, and nothing else. */
  ghost predicate ExactReport(report: DriftReport, desired: ChildIndex, observed: ChildIndex) {
    && Lists(report.missing, MissingIn(desired.Keys, desired, observed), IdentityLe)
    && Lists(report.changed, ChangedIn(desired.Keys, desired, observed), IdentityLe)
  }

  method Compare(desired: ChildIndex, observed: ChildIndex) returns (report: DriftReport)
    ensures ExactReport(report, desired, observed)
  {
    var keys := SortedIdentities(desired);
    var missing, changed: seq<Identity> := [], [];
    ghost var done: set<Identity> := {};
    for i := 0 to |keys|
      invariant forall x :: x in done <==> x in keys[..i]
      invariant Lists(missing, MissingIn(done, desired, observed), IdentityLe)
      invariant Lists(changed, ChangedIn(done, desired, observed), IdentityLe)
    {
      var id := keys[i];
      assert keys[..i + 1] == keys[..i] + [id];
      assert forall x | x in done :: IdentityLe(x, id) && x != id;
      var obs: Option<Fields>;
      if id in observed {
        obs := Some(observed[id]);
      } else if id.namespace == "" {
        obs := LookupAnyNamespace(observed, id);
      } else {
        obs := None;
      }
      assert obs == Resolve(observed, id);
      ScopeExtends(done, id, desired, observed);
      if obs.None? {
        ListsExtend(missing, MissingIn(done, desired, observed), id, IdentityLe);
        missing := missing + [id];
      } else if !Matches(Obj(desired[id]), Obj(obs.value)) {
        ListsExtend(changed, ChangedIn(done, desired, observed), id, IdentityLe);
        changed := changed + [id];
      }
      done := done + {id};
    }
    assert keys[..|keys|] == keys;
    assert done == desired.Keys;
    report := DriftReport(missing, changed);
  }

  /** No drift means every desired child is found and matched. */
  lemma EmptyReportExactly(report: DriftReport, desired: ChildIndex, observed: ChildIndex)
    requires ExactReport(report, desired, observed)
    ensures report.Empty() <==> forall id | id in desired ::
      Resolve(observed, id).Some? && Matches(Obj(desired[id]), Obj(Resolve(observed, id).value))
  {
    if report.Empty() {
      forall id | id in desired
        ensures Resolve(observed, id).Some? && Matches(Obj(desired[id]), Obj(Resolve(observed, id).value))
      {
        assert id !in report.missing && id !in report.changed;
      }
    } else {
      var id := if report.missing != [] then report.missing[0] else report.changed[0];
      assert id in report.missing || id in report.changed;
    }
  }

  /** Adding children in other namespaces can only make a namespace-less lookup ambiguous, never redirect it. */
  lemma FallbackNeverRedirects(observed: ChildIndex, id: Identity, extra: Identity, obj: Fields)
    requires extra !in observed && extra != id
    ensures Resolve(observed[extra := obj], id).Some? && Resolve(observed, id).Some?
      ==> Resolve(observed[extra := obj], id) == Resolve(observed, id)
  {
    var grown := observed[extra := obj];
    if id !in observed && id.namespace == "" && Resolve(observed, id).Some? && Resolve(grown, id).Some? {
      var k :| k in observed && Candidates(observed, id) == {k} && observed[k] == Resolve(observed, id).value;
      var k' :| k' in grown && Candidates(grown, id) == {k'} && grown[k'] == Resolve(grown, id).value;
      assert k in Candidates(observed, id);
      assert k in Candidates(grown, id);
    }
  }
}
