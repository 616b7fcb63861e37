/**
 * The declarative resource bundle of a KargoInstance: its order-free digest, and the drift verdict
 * with its one exception, Project descriptions that the export omits (kargoinstance.go).
 */
module KargoResources {
  import opened Wrappers
  import opened JsonMatch
  import opened Ordering
  import opened Framing
  import opened Children

  // ----- Bundle digest -----

  function BundleEntries(keys: seq<Identity>, idx: ChildIndex, marshal: Json -> string): (es: seq<Entry>)
    requires forall id | id in keys :: id in idx
    ensures |es| == |keys|
    ensures forall i | 0 <= i < |keys| :: es[i] == (keys[i].String(), marshal(Obj(idx[keys[i]])))
  {
    seq(|keys|, i requires 0 <= i < |keys| => (keys[i].String(), marshal(Obj(idx[keys[i]]))))
  }

  /** A digest hashKargoResourceIndex may return; sort.Slice leaves the order of equal names open. */
  ghost predicate IsBundleDigest(idx: ChildIndex, sha: string -> string, marshal: Json -> string, digest: string) {
    if |idx| == 0 then digest == ""
    else exists keys :: Lists(keys, idx.Keys, IdentityLe)
                        && digest == sha(Frames(BundleEntries(keys, idx, marshal), NUL, SOH))
  }

  method FrameBundle(keys: seq<Identity>, idx: ChildIndex, marshal: Json -> string) returns (buf: string)
    requires forall id | id in keys :: id in idx
    ensures buf == Frames(BundleEntries(keys, idx, marshal), NUL, SOH)
  {
    ghost var es := BundleEntries(keys, idx, marshal);
    buf := "";
    for i := 0 to |keys|
      invariant buf == Frames(es[..i], NUL, SOH)
    {
      FramesStep(es, i, NUL, SOH);
      var name, payload := keys[i].String(), marshal(Obj(idx[keys[i]]));
      buf := buf + name + [NUL] + payload + [SOH];
    }
    assert es[..|keys|] == es;
  }

  method HashKargoResourceIndex(idx: ChildIndex, sha: string -> string, marshal: Json -> string)
    returns (digest: string)
    ensures IsBundleDigest(idx, sha, marshal, digest)
  {
    if |idx| == 0 { return ""; }
    var keys := SortedIdentities(idx);
    var buf := FrameBundle(keys, idx, marshal);
    digest := sha(buf);
  }

  method HashKargoResources(raw: seq<Payload>, sha: string -> string, marshal: Json -> string)
    returns (r: Result<string, IndexError>)
    ensures r.Ok? <==> Indexed(raw).Ok?
    ensures r.Err? ==> r.error == Indexed(raw).error
    ensures r.Ok? ==> IsBundleDigest(Indexed(raw).value, sha, marshal, r.value)
  {
    if |raw| == 0 { return Ok(""); }
    var idx := Index(raw);
    if idx.Err? { return Err(idx.error); }
    var digest := HashKargoResourceIndex(idx.value, sha, marshal);
    return Ok(digest);
  }

  ghost predicate WellNamedIndex(idx: ChildIndex) {
    forall id | id in idx :: id.WellNamed()
  }

  /** Well-named children have one digest, whatever order the map and the sort visit them in. */
  lemma BundleDigestUnique(idx: ChildIndex, sha: string -> string, marshal: Json -> string, a: string, b: string)
    requires WellNamedIndex(idx)
    requires IsBundleDigest(idx, sha, marshal, a) && IsBundleDigest(idx, sha, marshal, b)
    ensures a == b
  {
    if |idx| > 0 {
      var ka :| Lists(ka, idx.Keys, IdentityLe) && a == sha(Frames(BundleEntries(ka, idx, marshal), NUL, SOH));
      var kb :| Lists(kb, idx.Keys, IdentityLe) && b == sha(Frames(BundleEntries(kb, idx, marshal), NUL, SOH));
      forall x, y | x in idx.Keys && y in idx.Keys && IdentityLe(x, y) && IdentityLe(y, x) ensures x == y {
        LexTotal(x.String(), y.String());
        IdentityStringInjective(x, y);
      }
      ListingIsUnique(ka, kb, idx.Keys, IdentityLe);
    }
  }

  /** The values a bundle hands to json.Marshal. */
  ghost function Contents(idx: ChildIndex): set<Json> {
    set id | id in idx :: Obj(idx[id])
  }

  /** What the digest takes from json.Marshal on some values: one text per value, control characters escaped. */
  ghost predicate CanonicalOn(marshal: Json -> string, vs: set<Json>) {
    && (forall a, b | a in vs && b in vs && marshal(a) == marshal(b) :: a == b)
    && (forall a | a in vs :: SOH !in marshal(a))
  }

  lemma Listing(vs: set<Json>) returns (listing: seq<Json>)
    ensures forall v :: v in listing <==> v in vs
  {
    listing := [];
    var rest := vs;
    while rest != {}
      invariant rest <= vs && forall v :: v in listing <==> v in vs - rest
      decreases |rest|
    {
      var v :| v in rest;
      listing, rest := listing + [v], rest - {v};
    }
  }

  /** The index of the first occurrence, or the length when there is none. */
  function PlaceOf(listing: seq<Json>, v: Json): (n: nat)
    ensures n <= |listing| && (v in listing ==> n < |listing| && listing[n] == v)
  {
    if listing == [] || listing[0] == v then 0 else 1 + PlaceOf(listing[1..], v)
  }

  /** On any values there is such an encoding. */
  lemma CanonicalEncodingExists(vs: set<Json>)
    ensures exists marshal: Json -> string :: CanonicalOn(marshal, vs)
  {
    var listing := Listing(vs);
    var marshal := (j: Json) => seq(PlaceOf(listing, j), _ => 'i');
    forall a, b | a in vs && b in vs && marshal(a) == marshal(b) ensures a == b {
      assert |marshal(a)| == PlaceOf(listing, a) && |marshal(b)| == PlaceOf(listing, b);
    }
    assert CanonicalOn(marshal, vs);
  }

  /** Digests of two bundles, by a hash and an encoding that tell what they are given apart. */
  ghost predicate AreDigests(
    a: ChildIndex, b: ChildIndex, sha: string -> string, marshal: Json -> string, da: string, db: string)
  {
    && IdealHash(sha) && CanonicalOn(marshal, Contents(a) + Contents(b))
    && IsBundleDigest(a, sha, marshal, da) && IsBundleDigest(b, sha, marshal, db)
  }

  lemma DigestOf(idx: ChildIndex, sha: string -> string, marshal: Json -> string) returns (digest: string)
    ensures IsBundleDigest(idx, sha, marshal, digest)
  {
    if |idx| == 0 { return ""; }
    IdentityOrder();
    SortedListingExists(idx.Keys, IdentityLe);
    var keys: seq<Identity> :| Lists(keys, idx.Keys, IdentityLe);
    digest := sha(Frames(BundleEntries(keys, idx, marshal), NUL, SOH));
  }

  /** Any two bundles have such digests. */
  lemma DigestsExist(a: ChildIndex, b: ChildIndex)
    ensures exists sha, marshal, da, db :: AreDigests(a, b, sha, marshal, da, db)
  {
    IdealHashExists();
    hide IdealHash;
    hide CanonicalOn;
    hide IsBundleDigest;
    hide Contents;
    CanonicalEncodingExists(Contents(a) + Contents(b));
    var marshal: Json -> string :| CanonicalOn(marshal, Contents(a) + Contents(b));
    var da := DigestOf(a, SpellOut, marshal);
    var db := DigestOf(b, SpellOut, marshal);
    assert AreDigests(a, b, SpellOut, marshal, da, db);
  }

  lemma EmptyDigestMeansEmpty(idx: ChildIndex, sha: string -> string, marshal: Json -> string)
    requires IdealHash(sha) && IsBundleDigest(idx, sha, marshal, "")
    ensures idx == map[]
  {
    if |idx| > 0 {
      forall keys | Lists(keys, idx.Keys, IdentityLe)
        ensures sha(Frames(BundleEntries(keys, idx, marshal), NUL, SOH)) != ""
      {
        assert Printable(sha, Frames(BundleEntries(keys, idx, marshal), NUL, SOH));
      }
    }
  }

  lemma BundleEntriesSeparable(keys: seq<Identity>, idx: ChildIndex, marshal: Json -> string)
    requires CanonicalOn(marshal, Contents(idx))
    requires forall id | id in keys :: id in idx && NUL !in id.String()
    ensures Separable(BundleEntries(keys, idx, marshal), NUL, SOH)
  {}

  lemma SameEntryAt(
    a: ChildIndex, b: ChildIndex, ka: seq<Identity>, kb: seq<Identity>, marshal: Json -> string, i: nat)
    requires CanonicalOn(marshal, Contents(a) + Contents(b)) && WellNamedIndex(a) && WellNamedIndex(b)
    requires i < |ka| && i < |kb| && (forall id | id in ka :: id in a) && (forall id | id in kb :: id in b)
    requires BundleEntries(ka, a, marshal) == BundleEntries(kb, b, marshal)
    ensures ka[i] == kb[i] && a[ka[i]] == b[kb[i]]
  {
    var x, y := ka[i], kb[i];
    assert x in ka && y in kb;
    assert BundleEntries(ka, a, marshal)[i] == BundleEntries(kb, b, marshal)[i];
    IdentityStringInjective(x, y);
    assert Obj(a[x]) in Contents(a) && Obj(b[y]) in Contents(b);
    hide Contents;
    assert marshal(Obj(a[x])) == marshal(Obj(b[y]));
    assert Obj(a[x]) == Obj(b[y]);
  }

  lemma SameEntriesSameIndex(
    a: ChildIndex, b: ChildIndex, ka: seq<Identity>, kb: seq<Identity>, marshal: Json -> string)
    requires CanonicalOn(marshal, Contents(a) + Contents(b)) && WellNamedIndex(a) && WellNamedIndex(b)
    requires forall id :: id in ka <==> id in a
    requires forall id :: id in kb <==> id in b
    requires BundleEntries(ka, a, marshal) == BundleEntries(kb, b, marshal)
    ensures a == b
  {
    assert |ka| == |BundleEntries(ka, a, marshal)| == |kb|;
    forall i | 0 <= i < |ka| ensures ka[i] == kb[i] && a[ka[i]] == b[kb[i]] {
      SameEntryAt(a, b, ka, kb, marshal, i);
    }
    hide BundleEntries;
    hide CanonicalOn;
    assert ka == kb;
    forall id ensures (id in a <==> id in b) && (id in a && id in b ==> a[id] == b[id]) {
      assert id in ka <==> id in kb;
    }
  }

  lemma SameTextSameIndex(
    a: ChildIndex, b: ChildIndex, ka: seq<Identity>, kb: seq<Identity>, marshal: Json -> string)
    requires CanonicalOn(marshal, Contents(a) + Contents(b)) && WellNamedIndex(a) && WellNamedIndex(b)
    requires forall id :: id in ka <==> id in a
    requires forall id :: id in kb <==> id in b
    requires forall id | id in a || id in b :: NUL !in id.String()
    requires Frames(BundleEntries(ka, a, marshal), NUL, SOH) == Frames(BundleEntries(kb, b, marshal), NUL, SOH)
    ensures a == b
  {
    BundleEntriesSeparable(ka, a, marshal);
    BundleEntriesSeparable(kb, b, marshal);
    FramesInjective(BundleEntries(ka, a, marshal), BundleEntries(kb, b, marshal), NUL, SOH);
    SameEntriesSameIndex(a, b, ka, kb, marshal);
  }

  /** Equal digests mean equal bundles. */
  lemma BundleDigestComplete(
    a: ChildIndex, b: ChildIndex, sha: string -> string, marshal: Json -> string, da: string, db: string)
    requires WellNamedIndex(a) && WellNamedIndex(b)
    requires forall id | id in a || id in b :: NUL !in id.String()
    requires AreDigests(a, b, sha, marshal, da, db)
    ensures da == db <==> a == b
  {
    if a == b {
      BundleDigestUnique(a, sha, marshal, da, db);
    } else if da == db && |a| > 0 && |b| > 0 {
      var ka :| Lists(ka, a.Keys, IdentityLe) && da == sha(Frames(BundleEntries(ka, a, marshal), NUL, SOH));
      var kb :| Lists(kb, b.Keys, IdentityLe) && db == sha(Frames(BundleEntries(kb, b, marshal), NUL, SOH));
      var ta := Frames(BundleEntries(ka, a, marshal), NUL, SOH);
      var tb := Frames(BundleEntries(kb, b, marshal), NUL, SOH);
      assert TellsApart(sha, ta, tb);
      SameTextSameIndex(a, b, ka, kb, marshal);
    } else if da == db {
      EmptyDigestMeansEmpty(a, sha, marshal);
      EmptyDigestMeansEmpty(b, sha, marshal);
    }
  }

  /** Reordering the spec and letting the server write its own fields leave the digest alone. */
  lemma BundleDigestIgnoresOrderAndServer(
    raw: seq<Payload>, touched: seq<Payload>, shuffled: seq<Payload>,
    sha: string -> string, marshal: Json -> string, a: string, b: string)
    requires |raw| == |touched| && multiset(touched) == multiset(shuffled)
    requires forall i | 0 <= i < |raw| ::
      if raw[i].Decoded? && touched[i].Decoded? then SameUserContent(raw[i].obj, touched[i].obj)
      else raw[i] == touched[i]
    requires Indexed(raw).Ok? && WellNamedIndex(Indexed(raw).value)
    requires IsBundleDigest(Indexed(raw).value, sha, marshal, a)
    ensures Indexed(shuffled).Ok?
    ensures IsBundleDigest(Indexed(shuffled).value, sha, marshal, b) ==> a == b
  {
    IndexIgnoresServerContent(raw, touched);
    IndexIgnoresOrder(touched, shuffled);
    if IsBundleDigest(Indexed(shuffled).value, sha, marshal, b) {
      BundleDigestUnique(Indexed(raw).value, sha, marshal, a, b);
    }
  }

  // ----- Project descriptions -----

  const KARGO_API_VERSION := "kargo.akuity.io/v1alpha1"
  const KARGO_KIND_PROJECT := "Project"

  predicate IsKargoProject(id: Identity) {
    id.apiVersion == KARGO_API_VERSION && id.kind == KARGO_KIND_PROJECT
  }

  predicate HasJsonPath(v: Json, path: seq<string>)
    decreases |path|
  {
    path == [] || (v.Obj? && path[0] in v.fields && HasJsonPath(v.fields[path[0]], path[1..]))
  }

  predicate HasDescription(obj: Fields) {
    HasJsonPath(Obj(obj), ["spec", "description"])
  }

  lemma HasDescriptionMeans(obj: Fields)
    ensures HasDescription(obj) <==> "spec" in obj && obj["spec"].Obj? && "description" in obj["spec"].fields
  {
    var path := ["spec", "description"];
    assert path[1..] == ["description"] && path[1..][1..] == [];
  }

  function WithoutProjectDescription(obj: Fields): Fields {
    if "spec" in obj && obj["spec"].Obj? then obj["spec" := Obj(obj["spec"].fields - {"description"})] else obj
  }

  /** `obj` with spec.description set, its spec created when null or absent. */
  function WithDescription(obj: Fields, description: Json): Fields {
    var spec := if "spec" in obj && obj["spec"].Obj? then obj["spec"].fields else map[];
    obj["spec" := Obj(spec["description" := description])]
  }

  predicate SpecMissing(obj: Fields) {
    "spec" !in obj || obj["spec"].Null?
  }

  /**
   * The observed copy lacks spec.description and nothing else: putting the desired description there
   * makes it match. Where the whole spec is missing, the description must be all desired has in it.
   */
  predicate OnlyDescriptionMissing(d: Fields, obs: Fields) {
    && "spec" in d && d["spec"].Obj? && "description" in d["spec"].fields
    && !("spec" in obs && obs["spec"].Obj? && "description" in obs["spec"].fields)
    && (if SpecMissing(obs) then d["spec"].fields.Keys == {"description"} else obs["spec"].Obj?)
    && Matches(Obj(d), Obj(WithDescription(obs, d["spec"].fields["description"])))
  }

  /** Two comparisons that differ only under "spec" differ only by what "spec" says. */
  lemma FieldsMatchExceptSpec(d: Fields, o: Fields, d': Fields, o': Fields)
    requires forall k | k != "spec" :: (k in d <==> k in d') && (k in d ==> d[k] == d'[k])
    requires forall k | k != "spec" :: (k in o <==> k in o') && (k in o ==> o[k] == o'[k])
    ensures Matches(Obj(d), Obj(o)) <==> FieldMatches(d, o, "spec") && forall k | k != "spec" :: FieldMatches(d, o, k)
    ensures Matches(Obj(d'), Obj(o'))
       <==> FieldMatches(d', o', "spec") && forall k | k != "spec" :: FieldMatches(d, o, k)
  {
    assert forall k | k != "spec" :: FieldMatches(d, o, k) <==> FieldMatches(d', o', k);
    ObjectsMatchByField(d, o);
    ObjectsMatchByField(d', o');
  }

  lemma SpecGap(ds: Fields, obs: Fields)
    requires "description" in ds && !("spec" in obs && obs["spec"].Obj? && "description" in obs["spec"].fields)
    ensures (if "spec" in obs then Matches(Obj(ds - {"description"}), obs["spec"])
             else IsEmpty(Obj(ds - {"description"})))
       <==> && (if SpecMissing(obs) then ds.Keys == {"description"} else obs["spec"].Obj?)
            && Matches(Obj(ds), WithDescription(obs, ds["description"])["spec"])
  {
    var trimmed := ds - {"description"};
    MatchesReflexive(ds["description"]);
    assert |trimmed| == 0 <==> ds.Keys == {"description"} by {
      assert trimmed.Keys == ds.Keys - {"description"};
      if |trimmed| == 0 { assert trimmed.Keys == {}; }
    }
    if "spec" in obs && obs["spec"].Obj? {
      var os := obs["spec"].fields;
      var filled := os["description" := ds["description"]];
      assert forall k | k != "description" ::
        (FieldMatches(trimmed, os, k) <==> FieldMatches(ds, filled, k));
      assert FieldMatches(trimmed, os, "description") && FieldMatches(ds, filled, "description");
      ObjectsMatchByField(trimmed, os);
      ObjectsMatchByField(ds, filled);
    }
  }

  /** What the code checks of a changed child is what the gap means. */
  lemma DescriptionGapExactly(d: Fields, obs: Fields)
    requires !Matches(Obj(d), Obj(obs))
    ensures (!HasDescription(obs) && Matches(Obj(WithoutProjectDescription(d)), Obj(obs)))
       <==> OnlyDescriptionMissing(d, obs)
  {
    HasDescriptionMeans(obs);
    if HasDescription(obs) {
    } else if "spec" in d && d["spec"].Obj? {
      var ds := d["spec"].fields;
      var trimmed := WithoutProjectDescription(d);
      assert forall k | k != "spec" :: (k in trimmed <==> k in d) && (k in d ==> trimmed[k] == d[k]);
      if "description" in ds {
        var filled := WithDescription(obs, ds["description"]);
        MatchesReflexive(ds["description"]);
        assert forall k | k != "spec" :: (k in filled <==> k in obs) && (k in obs ==> filled[k] == obs[k]);
        FieldsMatchExceptSpec(trimmed, obs, d, filled);
        SpecGap(ds, obs);
        assert !IsEmpty(d["spec"]);
      } else {
        assert ds - {"description"} == ds;
        assert trimmed == d;
      }
    } else {
      assert WithoutProjectDescription(d) == d;
    }
  }

  predicate IsBareProject(obj: Fields) {
    && "apiVersion" in obj && obj["apiVersion"] == Str(KARGO_API_VERSION)
    && "kind" in obj && obj["kind"] == Str(KARGO_KIND_PROJECT)
    && "metadata" in obj && obj["metadata"] == Obj(map["name" := Str("p")])
  }

  /** A Project manifest without a spec. */
  function BareProject(): (obj: Fields)
    ensures IsBareProject(obj) && "spec" !in obj
  {
    map["apiVersion" := Str(KARGO_API_VERSION), "kind" := Str(KARGO_KIND_PROJECT),
        "metadata" := Obj(map["name" := Str("p")])]
  }

  lemma BareProjectIdentity(obj: Fields)
    requires IsBareProject(obj)
    ensures IdentityOf(obj) == Ok(Identity(KARGO_API_VERSION, KARGO_KIND_PROJECT, "", "p"))
  {}

  /** A description beside an empty map. */
  function LabelledSpec(): Fields {
    map["description" := Str("about"), "labels" := Obj(map[])]
  }

  lemma NoMatchWithoutSpec(d: Fields, obs: Fields)
    requires "spec" in d && !IsEmpty(d["spec"]) && SpecMissing(obs)
    ensures !Matches(Obj(d), Obj(obs))
  {}

  lemma MatchesWithSpec(obs: Fields, d: Fields, filled: Fields)
    requires "spec" in d && "spec" in filled && d == obs["spec" := d["spec"]] && filled == obs["spec" := filled["spec"]]
    requires Matches(d["spec"], filled["spec"])
    ensures Matches(Obj(d), Obj(filled))
  {
    forall k | k in obs ensures Matches(obs[k], obs[k]) { MatchesReflexive(obs[k]); }
    ObjectsMatchByField(d, filled);
  }

  predicate FillsYetRejected(d: Fields, obs: Fields) {
    && "spec" in d && d["spec"].Obj? && "description" in d["spec"].fields && SpecMissing(obs)
    && Matches(Obj(d), Obj(WithDescription(obs, d["spec"].fields["description"])))
    && !Matches(Obj(d), Obj(obs))
    && !Matches(Obj(WithoutProjectDescription(d)), Obj(obs))
  }

  lemma FillingSettlesIt(obs: Fields)
    requires SpecMissing(obs)
    ensures FillsYetRejected(obs["spec" := Obj(LabelledSpec())], obs)
  {
    var spec, d := LabelledSpec(), obs["spec" := Obj(LabelledSpec())];
    var filled := WithDescription(obs, Str("about"));
    assert filled["spec"].fields == map["description" := Str("about")];
    ObjectsMatchByField(spec, filled["spec"].fields);
    var trimmed := WithoutProjectDescription(d);
    assert "labels" in spec && "spec" in trimmed && "labels" in trimmed["spec"].fields;
    assert !IsEmpty(d["spec"]) && !IsEmpty(trimmed["spec"]);
    MatchesWithSpec(obs, d, filled);
    NoMatchWithoutSpec(d, obs);
    NoMatchWithoutSpec(trimmed, obs);
    hide Matches;
    hide LabelledSpec;
  }

  /** The extra clause for a missing spec is needed: here is a Project, named as the index wants it, for which filling
      in the description would settle the drift. */
  lemma FillingAloneIsNotEnough()
    ensures exists d: Fields, obs: Fields ::
      && IdentityOf(d).Ok? && IdentityOf(obs) == IdentityOf(d) && IsKargoProject(IdentityOf(d).value)
      && FillsYetRejected(d, obs)
  {
    var obs := BareProject();
    var d := obs["spec" := Obj(LabelledSpec())];
    BareProjectIdentity(obs);
    BareProjectIdentity(d);
    FillingSettlesIt(obs);
    hide BareProject;
    hide LabelledSpec;
    hide IdentityOf;
    hide FillsYetRejected;
    assert FillsYetRejected(d, obs);
  }

  // ----- The verdict -----

  method ObservedResource(observed: ChildIndex, id: Identity) returns (r: Option<Fields>)
    ensures r == Resolve(observed, id)
  {
    if id in observed { return Some(observed[id]); }
    if id.namespace != "" { return None; }
    r := LookupAnyNamespace(observed, id);
  }

  ghost predicate Settled(desired: ChildIndex, observed: ChildIndex, id: Identity)
    requires id in desired
  {
    Resolve(observed, id).Some? && Matches(Obj(desired[id]), Obj(Resolve(observed, id).value))
  }

  ghost predicate AllSettled(desired: ChildIndex, observed: ChildIndex) {
    forall id | id in desired :: Settled(desired, observed, id)
  }

  ghost predicate Excused(desired: ChildIndex, observed: ChildIndex, id: Identity)
    requires id in desired
  {
    && IsKargoProject(id)
    && Resolve(observed, id).Some?
    && OnlyDescriptionMissing(desired[id], Resolve(observed, id).value)
  }

  ghost predicate Unexcusable(observed: ChildIndex, id: Identity) {
    !IsKargoProject(id) || (Resolve(observed, id).Some? && HasDescription(Resolve(observed, id).value))
  }

  ghost predicate TrimsAt(
    desired: ChildIndex, trimmed: ChildIndex, observed: ChildIndex, changed: seq<Identity>, id: Identity)
    requires id in desired && trimmed.Keys == desired.Keys
  {
    if id in changed then
      && IsKargoProject(id) && Resolve(observed, id).Some? && !HasDescription(Resolve(observed, id).value)
      && trimmed[id] == WithoutProjectDescription(desired[id])
    else
      trimmed[id] == desired[id]
  }

  ghost predicate Trims(desired: ChildIndex, trimmed: ChildIndex, observed: ChildIndex, changed: seq<Identity>) {
    && trimmed.Keys == desired.Keys
    && (forall id | id in desired :: TrimsAt(desired, trimmed, observed, changed, id))
  }

  /** The loop over the changed children: None when one of them rules the exception out. */
  method TrimDescriptions(desired: ChildIndex, observed: ChildIndex, changed: seq<Identity>)
    returns (r: Option<ChildIndex>)
    requires forall id | id in changed :: id in desired && Resolve(observed, id).Some?
    ensures r.None? ==> exists id :: id in changed && Unexcusable(observed, id)
    ensures r.Some? ==> Trims(desired, r.value, observed, changed)
  {
    var trimmed := desired;
    for i := 0 to |changed|
      invariant Trims(desired, trimmed, observed, changed[..i])
    {
      var id := changed[i];
      assert id in changed;
      assert changed[..i + 1] == changed[..i] + [id];
      if !IsKargoProject(id) { return None; }
      var obs := ObservedResource(observed, id);
      if HasDescription(obs.value) { return None; }
      trimmed := trimmed[id := WithoutProjectDescription(desired[id])];
    }
    assert changed[..|changed|] == changed;
    return Some(trimmed);
  }

  lemma UnexcusableChild(desired: ChildIndex, observed: ChildIndex, changed: seq<Identity>)
    requires forall id | id in changed :: Changed(desired, observed, id)
    requires exists id :: id in changed && Unexcusable(observed, id)
    ensures exists id :: id in desired && !Settled(desired, observed, id) && !Excused(desired, observed, id)
  {
    var id :| id in changed && Unexcusable(observed, id);
    HasDescriptionMeans(Resolve(observed, id).value);
    assert !Settled(desired, observed, id) && !Excused(desired, observed, id);
  }

  lemma TrimmedSettles(
    desired: ChildIndex, trimmed: ChildIndex, observed: ChildIndex, changed: seq<Identity>, id: Identity)
    requires id in desired && trimmed.Keys == desired.Keys && TrimsAt(desired, trimmed, observed, changed, id)
    requires Resolve(observed, id).Some? && (id in changed <==> !Settled(desired, observed, id))
    ensures Settled(trimmed, observed, id) <==> Settled(desired, observed, id) || Excused(desired, observed, id)
  {
    if id in changed {
      DescriptionGapExactly(desired[id], Resolve(observed, id).value);
    }
  }

  lemma TrimmedSettleExactly(
    desired: ChildIndex, trimmed: ChildIndex, observed: ChildIndex, changed: seq<Identity>)
    requires Trims(desired, trimmed, observed, changed)
    requires forall id | id in desired ::
      Resolve(observed, id).Some? && (id in changed <==> !Settled(desired, observed, id))
    ensures AllSettled(trimmed, observed)
       <==> forall id | id in desired :: Settled(desired, observed, id) || Excused(desired, observed, id)
  {
    forall id | id in desired
      ensures Settled(trimmed, observed, id) <==> Settled(desired, observed, id) || Excused(desired, observed, id)
    {
      TrimmedSettles(desired, trimmed, observed, changed, id);
    }
  }

  lemma ReportMembers(report: DriftReport, desired: ChildIndex, observed: ChildIndex)
    requires ExactReport(report, desired, observed)
    ensures forall id :: id in report.missing <==> Missing(desired, observed, id)
    ensures forall id :: id in report.changed <==> Changed(desired, observed, id)
    ensures forall id | id in desired ::
      Settled(desired, observed, id) <==> id !in report.missing && id !in report.changed
  {}

  method KargoProjectDescriptionOnlyDrift(desired: ChildIndex, observed: ChildIndex, report: DriftReport)
    returns (ok: bool)
    requires ExactReport(report, desired, observed)
    ensures ok <==>
      && !AllSettled(desired, observed)
      && forall id | id in desired :: Settled(desired, observed, id) || Excused(desired, observed, id)
  {
    ReportMembers(report, desired, observed);
    if |report.missing| > 0 {
      assert report.missing[0] in report.missing;
      return false;
    }
    if |report.changed| == 0 { return false; }
    assert report.changed[0] in report.changed;
    var trimmed := TrimDescriptions(desired, observed, report.changed);
    if trimmed.None? {
      UnexcusableChild(desired, observed, report.changed);
      return false;
    }
    var rest := Compare(trimmed.value, observed);
    EmptyReportExactly(rest, trimmed.value, observed);
    TrimmedSettleExactly(desired, trimmed.value, observed, report.changed);
    return rest.Empty();
  }

  /** All export groups in one index, later groups winning; None when some group does not index. */
  function ObservedAll(groups: seq<seq<Option<Fields>>>): Option<ChildIndex> {
    if groups == [] then Some(map[])
    else
      var n := |groups| - 1;
      match (ObservedAll(groups[..n]), IndexedStructs(groups[n]))
      case (Some(all), Ok(idx)) => Some(all + idx)
      case _ => None
  }

  lemma {:induction false} ObservedAllFails(groups: seq<seq<Option<Fields>>>, n: nat)
    requires n <= |groups| && ObservedAll(groups[..n]).None?
    ensures ObservedAll(groups).None?
    decreases |groups|
  {
    if n == |groups| {
      assert groups[..n] == groups;
    } else {
      assert groups[..|groups| - 1][..n] == groups[..n];
      ObservedAllFails(groups[..|groups| - 1], n);
    }
  }

  /** Group `g` exports `child` as `id`, and no later group exports that name. */
  ghost predicate LastExport(groups: seq<seq<Option<Fields>>>, g: nat, id: Identity, child: Fields) {
    && g < |groups| && Exports(groups[g], id, child)
    && forall h, other | g < h < |groups| :: !Exports(groups[h], id, other)
  }

  ghost predicate ExportedLast(groups: seq<seq<Option<Fields>>>, id: Identity, child: Fields) {
    exists g :: LastExport(groups, g, id, child)
  }

  ghost predicate HoldsLastExports(all: ChildIndex, groups: seq<seq<Option<Fields>>>) {
    forall id, child :: (id in all && all[id] == child) <==> ExportedLast(groups, id, child)
  }

  lemma ExportedLastStep(groups: seq<seq<Option<Fields>>>, group: seq<Option<Fields>>, id: Identity, child: Fields)
    ensures ExportedLast(groups + [group], id, child) <==>
      || Exports(group, id, child)
      || (ExportedLast(groups, id, child) && forall other :: !Exports(group, id, other))
  {
    hide Exports;
    var more := groups + [group];
    assert more[|groups|] == group && forall i | 0 <= i < |groups| :: more[i] == groups[i];
    if Exports(group, id, child) {
      assert LastExport(more, |groups|, id, child);
    } else if ExportedLast(groups, id, child) && forall other :: !Exports(group, id, other) {
      var g: nat :| LastExport(groups, g, id, child);
      assert LastExport(more, g, id, child);
    }
    if ExportedLast(more, id, child) {
      var g: nat :| LastExport(more, g, id, child);
      if g < |groups| {
        forall other ensures !Exports(group, id, other) { assert !Exports(more[|groups|], id, other); }
        assert LastExport(groups, g, id, child);
      }
    }
  }

  lemma HoldsOneGroupMore(
    all: ChildIndex, groups: seq<seq<Option<Fields>>>, idx: ChildIndex, group: seq<Option<Fields>>)
    requires HoldsLastExports(all, groups) && HoldsExports(idx, group)
    ensures HoldsLastExports(all + idx, groups + [group])
  {
    hide Exports;
    hide ExportedLast;
    forall id, child
      ensures (id in all + idx && (all + idx)[id] == child) <==> ExportedLast(groups + [group], id, child)
    {
      ExportedLastStep(groups, group, id, child);
      assert Exports(group, id, child) <==> id in idx && idx[id] == child;
      assert ExportedLast(groups, id, child) <==> id in all && all[id] == child;
      if id in idx { assert Exports(group, id, idx[id]); }
    }
  }

  /** The observed index exists exactly when every group is good, and then holds exactly what is exported, each name
      with its child from the last group that has it. */
  lemma {:induction false} ObservedAllExactly(groups: seq<seq<Option<Fields>>>)
    ensures ObservedAll(groups).Some? <==> forall group | group in groups :: GoodGroup(group)
    ensures ObservedAll(groups).Some? ==> HoldsLastExports(ObservedAll(groups).value, groups)
    decreases |groups|
  {
    hide GoodGroup;
    if groups != [] {
      var init, last := groups[..|groups| - 1], groups[|groups| - 1];
      assert groups == init + [last];
      ObservedAllExactly(init);
      IndexedStructsExactly(last);
      if ObservedAll(init).Some? && IndexedStructs(last).Ok? {
        HoldsOneGroupMore(ObservedAll(init).value, init, IndexedStructs(last).value, last);
      }
    }
  }

  lemma OwnNameSettles(desired: ChildIndex, observed: ChildIndex, id: Identity)
    requires id in desired && id in observed && Matches(Obj(desired[id]), Obj(observed[id]))
    ensures Settled(desired, observed, id)
  {
    hide Matches;
    assert Resolve(observed, id) == Some(observed[id]);
  }

  lemma ExportedOnce(groups: seq<seq<Option<Fields>>>, g: nat, id: Identity, child: Fields)
    requires ObservedAll(groups).Some? && g < |groups| && Exports(groups[g], id, child)
    requires forall h, other | 0 <= h < |groups| && h != g :: !Exports(groups[h], id, other)
    ensures id in ObservedAll(groups).value && ObservedAll(groups).value[id] == child
  {
    hide Exports;
    ObservedAllExactly(groups);
    assert LastExport(groups, g, id, child);
    assert ExportedLast(groups, id, child);
  }

  /** A desired child that some group exports, matching and under its own name, and no other group names, is settled. */
  lemma ExportedChildSettles(
    groups: seq<seq<Option<Fields>>>, g: nat, desired: ChildIndex, id: Identity, child: Fields, report: DriftReport)
    requires ObservedAll(groups).Some? && ExactReport(report, desired, ObservedAll(groups).value)
    requires id in desired && g < |groups| && Exports(groups[g], id, child) && Matches(Obj(desired[id]), Obj(child))
    requires forall h, other | 0 <= h < |groups| && h != g :: !Exports(groups[h], id, other)
    ensures Settled(desired, ObservedAll(groups).value, id)
    ensures id !in report.missing && id !in report.changed
  {
    ExportedOnce(groups, g, id, child);
    hide Matches;
    hide Exports;
    hide ObservedAll;
    OwnNameSettles(desired, ObservedAll(groups).value, id);
    ReportMembers(report, desired, ObservedAll(groups).value);
    hide ExactReport;
    hide Settled;
  }

  /** No two groups export one name, nor is a group that exports anything listed twice. */
  ghost predicate DisjointGroups(groups: seq<seq<Option<Fields>>>) {
    forall group, id, child | group in groups && Exports(group, id, child) ::
      && multiset(groups)[group] == 1
      && forall other, b | other in groups && other != group :: !Exports(other, id, b)
  }

  lemma TwiceCounts<T>(xs: seq<T>, i: nat, j: nat)
    requires i < j < |xs| && xs[i] == xs[j]
    ensures multiset(xs)[xs[i]] >= 2
  {
    assert xs == xs[..i] + [xs[i]] + xs[i + 1..j] + [xs[j]] + xs[j + 1..];
  }

  lemma DisjointExports(all: ChildIndex, groups: seq<seq<Option<Fields>>>, id: Identity, child: Fields)
    requires HoldsLastExports(all, groups) && DisjointGroups(groups)
    ensures (id in all && all[id] == child) <==> exists group :: group in groups && Exports(group, id, child)
  {
    hide Exports;
    assert (id in all && all[id] == child) <==> ExportedLast(groups, id, child);
    if group :| group in groups && Exports(group, id, child) {
      var g :| 0 <= g < |groups| && groups[g] == group;
      forall h, other | g < h < |groups| ensures !Exports(groups[h], id, other) {
        if groups[h] == groups[g] { TwiceCounts(groups, g, h); }
      }
      assert LastExport(groups, g, id, child);
    }
    if ExportedLast(groups, id, child) {
      var g: nat :| LastExport(groups, g, id, child);
      assert groups[g] in groups;
    }
  }

  lemma DisjointPermutes(groups: seq<seq<Option<Fields>>>, shuffled: seq<seq<Option<Fields>>>)
    requires multiset(groups) == multiset(shuffled) && DisjointGroups(groups)
    ensures DisjointGroups(shuffled) && forall group :: group in groups <==> group in shuffled
  {
    hide Exports;
    forall group ensures group in groups <==> group in shuffled {
      assert group in multiset(groups) <==> group in multiset(shuffled);
    }
  }

  /** Then the order of the groups does not reach the observed index. */
  lemma GroupOrderIsIgnored(groups: seq<seq<Option<Fields>>>, shuffled: seq<seq<Option<Fields>>>)
    requires multiset(groups) == multiset(shuffled) && DisjointGroups(groups)
    ensures ObservedAll(groups) == ObservedAll(shuffled)
  {
    hide GoodGroup;
    DisjointPermutes(groups, shuffled);
    ObservedAllExactly(groups);
    ObservedAllExactly(shuffled);
    hide ObservedAll;
    hide DisjointGroups;
    hide HoldsLastExports;
    hide Exports;
    if ObservedAll(groups).Some? {
      var (a, b) := (ObservedAll(groups).value, ObservedAll(shuffled).value);
      forall id ensures (id in a <==> id in b) && (id in a && id in b ==> a[id] == b[id]) {
        if id in a {
          DisjointExports(a, groups, id, a[id]);
          DisjointExports(b, shuffled, id, a[id]);
        } else if id in b {
          DisjointExports(a, groups, id, b[id]);
          DisjointExports(b, shuffled, id, b[id]);
        }
      }
      assert a == b;
    }
  }

  ghost predicate OnlyDescriptionsDrift(desired: ChildIndex, observed: ChildIndex) {
    forall id | id in desired :: Settled(desired, observed, id) || Excused(desired, observed, id)
  }

  /** Nothing drifted, or what drifted is excused and this is the bundle that was applied last. */
  ghost predicate Accepts(desired: ChildIndex, observed: ChildIndex, digest: string, lastAppliedHash: string) {
    || AllSettled(desired, observed)
    || (digest == lastAppliedHash && OnlyDescriptionsDrift(desired, observed))
  }

  /**
   * The drift verdict on the bundle. With a decodable export it is accepted iff every child is
   * settled, or its digest is the last applied one and every unsettled child is a Project that only
   * lacks its description.
   */
  method KargoResourcesUpToDate(
    desired: seq<Payload>, groups: seq<seq<Option<Fields>>>, lastAppliedHash: string,
    sha: string -> string, marshal: Json -> string)
    returns (r: Result<(bool, DriftReport), IndexError>)
    ensures r.Err? <==> Indexed(desired).Err?
    ensures r.Err? ==> r.error == Indexed(desired).error
    ensures r.Ok? && ObservedAll(groups).None? ==> r.value == (true, DriftReport([], []))
    ensures r.Ok? && ObservedAll(groups).Some? ==>
      var d, o := Indexed(desired).value, ObservedAll(groups).value;
      && (exists digest ::
            IsBundleDigest(d, sha, marshal, digest) && (r.value.0 <==> Accepts(d, o, digest, lastAppliedHash)))
      && (if r.value.0 then r.value.1 == DriftReport([], []) else ExactReport(r.value.1, d, o))
  {
    var none := DriftReport([], []);
    if |desired| == 0 {
      assert IsBundleDigest(map[], sha, marshal, "");
      return Ok((true, none));
    }
    var desiredIdx := Index(desired);
    if desiredIdx.Err? { return Err(desiredIdx.error); }
    var d := desiredIdx.value;
    var observedAll: ChildIndex := map[];
    for i := 0 to |groups|
      invariant ObservedAll(groups[..i]) == Some(observedAll)
    {
      assert groups[..i + 1][..i] == groups[..i];
      var idx := IndexStructs(groups[i]);
      if idx.Err? {
        ObservedAllFails(groups, i + 1);
        return Ok((true, none));
      }
      observedAll := observedAll + idx.value;
    }
    assert groups[..|groups|] == groups;
    var report := Compare(d, observedAll);
    EmptyReportExactly(report, d, observedAll);
    var digest := HashKargoResourceIndex(d, sha, marshal);
    if !report.Empty() {
      var excused := KargoProjectDescriptionOnlyDrift(d, observedAll, report);
      if digest == lastAppliedHash && excused {
        return Ok((true, none));
      }
    }
    return Ok((report.Empty(), report));
  }

  lemma NoDescription(d: Fields, obs: Fields)
    requires OnlyDescriptionMissing(d, obs)
    ensures !HasDescription(obs)
  {
    HasDescriptionMeans(obs);
    hide Matches;
  }

  /** Whatever is accepted although unsettled is a Project of the platform's API, shown by the export, that lacks its
      description there and nothing else; and the bundle is the one applied last. */
  lemma AcceptedUnsettledExactly(desired: ChildIndex, observed: ChildIndex, digest: string, last: string, id: Identity)
    requires Accepts(desired, observed, digest, last) && id in desired && !Settled(desired, observed, id)
    ensures digest == last
    ensures id.apiVersion == KARGO_API_VERSION && id.kind == "Project"
    ensures Resolve(observed, id).Some?
    ensures OnlyDescriptionMissing(desired[id], Resolve(observed, id).value)
    ensures !HasDescription(Resolve(observed, id).value)
  {
    hide Resolve;
    hide OnlyDescriptionMissing;
    hide HasDescription;
    assert Excused(desired, observed, id);
    NoDescription(desired[id], Resolve(observed, id).value);
  }

  /** Against the digest recorded for an applied bundle, drift that is in descriptions only is accepted exactly when the
      desired bundle is the applied one. */
  lemma DescriptionDriftExactly(
    desired: ChildIndex, applied: ChildIndex, observed: ChildIndex, sha: string -> string, marshal: Json -> string,
    digest: string, recorded: string)
    requires WellNamedIndex(desired) && WellNamedIndex(applied)
    requires forall id | id in desired || id in applied :: NUL !in id.String()
    requires AreDigests(desired, applied, sha, marshal, digest, recorded)
    requires !AllSettled(desired, observed) && OnlyDescriptionsDrift(desired, observed)
    ensures Accepts(desired, observed, digest, recorded) <==> desired == applied
  {
    hide AreDigests;
    hide AllSettled;
    hide OnlyDescriptionsDrift;
    BundleDigestComplete(desired, applied, sha, marshal, digest, recorded);
  }

  function DescribedProject(): Fields {
    BareProject()["spec" := Obj(map["description" := Str("about")])]
  }

  lemma DescriptionIsMissing()
    ensures OnlyDescriptionMissing(DescribedProject(), BareProject())
    ensures !Matches(Obj(DescribedProject()), Obj(BareProject()))
  {
    var d, obs := DescribedProject(), BareProject();
    NoMatchWithoutSpec(d, obs);
    assert WithDescription(obs, Str("about")) == d;
    MatchesReflexive(Obj(d));
    hide Matches;
  }

  lemma PrintsPlainly(id: Identity)
    requires NUL !in id.apiVersion && NUL !in id.kind && NUL !in id.namespace && NUL !in id.name
    ensures NUL !in id.String()
  {}

  lemma PlainlyNamed(id: Identity)
    requires id == Identity(KARGO_API_VERSION, KARGO_KIND_PROJECT, "", "p")
    ensures IsKargoProject(id) && id.WellNamed() && NUL !in id.String()
  {
    PrintsPlainly(id);
    hide Identity.String;
  }

  lemma LoneProjectDrifts(id: Identity, d: Fields, obs: Fields)
    requires IsKargoProject(id) && id.WellNamed() && NUL !in id.String()
    requires OnlyDescriptionMissing(d, obs) && !Matches(Obj(d), Obj(obs))
    ensures exists desired: ChildIndex, observed: ChildIndex ::
      && WellNamedIndex(desired) && (forall id | id in desired :: NUL !in id.String())
      && !AllSettled(desired, observed) && OnlyDescriptionsDrift(desired, observed)
  {
    hide OnlyDescriptionMissing;
    hide Matches;
    hide IsKargoProject;
    var desired: ChildIndex, observed: ChildIndex := map[id := d], map[id := obs];
    assert Resolve(observed, id) == Some(obs);
    assert Excused(desired, observed, id) && !Settled(desired, observed, id);
    assert WellNamedIndex(desired) && !AllSettled(desired, observed) && OnlyDescriptionsDrift(desired, observed);
  }

  /** There is such drift, in a bundle whose digest can be taken (`DigestsExist`). */
  lemma DescriptionDriftHappens()
    ensures exists desired: ChildIndex, observed: ChildIndex ::
      && WellNamedIndex(desired) && (forall id | id in desired :: NUL !in id.String())
      && !AllSettled(desired, observed) && OnlyDescriptionsDrift(desired, observed)
  {
    var id := Identity(KARGO_API_VERSION, KARGO_KIND_PROJECT, "", "p");
    PlainlyNamed(id);
    DescriptionIsMissing();
    hide OnlyDescriptionMissing;
    hide Matches;
    hide IsKargoProject;
    hide BareProject;
    hide DescribedProject;
    LoneProjectDrifts(id, DescribedProject(), BareProject());
  }

  /** Recording the digest of one bundle and checking another against it: without drift every bundle is accepted, with
      drift in descriptions only the recorded one, and with other drift none. */
  method RecordThenCheck(
    applied: seq<Payload>, desired: seq<Payload>, groups: seq<seq<Option<Fields>>>,
    sha: string -> string, marshal: Json -> string)
    returns (r: Result<(bool, DriftReport), IndexError>)
    requires IdealHash(sha) && Indexed(applied).Ok? && Indexed(desired).Ok? && ObservedAll(groups).Some?
    requires var (d, a) := (Indexed(desired).value, Indexed(applied).value);
      && WellNamedIndex(d) && WellNamedIndex(a) && CanonicalOn(marshal, Contents(d) + Contents(a))
      && forall id | id in d || id in a :: NUL !in id.String()
    ensures var (d, a, o) := (Indexed(desired).value, Indexed(applied).value, ObservedAll(groups).value);
      && r.Ok?
      && (r.value.0 <==> AllSettled(d, o) || (OnlyDescriptionsDrift(d, o) && d == a))
      && (if r.value.0 then r.value.1 == DriftReport([], []) else ExactReport(r.value.1, d, o))
  {
    hide IdealHash;
    hide IsBundleDigest;
    hide ExactReport;
    hide AllSettled;
    hide OnlyDescriptionsDrift;
    hide CanonicalOn;
    var recorded := HashKargoResources(applied, sha, marshal);
    r := KargoResourcesUpToDate(desired, groups, recorded.value, sha, marshal);
    ghost var (d, a, o) := (Indexed(desired).value, Indexed(applied).value, ObservedAll(groups).value);
    ghost var digest :|
      IsBundleDigest(d, sha, marshal, digest) && (r.value.0 <==> Accepts(d, o, digest, recorded.value));
    BundleDigestComplete(d, a, sha, marshal, digest, recorded.value);
  }
}
