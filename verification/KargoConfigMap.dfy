/** The kargo-cm ConfigMap: alias spellings, drift, its digest and the merge-patch payload (kargoinstance.go). */
module KargoConfigMap {
  import opened Wrappers
  import opened JsonMatch
  import opened Framing

  // ----- Aliases -----

  /** The platform's own spelling of a known key. */
  function Canonical(key: string): string {
    if key == "admin_account_enabled" then "adminAccountEnabled"
    else if key == "admin_account_token_ttl" then "adminAccountTokenTtl"
    else key
  }

  predicate Known(key: string) {
    key in {"adminAccountEnabled", "admin_account_enabled", "adminAccountTokenTtl", "admin_account_token_ttl"}
  }

  /** The other spelling of a known canonical key. */
  function Alternate(canonical: string): string {
    if canonical == "adminAccountEnabled" then "admin_account_enabled" else "admin_account_token_ttl"
  }

  /** The alias table, as the proofs use it. */
  lemma AliasTable(key: string)
    ensures Canonical(Canonical(key)) == Canonical(key)
    ensures Known(key) <==> Known(Canonical(key))
    ensures !Known(key) ==> Canonical(key) == key
    ensures Known(key) ==>
      && Canonical(Alternate(Canonical(key))) == Canonical(key)
      && Alternate(Canonical(key)) != Canonical(key)
      && Known(Alternate(Canonical(key)))
      && (key == Canonical(key) || key == Alternate(Canonical(key)))
    ensures forall other | Canonical(other) == Canonical(key) && !Known(key) :: other == key
  {}

  /** Exactly two keys have a spelling that is not the platform's, and these are what they become. */
  lemma AliasesExactly(key: string)
    ensures Canonical(key) != key <==> key in {"admin_account_enabled", "admin_account_token_ttl"}
    ensures Canonical("admin_account_enabled") == "adminAccountEnabled" == Canonical("adminAccountEnabled")
    ensures Canonical("admin_account_token_ttl") == "adminAccountTokenTtl" == Canonical("adminAccountTokenTtl")
  {
    assert |"admin_account_enabled"| == 21 && |"adminAccountEnabled"| == 19;
    assert |"admin_account_token_ttl"| == 23 && |"adminAccountTokenTtl"| == 20;
  }

  lemma AliasPair(a: string, b: string)
    ensures Known(a) && Known(b) && Canonical(a) != Canonical(b) ==>
      && Canonical(a) != Alternate(Canonical(b)) && Alternate(Canonical(a)) != Canonical(b)
      && Alternate(Canonical(a)) != Alternate(Canonical(b))
    ensures Known(a) && !Known(b) ==> Canonical(a) != b && Alternate(Canonical(a)) != b
    ensures Known(a) == Known(b) || Canonical(a) != Canonical(b)
    ensures !Known(a) ==> Canonical(a) == a
    ensures !Known(b) ==> Canonical(b) == b
    ensures Known(a) ==> Canonical(a) != Alternate(Canonical(a))
  {}

  /** Two spellings of one key, both present, with different values. */
  predicate Conflicting(data: StringMap, a: string, b: string) {
    a in data && b in data && Canonical(a) == Canonical(b) && data[a] != data[b]
  }

  ghost predicate AliasConsistent(data: StringMap) {
    forall a, b :: !Conflicting(data, a, b)
  }

  datatype AliasError = ConflictingAliases(canonical: string)

  ghost predicate SpeltIn(out: StringMap, data: StringMap, c: string) {
    c in out ==> exists k :: k in data && Canonical(k) == c
  }

  /** `out` is `data` with every key in its canonical spelling. */
  ghost predicate Canonicalises(out: StringMap, data: StringMap) {
    && (forall c :: SpeltIn(out, data, c))
    && (forall k | k in data :: Canonical(k) in out && out[Canonical(k)] == data[k])
  }

  method CanonicalKargoConfigMap(data: StringMap) returns (r: Result<StringMap, AliasError>)
    ensures r.Ok? <==> AliasConsistent(data)
    ensures r.Ok? ==> Canonicalises(r.value, data)
    ensures r.Err? ==> exists a, b :: Conflicting(data, a, b) && Canonical(a) == r.error.canonical
  {
    if |data| == 0 { return Ok(data); }
    var out: StringMap := map[];
    var rest := data.Keys;
    while rest != {}
      invariant rest <= data.Keys
      invariant forall c | c in out :: exists k :: k in data && k !in rest && Canonical(k) == c
      invariant forall k | k in data && k !in rest :: Canonical(k) in out && out[Canonical(k)] == data[k]
      decreases |rest|
    {
      var k :| k in rest;
      rest := rest - {k};
      var canonical, v := Canonical(k), data[k];
      if canonical in out && out[canonical] != v {
        ghost var other :| other in data && other !in rest && other != k && Canonical(other) == canonical;
        assert Conflicting(data, k, other);
        return Err(ConflictingAliases(canonical));
      }
      out := out[canonical := v];
    }
    assert AliasConsistent(data);
    return Ok(out);
  }

  lemma CanonicalIsUnique(a: StringMap, b: StringMap, data: StringMap)
    requires Canonicalises(a, data) && Canonicalises(b, data)
    ensures a == b
  {
    forall c ensures (c in a <==> c in b) && (c in a && c in b ==> a[c] == b[c]) {
      assert SpeltIn(a, data, c) && SpeltIn(b, data, c);
    }
  }

  ghost function KeyOf(data: StringMap, c: string): (k: string)
    requires exists k :: k in data && Canonical(k) == c
    ensures k in data && Canonical(k) == c
  {
    var k :| k in data && Canonical(k) == c; k
  }

  ghost function ValueOf(data: StringMap, c: string): string
    requires exists k :: k in data && Canonical(k) == c
  {
    data[KeyOf(data, c)]
  }

  lemma CanonicalExists(data: StringMap)
    requires AliasConsistent(data)
    ensures exists out :: Canonicalises(out, data)
  {
    var keys := set k | k in data :: Canonical(k);
    var out := map c | c in keys :: ValueOf(data, c);
    forall k | k in data ensures Canonical(k) in out && out[Canonical(k)] == data[k] {
      assert !Conflicting(data, k, KeyOf(data, Canonical(k)));
    }
    assert Canonicalises(out, data);
  }

  /** The canonical content of alias-consistent data. */
  ghost function CanonicalOf(data: StringMap): (out: StringMap)
    requires AliasConsistent(data)
    ensures Canonicalises(out, data)
  {
    CanonicalExists(data);
    var out :| Canonicalises(out, data); out
  }

  lemma CanonicalIdempotent(data: StringMap)
    requires AliasConsistent(data)
    ensures AliasConsistent(CanonicalOf(data)) && CanonicalOf(CanonicalOf(data)) == CanonicalOf(data)
    ensures |CanonicalOf(data)| == 0 <==> |data| == 0
  {
    var c := CanonicalOf(data);
    forall k | k in c ensures Canonical(k) == k {
      assert SpeltIn(c, data, k);
      var k0 :| k0 in data && Canonical(k0) == k;
      AliasTable(k0);
    }
    assert AliasConsistent(c);
    assert Canonicalises(c, c);
    CanonicalIsUnique(CanonicalOf(c), c, c);
    if |data| > 0 { var k :| k in data; assert Canonical(k) in c; }
    if |c| > 0 { var k :| k in c; assert SpeltIn(c, data, k); }
  }

  // ----- Digest -----

  ghost function HashedForm(data: StringMap): StringMap {
    if AliasConsistent(data) then CanonicalOf(data) else data
  }

  ghost function ConfigMapDigest(data: StringMap, sha: string -> string): string {
    FramedDigest(HashedForm(data), NUL, SOH, sha)
  }

  method HashKargoConfigMap(data: StringMap, sha: string -> string) returns (digest: string)
    ensures digest == ConfigMapDigest(data, sha)
  {
    if |data| == 0 {
      assert AliasConsistent(data);
      CanonicalIdempotent(data);
      return "";
    }
    var canonical := CanonicalKargoConfigMap(data);
    var hashed := data;
    if canonical.Ok? {
      hashed := canonical.value;
      CanonicalIsUnique(hashed, CanonicalOf(data), data);
    }
    digest := HashFramed(hashed, NUL, SOH, sha);
  }

  lemma DigestOfCanonical(data: StringMap, sha: string -> string)
    requires AliasConsistent(data)
    ensures ConfigMapDigest(CanonicalOf(data), sha) == ConfigMapDigest(data, sha)
  {
    CanonicalIdempotent(data);
  }

  predicate SeparatorFree(data: StringMap) {
    MapSeparable(data, NUL, SOH)
  }

  lemma CanonicalPrintable(key: string)
    requires NUL !in key
    ensures NUL !in Canonical(key)
  {}

  lemma CanonicalSeparatorFree(data: StringMap)
    requires AliasConsistent(data) && SeparatorFree(data)
    ensures SeparatorFree(CanonicalOf(data))
  {
    hide Canonical;
    forall c | c in CanonicalOf(data) ensures NUL !in c && SOH !in CanonicalOf(data)[c] {
      assert SpeltIn(CanonicalOf(data), data, c);
      var k :| k in data && Canonical(k) == c;
      CanonicalPrintable(k);
    }
  }

  /** The digest sees the canonical content and nothing of its spelling. */
  lemma ConfigMapDigestComplete(a: StringMap, b: StringMap, sha: string -> string)
    requires IdealHash(sha) && AliasConsistent(a) && AliasConsistent(b)
    requires SeparatorFree(a) && SeparatorFree(b)
    ensures ConfigMapDigest(a, sha) == ConfigMapDigest(b, sha) <==> CanonicalOf(a) == CanonicalOf(b)
  {
    CanonicalSeparatorFree(a);
    CanonicalSeparatorFree(b);
    FramedDigestComplete(CanonicalOf(a), CanonicalOf(b), NUL, SOH, sha);
  }

  /** Data whose spellings conflict are hashed as they are: no two such digests meet. */
  lemma ConflictingDigestComplete(a: StringMap, b: StringMap, sha: string -> string)
    requires IdealHash(sha) && SeparatorFree(a) && SeparatorFree(b)
    requires !AliasConsistent(a) && !AliasConsistent(b)
    ensures ConfigMapDigest(a, sha) == ConfigMapDigest(b, sha) <==> a == b
  {
    FramedDigestComplete(a, b, NUL, SOH, sha);
  }

  // ----- What the export shows -----

  datatype ExtractError = UnexpectedShape | UnexpectedValue(key: string)

  function Shown(v: Json): Option<string> {
    match v
    case Str(s) => Some(s)
    case Bool(b) => Some(if b then "true" else "false")
    case Null => Some("")
    case _ => None
  }

  /** The export carries no data map, a null one, or one whose every value prints. */
  predicate Extractable(exported: Option<Fields>) {
    exported.None? || "data" !in exported.value || exported.value["data"].Null?
    || (exported.value["data"].Obj?
        && forall k | k in exported.value["data"].fields :: Shown(exported.value["data"].fields[k]).Some?)
  }

  /** What it carries; None when it carries none. */
  function Extracted(exported: Option<Fields>): Option<StringMap>
    requires Extractable(exported)
  {
    if exported.None? || "data" !in exported.value then None
    else if exported.value["data"].Null? then Some(map[])
    else
      var obj := exported.value["data"].fields;
      Some(map k | k in obj :: Shown(obj[k]).value)
  }

  /** The data map of the exported ConfigMap; None when the export does not carry it. */
  method ExtractKargoConfigMapData(exported: Option<Fields>) returns (r: Result<Option<StringMap>, ExtractError>)
    ensures r.Ok? <==> Extractable(exported)
    ensures r.Ok? ==> r.value == Extracted(exported)
    ensures exported.None? || "data" !in exported.value ==> r == Ok(None)
    ensures exported.Some? && "data" in exported.value ==>
      match exported.value["data"]
      case Null => r == Ok(Some(map[]))
      case Obj(obj) =>
        && (r.Ok? <==> forall k | k in obj :: Shown(obj[k]).Some?)
        && (r.Ok? ==> r.value.Some? && r.value.value == map k | k in obj && Shown(obj[k]).Some? :: Shown(obj[k]).value)
        && (r.Err? ==> r.error.UnexpectedValue? && r.error.key in obj && Shown(obj[r.error.key]).None?)
      case _ => r == Err(UnexpectedShape)
  {
    if exported.None? || "data" !in exported.value { return Ok(None); }
    var raw := exported.value["data"];
    if raw.Null? { return Ok(Some(map[])); }
    if !raw.Obj? { return Err(UnexpectedShape); }
    var obj := raw.fields;
    var out: StringMap := map[];
    var rest := obj.Keys;
    while rest != {}
      invariant rest <= obj.Keys
      invariant forall k | k in obj && k !in rest :: Shown(obj[k]).Some?
      invariant out == map k | k in obj && k !in rest && Shown(obj[k]).Some? :: Shown(obj[k]).value
      decreases |rest|
    {
      var k :| k in rest;
      rest := rest - {k};
      if Shown(obj[k]).None? { return Err(UnexpectedValue(k)); }
      out := out[k := Shown(obj[k]).value];
    }
    assert out == map k | k in obj :: Shown(obj[k]).value;
    return Ok(Some(out));
  }

  /** The forms in which an export may give a text back: as it is, or as the boolean or null it reads as. */
  predicate GivesBack(j: Json, text: string) {
    || j == Str(text)
    || (j == Bool(true) && text == "true") || (j == Bool(false) && text == "false")
    || (j == Null && text == "")
  }

  /** A value shows as a text exactly when it is a form of that text. */
  lemma ShownExactly(j: Json, text: string)
    ensures Shown(j) == Some(text) <==> GivesBack(j, text)
  {
    assert "true" != "false" && "true" != "" && "false" != "";
  }

  /** So an export that gives every value back in one of those forms is read as the data that were applied. */
  lemma RetypedExportIsRead(data: StringMap, exported: Fields, shown: Fields)
    requires "data" in exported && exported["data"] == Obj(shown) && shown.Keys == data.Keys
    requires forall k | k in data :: GivesBack(shown[k], data[k])
    ensures Extractable(Some(exported)) && Extracted(Some(exported)) == Some(data)
  {
    forall k | k in shown ensures Shown(shown[k]) == Some(data[k]) { ShownExactly(shown[k], data[k]); }
    hide Shown;
    assert Extracted(Some(exported)).value == data;
  }

  // ----- Drift -----

  /** Desired content, canonically spelt, is contained in observed content, canonically spelt. */
  ghost predicate Contained(desired: StringMap, observed: StringMap)
    requires AliasConsistent(desired) && AliasConsistent(observed)
  {
    forall k | k in CanonicalOf(desired) ::
      k in CanonicalOf(observed) && CanonicalOf(observed)[k] == CanonicalOf(desired)[k]
  }

  /** Under some spelling of `k`, `data` holds `v`. */
  ghost predicate HeldAs(data: StringMap, k: string, v: string) {
    exists other :: other in data && Canonical(other) == Canonical(k) && data[other] == v
  }

  /** Every desired entry is there, value for value, under one spelling or the other. */
  lemma ContainedExactly(desired: StringMap, observed: StringMap)
    requires AliasConsistent(desired) && AliasConsistent(observed)
    ensures Contained(desired, observed) <==> forall k | k in desired :: HeldAs(observed, k, desired[k])
  {
    hide Canonical;
    var (d, o) := (CanonicalOf(desired), CanonicalOf(observed));
    if Contained(desired, observed) {
      forall k | k in desired ensures HeldAs(observed, k, desired[k]) {
        var c := Canonical(k);
        assert c in d && d[c] == desired[k] && SpeltIn(o, observed, c);
        var other :| other in observed && Canonical(other) == c;
        assert o[c] == observed[other];
      }
    }
    if forall k | k in desired :: HeldAs(observed, k, desired[k]) {
      forall c | c in d ensures c in o && o[c] == d[c] {
        assert SpeltIn(d, desired, c);
        var k :| k in desired && Canonical(k) == c;
        assert HeldAs(observed, k, desired[k]);
        var other :| other in observed && Canonical(other) == Canonical(k) && observed[other] == desired[k];
      }
    }
  }

  /** The verdict on alias-consistent desired data, given what the export carries. */
  ghost predicate Accepted(
    desired: StringMap, observed: Option<StringMap>, lastAppliedHash: string, sha: string -> string)
    requires AliasConsistent(desired)
  {
    || |desired| == 0
    || match observed
       case Some(data) => AliasConsistent(data) && Contained(desired, data)
       case None => ConfigMapDigest(desired, sha) == lastAppliedHash
  }

  /** The check ends in an error: conflicting spellings on either side, or an export it cannot read. */
  ghost predicate Undecidable(desired: StringMap, exported: Option<Fields>) {
    || !AliasConsistent(desired)
    || (|desired| > 0 && !Extractable(exported))
    || (|desired| > 0 && Extracted(exported).Some? && !AliasConsistent(Extracted(exported).value))
  }

  /** A value no ConfigMap holds: a number, a list or an object. */
  predicate NoText(v: Json) { v.Num? || v.Arr? || v.Obj? }

  lemma NothingConflicts()
    ensures AliasConsistent(map[])
  {}

  /** The errors in the data's own terms: two spellings of a desired key that disagree; and, when anything is desired,
      an export whose data are neither an object nor null, hold a value that is no text, or disagree with themselves. */
  lemma UndecidableExactly(desired: StringMap, exported: Option<Fields>)
    ensures Undecidable(desired, exported) <==>
      || (exists a, b :: Conflicting(desired, a, b))
      || (desired != map[] && exported.Some? && "data" in exported.value &&
            match exported.value["data"]
            case Obj(shown) =>
              || (exists k :: k in shown && NoText(shown[k]))
              || (Extractable(exported) && exists a, b :: Conflicting(Extracted(exported).value, a, b))
            case Null => false
            case _ => true)
  {
    hide Conflicting;
    if exported.Some? && "data" in exported.value && exported.value["data"].Obj? {
      var shown := exported.value["data"].fields;
      forall k | k in shown ensures Shown(shown[k]).None? <==> NoText(shown[k]) {}
    }
    if exported.Some? && "data" in exported.value && exported.value["data"].Null? {
      assert Extracted(exported).value == map[];
      NothingConflicts();
    }
  }

  /** None stands for an error the caller reports instead of a verdict. */
  method KargoConfigMapUpToDate(
    desired: StringMap, exported: Option<Fields>, lastAppliedHash: string, sha: string -> string)
    returns (r: Option<bool>)
    ensures r.None? <==> Undecidable(desired, exported)
    ensures r.Some? && |desired| == 0 ==> r.value
    ensures r.Some? && |desired| > 0 ==> (r.value <==> Accepted(desired, Extracted(exported), lastAppliedHash, sha))
  {
    hide ConfigMapDigest;
    hide Canonical;
    if |desired| == 0 {
      assert AliasConsistent(desired);
      return Some(true);
    }
    var canonicalDesired := CanonicalKargoConfigMap(desired);
    if canonicalDesired.Err? { return None; }
    var want := canonicalDesired.value;
    CanonicalIsUnique(want, CanonicalOf(desired), desired);
    var extracted := ExtractKargoConfigMapData(exported);
    if extracted.Err? { return None; }
    var observed := extracted.value;
    hide Extractable;
    hide Extracted;
    if observed.None? {
      var digest := HashKargoConfigMap(want, sha);
      DigestOfCanonical(desired, sha);
      return Some(digest == lastAppliedHash);
    }
    var canonicalObserved := CanonicalKargoConfigMap(observed.value);
    if canonicalObserved.Err? { return None; }
    var have := canonicalObserved.value;
    CanonicalIsUnique(have, CanonicalOf(observed.value), observed.value);
    var rest := want.Keys;
    while rest != {}
      invariant rest <= want.Keys
      invariant forall k | k in want && k !in rest :: k in have && have[k] == want[k]
      decreases |rest|
    {
      var k :| k in rest;
      rest := rest - {k};
      if k !in have || have[k] != want[k] { return Some(false); }
    }
    return Some(true);
  }

  /** And the check accepts it. */
  lemma RetypedExportIsAccepted(
    data: StringMap, exported: Fields, shown: Fields, lastAppliedHash: string, sha: string -> string)
    requires AliasConsistent(data)
    requires "data" in exported && exported["data"] == Obj(shown) && shown.Keys == data.Keys
    requires forall k | k in data :: GivesBack(shown[k], data[k])
    ensures !Undecidable(data, Some(exported)) && Accepted(data, Extracted(Some(exported)), lastAppliedHash, sha)
  {
    RetypedExportIsRead(data, exported, shown);
    hide Extracted;
    hide Extractable;
    hide AliasConsistent;
  }

  // ----- Apply -----

  type Patch = map<string, Option<string>>

  predicate PatchKeyOf(p: string, k: string) {
    p == Canonical(k) || (Known(k) && p == Alternate(Canonical(k)))
  }

  predicate Patched(patch: Patch, k: string, v: string) {
    && Canonical(k) in patch && patch[Canonical(k)] == Some(v)
    && (Known(k) ==> Alternate(Canonical(k)) in patch && patch[Alternate(Canonical(k))] == None)
  }

  ghost predicate PatchSource(patch: Patch, scope: set<string>, p: string) {
    p in patch ==> exists k :: k in scope && PatchKeyOf(p, k)
  }

  /** The payload sets each canonical key in scope and nulls its other spelling, and does nothing else. */
  ghost predicate PatchFor(patch: Patch, data: StringMap, scope: set<string>) {
    && (forall p :: PatchSource(patch, scope, p))
    && (forall k | k in scope && k in data :: Patched(patch, k, data[k]))
  }

  ghost predicate IsApplyData(patch: Patch, data: StringMap) {
    PatchFor(patch, data, data.Keys)
  }

  function PatchWith(patch: Patch, k: string, v: string): Patch {
    if Known(k) then patch[Canonical(k) := Some(v)][Alternate(Canonical(k)) := None] else patch[k := Some(v)]
  }

  lemma PatchWithAt(patch: Patch, k: string, v: string)
    ensures Patched(PatchWith(patch, k, v), k, v)
    ensures forall p | p in PatchWith(patch, k, v) :: p in patch || PatchKeyOf(p, k)
  {}

  lemma PatchWithKeeps(patch: Patch, k: string, v: string, other: string, w: string)
    requires Patched(patch, other, w) && (Canonical(k) == Canonical(other) ==> v == w)
    ensures Patched(PatchWith(patch, k, v), other, w)
  {
    AliasPair(k, other);
    AliasPair(other, k);
    hide Known;
    hide Canonical;
    hide Alternate;
  }

  lemma PatchStep(patch: Patch, data: StringMap, scope: set<string>, k: string)
    requires PatchFor(patch, data, scope) && k in data
    requires forall other | other in scope :: !Conflicting(data, k, other)
    ensures PatchFor(PatchWith(patch, k, data[k]), data, scope + {k})
  {
    var next := PatchWith(patch, k, data[k]);
    PatchWithAt(patch, k, data[k]);
    forall other | other in scope && other in data ensures Patched(next, other, data[other]) {
      assert !Conflicting(data, k, other);
      PatchWithKeeps(patch, k, data[k], other, data[other]);
    }
    hide PatchWith;
    hide PatchKeyOf;
    hide Patched;
    forall p ensures PatchSource(next, scope + {k}, p) {
      assert PatchSource(patch, scope, p);
      if p in next && p in patch {
        var k' :| k' in scope && PatchKeyOf(p, k');
        assert k' in scope + {k};
      }
    }
  }

  lemma PatchForNothing(data: StringMap)
    ensures PatchFor(map[], data, {})
  {}

  lemma AllConsistent(data: StringMap, canonicalValues: StringMap)
    requires forall k | k in data && Known(k) ::
      Canonical(k) in canonicalValues && canonicalValues[Canonical(k)] == data[k]
    ensures AliasConsistent(data)
  {
    forall a, b ensures !Conflicting(data, a, b) {
      AliasPair(a, b);
    }
  }

  lemma PatchWithShape(patch: Patch, k: string, v: string)
    ensures PatchWith(patch, k, v)
      == if Known(k) then patch[Canonical(k) := Some(v)][Alternate(Canonical(k)) := None] else patch[k := Some(v)]
  {}

  lemma NoConflictSoFar(data: StringMap, canonicalValues: StringMap, done: set<string>, k: string)
    requires forall other | other in done && other in data && Known(other) ::
      Canonical(other) in canonicalValues && canonicalValues[Canonical(other)] == data[other]
    requires k in data && k !in done
    requires Known(k) && Canonical(k) in canonicalValues ==> canonicalValues[Canonical(k)] == data[k]
    ensures forall other | other in done :: !Conflicting(data, k, other)
  {
    forall other | other in done ensures !Conflicting(data, k, other) {
      AliasPair(k, other);
    }
  }

  method KargoConfigMapApplyData(data: StringMap) returns (r: Result<Patch, AliasError>)
    ensures r.Ok? <==> AliasConsistent(data)
    ensures r.Ok? ==> IsApplyData(r.value, data)
  {
    PatchForNothing(data);
    hide PatchFor;
    hide PatchWith;
    hide Canonical;
    hide Alternate;
    hide Known;
    var canonicalValues: StringMap := map[];
    var out: Patch := map[];
    var rest := data.Keys;
    assert data.Keys - rest == {};
    while rest != {}
      invariant rest <= data.Keys
      invariant forall c | c in canonicalValues :: exists k :: k in data && k !in rest && Known(k) && Canonical(k) == c
      invariant forall k | k in data && k !in rest && Known(k) ::
        Canonical(k) in canonicalValues && canonicalValues[Canonical(k)] == data[k]
      invariant PatchFor(out, data, data.Keys - rest)
      decreases |rest|
    {
      var k :| k in rest;
      var v := data[k];
      ghost var before := rest;
      if Known(k) {
        var canonical := Canonical(k);
        if canonical in canonicalValues && canonicalValues[canonical] != v {
          ghost var other :| other in data && other !in rest && Known(other) && Canonical(other) == canonical;
          assert Conflicting(data, k, other);
          return Err(ConflictingAliases(canonical));
        }
        NoConflictSoFar(data, canonicalValues, data.Keys - rest, k);
        PatchStep(out, data, data.Keys - rest, k);
        PatchWithShape(out, k, v);
        canonicalValues := canonicalValues[canonical := v];
        out := out[canonical := Some(v)][Alternate(canonical) := None];
      } else {
        NoConflictSoFar(data, canonicalValues, data.Keys - rest, k);
        PatchStep(out, data, data.Keys - rest, k);
        PatchWithShape(out, k, v);
        out := out[k := Some(v)];
      }
      rest := rest - {k};
      assert data.Keys - rest == (data.Keys - before) + {k};
    }
    assert data.Keys - rest == data.Keys;
    AllConsistent(data, canonicalValues);
    assert IsApplyData(out, data);
    return Ok(out);
  }

  /** JSON Merge Patch on a flat map (section 2 of RFC 7396): null removes, anything else sets. */
  function MergePatch(platform: StringMap, patch: Patch): StringMap {
    map k | k in platform.Keys + patch.Keys && (k in patch ==> patch[k].Some?) ::
      if k in patch then patch[k].value else platform[k]
  }

  /** A conflict between spellings of a key that desired does not manage. */
  predicate ForeignConflict(platform: StringMap, desired: StringMap, a: string, b: string) {
    Conflicting(platform, a, b) && forall k | k in desired :: Canonical(k) != Canonical(a)
  }

  /** The patch touches only spellings of keys desired manages. */
  lemma PatchedIsManaged(desired: StringMap, patch: Patch, k: string)
    requires IsApplyData(patch, desired)
    ensures k in patch ==> exists d :: d in desired && Canonical(d) == Canonical(k)
  {
    hide Canonical;
    hide Alternate;
    hide Known;
    if k in patch {
      assert PatchSource(patch, desired.Keys, k);
      var d :| d in desired && PatchKeyOf(k, d);
      AliasTable(k);
      AliasTable(d);
      assert Canonical(d) == Canonical(k);
    }
  }

  lemma PatchedValue(desired: StringMap, platform: StringMap, patch: Patch, k: string)
    requires IsApplyData(patch, desired)
    ensures var merged := MergePatch(platform, patch);
      if exists d :: d in desired && Canonical(d) == Canonical(k) then
        k in merged ==> k == Canonical(k) && exists d :: d in desired && Canonical(d) == k && merged[k] == desired[d]
      else
        (k in merged <==> k in platform) && (k in platform ==> merged[k] == platform[k])
  {
    hide Canonical;
    hide Alternate;
    hide Known;
    AliasTable(k);
    PatchedIsManaged(desired, patch, k);
    var merged := MergePatch(platform, patch);
    if d :| d in desired && Canonical(d) == Canonical(k) {
      AliasTable(d);
      if k in merged {
        assert k in patch && patch[k].Some?;
        assert k == Canonical(k);
        assert merged[k] == desired[d];
      }
    }
  }

  lemma MergedContains(desired: StringMap, platform: StringMap, patch: Patch)
    requires AliasConsistent(desired) && IsApplyData(patch, desired) && AliasConsistent(MergePatch(platform, patch))
    ensures Contained(desired, MergePatch(platform, patch))
  {
    hide Canonical;
    hide Alternate;
    hide Known;
    var merged := MergePatch(platform, patch);
    forall c | c in CanonicalOf(desired)
      ensures c in CanonicalOf(merged) && CanonicalOf(merged)[c] == CanonicalOf(desired)[c]
    {
      assert SpeltIn(CanonicalOf(desired), desired, c);
      var d :| d in desired && Canonical(d) == c;
      AliasTable(d);
      assert c in merged && merged[c] == desired[d];
      assert Canonical(c) in CanonicalOf(merged);
    }
  }

  /**
   * After an Apply, the next check accepts exactly when the platform holds no conflicting spellings
   * outside the keys desired manages; conflicts inside them are repaired by the patch.
   */
  lemma ApplyConvergesExactly(
    desired: StringMap, platform: StringMap, patch: Patch, sha: string -> string, last: string)
    requires |desired| > 0 && AliasConsistent(desired) && IsApplyData(patch, desired)
    ensures Accepted(desired, Some(MergePatch(platform, patch)), last, sha)
       <==> forall a, b :: !ForeignConflict(platform, desired, a, b)
  {
    hide Canonical;
    var merged := MergePatch(platform, patch);
    if forall a, b :: !ForeignConflict(platform, desired, a, b) {
      forall a, b ensures !Conflicting(merged, a, b) {
        PatchedValue(desired, platform, patch, a);
        PatchedValue(desired, platform, patch, b);
        assert !ForeignConflict(platform, desired, a, b);
      }
      MergedContains(desired, platform, patch);
    }
    if a, b :| ForeignConflict(platform, desired, a, b) {
      PatchedValue(desired, platform, patch, a);
      PatchedValue(desired, platform, patch, b);
      assert Conflicting(merged, a, b);
    }
  }

  /**
   * When the export omits the map, a check against the digest of the last applied data accepts the
   * same content in any spelling and rejects every other.
   */
  lemma OmittedExportExactly(applied: StringMap, desired: StringMap, sha: string -> string)
    requires IdealHash(sha) && AliasConsistent(applied) && AliasConsistent(desired)
    requires SeparatorFree(applied) && SeparatorFree(desired) && |desired| > 0
    ensures Accepted(desired, None, ConfigMapDigest(applied, sha), sha)
       <==> CanonicalOf(desired) == CanonicalOf(applied)
  {
    ConfigMapDigestComplete(desired, applied, sha);
  }

  /** `data` with the entry under `from` moved to the spelling `to`. */
  function Respelt(data: StringMap, from: string, to: string): StringMap
    requires from in data
  {
    (data - {from})[to := data[from]]
  }

  /** Changing only the spelling of an alias changes neither the content nor the digest. */
  lemma RespellingIsNoChange(data: StringMap, from: string, to: string, sha: string -> string)
    requires AliasConsistent(data) && from in data && Canonical(from) == Canonical(to)
    ensures AliasConsistent(Respelt(data, from, to))
    ensures CanonicalOf(Respelt(data, from, to)) == CanonicalOf(data)
    ensures ConfigMapDigest(Respelt(data, from, to), sha) == ConfigMapDigest(data, sha)
  {
    hide Canonical;
    hide FramedDigest;
    var other, c := Respelt(data, from, to), CanonicalOf(data);
    forall k | k in other ensures Canonical(k) in c && c[Canonical(k)] == other[k] {
      assert k == to || k in data;
    }
    forall a, b ensures !Conflicting(other, a, b) {}
    forall k ensures SpeltIn(c, other, k) {
      assert SpeltIn(c, data, k);
      if k in c {
        var k' :| k' in data && Canonical(k') == k;
        assert if k' == from then to in other else k' in other;
      }
    }
    CanonicalIsUnique(c, CanonicalOf(other), other);
  }
}
