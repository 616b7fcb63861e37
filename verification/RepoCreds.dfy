/** Kargo repository credentials: resolution, rotation digest and Apply payload (kargoinstance.go). */
module RepoCreds {
  import opened Wrappers
  import opened Ordering
  import opened Framing
  import opened Secrets

  datatype RepoCredRef = RepoCredRef(name: string, secretRef: SecretRef, projectNamespace: string, credType: string) {
    function CredentialName(): string { if name != "" then name else secretRef.name }
  }

  datatype RepoCred = RepoCred(
    slot: string, projectNamespace: string, credType: string,
    secretNamespace: string, secretName: string, data: StringMap)
  {
    /** The joined identity the code keys its maps by. */
    function Key(): string { projectNamespace + "/" + slot }

    predicate SamePlace(other: RepoCred) { projectNamespace == other.projectNamespace && slot == other.slot }
  }

  const CRED_TYPE_LABEL := "kargo.akuity.io/cred-type"
  const CRED_TYPES: set<string> := {"git", "helm", "generic", "image"}

  function EffectiveCredType(ref: RepoCredRef, labels: StringMap): string {
    if ref.credType != "" then ref.credType
    else if CRED_TYPE_LABEL in labels then labels[CRED_TYPE_LABEL]
    else ""
  }

  /** One reference, taken alone. */
  function ResolveCred(kube: Kube, ref: RepoCredRef): Result<RepoCred, SecretError> {
    var slot := ref.CredentialName();
    if !DnsLabel(slot) then Err(InvalidReference)
    else match Resolve(kube, ref.secretRef)
      case Err(e) => Err(e)
      case Ok(s) =>
        if !DnsLabel(ref.projectNamespace) then Err(InvalidReference)
        else
          var credType := EffectiveCredType(ref, s.labels);
          if credType !in CRED_TYPES then Err(InvalidReference)
          else Ok(RepoCred(slot, ref.projectNamespace, credType, s.namespace, s.name, s.data))
  }

  /** The credential's Secret carries these labels, and its type is the one pinned or else labelled. */
  predicate Labelled(kube: Kube, ref: RepoCredRef, c: RepoCred, labels: StringMap) {
    && Resolve(kube, ref.secretRef) == Ok(ResolvedSecret(c.secretNamespace, c.secretName, labels, c.data))
    && (ref.credType != "" ==> c.credType == ref.credType)
    && (ref.credType == "" ==> CRED_TYPE_LABEL in labels && c.credType == labels[CRED_TYPE_LABEL])
  }

  /** A credential resolves to the data of its own Secret, in its own slot and project, under the type the reference
      pins or, where it pins none, the one the Secret's label gives; and only with well-formed names and a known type.
      */
  lemma ResolvesCredExactly(kube: Kube, ref: RepoCredRef, c: RepoCred)
    ensures ResolveCred(kube, ref) == Ok(c) <==>
      && c.slot == (if ref.name == "" then ref.secretRef.name else ref.name) && DnsLabel(c.slot)
      && c.projectNamespace == ref.projectNamespace && DnsLabel(c.projectNamespace)
      && SecretRef(c.secretNamespace, c.secretName) == ref.secretRef
      && c.credType in {"git", "helm", "generic", "image"}
      && exists labels :: Labelled(kube, ref, c, labels)
  {
    hide DnsLabel;
    ResolvesExactly(kube, ref.secretRef, ResolvedSecret(c.secretNamespace, c.secretName, map[], c.data));
    var r := Resolve(kube, ref.secretRef);
    if r.Ok? {
      ResolvesExactly(kube, ref.secretRef, r.value);
      assert ResolveCred(kube, ref) == Ok(c) ==> Labelled(kube, ref, c, r.value.labels);
    }
    assert "" !in CRED_TYPES;
    hide Resolve;
  }

  lemma ResolvedCredShape(kube: Kube, ref: RepoCredRef)
    requires ResolveCred(kube, ref).Ok?
    ensures var c := ResolveCred(kube, ref).value;
      DnsLabel(c.slot) && DnsLabel(c.projectNamespace) && '/' !in c.slot && |c.data| > 0
  {
    var c := ResolveCred(kube, ref).value;
    assert forall i | 0 <= i < |c.slot| :: LabelChar(c.slot[i]) || c.slot[i] == '-';
  }

  lemma KeyInjective(a: RepoCred, b: RepoCred)
    requires '/' !in a.slot && '/' !in b.slot
    ensures a.Key() == b.Key() <==> a.SamePlace(b)
  {
    if a.Key() == b.Key() {
      SplitLast(a.projectNamespace, a.slot, b.projectNamespace, b.slot, '/');
    }
  }

  /** No two credentials occupy one (project namespace, slot) pair. */
  ghost predicate DistinctPlaces(creds: seq<RepoCred>) {
    forall i, j :: 0 <= i < j < |creds| ==> !creds[i].SamePlace(creds[j])
  }

  ghost predicate ResolvedTo(kube: Kube, refs: seq<RepoCredRef>, creds: seq<RepoCred>) {
    |creds| == |refs| && forall i | 0 <= i < |refs| :: ResolveCred(kube, refs[i]) == Ok(creds[i])
  }

  ghost predicate KeyTaken(out: seq<RepoCred>, k: string) {
    exists i :: 0 <= i < |out| && out[i].Key() == k
  }

  /** The keys a loop over `out` has seen. */
  ghost predicate KeysOf(out: seq<RepoCred>, seen: set<string>) {
    && (forall i | 0 <= i < |out| :: '/' !in out[i].slot && out[i].Key() in seen)
    && (forall k | k in seen :: KeyTaken(out, k))
  }

  /** A key already seen is a place already taken. */
  lemma SeenIsTaken(out: seq<RepoCred>, seen: set<string>, c: RepoCred)
    requires KeysOf(out, seen) && '/' !in c.slot
    ensures c.Key() in seen <==> exists i :: 0 <= i < |out| && out[i].SamePlace(c)
  {
    forall i | 0 <= i < |out| ensures out[i].Key() == c.Key() <==> out[i].SamePlace(c) {
      KeyInjective(out[i], c);
    }
    if c.Key() in seen { assert KeyTaken(out, c.Key()); }
  }

  lemma KeysExtend(out: seq<RepoCred>, seen: set<string>, c: RepoCred)
    requires KeysOf(out, seen) && '/' !in c.slot
    ensures KeysOf(out + [c], seen + {c.Key()})
  {
    var next := out + [c];
    forall k | k in seen + {c.Key()} ensures KeyTaken(next, k) {
      if k == c.Key() {
        assert next[|out|].Key() == k;
      } else {
        assert KeyTaken(out, k);
        var i :| 0 <= i < |out| && out[i].Key() == k;
        assert next[i].Key() == k;
      }
    }
  }

  lemma TakenIsClash(kube: Kube, refs: seq<RepoCredRef>, n: nat, out: seq<RepoCred>, c: RepoCred, i: nat)
    requires n < |refs| && ResolvedTo(kube, refs[..n], out) && ResolveCred(kube, refs[n]) == Ok(c)
    requires i < n && out[i].SamePlace(c)
    ensures forall creds | ResolvedTo(kube, refs, creds) :: !DistinctPlaces(creds)
  {
    hide ResolveCred;
    forall creds | ResolvedTo(kube, refs, creds) ensures !DistinctPlaces(creds) {
      assert refs[..n][i] == refs[i];
      assert creds[i] == out[i] && creds[n] == c;
    }
  }

  lemma KeysOfNothing()
    ensures KeysOf([], {})
  {}

  /** Succeeds exactly when every reference resolves alone and no two claim one place. */
  method ResolveKargoRepoCreds(kube: Kube, refs: seq<RepoCredRef>) returns (r: Result<seq<RepoCred>, SecretError>)
    ensures r.Ok? ==> ResolvedTo(kube, refs, r.value) && DistinctPlaces(r.value)
    ensures r.Err? ==> forall creds | ResolvedTo(kube, refs, creds) :: !DistinctPlaces(creds)
    ensures r.Err? ==>
      r.error == InvalidReference || exists ref :: ref in refs && ResolveCred(kube, ref) == Err(r.error)
  {
    hide ResolveCred;
    hide KeysOf;
    var out: seq<RepoCred> := [];
    var seen: set<string> := {};
    assert KeysOf(out, seen) by { KeysOfNothing(); }
    for n := 0 to |refs|
      invariant ResolvedTo(kube, refs[..n], out) && DistinctPlaces(out)
      invariant KeysOf(out, seen)
    {
      var cred := ResolveCred(kube, refs[n]);
      if cred.Err? { return Err(cred.error); }
      var c := cred.value;
      ResolvedCredShape(kube, refs[n]);
      SeenIsTaken(out, seen, c);
      var key := c.Key();
      if key in seen {
        ghost var i :| 0 <= i < n && out[i].SamePlace(c);
        TakenIsClash(kube, refs, n, out, c, i);
        return Err(InvalidReference);
      }
      KeysExtend(out, seen, c);
      seen := seen + {key};
      out := out + [c];
    }
    assert refs[..|refs|] == refs;
    return Ok(out);
  }

  // ----- Digest -----

  function CredParts(
    slot: string, ns: string, credType: string, secretNs: string, secretName: string, data: string): StringMap
  {
    map["__slot__" := slot, "__projectNs__" := ns, "__credType__" := credType, "__secretNs__" := secretNs,
        "__secretName__" := secretName, "__data__" := data]
  }

  lemma CredPartsAt(
    slot: string, ns: string, credType: string, secretNs: string, secretName: string, data: string)
    ensures var m := CredParts(slot, ns, credType, secretNs, secretName, data);
      && m["__slot__"] == slot && m["__projectNs__"] == ns && m["__credType__"] == credType
      && m["__secretNs__"] == secretNs && m["__secretName__"] == secretName && m["__data__"] == data
    ensures forall k | k in CredParts(slot, ns, credType, secretNs, secretName, data) ::
      && CredParts(slot, ns, credType, secretNs, secretName, data)[k]
           in {slot, ns, credType, secretNs, secretName, data}
      && NUL !in k
  {}

  ghost function CredDigest(c: RepoCred, sha: string -> string): string {
    var data := MapDigest(c.data, sha);
    MapDigest(CredParts(c.slot, c.projectNamespace, c.credType, c.secretNamespace, c.secretName, data), sha)
  }

  predicate NulFreeCred(c: RepoCred) {
    && NUL !in c.slot && NUL !in c.projectNamespace && NUL !in c.credType
    && NUL !in c.secretNamespace && NUL !in c.secretName && NulFree(c.data)
  }

  lemma CredDigestComplete(a: RepoCred, b: RepoCred, sha: string -> string)
    requires IdealHash(sha) && NulFreeCred(a) && NulFreeCred(b)
    ensures CredDigest(a, sha) == CredDigest(b, sha) <==> a == b
    ensures NUL !in CredDigest(a, sha)
  {
    hide CredParts;
    hide MapDigest;
    var da, db := MapDigest(a.data, sha), MapDigest(b.data, sha);
    MapDigestComplete(a.data, b.data, sha);
    MapDigestComplete(b.data, a.data, sha);
    CredPartsAt(a.slot, a.projectNamespace, a.credType, a.secretNamespace, a.secretName, da);
    CredPartsAt(b.slot, b.projectNamespace, b.credType, b.secretNamespace, b.secretName, db);
    MapDigestComplete(
      CredParts(a.slot, a.projectNamespace, a.credType, a.secretNamespace, a.secretName, da),
      CredParts(b.slot, b.projectNamespace, b.credType, b.secretNamespace, b.secretName, db), sha);
  }

  /** The per-credential digests, keyed and overwritten as the loop does. */
  ghost function PerCred(creds: seq<RepoCred>, sha: string -> string): StringMap {
    if creds == [] then map[]
    else
      var last := creds[|creds| - 1];
      PerCred(creds[..|creds| - 1], sha)[last.Key() := CredDigest(last, sha)]
  }

  ghost function CredsDigest(creds: seq<RepoCred>, sha: string -> string): string {
    MapDigest(PerCred(creds, sha), sha)
  }

  method KargoHashRepoCreds(creds: seq<RepoCred>, sha: string -> string) returns (digest: string)
    ensures digest == CredsDigest(creds, sha)
  {
    if |creds| == 0 { return ""; }
    var per: StringMap := map[];
    for n := 0 to |creds|
      invariant per == PerCred(creds[..n], sha)
    {
      assert creds[..n + 1][..n] == creds[..n];
      var c := creds[n];
      var data := Hash(c.data, sha);
      var one := Hash(CredParts(c.slot, c.projectNamespace, c.credType, c.secretNamespace, c.secretName, data), sha);
      per := per[c.Key() := one];
    }
    assert creds[..|creds|] == creds;
    digest := Hash(per, sha);
  }

  ghost predicate KeyedBy(per: StringMap, creds: seq<RepoCred>, k: string) {
    k in per ==> exists c :: c in creds && c.Key() == k
  }

  ghost predicate KeyedEntries(per: StringMap, creds: seq<RepoCred>, sha: string -> string) {
    && (forall k :: KeyedBy(per, creds, k))
    && (forall c | c in creds :: c.Key() in per && per[c.Key()] == CredDigest(c, sha))
  }

  predicate SlashFreeSlots(creds: seq<RepoCred>) {
    forall c | c in creds :: '/' !in c.slot
  }

  /** With distinct places no entry overwrites another. */
  lemma {:induction false} PerCredKeepsAll(creds: seq<RepoCred>, sha: string -> string)
    requires DistinctPlaces(creds) && SlashFreeSlots(creds)
    ensures KeyedEntries(PerCred(creds, sha), creds, sha)
    decreases |creds|
  {
    hide CredDigest;
    if creds != [] {
      var init, last := creds[..|creds| - 1], creds[|creds| - 1];
      assert creds == init + [last];
      PerCredKeepsAll(init, sha);
      var before, per := PerCred(init, sha), PerCred(creds, sha);
      forall c | c in creds ensures c.Key() in per && per[c.Key()] == CredDigest(c, sha) {
        if c != last {
          assert c in init;
          var i :| 0 <= i < |init| && init[i] == c;
          assert !creds[i].SamePlace(creds[|creds| - 1]);
          KeyInjective(c, last);
        }
      }
      forall k ensures KeyedBy(per, creds, k) {
        assert KeyedBy(before, init, k);
      }
    }
  }

  lemma PerCredIgnoresOrder(a: seq<RepoCred>, b: seq<RepoCred>, sha: string -> string)
    requires DistinctPlaces(a) && SlashFreeSlots(a) && DistinctPlaces(b) && multiset(a) == multiset(b)
    ensures PerCred(a, sha) == PerCred(b, sha)
  {
    hide CredDigest;
    hide PerCred;
    var pa, pb := PerCred(a, sha), PerCred(b, sha);
    forall c ensures c in a <==> c in b { assert c in multiset(a) <==> c in multiset(b); }
    PerCredKeepsAll(a, sha);
    PerCredKeepsAll(b, sha);
    forall k ensures (k in pa <==> k in pb) && (k in pa && k in pb ==> pa[k] == pb[k]) {
      assert KeyedBy(pa, a, k) && KeyedBy(pb, b, k);
    }
  }

  lemma KeyedNulFree(per: StringMap, creds: seq<RepoCred>, sha: string -> string)
    requires IdealHash(sha) && KeyedEntries(per, creds, sha) && forall c | c in creds :: NulFreeCred(c)
    ensures NulFree(per)
  {
    forall k | k in per ensures NUL !in k && NUL !in per[k] {
      assert KeyedBy(per, creds, k);
      var c :| c in creds && c.Key() == k;
      CredDigestComplete(c, c, sha);
    }
  }

  lemma SameKeySameCred(per: StringMap, a: seq<RepoCred>, b: seq<RepoCred>, c: RepoCred, sha: string -> string)
    requires IdealHash(sha) && KeyedEntries(per, a, sha) && KeyedEntries(per, b, sha) && c in a
    requires (forall x | x in a :: NulFreeCred(x)) && (forall x | x in b :: NulFreeCred(x))
    ensures c in b
  {
    assert KeyedBy(per, b, c.Key());
    var other :| other in b && other.Key() == c.Key();
    CredDigestComplete(c, other, sha);
  }

  lemma DistinctNoDuplicates(creds: seq<RepoCred>)
    requires DistinctPlaces(creds)
    ensures NoDuplicates(creds)
  {
    forall i, j | 0 <= i < j < |creds| ensures creds[i] != creds[j] {
      assert !creds[i].SamePlace(creds[j]);
    }
  }

  lemma SameElementsSameMultiset<T(!new)>(a: seq<T>, b: seq<T>)
    requires NoDuplicates(a) && NoDuplicates(b) && forall x :: x in a <==> x in b
    ensures multiset(a) == multiset(b)
  {
    forall x ensures multiset(a)[x] == multiset(b)[x] {
      AtMostOnce(a, x);
      AtMostOnce(b, x);
      assert x in multiset(a) <==> x in a;
      assert x in multiset(b) <==> x in b;
    }
  }

  /** Under an ideal hash the digest loses no credential, and the order of the credentials is all that is lost. */
  lemma CredsDigestComplete(a: seq<RepoCred>, b: seq<RepoCred>, sha: string -> string)
    requires IdealHash(sha)
    requires DistinctPlaces(a) && SlashFreeSlots(a) && (forall c | c in a :: NulFreeCred(c))
    requires DistinctPlaces(b) && SlashFreeSlots(b) && (forall c | c in b :: NulFreeCred(c))
    ensures CredsDigest(a, sha) == CredsDigest(b, sha) <==> multiset(a) == multiset(b)
  {
    hide CredDigest;
    hide MapDigest;
    var pa, pb := PerCred(a, sha), PerCred(b, sha);
    PerCredKeepsAll(a, sha);
    PerCredKeepsAll(b, sha);
    KeyedNulFree(pa, a, sha);
    KeyedNulFree(pb, b, sha);
    MapDigestComplete(pa, pb, sha);
    if multiset(a) == multiset(b) {
      PerCredIgnoresOrder(a, b, sha);
    } else if pa == pb {
      DistinctNoDuplicates(a);
      DistinctNoDuplicates(b);
      forall c | c in a ensures c in b { SameKeySameCred(pa, a, b, c, sha); }
      forall c | c in b ensures c in a { SameKeySameCred(pb, b, a, c, sha); }
      SameElementsSameMultiset(a, b);
    }
  }

  // ----- The KargoInstance digest -----

  function KargoParts(kargo: string, dex: string, repoCreds: string): StringMap {
    map["kargo" := kargo, "dex" := dex, "repoCreds" := repoCreds]
  }

  lemma KargoPartsAt(kargo: string, dex: string, repoCreds: string)
    ensures var m := KargoParts(kargo, dex, repoCreds);
      m["kargo"] == kargo && m["dex"] == dex && m["repoCreds"] == repoCreds
    ensures NUL !in kargo && NUL !in dex && NUL !in repoCreds ==> NulFree(KargoParts(kargo, dex, repoCreds))
    ensures KargoParts(kargo, dex, repoCreds).Keys == KargoParts("", "", "").Keys
  {}

  datatype KargoSecrets = KargoSecrets(kargo: ResolvedSecret, dex: ResolvedSecret, repoCreds: seq<RepoCred>)

  ghost function KargoDigest(r: KargoSecrets, sha: string -> string): string {
    PartsDigest(KargoParts(SecretDigest(r.kargo, sha), SecretDigest(r.dex, sha), CredsDigest(r.repoCreds, sha)), sha)
  }

  method HashKargoSecrets(r: KargoSecrets, sha: string -> string) returns (digest: string)
    ensures digest == KargoDigest(r, sha)
  {
    hide SecretDigest;
    hide CredsDigest;
    hide MapDigest;
    var kargo := HashSecret(r.kargo, sha);
    var dex := HashSecret(r.dex, sha);
    var repoCreds := KargoHashRepoCreds(r.repoCreds, sha);
    KargoPartsAt(kargo, dex, repoCreds);
    var parts := KargoParts(kargo, dex, repoCreds);
    if kargo == "" && dex == "" && repoCreds == "" {
      return "";
    }
    assert "kargo" in parts && "dex" in parts && "repoCreds" in parts;
    digest := Hash(parts, sha);
  }

  predicate WellResolved(r: KargoSecrets) {
    && NulFreeSecret(r.kargo) && NulFreeSecret(r.dex)
    && SlashFreeSlots(r.repoCreds) && forall c | c in r.repoCreds :: NulFreeCred(c)
  }

  lemma CredsDigestPrintable(creds: seq<RepoCred>, sha: string -> string)
    requires IdealHash(sha) && DistinctPlaces(creds) && SlashFreeSlots(creds) && forall c | c in creds :: NulFreeCred(c)
    ensures NUL !in CredsDigest(creds, sha)
  {
    PerCredKeepsAll(creds, sha);
    KeyedNulFree(PerCred(creds, sha), creds, sha);
    MapDigestComplete(PerCred(creds, sha), PerCred(creds, sha), sha);
  }

  /** A rotation anywhere changes the stored digest, and only a rotation does. */
  lemma KargoDigestComplete(a: KargoSecrets, b: KargoSecrets, sha: string -> string)
    requires IdealHash(sha) && WellResolved(a) && WellResolved(b)
    requires DistinctPlaces(a.repoCreds) && DistinctPlaces(b.repoCreds)
    ensures KargoDigest(a, sha) == KargoDigest(b, sha)
       <==> SameSecret(a.kargo, b.kargo) && SameSecret(a.dex, b.dex) && multiset(a.repoCreds) == multiset(b.repoCreds)
  {
    hide SecretDigest;
    hide CredsDigest;
    hide KargoParts;
    SecretDigestComplete(a.kargo, b.kargo, sha);
    SecretDigestComplete(b.kargo, a.kargo, sha);
    SecretDigestComplete(a.dex, b.dex, sha);
    SecretDigestComplete(b.dex, a.dex, sha);
    CredsDigestComplete(a.repoCreds, b.repoCreds, sha);
    CredsDigestPrintable(a.repoCreds, sha);
    CredsDigestPrintable(b.repoCreds, sha);
    var (ka, da, ra) := (SecretDigest(a.kargo, sha), SecretDigest(a.dex, sha), CredsDigest(a.repoCreds, sha));
    var (kb, db, rb) := (SecretDigest(b.kargo, sha), SecretDigest(b.dex, sha), CredsDigest(b.repoCreds, sha));
    KargoPartsAt(ka, da, ra);
    KargoPartsAt(kb, db, rb);
    PartsDigestComplete(KargoParts(ka, da, ra), KargoParts(kb, db, rb), sha);
  }

  // ----- Payload -----

  predicate CredLe(a: RepoCred, b: RepoCred) {
    if a.projectNamespace != b.projectNamespace then LexLe(a.projectNamespace, b.projectNamespace)
    else LexLe(a.slot, b.slot)
  }

  lemma CredOrder()
    ensures TotalPreorder(CredLe)
  {
    forall a, b ensures CredLe(a, b) || CredLe(b, a) {
      LexTotal(a.projectNamespace, b.projectNamespace);
      LexTotal(a.slot, b.slot);
    }
    forall a, b, c | CredLe(a, b) && CredLe(b, c) ensures CredLe(a, c) {
      LexTotal(a.projectNamespace, b.projectNamespace);
      if LexLe(a.projectNamespace, b.projectNamespace) && LexLe(b.projectNamespace, c.projectNamespace) {
        LexTransitive(a.projectNamespace, b.projectNamespace, c.projectNamespace);
      }
      if LexLe(a.slot, b.slot) && LexLe(b.slot, c.slot) { LexTransitive(a.slot, b.slot, c.slot); }
    }
  }

  /** The labelled kube Secret sent for one credential. */
  datatype CredPayload = CredPayload(name: string, namespace: string, credType: string, data: StringMap)

  function Payload(c: RepoCred): CredPayload {
    CredPayload(c.slot, c.projectNamespace, c.credType, c.data)
  }

  function Payloads(creds: seq<RepoCred>): seq<CredPayload> {
    seq(|creds|, i requires 0 <= i < |creds| => Payload(creds[i]))
  }

  function WithData(creds: seq<RepoCred>): seq<RepoCred> {
    if creds == [] then []
    else
      var n := |creds| - 1;
      WithData(creds[..n]) + if |creds[n].data| > 0 then [creds[n]] else []
  }

  lemma {:induction false} WithDataMembers(creds: seq<RepoCred>)
    ensures forall c :: c in WithData(creds) <==> c in creds && |c.data| > 0
    ensures forall c :: multiset(WithData(creds))[c] == if |c.data| > 0 then multiset(creds)[c] else 0
    decreases |creds|
  {
    if creds != [] {
      var n := |creds| - 1;
      WithDataMembers(creds[..n]);
      assert creds == creds[..n] + [creds[n]];
    }
  }

  lemma WithDataPermutes(a: seq<RepoCred>, b: seq<RepoCred>)
    requires multiset(a) == multiset(b)
    ensures multiset(WithData(a)) == multiset(WithData(b))
  {
    WithDataMembers(a);
    WithDataMembers(b);
    hide WithData;
    assert forall c :: multiset(WithData(a))[c] == multiset(WithData(b))[c];
  }

  lemma {:induction false} WithDataSorted(creds: seq<RepoCred>)
    requires Sorted(creds, CredLe)
    ensures Sorted(WithData(creds), CredLe)
    decreases |creds|
  {
    hide CredLe;
    if creds != [] {
      var n := |creds| - 1;
      var init, last := creds[..n], creds[n];
      WithDataSorted(init);
      var kept := WithData(init);
      forall i | 0 <= i < |kept| ensures CredLe(kept[i], last) {
        WithDataMembers(init);
        assert kept[i] in init;
        var j :| 0 <= j < n && creds[j] == kept[i];
      }
      assert WithData(creds) == kept || WithData(creds) == kept + [last];
    }
  }

  /** A payload for the credentials that carry data: some sorted order of exactly those. */
  ghost predicate IsPayload(out: seq<CredPayload>, creds: seq<RepoCred>) {
    exists sorted ::
      && Sorted(sorted, CredLe) && multiset(sorted) == multiset(WithData(creds))
      && out == Payloads(sorted)
  }

  method SortCreds(creds: seq<RepoCred>) returns (sorted: seq<RepoCred>)
    ensures Sorted(sorted, CredLe) && multiset(sorted) == multiset(creds)
  {
    CredOrder();
    sorted := SortSlice(creds, CredLe);
  }

  lemma SortedWithDataIsPayload(creds: seq<RepoCred>, sorted: seq<RepoCred>)
    requires Sorted(sorted, CredLe) && multiset(sorted) == multiset(creds)
    ensures IsPayload(Payloads(WithData(sorted)), creds)
  {
    hide CredLe;
    WithDataSorted(sorted);
    WithDataPermutes(sorted, creds);
    hide Sorted;
    hide WithData;
  }

  method KargoRepoCredsToPB(creds: seq<RepoCred>) returns (out: seq<CredPayload>)
    ensures IsPayload(out, creds)
  {
    hide Sorted;
    hide IsPayload;
    var sorted := SortCreds(creds);
    out := [];
    for n := 0 to |sorted|
      invariant out == Payloads(WithData(sorted[..n]))
    {
      assert sorted[..n + 1][..n] == sorted[..n];
      if |sorted[n].data| == 0 { continue; }
      out := out + [Payload(sorted[n])];
    }
    assert sorted[..|sorted|] == sorted;
    SortedWithDataIsPayload(creds, sorted);
  }

  lemma WithDataDistinct(creds: seq<RepoCred>)
    requires DistinctPlaces(creds)
    ensures NoDuplicates(WithData(creds))
  {
    DistinctNoDuplicates(creds);
    WithDataMembers(creds);
    forall c | c in WithData(creds) ensures multiset(WithData(creds))[c] <= 1 { AtMostOnce(creds, c); }
    OnceEachIsDistinct(WithData(creds));
  }

  lemma SortedFormMembers(creds: seq<RepoCred>, sorted: seq<RepoCred>)
    requires DistinctPlaces(creds) && multiset(sorted) == multiset(WithData(creds))
    ensures NoDuplicates(sorted) && forall c :: c in sorted <==> c in creds && |c.data| > 0
  {
    WithDataMembers(creds);
    WithDataDistinct(creds);
    PermutationKeepsDistinct(WithData(creds), sorted);
  }

  lemma CredLeTellsPlaces(a: RepoCred, b: RepoCred)
    requires CredLe(a, b) && CredLe(b, a)
    ensures a.SamePlace(b)
  {
    LexTotal(a.projectNamespace, b.projectNamespace);
    LexTotal(a.slot, b.slot);
  }

  lemma PlacesAntisymmetric(creds: seq<RepoCred>, s: set<RepoCred>)
    requires DistinctPlaces(creds) && forall c | c in s :: c in creds
    ensures AntisymmetricOn(s, CredLe)
  {
    hide CredLe;
    forall x, y | x in s && y in s && CredLe(x, y) && CredLe(y, x) ensures x == y {
      CredLeTellsPlaces(x, y);
      assert x in creds && y in creds;
    }
  }

  lemma SortedFormIsUnique(a: seq<RepoCred>, b: seq<RepoCred>, sa: seq<RepoCred>, sb: seq<RepoCred>)
    requires DistinctPlaces(a) && multiset(a) == multiset(b)
    requires Sorted(sa, CredLe) && multiset(sa) == multiset(WithData(a))
    requires Sorted(sb, CredLe) && multiset(sb) == multiset(WithData(b))
    ensures sa == sb
  {
    hide Sorted;
    hide CredLe;
    hide WithData;
    WithDataPermutes(a, b);
    SortedFormMembers(a, sa);
    SortedFormMembers(a, sb);
    var s := set c | c in a && |c.data| > 0;
    PlacesAntisymmetric(a, s);
    ListingIsUnique(sa, sb, s, CredLe);
  }

  /** Resolved credentials have one payload, whatever the order of their references. */
  lemma PayloadIgnoresOrder(a: seq<RepoCred>, b: seq<RepoCred>, pa: seq<CredPayload>, pb: seq<CredPayload>)
    requires DistinctPlaces(a) && multiset(a) == multiset(b)
    requires IsPayload(pa, a) && IsPayload(pb, b)
    ensures pa == pb
  {
    hide Sorted;
    var sa :| Sorted(sa, CredLe) && multiset(sa) == multiset(WithData(a)) && pa == Payloads(sa);
    var sb :| Sorted(sb, CredLe) && multiset(sb) == multiset(WithData(b)) && pb == Payloads(sb);
    SortedFormIsUnique(a, b, sa, sb);
  }

  /** The order of the payload: by project namespace, then by name, and never twice the same. */
  predicate PayloadBefore(x: CredPayload, y: CredPayload) {
    if x.namespace != y.namespace then LexLe(x.namespace, y.namespace)
    else x.name != y.name && LexLe(x.name, y.name)
  }

  /** One payload for each credential that carries data, no two for one place, in strict order. */
  lemma PayloadIsStrict(creds: seq<RepoCred>, out: seq<CredPayload>)
    requires DistinctPlaces(creds) && IsPayload(out, creds)
    ensures forall i, j | 0 <= i < j < |out| :: PayloadBefore(out[i], out[j])
    ensures forall p :: p in out <==>
      exists c :: c in creds && |c.data| > 0 && p == CredPayload(c.slot, c.projectNamespace, c.credType, c.data)
  {
    hide LexLe;
    hide WithData;
    var sorted: seq<RepoCred> :|
      Sorted(sorted, CredLe) && multiset(sorted) == multiset(WithData(creds)) && out == Payloads(sorted);
    SortedFormMembers(creds, sorted);
    forall i, j | 0 <= i < j < |out| ensures PayloadBefore(out[i], out[j]) {
      assert CredLe(sorted[i], sorted[j]) && sorted[i] in creds && sorted[j] in creds;
    }
    forall p | p in out ensures exists c :: c in creds && |c.data| > 0 && p == Payload(c) {
      var i :| 0 <= i < |out| && out[i] == p;
      assert sorted[i] in creds && |sorted[i].data| > 0 && p == Payload(sorted[i]);
    }
    forall c | c in creds && |c.data| > 0 ensures Payload(c) in out {
      var i :| 0 <= i < |sorted| && sorted[i] == c;
      assert out[i] == Payload(c);
    }
  }

  // ----- From references -----

  lemma ResolvedWithOneMore(kube: Kube, refs: seq<RepoCredRef>, j: nat, others: seq<RepoCred>, c: RepoCred)
    requires j < |refs| && ResolvedTo(kube, refs[..j] + refs[j + 1..], others) && ResolveCred(kube, refs[j]) == Ok(c)
    ensures ResolvedTo(kube, refs, others[..j] + [c] + others[j..])
  {
    hide ResolveCred;
    var rest := refs[..j] + refs[j + 1..];
    forall i | j < i < |refs| ensures ResolveCred(kube, refs[i]) == Ok(others[i - 1]) {
      assert rest[i - 1] == refs[i];
    }
    forall i | 0 <= i < j ensures ResolveCred(kube, refs[i]) == Ok(others[i]) {
      assert rest[i] == refs[i];
    }
  }

  /** Permuted references resolve to permuted credentials. */
  lemma {:induction false} ResolutionPermutes(
    kube: Kube, refs: seq<RepoCredRef>, shuffled: seq<RepoCredRef>, a: seq<RepoCred>) returns (b: seq<RepoCred>)
    requires multiset(refs) == multiset(shuffled) && ResolvedTo(kube, refs, a)
    ensures ResolvedTo(kube, shuffled, b) && |b| == |shuffled| && multiset(a) == multiset(b)
    decreases |refs|
  {
    hide ResolveCred;
    if refs == [] {
      assert |multiset(shuffled)| == 0;
      b := [];
    } else {
      var j := FindHead(refs, shuffled);
      var rest := ResolutionPermutes(kube, refs[1..], shuffled[..j] + shuffled[j + 1..], a[1..]);
      ResolvedWithOneMore(kube, shuffled, j, rest, a[0]);
      PutAnywhere(a, rest, j);
      b := rest[..j] + [a[0]] + rest[j..];
    }
  }

  lemma ResolvedSlots(kube: Kube, refs: seq<RepoCredRef>, creds: seq<RepoCred>)
    requires ResolvedTo(kube, refs, creds)
    ensures SlashFreeSlots(creds)
  {
    forall c | c in creds ensures '/' !in c.slot {
      var i :| 0 <= i < |creds| && creds[i] == c;
      ResolvedCredShape(kube, refs[i]);
    }
  }

  lemma PermutationKeepsPlaces(a: seq<RepoCred>, b: seq<RepoCred>)
    requires DistinctPlaces(a) && multiset(a) == multiset(b)
    ensures DistinctPlaces(b)
  {
    DistinctNoDuplicates(a);
    PermutationKeepsDistinct(a, b);
    forall i, j | 0 <= i < j < |b| ensures !b[i].SamePlace(b[j]) {
      assert b[i] in a && b[j] in a;
    }
  }

  /** Reordering the references keeps the resolution a success, and neither the digest, under any hash and for any
      data, nor the payload tells. */
  lemma ReferenceOrderIsIgnored(
    kube: Kube, refs: seq<RepoCredRef>, shuffled: seq<RepoCredRef>, a: seq<RepoCred>, sha: string -> string)
    returns (b: seq<RepoCred>)
    requires multiset(refs) == multiset(shuffled) && ResolvedTo(kube, refs, a) && DistinctPlaces(a)
    ensures forall creds :: ResolvedTo(kube, shuffled, creds) <==> creds == b
    ensures DistinctPlaces(b) && multiset(a) == multiset(b)
    ensures CredsDigest(a, sha) == CredsDigest(b, sha)
    ensures forall pa, pb | IsPayload(pa, a) && IsPayload(pb, b) :: pa == pb
  {
    hide IsPayload;
    hide PerCred;
    b := ResolutionPermutes(kube, refs, shuffled, a);
    hide ResolveCred;
    PermutationKeepsPlaces(a, b);
    ResolvedSlots(kube, refs, a);
    ResolvedSlots(kube, shuffled, b);
    PerCredIgnoresOrder(a, b, sha);
    forall pa, pb | IsPayload(pa, a) && IsPayload(pb, b) ensures pa == pb { PayloadIgnoresOrder(a, b, pa, pb); }
  }
}
