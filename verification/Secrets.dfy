/** Resolved Secret references and their rotation digests (secrets/resolve.go, instance/convert.go). */
module Secrets {
  import opened Wrappers
  import opened Ordering
  import opened Framing

  // ----- Resolution -----

  /** The outcome of reading one kube Secret. */
  datatype KubeGet = Found(labels: StringMap, data: StringMap) | Absent | Unavailable

  type Kube = (string, string) -> KubeGet

  datatype SecretError = InvalidReference | MissingSecret | EmptySecret | Transient
  datatype SecretRef = SecretRef(namespace: string, name: string)
  datatype ResolvedSecret = ResolvedSecret(namespace: string, name: string, labels: StringMap, data: StringMap)

  function Resolve(kube: Kube, ref: SecretRef): Result<ResolvedSecret, SecretError> {
    if ref.name == "" || ref.namespace == "" then Err(InvalidReference)
    else match kube(ref.namespace, ref.name)
      case Absent => Err(MissingSecret)
      case Unavailable => Err(Transient)
      case Found(labels, data) =>
        if |data| == 0 then Err(EmptySecret) else Ok(ResolvedSecret(ref.namespace, ref.name, labels, data))
  }

  predicate LabelChar(c: char) {
    'a' <= c <= 'z' || '0' <= c <= '9'
  }

  /** The pattern ^[a-z0-9][a-z0-9-]*$. */
  predicate DnsLabel(s: string) {
    && s != "" && LabelChar(s[0])
    && forall i | 0 <= i < |s| :: LabelChar(s[i]) || s[i] == '-'
  }

  /** The pattern ^repo-[a-z0-9][a-z0-9-]*$. */
  predicate RepoCredentialName(s: string) {
    |s| >= 5 && s[..5] == "repo-" && DnsLabel(s[5..])
  }

  /** The name is the prefix before a label. */
  lemma RepoCredentialNameExactly(s: string)
    ensures RepoCredentialName(s) <==> exists rest :: DnsLabel(rest) && s == "repo-" + rest
  {
    hide DnsLabel;
    if RepoCredentialName(s) { assert s == "repo-" + s[5..]; }
    forall rest | DnsLabel(rest) && s == "repo-" + rest ensures RepoCredentialName(s) {
      assert s[5..] == rest && s[..5] == "repo-";
    }
  }

  /** A reference resolves to exactly the non-empty Secret of its own namespace and name, and fails for one reason. */
  lemma ResolvesExactly(kube: Kube, ref: SecretRef, s: ResolvedSecret)
    ensures Resolve(kube, ref) == Ok(s) <==>
      && s.namespace == ref.namespace != "" && s.name == ref.name != ""
      && kube(s.namespace, s.name) == Found(s.labels, s.data) && s.data != map[]
    ensures Resolve(kube, ref) == Err(InvalidReference) <==> ref.namespace == "" || ref.name == ""
    ensures ref.namespace != "" && ref.name != "" ==>
      && (Resolve(kube, ref) == Err(MissingSecret) <==> kube(ref.namespace, ref.name) == Absent)
      && (Resolve(kube, ref) == Err(Transient) <==> kube(ref.namespace, ref.name) == Unavailable)
  {}

  /** A label is non-empty, of lower-case letters, digits and dashes, and no dash comes first. */
  lemma DnsLabelExactly(s: string)
    ensures DnsLabel(s) <==>
      s != "" && s[0] != '-' && forall c | c in s :: 'a' <= c <= 'z' || '0' <= c <= '9' || c == '-'
  {
    if forall c | c in s :: 'a' <= c <= 'z' || '0' <= c <= '9' || c == '-' {
      forall i | 0 <= i < |s| ensures LabelChar(s[i]) || s[i] == '-' { assert s[i] in s; }
    }
  }

  datatype NamedSecretRef = NamedSecretRef(name: string, secretRef: SecretRef) {
    function CredentialName(): string { if name != "" then name else secretRef.name }
  }

  type NamedSecrets = map<string, ResolvedSecret>

  ghost predicate Resolvable(kube: Kube, refs: seq<NamedSecretRef>, n: nat)
    requires n <= |refs|
  {
    && (forall i | 0 <= i < n ::
          RepoCredentialName(refs[i].CredentialName()) && Resolve(kube, refs[i].secretRef).Ok?)
    && (forall i, j :: 0 <= i < j < n ==> refs[i].CredentialName() != refs[j].CredentialName())
  }

  /** Reference `n` is refused: ill-named or naming itself as an earlier one does, or else unresolvable. */
  predicate RefusedFor(kube: Kube, refs: seq<NamedSecretRef>, n: nat, e: SecretError)
    requires n < |refs|
  {
    var name := refs[n].CredentialName();
    var taken := exists i :: 0 <= i < n && refs[i].CredentialName() == name;
    if !RepoCredentialName(name) || taken then e == InvalidReference
    else Resolve(kube, refs[n].secretRef) == Err(e)
  }

  /** `out` holds what the first `n` references resolve to, under their names, and nothing else. */
  ghost predicate NamedBy(out: NamedSecrets, kube: Kube, refs: seq<NamedSecretRef>, n: nat)
    requires n <= |refs|
  {
    && (forall k | k in out :: exists i :: 0 <= i < n && refs[i].CredentialName() == k)
    && (forall i | 0 <= i < n ::
          && refs[i].CredentialName() in out
          && Resolve(kube, refs[i].secretRef) == Ok(out[refs[i].CredentialName()]))
  }

  lemma NamedStep(out: NamedSecrets, kube: Kube, refs: seq<NamedSecretRef>, n: nat)
    requires n < |refs| && Resolvable(kube, refs, n) && NamedBy(out, kube, refs, n)
    requires refs[n].CredentialName() !in out && Resolve(kube, refs[n].secretRef).Ok?
    requires RepoCredentialName(refs[n].CredentialName())
    ensures Resolvable(kube, refs, n + 1)
    ensures NamedBy(out[refs[n].CredentialName() := Resolve(kube, refs[n].secretRef).value], kube, refs, n + 1)
  {
    hide Resolve;
    hide RepoCredentialName;
  }

  /** Resolves every named reference, or fails: no reference is lost and none clobbers another. */
  method ResolveNamed(kube: Kube, refs: seq<NamedSecretRef>) returns (r: Result<NamedSecrets, SecretError>)
    ensures r.Ok? <==> Resolvable(kube, refs, |refs|)
    ensures r.Ok? ==> NamedBy(r.value, kube, refs, |refs|)
    ensures r.Err? ==> exists n :: 0 <= n < |refs| && Resolvable(kube, refs, n) && RefusedFor(kube, refs, n, r.error)
  {
    var out: NamedSecrets := map[];
    for n := 0 to |refs|
      invariant Resolvable(kube, refs, n) && NamedBy(out, kube, refs, n)
    {
      var name := refs[n].CredentialName();
      if !RepoCredentialName(name) {
        assert RefusedFor(kube, refs, n, InvalidReference);
        return Err(InvalidReference);
      }
      if name in out {
        ghost var i :| 0 <= i < n && refs[i].CredentialName() == name;
        assert refs[i].CredentialName() == refs[n].CredentialName();
        assert RefusedFor(kube, refs, n, InvalidReference);
        return Err(InvalidReference);
      }
      var resolved := Resolve(kube, refs[n].secretRef);
      if resolved.Err? {
        assert RefusedFor(kube, refs, n, resolved.error);
        return Err(resolved.error);
      }
      NamedStep(out, kube, refs, n);
      out := out[name := resolved.value];
    }
    return Ok(out);
  }

  // ----- Digests -----

  ghost function MapDigest(data: StringMap, sha: string -> string): string {
    FramedDigest(data, NUL, NUL, sha)
  }

  method Hash(data: StringMap, sha: string -> string) returns (digest: string)
    ensures digest == MapDigest(data, sha)
  {
    digest := HashFramed(data, NUL, NUL, sha);
  }

  predicate NulFree(data: StringMap) {
    MapSeparable(data, NUL, NUL)
  }

  /** NUL-free maps have equal digests only when they are equal. */
  lemma MapDigestComplete(a: StringMap, b: StringMap, sha: string -> string)
    requires IdealHash(sha) && NulFree(a) && NulFree(b)
    ensures MapDigest(a, sha) == MapDigest(b, sha) <==> a == b
    ensures NUL !in MapDigest(a, sha) && (MapDigest(a, sha) == "" <==> a == map[])
  {
    FramedDigestComplete(a, b, NUL, NUL, sha);
  }

  function ThreeParts(ns: string, name: string, data: string): StringMap {
    map["__namespace__" := ns, "__name__" := name, "__data__" := data]
  }

  lemma ThreePartsAt(ns: string, name: string, data: string)
    ensures var m := ThreeParts(ns, name, data);
      m != map[] && m["__namespace__"] == ns && m["__name__"] == name && m["__data__"] == data
    ensures NUL !in ns && NUL !in name && NUL !in data ==> NulFree(ThreeParts(ns, name, data))
  {}

  ghost function SecretDigest(r: ResolvedSecret, sha: string -> string): string {
    if r.namespace == "" && r.name == "" && |r.data| == 0 then ""
    else MapDigest(ThreeParts(r.namespace, r.name, MapDigest(r.data, sha)), sha)
  }

  method HashSecret(r: ResolvedSecret, sha: string -> string) returns (digest: string)
    ensures digest == SecretDigest(r, sha)
  {
    if r.namespace == "" && r.name == "" && |r.data| == 0 { return ""; }
    var data := Hash(r.data, sha);
    digest := Hash(ThreeParts(r.namespace, r.name, data), sha);
  }

  /** Equal up to labels, which no digest covers. */
  predicate SameSecret(a: ResolvedSecret, b: ResolvedSecret) {
    a.namespace == b.namespace && a.name == b.name && a.data == b.data
  }

  predicate NulFreeSecret(r: ResolvedSecret) {
    NUL !in r.namespace && NUL !in r.name && NulFree(r.data)
  }

  lemma SecretDigestComplete(a: ResolvedSecret, b: ResolvedSecret, sha: string -> string)
    requires IdealHash(sha) && NulFreeSecret(a) && NulFreeSecret(b)
    ensures SecretDigest(a, sha) == SecretDigest(b, sha) <==> SameSecret(a, b)
    ensures NUL !in SecretDigest(a, sha)
  {
    hide ThreeParts;
    hide MapDigest;
    MapDigestComplete(a.data, b.data, sha);
    MapDigestComplete(b.data, a.data, sha);
    var da, db := MapDigest(a.data, sha), MapDigest(b.data, sha);
    var pa, pb := ThreeParts(a.namespace, a.name, da), ThreeParts(b.namespace, b.name, db);
    ThreePartsAt(a.namespace, a.name, da);
    ThreePartsAt(b.namespace, b.name, db);
    MapDigestComplete(pa, pb, sha);
    MapDigestComplete(pb, pa, sha);
  }

  ghost function SecretDigests(named: NamedSecrets, sha: string -> string): StringMap {
    map k | k in named :: SecretDigest(named[k], sha)
  }

  ghost function NamedDigest(named: NamedSecrets, sha: string -> string): string {
    MapDigest(SecretDigests(named, sha), sha)
  }

  method HashNamedResolved(named: NamedSecrets, sha: string -> string) returns (digest: string)
    ensures digest == NamedDigest(named, sha)
  {
    ghost var digests := SecretDigests(named, sha);
    assert digests.Keys == named.Keys;
    if |named| == 0 {
      assert |digests.Keys| == 0;
      return "";
    }
    assert |digests.Keys| > 0;
    LexIsTotalPreorder();
    var keys := SortedKeys(named, LexLe);
    LexListingIsUnique(keys, SortedStrings(digests.Keys), named.Keys);
    ghost var es := Entries(keys, digests);
    var buf := "";
    for i := 0 to |keys|
      invariant buf == Frames(es[..i], NUL, NUL)
    {
      FramesStep(es, i, NUL, NUL);
      assert keys[i] in keys;
      var one := HashSecret(named[keys[i]], sha);
      buf := buf + keys[i] + [NUL] + one + [NUL];
    }
    assert es[..|keys|] == es;
    digest := sha(buf);
  }

  predicate SameNamed(a: NamedSecrets, b: NamedSecrets) {
    a.Keys == b.Keys && forall k | k in a :: SameSecret(a[k], b[k])
  }

  predicate NulFreeNamed(named: NamedSecrets) {
    forall k | k in named :: NUL !in k && NulFreeSecret(named[k])
  }

  lemma NamedDigestComplete(a: NamedSecrets, b: NamedSecrets, sha: string -> string)
    requires IdealHash(sha) && NulFreeNamed(a) && NulFreeNamed(b)
    ensures NamedDigest(a, sha) == NamedDigest(b, sha) <==> SameNamed(a, b)
    ensures NUL !in NamedDigest(a, sha)
  {
    hide SecretDigest;
    hide MapDigest;
    var da, db := SecretDigests(a, sha), SecretDigests(b, sha);
    assert da.Keys == a.Keys && db.Keys == b.Keys;
    forall k | k in a ensures NUL !in da[k] { SecretDigestComplete(a[k], a[k], sha); }
    forall k | k in b ensures NUL !in db[k] { SecretDigestComplete(b[k], b[k], sha); }
    MapDigestComplete(da, db, sha);
    forall k | k in a && k in b ensures da[k] == db[k] <==> SameSecret(a[k], b[k]) {
      SecretDigestComplete(a[k], b[k], sha);
    }
  }

  // ----- The Instance digest -----

  datatype InstanceSecrets = InstanceSecrets(
    argocd: ResolvedSecret, notifications: ResolvedSecret, imageUpdater: ResolvedSecret,
    applicationSet: ResolvedSecret, repoCreds: NamedSecrets, repoTemplateCreds: NamedSecrets)

  function SixParts(a: string, n: string, i: string, s: string, r: string, t: string): StringMap {
    map["argocd" := a, "notifications" := n, "imageUpdater" := i, "applicationSet" := s, "repoCreds" := r,
        "repoTemplateCreds" := t]
  }

  lemma SixPartsAt(a: string, n: string, i: string, s: string, r: string, t: string)
    ensures var m := SixParts(a, n, i, s, r, t);
      && m["argocd"] == a && m["notifications"] == n && m["imageUpdater"] == i && m["applicationSet"] == s
      && m["repoCreds"] == r && m["repoTemplateCreds"] == t
    ensures forall k | k in SixParts(a, n, i, s, r, t) ::
      SixParts(a, n, i, s, r, t)[k] in {a, n, i, s, r, t} && NUL !in k
  {}

  ghost function InstanceParts(r: InstanceSecrets, sha: string -> string): StringMap {
    SixParts(SecretDigest(r.argocd, sha), SecretDigest(r.notifications, sha), SecretDigest(r.imageUpdater, sha),
             SecretDigest(r.applicationSet, sha), NamedDigest(r.repoCreds, sha), NamedDigest(r.repoTemplateCreds, sha))
  }

  ghost function PartsDigest(h: StringMap, sha: string -> string): string {
    if forall k | k in h :: h[k] == "" then "" else MapDigest(h, sha)
  }

  ghost function InstanceDigest(r: InstanceSecrets, sha: string -> string): string {
    PartsDigest(InstanceParts(r, sha), sha)
  }

  lemma PartsDigestComplete(a: StringMap, b: StringMap, sha: string -> string)
    requires IdealHash(sha) && NulFree(a) && NulFree(b) && a.Keys == b.Keys
    ensures PartsDigest(a, sha) == PartsDigest(b, sha) <==> a == b
  {
    MapDigestComplete(a, b, sha);
    MapDigestComplete(b, a, sha);
    hide MapDigest;
    if (forall k | k in a :: a[k] == "") && (forall k | k in b :: b[k] == "") {
      assert a == b;
    }
  }

  method HashInstance(r: InstanceSecrets, sha: string -> string) returns (digest: string)
    ensures digest == InstanceDigest(r, sha)
  {
    var argocd := HashSecret(r.argocd, sha);
    var notifications := HashSecret(r.notifications, sha);
    var imageUpdater := HashSecret(r.imageUpdater, sha);
    var applicationSet := HashSecret(r.applicationSet, sha);
    var repoCreds := HashNamedResolved(r.repoCreds, sha);
    var repoTemplateCreds := HashNamedResolved(r.repoTemplateCreds, sha);
    hide SecretDigest;
    hide NamedDigest;
    var h := SixParts(argocd, notifications, imageUpdater, applicationSet, repoCreds, repoTemplateCreds);
    var rest := h.Keys;
    while rest != {}
      invariant rest <= h.Keys && forall k | k in h && k !in rest :: h[k] == ""
      decreases |rest|
    {
      var k :| k in rest;
      rest := rest - {k};
      if h[k] != "" {
        digest := Hash(h, sha);
        return;
      }
    }
    return "";
  }

  predicate SameInstance(a: InstanceSecrets, b: InstanceSecrets) {
    && SameSecret(a.argocd, b.argocd) && SameSecret(a.notifications, b.notifications)
    && SameSecret(a.imageUpdater, b.imageUpdater) && SameSecret(a.applicationSet, b.applicationSet)
    && SameNamed(a.repoCreds, b.repoCreds) && SameNamed(a.repoTemplateCreds, b.repoTemplateCreds)
  }

  predicate NulFreeInstance(r: InstanceSecrets) {
    && NulFreeSecret(r.argocd) && NulFreeSecret(r.notifications)
    && NulFreeSecret(r.imageUpdater) && NulFreeSecret(r.applicationSet)
    && NulFreeNamed(r.repoCreds) && NulFreeNamed(r.repoTemplateCreds)
  }

  lemma InstancePartsComplete(a: InstanceSecrets, b: InstanceSecrets, sha: string -> string)
    requires IdealHash(sha) && NulFreeInstance(a) && NulFreeInstance(b)
    ensures InstanceParts(a, sha) == InstanceParts(b, sha) <==> SameInstance(a, b)
    ensures NulFree(InstanceParts(a, sha))
  {
    hide SixParts;
    hide SecretDigest;
    hide NamedDigest;
    SecretDigestComplete(a.argocd, b.argocd, sha);
    SecretDigestComplete(a.notifications, b.notifications, sha);
    SecretDigestComplete(a.imageUpdater, b.imageUpdater, sha);
    SecretDigestComplete(a.applicationSet, b.applicationSet, sha);
    NamedDigestComplete(a.repoCreds, b.repoCreds, sha);
    NamedDigestComplete(a.repoTemplateCreds, b.repoTemplateCreds, sha);
    SixPartsAt(SecretDigest(a.argocd, sha), SecretDigest(a.notifications, sha), SecretDigest(a.imageUpdater, sha),
      SecretDigest(a.applicationSet, sha), NamedDigest(a.repoCreds, sha), NamedDigest(a.repoTemplateCreds, sha));
    SixPartsAt(SecretDigest(b.argocd, sha), SecretDigest(b.notifications, sha), SecretDigest(b.imageUpdater, sha),
      SecretDigest(b.applicationSet, sha), NamedDigest(b.repoCreds, sha), NamedDigest(b.repoTemplateCreds, sha));
  }

  lemma SamePartNames(a: InstanceSecrets, b: InstanceSecrets, sha: string -> string)
    ensures InstanceParts(a, sha).Keys == InstanceParts(b, sha).Keys
  {
    hide SecretDigest;
    hide NamedDigest;
  }

  /** Rotating, renaming, moving, adding or dropping any Secret changes the digest; nothing else does. */
  lemma InstanceDigestComplete(a: InstanceSecrets, b: InstanceSecrets, sha: string -> string)
    requires IdealHash(sha) && NulFreeInstance(a) && NulFreeInstance(b)
    ensures InstanceDigest(a, sha) == InstanceDigest(b, sha) <==> SameInstance(a, b)
  {
    hide InstanceParts;
    InstancePartsComplete(a, b, sha);
    InstancePartsComplete(b, a, sha);
    SamePartNames(a, b, sha);
    PartsDigestComplete(InstanceParts(a, sha), InstanceParts(b, sha), sha);
  }

  // ----- Values with NUL bytes -----

  lemma MergedEntries(d: StringMap, keys: seq<string>, merged: string, other: StringMap)
    requires |keys| >= 2 && NoDuplicates(keys) && forall k | k in keys :: k in d
    requires other == (d - {keys[1]})[keys[0] := merged]
    ensures forall k | k in [keys[0]] + keys[2..] :: k in other
    ensures var es, fs := Entries(keys, d), Entries([keys[0]] + keys[2..], other);
      && fs[0] == (keys[0], merged) && es[0] == (keys[0], d[keys[0]]) && es[1] == (keys[1], d[keys[1]])
      && forall i | 1 <= i < |fs| :: fs[i] == es[i + 1]
  {
    var rest := [keys[0]] + keys[2..];
    forall i | 1 <= i < |rest| ensures rest[i] == keys[i + 1] && rest[i] in other && other[rest[i]] == d[keys[i + 1]] {
      assert keys[i + 1] in keys;
    }
  }

  lemma DropSecond(keys: seq<string>, s: set<string>)
    requires |keys| >= 2 && Lists(keys, s, LexLe)
    ensures Lists([keys[0]] + keys[2..], s - {keys[1]}, LexLe)
  {
    var rest := [keys[0]] + keys[2..];
    assert forall i | 1 <= i < |rest| :: rest[i] == keys[i + 1];
    forall k ensures k in rest <==> k in s - {keys[1]} {
      assert keys == [keys[0]] + [keys[1]] + keys[2..];
      if k in keys[2..] { var i :| 2 <= i < |keys| && keys[i] == k; }
    }
  }

  lemma MergedFrame(e: Entry, f: Entry)
    ensures Frame((e.0, e.1 + [NUL] + f.0 + [NUL] + f.1), NUL, NUL) == Frame(e, NUL, NUL) + Frame(f, NUL, NUL)
  {}

  lemma FramesHead(es: seq<Entry>)
    requires es != []
    ensures Frames(es, NUL, NUL) == Frame(es[0], NUL, NUL) + Frames(es[1..], NUL, NUL)
  {}

  lemma MergedFrames(es: seq<Entry>, fs: seq<Entry>)
    requires |es| >= 2 && |fs| == |es| - 1
    requires fs[0] == (es[0].0, es[0].1 + [NUL] + es[1].0 + [NUL] + es[1].1)
    requires forall i | 1 <= i < |fs| :: fs[i] == es[i + 1]
    ensures Frames(fs, NUL, NUL) == Frames(es, NUL, NUL)
  {
    hide Frame;
    hide Frames;
    var rest := Frames(fs[1..], NUL, NUL);
    assert es[1..][1..] == fs[1..];
    FramesHead(es);
    FramesHead(es[1..]);
    FramesHead(fs);
    MergedFrame(es[0], es[1]);
    var one, two := Frame(es[0], NUL, NUL), Frame(es[1], NUL, NUL);
    assert (one + two) + rest == one + (two + rest);
  }

  lemma {:induction false} ListingCoversAll(keys: seq<string>, s: set<string>)
    requires NoDuplicates(keys) && forall k :: k in keys <==> k in s
    ensures |keys| == |s|
    decreases |keys|
  {
    if keys != [] {
      assert keys == [keys[0]] + keys[1..];
      assert keys[0] in keys;
      forall k ensures k in keys[1..] <==> k in s - {keys[0]} {
        assert k in keys <==> k == keys[0] || k in keys[1..];
      }
      ListingCoversAll(keys[1..], s - {keys[0]});
    }
  }

  /** `d` without its second key, which moves into the value of the first. */
  lemma MergeCollides(d: StringMap) returns (other: StringMap)
    requires NulFree(d) && |d| >= 2
    ensures other != d && Serialised(other, NUL, NUL) == Serialised(d, NUL, NUL)
    ensures other != map[] && forall k | k in other :: NUL !in k
  {
    var keys := SortedStrings(d.Keys);
    assert |keys| >= 2 by { ListingCoversAll(keys, d.Keys); }
    var k0, k1 := keys[0], keys[1];
    assert k0 in keys && k1 in keys && k0 != k1;
    var merged := d[k0] + [NUL] + k1 + [NUL] + d[k1];
    other := (d - {k1})[k0 := merged];
    assert k1 in d && k1 !in other;
    var rest := [k0] + keys[2..];
    assert other.Keys == d.Keys - {k1};
    DropSecond(keys, d.Keys);
    LexListingIsUnique(rest, SortedStrings(other.Keys), other.Keys);
    var es, fs := Entries(keys, d), Entries(rest, other);
    MergedEntries(d, keys, merged, other);
    MergedFrames(es, fs);
  }

  /** A NUL-free map with at most one key shares its bytes with no other map whose keys are NUL-free. */
  lemma SingleKeyIsUnambiguous(d: StringMap, other: StringMap)
    requires NulFree(d) && |d| <= 1 && (forall k | k in other :: NUL !in k)
    requires Serialised(other, NUL, NUL) == Serialised(d, NUL, NUL)
    ensures other == d
  {
    var kd, ko := SortedStrings(d.Keys), SortedStrings(other.Keys);
    ListingCoversAll(kd, d.Keys);
    ListingCoversAll(ko, other.Keys);
    var es, fs := Entries(kd, d), Entries(ko, other);
    if es != [] && fs != [] {
      var e, f := es[0], fs[0];
      assert kd[0] in kd && ko[0] in ko;
      var tail := Frames(fs[1..], NUL, NUL);
      assert es[1..] == [];
      assert Frames(es, NUL, NUL) == e.0 + [NUL] + (e.1 + [NUL]);
      assert Frames(fs, NUL, NUL) == f.0 + [NUL] + (f.1 + [NUL] + tail);
      SplitFirst(e.0, e.1 + [NUL], f.0, f.1 + [NUL] + tail, NUL);
      assert tail == "" by {
        var s := e.1 + [NUL];
        assert s[|f.1|] == (f.1 + [NUL] + tail)[|f.1|] == NUL;
        assert forall i | 0 <= i < |e.1| :: s[i] == e.1[i] != NUL;
      }
      assert f.1 == (f.1 + [NUL] + tail)[..|f.1|] == (e.1 + [NUL])[..|e.1|] == e.1;
      assert |fs[1..]| == 0;
      assert kd == [e.0] && ko == [f.0];
      forall k ensures (k in d <==> k in other) && (k in d && k in other ==> d[k] == other[k]) {
        assert k in kd <==> k in d;
        assert k in ko <==> k in other;
      }
    } else {
      assert |d.Keys| == 0 && |other.Keys| == 0;
    }
  }

  /**
   * Against secrets whose values may hold NUL bytes, a digest identifies a NUL-free map exactly when
   * the map has at most one key.
   */
  lemma DigestIdentifiesAmongBinaryExactly(d: StringMap, sha: string -> string)
    requires IdealHash(sha) && NulFree(d)
    ensures (forall other: StringMap | forall k | k in other :: NUL !in k ::
               MapDigest(other, sha) == MapDigest(d, sha) ==> other == d)
       <==> |d| <= 1
  {
    if |d| <= 1 {
      forall other: StringMap | (forall k | k in other :: NUL !in k) && MapDigest(other, sha) == MapDigest(d, sha)
        ensures other == d
      {
        assert TellsApart(sha, Serialised(other, NUL, NUL), Serialised(d, NUL, NUL));
        assert Printable(sha, Serialised(other, NUL, NUL)) && Printable(sha, Serialised(d, NUL, NUL));
        if |d| == 0 || |other| == 0 {
          assert |d| == 0 && |other| == 0;
          assert d == map[] && other == map[];
        } else {
          SingleKeyIsUnambiguous(d, other);
        }
      }
    } else {
      var other := MergeCollides(d);
      assert |other| != 0;
      assert MapDigest(other, sha) == MapDigest(d, sha);
    }
  }

  // ----- Payload -----

  datatype SecretPayload = SecretPayload(name: string, secretType: string, data: StringMap)

  /** One labelled Secret per name that has data, in name order. */
  method NamedInstanceSecretsToPB(named: NamedSecrets, secretType: string) returns (out: seq<SecretPayload>)
    ensures forall p :: p in out <==>
      p.name in named && |named[p.name].data| > 0 && p == SecretPayload(p.name, secretType, named[p.name].data)
    ensures forall i, j :: 0 <= i < j < |out| ==> LexLe(out[i].name, out[j].name) && out[i].name != out[j].name
  {
    LexIsTotalPreorder();
    var names := SortedKeys(named, LexLe);
    out := [];
    for n := 0 to |names|
      invariant forall p :: p in out <==>
        && p.name in names[..n] && p.name in named && |named[p.name].data| > 0
        && p == SecretPayload(p.name, secretType, named[p.name].data)
      invariant forall i, j :: 0 <= i < j < |out| ==> LexLe(out[i].name, out[j].name) && out[i].name != out[j].name
    {
      assert names[..n + 1] == names[..n] + [names[n]];
      var data := named[names[n]].data;
      if |data| == 0 { continue; }
      forall i | 0 <= i < |out| ensures LexLe(out[i].name, names[n]) && out[i].name != names[n] {
        assert out[i] in out;
        var j :| 0 <= j < n && names[j] == out[i].name;
      }
      out := out + [SecretPayload(names[n], secretType, data)];
    }
    assert names[..|names|] == names;
  }
}
