/** The KargoAgent external client (kargoagent/kargoagent.go), as a refinement of the protocol. */
module KargoAgent {
  import opened Wrappers
  import opened Reason
  import opened Guard
  import opened Framing
  import opened Fingerprint
  import opened Platform
  import opened AgentProtocol
  import Agents = AgentNormalize

  datatype Parameters = Parameters(kargoInstanceID: string, workspace: string, name: string, target: Target,
                                   removeOnDestroy: bool, data: Agents.Data)
  {
    predicate HasKubeConfig() { target.HasKubeConfig() }
  }

  /** Request building, encoding, hashing, YAML and quantities, as the libraries do them. */
  datatype Codec = Codec(marshal: Parameters -> Result<string, Error>, encoders: Encoders<Parameters>,
                         sha: string -> string, yaml: Agents.Yaml, quantity: string -> Option<real>)

  class Resource {
    const uid: string
    const namespace: string
    const name: string
    const deleting: bool
    var spec: Parameters
    var externalName: string

    constructor (uid: string, namespace: string, name: string, deleting: bool, spec: Parameters, externalName: string)
      ensures this.uid == uid && this.namespace == namespace && this.name == name && this.deleting == deleting
      ensures this.spec == spec && this.externalName == externalName
    {
      this.uid, this.namespace, this.name, this.deleting := uid, namespace, name, deleting;
      this.spec, this.externalName := spec, externalName;
    }

    function Key(): WriteKey { WriteKey(AGENT, uid, namespace, name, "") }
  }

  // ----- What a write sends -----

  function InstanceID(p: Parameters, lookup: Result<string, Error>): Result<string, Error> {
    if p.kargoInstanceID != "" then Ok(p.kargoInstanceID) else lookup
  }

  /** The parameters a write is built from: the parent resolved, the workspace inherited when not pinned. */
  function Effective(p: Parameters, id: string, parentWorkspace: string): Parameters {
    p.(kargoInstanceID := id, workspace := if p.workspace == "" then parentWorkspace else p.workspace)
  }

  /** From `before` to `after` what the user pinned survives, an empty instance ID becomes the lookup's answer and an
      empty workspace the parent's, and nothing else moves; without an instance ID nothing moves at all. */
  predicate OnlyFillsIn(before: Parameters, after: Parameters, lookup: Result<string, Error>, parentWorkspace: string) {
    var found := before.kargoInstanceID != "" || lookup.Ok?;
    && after.name == before.name && after.target == before.target && after.removeOnDestroy == before.removeOnDestroy
    && after.data == before.data
    && (before.kargoInstanceID != "" ==> after.kargoInstanceID == before.kargoInstanceID)
    && (before.kargoInstanceID == "" && lookup.Ok? ==> after.kargoInstanceID == lookup.value)
    && (before.workspace != "" ==> after.workspace == before.workspace)
    && (before.workspace == "" && found ==> after.workspace == parentWorkspace)
    && (!found ==> after == before)
  }

  /** The request of a write: custom sizes projected, then marshalled. */
  function Build(c: Codec, p: Parameters): Result<string, Error> {
    match Agents.CustomSize(p.name, p.data, c.yaml)
    case Err(e) => Err(e)
    case Ok(sent) => c.marshal(p.(data := sent))
  }

  /** What is sent for `d`: itself, or for a custom size a large agent with the generated patches and all else as it
      was. */
  predicate SentFor(name: string, d: Agents.Data, y: Agents.Yaml, sent: Agents.Data) {
    if !Agents.IsCustom(d.size) then d.customSize.None? && sent == d
    else
      && d.akuityManaged != Some(true) && d.customSize.Some? && d.autoscaler.None?
      && y.generate(name, d.customSize.value, d.kustomization) == Some(sent.kustomization)
      && sent.size == "large" && sent.customSize.None?
      && sent == d.(size := sent.size, kustomization := sent.kustomization, customSize := sent.customSize)
  }

  predicate Carries(c: Codec, p: Parameters, sent: Agents.Data, body: string) {
    SentFor(p.name, p.data, c.yaml, sent) && c.marshal(p.(data := sent)) == Ok(body)
  }

  /** A request is built exactly when there is something to send that marshals, and carries just that. */
  lemma RequestCarriesExactly(c: Codec, p: Parameters, body: string)
    ensures Build(c, p) == Ok(body) <==> exists sent :: Carries(c, p, sent, body)
  {
    if Build(c, p) == Ok(body) {
      assert Carries(c, p, Agents.CustomSize(p.name, p.data, c.yaml).value, body);
    }
  }

  predicate SameRequest(c: Codec, p: Parameters, id: string, parent: string, other: string) {
    Build(c, Effective(p, id, parent)) == Build(c, Effective(p, id, other))
  }

  /** Whether the parent's workspace reaches the request: never past a pinned one, always past an empty one. */
  lemma ParentReachesRequestExactly(p: Parameters, id: string, parent: string, other: string, y: Agents.Yaml)
    requires Agents.CustomSize(p.name, p.data, y).Ok?
    ensures (forall c: Codec | c.yaml == y :: SameRequest(c, p, id, parent, other))
       <==> p.workspace != "" || parent == other
  {
    if p.workspace == "" && parent != other {
      var encoders := Encoders(_ => None, _ => None, _ => None);
      var c := Codec((q: Parameters) => Ok(q.workspace), encoders, t => t, y, _ => None);
      assert !SameRequest(c, p, id, parent, other);
    }
  }

  const REQUEST_KIND := "*kargov1.ApplyKargoInstanceRequest"
  const PARAMETERS_KIND := "v1alpha1.KargoAgentParameters"

  function PayloadOf(c: Codec, p: Parameters, secret: string): Payload<Parameters> {
    match Build(c, p)
    case Ok(body) => Request(REQUEST_KIND, body, p.target.Text(secret))
    case Err(e) => Unbuildable(PARAMETERS_KIND, p, p.target.Text(secret), e.Text())
  }

  function FingerprintFor(c: Codec, p: Parameters, secret: string): Option<string> {
    Fingerprint.FingerprintOf(PayloadOf(c, p, secret), c.encoders, c.sha)
  }

  lemma KindsAreWellNamed()
    ensures NL !in REQUEST_KIND && REQUEST_KIND != TEXT && NL !in PARAMETERS_KIND && PARAMETERS_KIND != TEXT
  {
    assert REQUEST_KIND[0] == '*' && PARAMETERS_KIND[0] == 'v' && TEXT[0] == 's';
  }

  /** Two sets of parameters are one to the guard exactly when they would send the same request to the same cluster, or
      fail to build in the same way. */
  lemma SameFingerprintSamePayload(c: Codec, p: Parameters, secretP: string, q: Parameters, secretQ: string)
    requires IdealHash(c.sha) && Faithful(c.encoders)
    requires TellsRecordsApart(c.encoders, PayloadOf(c, p, secretP), PayloadOf(c, q, secretQ))
    requires FingerprintFor(c, p, secretP).Some? && FingerprintFor(c, q, secretQ).Some?
    ensures FingerprintFor(c, p, secretP) == FingerprintFor(c, q, secretQ) <==>
      && p.target.Text(secretP) == q.target.Text(secretQ)
      && match (Build(c, p), Build(c, q))
         case (Ok(a), Ok(b)) => a == b
         case (Err(e), Err(f)) => p == q && e.Text() == f.Text()
         case _ => false
  {
    KindsAreWellNamed();
    FingerprintIsThePayload(PayloadOf(c, p, secretP), PayloadOf(c, q, secretQ), c.encoders, c.sha);
    hide Build;
  }

  /** Between a send and the fingerprint taken after its install failed, the fingerprint moves exactly when the
      kubeconfig is read from a Secret and that reading changed. */
  lemma InstallKeyMovesExactly(c: Codec, p: Parameters, before: string, after: string)
    requires IdealHash(c.sha) && Faithful(c.encoders)
    requires FingerprintFor(c, p, before).Some? && FingerprintFor(c, p, after).Some?
    ensures FingerprintFor(c, p, before) != FingerprintFor(c, p, after) <==> p.target.ReadsSecret() && before != after
  {
    SameFingerprintSamePayload(c, p, before, p, after);
    if p.target.ReadsSecret() {
      var head := "secret:" + p.target.secretNamespace + "/" + p.target.secretName + ":";
      assert p.target.Text(before)[|head|..] == before && p.target.Text(after)[|head|..] == after;
    }
    hide FingerprintFor;
    hide Build;
  }

  /** What a write stores into the parameters does not change what the next Observe asks the guard about. */
  lemma ObserveAndWriteAgree(p: Parameters, lookup: Result<string, Error>, parent: string)
    requires InstanceID(p, lookup).Ok? && InstanceID(p, lookup).value != ""
    ensures var id := InstanceID(p, lookup).value;
      var written := Effective(p, id, parent);
      InstanceID(written, lookup) == Ok(id) && Effective(written, id, parent) == written
  {}

  // ----- What Observe sees -----

  datatype Observation = Observation(found: bool, upToDate: bool)

  /** An entry of an export: unreadable, or an agent's name and stored parameters. */
  datatype ExportedAgent = Garbled(err: Error) | Shown(name: string, data: Agents.Data)

  /** The call may fail, which is not an error of the check; nil entries are skipped. */
  datatype Export = NoExport | Entries(entries: seq<Option<ExportedAgent>>)

  /** What the outside world answers during one Observe; `shown` is the agent as the Get returns it. */
  datatype Readings = Readings(
    lookup: Result<string, Error>, parentWorkspace: string, secret: string, secretLater: string,
    get: Option<Error>, shown: Agents.Data, exported: Export)

  /** And during one write. */
  datatype Replies = Replies(
    lookup: Result<string, Error>, parentWorkspace: string, secret: string, secretLater: string,
    apply: Reply, fetch: Reply, install: Reply, stripFetch: Reply, strip: Reply, delete: Reply)

  ghost predicate RemembersError(entries: Entries, key: WriteKey, err: Error) {
    exists k :: k in entries && SamePayload(k, key) && entries[k] == err
  }

  ghost predicate SomeError(entries: Entries, key: WriteKey, err: Error) {
    exists fp: string :: RemembersError(entries, key.(fingerprint := fp), err)
  }

  /** The first exported agent of that name, None when there is none; an unreadable entry before it is an error. */
  function FirstNamed(entries: seq<Option<ExportedAgent>>, name: string): Result<Option<Agents.Data>, Error> {
    if entries == [] then Ok(None)
    else match entries[0]
      case Some(Garbled(e)) => Err(e)
      case Some(Shown(n, data)) => if n == name then Ok(Some(data)) else FirstNamed(entries[1..], name)
      case None => FirstNamed(entries[1..], name)
  }

  /** The export where it shows the agent, the Get where it does not. */
  function DriftTarget(r: Readings, name: string): Result<Agents.Data, Error> {
    if r.exported.NoExport? then Ok(r.shown)
    else match FirstNamed(r.exported.entries, name)
      case Err(e) => Err(e)
      case Ok(None) => Ok(r.shown)
      case Ok(Some(data)) => Ok(data)
  }

  /** The verdict of the drift check. */
  function Matches(c: Codec, p: Parameters, r: Readings): Result<bool, Error> {
    match DriftTarget(r, p.name)
    case Err(e) => Err(e)
    case Ok(o) => Ok(Agents.UpToDate(p.name, p.data, o, c.yaml, c.quantity))
  }

  /** What Observe answers when the guard holds nothing back. */
  function Unguarded(c: Codec, p: Parameters, externalName: string, r: Readings): Result<Observation, Error> {
    if externalName == "" then Ok(Observation(false, false))
    else match ClassifyGetError(r.get)
      case GetAbsent => Ok(Observation(false, false))
      case GetProvisioning => Ok(Observation(true, true))
      case GetTerminal => Err(r.get.value)
      case GetOK =>
        match Matches(c, p, r)
        case Ok(same) => Ok(Observation(true, same))
        case Err(e) => Err(e)
  }

  /** An entry that neither is the agent nor keeps the search from going on. */
  predicate Passes(entry: Option<ExportedAgent>, name: string) {
    entry.None? || (entry.value.Shown? && entry.value.name != name)
  }

  /** The search ends at the first entry that is unreadable or carries the name. */
  lemma {:induction false} FirstNamedExactly(entries: seq<Option<ExportedAgent>>, name: string) returns (i: nat)
    ensures i <= |entries| && forall j | 0 <= j < i :: Passes(entries[j], name)
    ensures match FirstNamed(entries, name)
      case Ok(None) => i == |entries|
      case Ok(Some(data)) => i < |entries| && entries[i] == Some(Shown(name, data))
      case Err(e) => i < |entries| && entries[i] == Some(Garbled(e))
    decreases |entries|
  {
    i := 0;
    if entries != [] && Passes(entries[0], name) {
      i := FirstNamedExactly(entries[1..], name);
      i := i + 1;
    }
  }

  /** What Observe may say of an unguarded agent: absent exactly without an external name or when the Get says so;
      present and left alone while it is being provisioned; an error exactly when another Get error or an unreadable
      entry stands before it; and drifted exactly when, readable, it is not up to date. */
  lemma ObservedExactly(c: Codec, p: Parameters, externalName: string, r: Readings)
    ensures var (seen, got) := (Unguarded(c, p, externalName, r), ClassifyGetError(r.get));
      && (seen.Ok? && !seen.value.found <==> externalName == "" || got == GetAbsent)
      && (externalName != "" && got == GetProvisioning ==> seen == Ok(Observation(true, true)))
      && (externalName != "" && got == GetTerminal ==> r.get.Some? && seen == Err(r.get.value))
      && (externalName != "" && r.get.None? ==>
            match r.exported
            case NoExport => seen == Ok(Observation(true, Agents.UpToDate(p.name, p.data, r.shown, c.yaml, c.quantity)))
            case Entries(entries) =>
              match FirstNamed(entries, p.name)
              case Err(e) => seen == Err(e)
              case Ok(shown) =>
                var o := if shown.Some? then shown.value else r.shown;
                seen == Ok(Observation(true, Agents.UpToDate(p.name, p.data, o, c.yaml, c.quantity))))
  {
    GetOutcomesExactly(r.get);
    hide Agents.UpToDate;
    hide ClassifyGetError;
  }

  /** Where the parent was resolved to does not matter to what Observe sees. */
  lemma RoutingIsNotObserved(c: Codec, p: Parameters, id: string, externalName: string, r: Readings)
    ensures Unguarded(c, p.(kargoInstanceID := id), externalName, r) == Unguarded(c, p, externalName, r)
  {}

  /** After a write of `p`, the platform is reachable and shows `o`. */
  predicate Shows(r: Readings, p: Parameters, o: Agents.Data) {
    r.get.None? && DriftTarget(r, p.name) == Ok(o)
  }

  /** An echo of what was sent, up to the clamps, is observed as up to date. */
  lemma EchoIsObserved(c: Codec, p: Parameters, sent: Agents.Data, externalName: string, r: Readings, o: Agents.Data)
    requires externalName != "" && Agents.Reflexive(c.yaml)
    requires Agents.CustomSize(p.name, p.data, c.yaml) == Ok(sent)
    requires Shows(r, p, o) && Agents.Echoes(p.data, sent, o, c.yaml)
    ensures Unguarded(c, p, externalName, r) == Ok(Observation(true, true))
  {
    Agents.EchoIsUpToDate(p.name, p.data, sent, o, c.yaml, c.quantity);
  }

  function PhaseAfterObserve(r: Result<Observation, Error>): Phase {
    match r
    case Ok(Observation(false, _)) => Permitted(true)
    case Ok(Observation(true, false)) => Permitted(false)
    case _ => Idle
  }

  // ----- What a write does -----

  /** What a write leaves in the parameters. */
  function Written(p: Parameters, r: Replies): Parameters {
    match InstanceID(p, r.lookup)
    case Ok(id) => Effective(p, id, r.parentWorkspace)
    case Err(_) => p
  }

  /** A write gets as far as having a key, and as far as having something to send. */
  predicate Keyed(c: Codec, p: Parameters, r: Replies) {
    InstanceID(p, r.lookup).Ok? && FingerprintFor(c, Written(p, r), r.secret).Some?
  }

  /** The error of a write that has no key. */
  function NoKey(p: Parameters, r: Replies): Error {
    match InstanceID(p, r.lookup)
    case Err(e) => e
    case Ok(_) => Plain("fingerprint")
  }

  predicate Sendable(c: Codec, p: Parameters, r: Replies) {
    Keyed(c, p, r) && Build(c, Written(p, r)).Ok?
  }

  /** A write sends exactly when the instance is known, its parameters build to something and that has a fingerprint. */
  lemma SendsExactly(c: Codec, p: Parameters, r: Replies)
    ensures Sendable(c, p, r) <==>
      && (p.kargoInstanceID != "" || r.lookup.Ok?)
      && FingerprintFor(c, Written(p, r), r.secret).Some?
      && exists sent, body :: Carries(c, Written(p, r), sent, body)
  {
    var q := Written(p, r);
    if Build(c, q).Ok? { RequestCarriesExactly(c, q, Build(c, q).value); }
    if sent, body :| Carries(c, q, sent, body) { RequestCarriesExactly(c, q, body); }
    hide FingerprintFor;
    hide Carries;
    hide Build;
  }

  predicate Lands(c: Codec, p: Parameters, r: Replies) {
    Sendable(c, p, r) && r.apply.Done?
  }

  /** A failed install, if there is one, has a fingerprint to be charged to. */
  predicate Chargeable(c: Codec, p: Parameters, r: Replies) {
    Lands(c, p, r) ==> FingerprintFor(c, Written(p, r), r.secretLater).Some?
  }

  predicate CreateGoesThrough(c: Codec, p: Parameters, r: Replies) {
    Lands(c, p, r) && (p.HasKubeConfig() ==> r.fetch.Done? && r.install.Done?)
  }

  function WithFailure(entries: Entries, key: WriteKey, fp: Option<string>, err: Option<Error>): Entries {
    if fp.Some? then Recorded(entries, key.(fingerprint := fp.value), err) else entries
  }

  /** What the guard holds after an attempt to send. */
  function AfterSending(c: Codec, table: Entries, key: WriteKey, p: Parameters, r: Replies, err: Option<Error>)
    : Entries
  {
    if err.None? then WithoutResource(table, key)
    else if Keyed(c, p, r) then
      Recorded(table, key.(fingerprint := FingerprintFor(c, Written(p, r), r.secret).value), err)
    else table
  }

  function Verb(del: bool): string { if del then "delete" else "apply" }

  function UndoneBy(p: Parameters, r: Replies): seq<Exchange> {
    RollbackCalls(p.removeOnDestroy && p.HasKubeConfig(), r.stripFetch, r.strip, r.delete)
  }

  /** What one write of the row calls. */
  function SendCalls(c: Codec, p: Parameters, r: Replies): seq<Exchange> {
    if Sendable(c, p, r) then [Exchange(ApplyRow(Build(c, Written(p, r)).value), r.apply)] else []
  }

  /** What a Create calls: the row, the manifests once it has landed, and the undoing of both when they fail. */
  function CreateCalls(c: Codec, p: Parameters, r: Replies): seq<Exchange> {
    if !Lands(c, p, r) || !p.HasKubeConfig() then SendCalls(c, p, r)
    else
      SendCalls(c, p, r) + ManifestCalls(false, r.fetch, r.install)
      + (if CreateGoesThrough(c, p, r) then [] else UndoneBy(Written(p, r), r))
  }

  /** Of ASCII letters; no other letter lowers to one of the words looked for. */
  function Lower(s: string): string {
    seq(|s|, i requires 0 <= i < |s| => if 'A' <= s[i] <= 'Z' then (s[i] as int + 32) as char else s[i])
  }

  /** A Create sends first and once. */
  lemma CreateSendsOnce(c: Codec, p: Parameters, r: Replies)
    ensures var calls := CreateCalls(c, p, r);
      && (calls != [] <==> Sendable(c, p, r))
      && (forall i | 0 <= i < |calls| :: calls[i].call.ApplyRow? <==> i == 0)
  {
    hide Build;
    hide Keyed;
    var undone := UndoneBy(Written(p, r), r);
    assert forall i | 0 <= i < |undone| :: !undone[i].call.ApplyRow?;
    hide UndoneBy;
  }

  /** It touches the manifests only of what landed and has a kubeconfig, and undoes only what landed and was not
      installed: the row last, and the cluster only when asked to. */
  lemma CreateCallsExactly(c: Codec, p: Parameters, r: Replies, call: Call)
    ensures var calls := CreateCalls(c, p, r);
      var installs := Lands(c, p, r) && p.HasKubeConfig();
      var fails := installs && !(r.fetch.Done? && r.install.Done?);
      var strips := fails && p.removeOnDestroy;
      && (HasCall(calls, call) <==>
            || (Sendable(c, p, r) && call == ApplyRow(Build(c, Written(p, r)).value))
            || (call == FetchManifests && installs)
            || (call == InstallManifests && installs && r.fetch.Done?)
            || (call == RemoveManifests && strips && r.stripFetch.Done?)
            || (call == DeleteRow && fails))
      && (fails ==> EndsWithOnly(calls, Exchange(DeleteRow, r.delete)))
  {
    hide Build;
    hide Keyed;
    var (sent, undone) := (SendCalls(c, p, r), UndoneBy(Written(p, r), r));
    var fetched := ManifestCalls(false, r.fetch, r.install);
    if Sendable(c, p, r) { assert sent[0].call == ApplyRow(Build(c, Written(p, r)).value); }
    assert HasCall(sent, call) <==> Sendable(c, p, r) && call == ApplyRow(Build(c, Written(p, r)).value);
    ManifestCallsExactly(false, r.fetch, r.install, call);
    ManifestCallsExactly(false, r.fetch, r.install, DeleteRow);
    var strips := Written(p, r).removeOnDestroy && Written(p, r).HasKubeConfig();
    RollbackCallsExactly(strips, r.stripFetch, r.strip, r.delete, call);
    HasCallEither(sent, fetched, call);
    HasCallEither(sent, fetched, DeleteRow);
    HasCallEither(sent + fetched, undone, call);
    assert !HasCall(sent, DeleteRow);
    hide HasCall;
    hide SendCalls;
    hide ManifestCalls;
    hide RollbackCalls;
    if Lands(c, p, r) && p.HasKubeConfig() && !CreateGoesThrough(c, p, r) {
      EndsWithTail(sent + fetched, undone, Exchange(DeleteRow, r.delete));
    }
    assert sent + fetched + [] == sent + fetched;
    hide EndsWithOnly;
  }

  /** What a Delete calls: the strip when asked for, then the row once nothing before it failed. */
  function DeleteCalls(p: Parameters, externalName: string, r: Replies): seq<Exchange> {
    if externalName == "" || InstanceID(p, r.lookup).Err? then []
    else if !(p.removeOnDestroy && p.HasKubeConfig()) then [Exchange(DeleteRow, r.delete)]
    else
      ManifestCalls(true, r.stripFetch, r.strip)
      + (if r.stripFetch.Done? && r.strip.Done? then [Exchange(DeleteRow, r.delete)] else [])
  }

  /** Nothing is called without an external name or an instance; the manifests are touched only when asked for, and then
      fetched and removed before the row; the row is deleted exactly when nothing before it failed. */
  lemma DeleteCallsExactly(p: Parameters, externalName: string, r: Replies)
    ensures var calls := DeleteCalls(p, externalName, r);
      var reached := externalName != "" && (p.kargoInstanceID != "" || r.lookup.Ok?);
      var strips := p.removeOnDestroy && p.HasKubeConfig();
      var stripped := strips ==> r.stripFetch.Done? && r.strip.Done?;
      && (Exchange(FetchManifests, r.stripFetch) in calls <==> reached && strips)
      && (Exchange(RemoveManifests, r.strip) in calls <==> reached && strips && r.stripFetch.Done?)
      && (Exchange(DeleteRow, r.delete) in calls <==> reached && stripped)
      && (forall i | 0 <= i < |calls| ::
            || (i == 0 && calls[i] == Exchange(FetchManifests, r.stripFetch))
            || (i == 1 && calls[i] == Exchange(RemoveManifests, r.strip))
            || (i == |calls| - 1 && calls[i] == Exchange(DeleteRow, r.delete)))
  {}

  /** The platform refuses to delete an agent whose cluster is still connected. */
  predicate IsConnectedAgent(e: Error) {
    Contains(Lower(e.Text()), "connected") && Contains(Lower(e.Text()), "agent")
  }

  /** `c` is the small letter `w` or its capital. */
  predicate SameLetter(c: char, w: char) {
    c == w || ('a' <= w <= 'z' && c as int + 32 == w as int)
  }

  predicate SaysAt(text: string, word: string, i: int) {
    0 <= i <= |text| - |word| && forall j | 0 <= j < |word| :: SameLetter(text[i + j], word[j])
  }

  ghost predicate Says(text: string, word: string) {
    exists i :: SaysAt(text, word, i)
  }

  lemma SaysExactly(text: string, word: string)
    requires forall j | 0 <= j < |word| :: 'a' <= word[j] <= 'z'
    ensures Contains(Lower(text), word) <==> Says(text, word)
  {
    forall i ensures OccursAt(Lower(text), word, i) <==> SaysAt(text, word, i) {
      if 0 <= i <= |text| - |word| {
        var part := Lower(text)[i..i + |word|];
        assert forall j | 0 <= j < |word| :: part[j] == Lower(text)[i + j];
        assert (forall j | 0 <= j < |word| :: part[j] == word[j]) <==> part == word;
      }
    }
    if i :| SaysAt(text, word, i) { assert OccursAt(Lower(text), word, i); }
    if Contains(Lower(text), word) {
      var i :| 0 <= i <= |Lower(text)| && OccursAt(Lower(text), word, i);
      assert SaysAt(text, word, i);
    }
  }

  /** An error speaks of a connected agent exactly when its text says both words, in any case. */
  lemma ConnectedAgentExactly(e: Error)
    ensures IsConnectedAgent(e) <==> Says(e.Text(), "connected") && Says(e.Text(), "agent")
  {
    SaysExactly(e.Text(), "connected");
    SaysExactly(e.Text(), "agent");
  }

  lemma Installs(key: WriteKey, t: Entries, sent: string, e: Error, fp: string)
    ensures Next(key, Installing(sent), t, AgentProtocol.Install(None)) == Some((Idle, t))
    ensures Next(key, Installing(sent), t, AgentProtocol.Install(Some(e))) == Some((NotInstalled(sent, e), t))
    ensures Next(key, NotInstalled(sent, e), t, InstallKey(None)) == Some((Idle, t))
    ensures Next(key, NotInstalled(sent, e), t, InstallKey(Some(fp)))
         == Some((Recording(fp, ClassifyManifestInstallError(Some(e)).value), t))
  {}

  lemma Declines(key: WriteKey, t: Entries)
    ensures Next(key, Permitted(true), t, Stop) == Some((Idle, t))
  {}

  /** The fingerprint a request goes out under, where one can be computed. */
  function SentFingerprint(c: Codec, p: Parameters, r: Replies): string {
    if FingerprintFor(c, p, r.secret).Some? then FingerprintFor(c, p, r.secret).value else ""
  }

  /** One request went out: that built from `p`, under the fingerprint of that very payload. */
  ghost predicate SentOnly(
    c: Codec, p: Parameters, r: Replies, before: seq<Exchange>, after: seq<Exchange>, steps: seq<Step>)
  {
    var payload := PayloadOf(c, p, r.secret);
    && payload.Request?
    && after == before + [Exchange(ApplyRow(payload.body), r.apply)]
    && FingerprintFor(c, p, r.secret).Some?
    && |steps| >= 2 && steps[0] == ApplyKey(FingerprintFor(c, p, r.secret)) && steps[1] == Send(r.apply.Outcome())
  }

  lemma WriteBegins(key: WriteKey, t: Entries, creating: bool, fp: string)
    ensures Next(key, Permitted(creating), t, Stop) == Some((Idle, t))
    ensures Next(key, Permitted(creating), t, ApplyKey(None)) == Some((Idle, t))
    ensures Next(key, Permitted(creating), t, ApplyKey(Some(fp))) == Some((Writing(creating, fp), t))
  {}

  lemma NothingHeld(t: Entries, key: WriteKey)
    requires !HasResource(t, key)
    ensures forall fp: string :: !HasPayload(t, key.(fingerprint := fp))
  {}

  lemma Begins(key: WriteKey, t: Entries)
    ensures Next(key, Idle, t, Begin) == Some((Checking, t))
  {}

  lemma Checks(key: WriteKey, t: Entries)
    ensures Next(key, Checking, t, Check) == Some((if HasResource(t, key) then Asking(false) else Reading, t))
  {}

  lemma Reads(key: WriteKey, t: Entries, read: ReadResult)
    ensures Next(key, Reading, t, Read(read)) == Some((match read
      case Absent => Permitted(true) case Unreadable => Idle case Drifted => Asking(true) case UpToDate => Settled, t))
  {}

  // ----- After a failed write -----

  /** What the guard remembers for this very payload is `err`. */
  ghost predicate RemembersOnly(entries: Entries, key: WriteKey, err: Error) {
    HasPayload(entries, key) && forall k | k in entries && SamePayload(k, key) :: entries[k] == err
  }

  /** What a pass reads before it asks the guard. */
  datatype Before = Before(lookup: Result<string, Error>, parentWorkspace: string, secret: string)

  function ReadsBefore(seen: Readings): Before { Before(seen.lookup, seen.parentWorkspace, seen.secret) }

  /** Under these readings a pass cannot get past `err`: the parent cannot be resolved, or the guard holds back. */
  ghost predicate HeldBack(c: Codec, entries: Entries, key: WriteKey, p: Parameters, b: Before, err: Error) {
    match InstanceID(p, b.lookup)
    case Err(e) => e == err
    case Ok(id) =>
      var fp := FingerprintFor(c, Effective(p, id, b.parentWorkspace), b.secret);
      fp.Some? && RemembersOnly(entries, key.(fingerprint := fp.value), err)
  }

  lemma RecordedIsRemembered(table: Entries, key: WriteKey, err: Error)
    requires IsTerminal(err)
    ensures RemembersOnly(Recorded(table, key, Some(err)), key, err)
  {
    assert key in Recorded(table, key, Some(err)) && SamePayload(key, key);
  }

  /** Resolving the parent again, or writing, does not change what the next pass asks about. */
  lemma WrittenIsAskedAgain(c: Codec, entries: Entries, key: WriteKey, p: Parameters, id: string, b: Before, err: Error)
    requires InstanceID(p, b.lookup) == Ok(id)
    ensures HeldBack(c, entries, key, p.(kargoInstanceID := id), b, err) <==> HeldBack(c, entries, key, p, b, err)
    ensures
      HeldBack(c, entries, key, Effective(p, id, b.parentWorkspace), b, err) <==> HeldBack(c, entries, key, p, b, err)
  {
    hide FingerprintFor;
    hide RemembersOnly;
  }

  /** A terminal failure holds the next pass back under the readings it was charged with. */
  lemma FailureHoldsBack(c: Codec, table: Entries, key: WriteKey, p: Parameters, b: Before, err: Error)
    requires IsTerminal(err) && InstanceID(p, b.lookup).Ok?
    requires var id := InstanceID(p, b.lookup).value;
      FingerprintFor(c, Effective(p, id, b.parentWorkspace), b.secret).Some?
    ensures var id := InstanceID(p, b.lookup).value;
      var fp := FingerprintFor(c, Effective(p, id, b.parentWorkspace), b.secret).value;
      HeldBack(c, Recorded(table, key.(fingerprint := fp), Some(err)), key, Effective(p, id, b.parentWorkspace), b, err)
  {
    hide FingerprintFor;
    var id := InstanceID(p, b.lookup).value;
    var fp := FingerprintFor(c, Effective(p, id, b.parentWorkspace), b.secret).value;
    RecordedIsRemembered(table, key.(fingerprint := fp), err);
    hide RemembersOnly;
    WrittenIsAskedAgain(c, Recorded(table, key.(fingerprint := fp), Some(err)), key, p, id, b, err);
  }

  // ----- The client -----

  class Client {
    const codec: Codec
    const guard: TerminalWriteGuard
    const remote: Remote

    constructor (codec: Codec, guard: TerminalWriteGuard, remote: Remote)
      ensures this.codec == codec && this.guard == guard && this.remote == remote
    {
      this.codec, this.guard, this.remote := codec, guard, remote;
    }

    method ComputeKey(mg: Resource, p: Parameters, secret: string) returns (key: Option<WriteKey>)
      ensures key == match FingerprintFor(codec, p, secret)
        case None => None
        case Some(fp) => Some(mg.Key().(fingerprint := fp))
    {
      key := NewTerminalWriteKey(
        AGENT, mg.uid, mg.namespace, mg.name, Parts(PayloadOf(codec, p, secret)), codec.encoders, codec.sha);
    }

    /** One consultation of the guard: the remembered error when this very payload failed and is not being deleted. */
    method SuppressTerminalWrite(mg: Resource, p: Parameters, secret: string, drifted: bool)
      returns (err: Option<Error>, ghost steps: seq<Step>)
      modifies guard
      ensures Path(mg.Key(), Asking(drifted), old(guard.entries), steps)
           == Some((if err.Some? then Idle else Unsuppressed(drifted), guard.entries))
      ensures var fp := FingerprintFor(codec, p, secret);
        err.Some? <==> fp.Some? && !mg.deleting && HasPayload(old(guard.entries), mg.Key().(fingerprint := fp.value))
      ensures err.Some? || !HasResource(old(guard.entries), mg.Key()) ==> guard.entries == old(guard.entries)
      ensures forall k | k in guard.entries :: k in old(guard.entries) && guard.entries[k] == old(guard.entries)[k]
      ensures err.Some? ==> SomeError(old(guard.entries), mg.Key(), err.value)
      ensures err.Some? ==>
        RemembersError(guard.entries, mg.Key().(fingerprint := FingerprintFor(codec, p, secret).value), err.value)
    {
      ghost var fp := FingerprintFor(codec, p, secret);
      var key := ComputeKey(mg, p, secret);
      OneStep(mg.Key(), Asking(drifted), guard.entries, ObserveKey(fp));
      hide Path;
      hide FingerprintFor;
      steps := [ObserveKey(fp)];
      if key.None? { return None, steps; }
      Extend(mg.Key(), Asking(drifted), guard.entries, steps, Suppress(mg.deleting));
      assert WithoutResource(guard.entries, key.value) == WithoutResource(guard.entries, mg.Key());
      err := guard.Suppress(key.value, mg.deleting);
      steps := steps + [Suppress(mg.deleting)];
    }

    /** An uninterrupted Observe is a path of the protocol, ending where its answer says. */
    method Observe(mg: Resource, r: Readings) returns (result: Result<Observation, Error>, ghost steps: seq<Step>)
      modifies guard, mg
      ensures Path(mg.Key(), Idle, old(guard.entries), steps) == Some((PhaseAfterObserve(result), guard.entries))
      ensures mg.externalName == old(mg.externalName)
      ensures mg.spec == match InstanceID(old(mg.spec), r.lookup)
        case Ok(id) => old(mg.spec).(kargoInstanceID := id)
        case Err(_) => old(mg.spec)
      ensures old(mg.spec).kargoInstanceID != "" ==> mg.spec == old(mg.spec)
      ensures old(mg.spec).kargoInstanceID == "" && r.lookup.Ok? ==>
        mg.spec == old(mg.spec).(kargoInstanceID := r.lookup.value)
      ensures InstanceID(old(mg.spec), r.lookup).Err? ==>
        result == Err(InstanceID(old(mg.spec), r.lookup).error) && guard.entries == old(guard.entries)
      ensures InstanceID(old(mg.spec), r.lookup).Ok? && !mg.deleting ==>
        var id := InstanceID(old(mg.spec), r.lookup).value;
        var fp := FingerprintFor(codec, Effective(old(mg.spec), id, r.parentWorkspace), r.secret);
        fp.Some? && HasPayload(old(guard.entries), mg.Key().(fingerprint := fp.value)) ==>
          && result.Err? && guard.entries == old(guard.entries)
          && RemembersError(guard.entries, mg.Key().(fingerprint := fp.value), result.error)
      ensures InstanceID(old(mg.spec), r.lookup).Ok? && !HasResource(old(guard.entries), mg.Key()) ==>
        result == Unguarded(codec, mg.spec, mg.externalName, r) && guard.entries == old(guard.entries)
      ensures InstanceID(old(mg.spec), r.lookup).Ok? ==>
        (result == Unguarded(codec, mg.spec, mg.externalName, r)
         || (result.Err? && !mg.deleting && SomeError(old(guard.entries), mg.Key(), result.error)))
    {
      hide Next;
      hide FingerprintFor;
      ghost var key, t0 := mg.Key(), guard.entries;
      steps := [];
      var id := InstanceID(mg.spec, r.lookup);
      if id.Err? { return Err(id.error), steps; }
      mg.spec := mg.spec.(kargoInstanceID := id.value);
      var p := mg.spec;
      if p.workspace == "" { p := p.(workspace := r.parentWorkspace); }

      Extend(key, Idle, t0, steps, Begin);
      Begins(key, t0);
      steps := steps + [Begin];
      hide Path;
      var known := guard.Has(mg.Key());
      Extend(key, Idle, t0, steps, Check);
      Checks(key, t0);
      steps := steps + [Check];
      if known {
        var failed, asked := SuppressTerminalWrite(mg, p, r.secret, false);
        Join(key, Idle, t0, steps, asked);
        steps := steps + asked;
        if failed.Some? { return Err(failed.value), steps; }
      } else {
        NothingHeld(t0, key);
      }
      ghost var looked;
      result, looked := ObserveRemote(mg, p, r);
      Join(key, Idle, t0, steps, looked);
      steps := steps + looked;
    }

    /** The rest of Observe: read the platform, compare, and ask the guard once more if there is something to write. */
    method ObserveRemote(mg: Resource, p: Parameters, r: Readings)
      returns (result: Result<Observation, Error>, ghost steps: seq<Step>)
      modifies guard
      ensures Path(mg.Key(), Reading, old(guard.entries), steps) == Some((PhaseAfterObserve(result), guard.entries))
      ensures !HasResource(old(guard.entries), mg.Key()) ==>
        result == Unguarded(codec, mg.spec, mg.externalName, r) && guard.entries == old(guard.entries)
      ensures result == Unguarded(codec, mg.spec, mg.externalName, r)
        || (result.Err? && !mg.deleting && SomeError(old(guard.entries), mg.Key(), result.error))
    {
      hide FingerprintFor;
      ghost var key, t := mg.Key(), guard.entries;
      ghost var read := if mg.externalName == "" || ClassifyGetError(r.get) == GetAbsent then Absent
        else if ClassifyGetError(r.get) != GetOK || Matches(codec, mg.spec, r).Err? then Unreadable
        else if Matches(codec, mg.spec, r).value then UpToDate else Drifted;
      OneStep(key, Reading, t, Read(read));
      Reads(key, t, read);
      hide Next;
      hide Path;
      steps := [Read(read)];
      if mg.externalName == "" { return Ok(Observation(false, false)), steps; }
      match ClassifyGetError(r.get) {
        case GetAbsent => return Ok(Observation(false, false)), steps;
        case GetProvisioning => return Ok(Observation(true, true)), steps;
        case GetTerminal => return Err(r.get.value), steps;
        case GetOK =>
      }
      var target := ExportedAgentSpec(r, mg.spec.name);
      if target.Err? { return Err(target.error), steps; }
      var same := Agents.EvaluateDrift(mg.spec.name, mg.spec.data, target.value, codec.yaml, codec.quantity);
      if !same {
        var failed, asked := SuppressTerminalWrite(mg, p, r.secretLater, true);
        Join(key, Reading, t, steps, asked);
        steps := steps + asked;
        if failed.Some? { return Err(failed.value), steps; }
      } else {
        ghost var cleared := ClearTerminalWrite(mg, p, r.secretLater);
        Join(key, Reading, t, steps, cleared);
        steps := steps + cleared;
      }
      result := Ok(Observation(true, same));
    }

    /** The exported parameters, falling back on what Get returned. */
    method ExportedAgentSpec(r: Readings, name: string) returns (target: Result<Agents.Data, Error>)
      ensures target == DriftTarget(r, name)
    {
      if r.exported.NoExport? { return Ok(r.shown); }
      var entries := r.exported.entries;
      for i := 0 to |entries|
        invariant FirstNamed(entries, name) == FirstNamed(entries[i..], name)
      {
        assert entries[i..][0] == entries[i] && entries[i..][1..] == entries[i + 1..];
        if entries[i].None? { continue; }
        match entries[i].value {
          case Garbled(e) => return Err(e);
          case Shown(n, data) => if n == name { return Ok(data); }
        }
      }
      target := Ok(r.shown);
    }

    /** Up to date: forget a remembered failure, if there is one and a key can be computed. */
    method ClearTerminalWrite(mg: Resource, p: Parameters, secret: string) returns (ghost steps: seq<Step>)
      modifies guard
      ensures Path(mg.Key(), Settled, old(guard.entries), steps) == Some((Idle, guard.entries))
      ensures FingerprintFor(codec, p, secret).Some? ==> !HasResource(guard.entries, mg.Key())
      ensures !HasResource(old(guard.entries), mg.Key()) ==> guard.entries == old(guard.entries)
    {
      ghost var key, t0 := mg.Key(), guard.entries;
      var known := guard.Has(mg.Key());
      Extend(key, Settled, t0, [], Check);
      assert [] + [Check] == [Check];
      steps := [Check];
      if !known { return; }
      var k := ComputeKey(mg, p, secret);
      Extend(key, Settled, t0, steps, Forget(k.Some?));
      steps := steps + [Forget(k.Some?)];
      if k.None? { return; }
      guard.Clear(k.value);
      assert WithoutResource(t0, k.value) == WithoutResource(t0, key);
    }

    // ----- Writing -----

    /** Create and Update both send through here. On success nothing is remembered, on failure what the guard keeps. */
    method Apply(mg: Resource, creating: bool, r: Replies) returns (err: Option<Error>, ghost steps: seq<Step>)
      modifies guard, remote, mg
      ensures Path(mg.Key(), Permitted(creating), old(guard.entries), steps)
           == Some((if err.None? && creating then Installing(SentFingerprint(codec, mg.spec, r)) else Idle,
                    guard.entries))
      ensures mg.externalName == old(mg.externalName)
      ensures OnlyFillsIn(old(mg.spec), mg.spec, r.lookup, r.parentWorkspace)
      ensures mg.spec == Written(old(mg.spec), r)
      ensures if Sendable(codec, old(mg.spec), r)
        then
          && SentOnly(codec, mg.spec, r, old(remote.log), remote.log, steps)
          && err == ClassifyApplyError(r.apply.Outcome())
        else remote.row == old(remote.row) && err.Some?
      ensures remote.log == old(remote.log) + SendCalls(codec, old(mg.spec), r)
      ensures err.None? <==> Lands(codec, old(mg.spec), r)
      ensures err.None? ==> remote.row
      ensures guard.entries == AfterSending(codec, old(guard.entries), mg.Key(), old(mg.spec), r, err)
      ensures !Keyed(codec, old(mg.spec), r) ==> err == Some(NoKey(old(mg.spec), r))
      ensures remote.installed == old(remote.installed)
    {
      hide Next;
      hide Path;
      hide Recorded;
      hide WithoutResource;
      hide ClassifyApplyError;
      ghost var key, t0 := mg.Key(), guard.entries;
      var id := InstanceID(mg.spec, r.lookup);
      if id.Err? {
        OneStep(key, Permitted(creating), t0, Stop);
        WriteBegins(key, t0, creating, "");
        steps := [Stop];
        return Some(id.error), steps;
      }
      mg.spec := mg.spec.(kargoInstanceID := id.value);
      if mg.spec.workspace == "" { mg.spec := mg.spec.(workspace := r.parentWorkspace); }
      ghost var fp := FingerprintFor(codec, mg.spec, r.secret);
      var k := ComputeKey(mg, mg.spec, r.secret);
      OneStep(key, Permitted(creating), t0, ApplyKey(fp));
      WriteBegins(key, t0, creating, if fp.Some? then fp.value else "");
      steps := [ApplyKey(fp)];
      if k.None? { return Some(Plain("fingerprint")), steps; }

      ghost var sent;
      err, sent := Deliver(mg, k.value, creating, Build(codec, mg.spec), r.apply);
      Join(key, Permitted(creating), t0, steps, sent);
      steps := steps + sent;
    }

    /** From a computed key to the guard's bookkeeping. */
    method Deliver(mg: Resource, key: WriteKey, creating: bool, request: Result<string, Error>, reply: Reply)
      returns (err: Option<Error>, ghost steps: seq<Step>)
      requires key == mg.Key().(fingerprint := key.fingerprint)
      modifies guard, remote
      ensures Path(mg.Key(), Writing(creating, key.fingerprint), old(guard.entries), steps)
           == Some((if err.None? && creating then Installing(key.fingerprint) else Idle, guard.entries))
      ensures request.Ok? ==> |steps| >= 1 && steps[0] == Send(reply.Outcome())
      ensures request.Ok? ==> err == ClassifyApplyError(reply.Outcome())
      ensures err.None? <==> request.Ok? && reply.Done?
      ensures request.Ok? ==> remote.log == old(remote.log) + [Exchange(ApplyRow(request.value), reply)]
      ensures request.Ok? ==> remote.row == RowAfter(old(remote.row), Exchange(ApplyRow(request.value), reply))
      ensures request.Err? ==> err == ClassifyApplyError(Some(request.error)) && err.Some?
      ensures request.Err? ==> remote.log == old(remote.log) && remote.row == old(remote.row)
      ensures guard.entries == if err.None? then WithoutResource(old(guard.entries), mg.Key())
        else Recorded(old(guard.entries), key, err)
      ensures remote.installed == old(remote.installed)
    {
      ghost var k, t0 := mg.Key(), guard.entries;
      ghost var writing := Writing(creating, key.fingerprint);
      ghost var recorded;
      if request.Err? {
        Extend(k, writing, t0, [], BuildFails(request.error));
        steps := [] + [BuildFails(request.error)];
        err := ClassifyApplyError(Some(request.error));
        recorded := RecordTerminalWrite(mg, key, err.value);
        Join(k, writing, t0, steps, recorded);
        steps := steps + recorded;
        return;
      }
      err := remote.Do(ApplyRow(request.value), reply);
      Extend(k, writing, t0, [], Send(err));
      steps := [] + [Send(err)];
      if err.Some? {
        err := ClassifyApplyError(err);
        recorded := RecordTerminalWrite(mg, key, err.value);
        Join(k, writing, t0, steps, recorded);
        steps := steps + recorded;
        return;
      }
      Extend(k, writing, t0, steps, Clear);
      steps := steps + [Clear];
      guard.Clear(key);
      assert WithoutResource(t0, key) == WithoutResource(t0, k);
    }

    method RecordTerminalWrite(mg: Resource, key: WriteKey, err: Error) returns (ghost steps: seq<Step>)
      requires key == mg.Key().(fingerprint := key.fingerprint)
      modifies guard
      ensures guard.entries == Recorded(old(guard.entries), key, Some(err))
      ensures steps == [Record]
      ensures Path(mg.Key(), Recording(key.fingerprint, err), old(guard.entries), steps) == Some((Idle, guard.entries))
    {
      Extend(mg.Key(), Recording(key.fingerprint, err), guard.entries, [], Record);
      assert [] + [Record] == [Record];
      steps := [Record];
      guard.Record(key, Some(err));
    }

    /** Fetches the agent's manifests and installs, or removes, them on the target cluster. */
    method InstallAgentManifests(del: bool, fetch: Reply, act: Reply) returns (err: Option<Error>)
      modifies remote
      ensures err.None? <==> fetch.Done? && act.Done?
      ensures fetch.Failed? ==>
        err.Some? && err.value.Text() == "could not get kargo agent manifests to " + Verb(del) + ": " + fetch.err.Text()
      ensures fetch.Done? && act.Failed? ==>
        err.Some? && err.value.Text() == "could not " + Verb(del) + " kargo agent manifests: " + act.err.Text()
      ensures remote.log == old(remote.log) + ManifestCalls(del, fetch, act)
      ensures err.None? ==> remote.installed == !del
      ensures remote.row == old(remote.row)
    {
      err := remote.Do(FetchManifests, fetch);
      if err.Some? {
        return Some(Wrapped("could not get kargo agent manifests to " + Verb(del) + ": ", err.value, ""));
      }
      err := remote.Do(if del then RemoveManifests else InstallManifests, act);
      if err.Some? {
        return Some(Wrapped("could not " + Verb(del) + " kargo agent manifests: ", err.value, ""));
      }
    }

    /** Undoes a landed Create: strip what was installed if asked to, then delete the row; failures are only logged. */
    method RollbackCreatedAgent(mg: Resource, r: Replies)
      modifies remote
      ensures remote.log == old(remote.log) + UndoneBy(mg.spec, r)
      ensures r.delete.TookEffect() ==> !remote.row
      ensures !mg.spec.removeOnDestroy || !mg.spec.HasKubeConfig() ==> remote.installed == old(remote.installed)
      ensures mg.spec.removeOnDestroy && mg.spec.HasKubeConfig() && r.stripFetch.Done? && r.strip.Done? ==>
        !remote.installed
    {
      if mg.spec.removeOnDestroy && mg.spec.HasKubeConfig() {
        var _ := InstallAgentManifests(true, r.stripFetch, r.strip);
      }
      var _ := remote.Do(DeleteRow, r.delete);
    }

    /** All or rolled back. */
    method Create(mg: Resource, r: Replies) returns (err: Option<Error>, ghost steps: seq<Step>)
      modifies guard, remote, mg
      ensures Path(mg.Key(), Permitted(true), old(guard.entries), steps) == Some((Idle, guard.entries))
      ensures OnlyFillsIn(old(mg.spec), mg.spec, r.lookup, r.parentWorkspace)
      ensures mg.spec == Written(old(mg.spec), r)
      ensures err.None? <==> CreateGoesThrough(codec, old(mg.spec), r)
      ensures remote.log == old(remote.log) + CreateCalls(codec, old(mg.spec), r)
      ensures err.None? ==> remote.row && (mg.spec.HasKubeConfig() ==> remote.installed)
      ensures err.None? ==> mg.externalName == mg.spec.name
      ensures err.None? ==> guard.entries == WithoutResource(old(guard.entries), mg.Key())
      ensures err.Some? ==> mg.externalName == old(mg.externalName)
      ensures err.Some? && Lands(codec, old(mg.spec), r) ==>
        && (r.delete.TookEffect() ==> !remote.row)
        && guard.entries == WithFailure(WithoutResource(old(guard.entries), mg.Key()), mg.Key(),
                                        FingerprintFor(codec, mg.spec, r.secretLater), err)
      ensures !Lands(codec, old(mg.spec), r) ==>
        && remote.installed == old(remote.installed)
        && guard.entries == AfterSending(codec, old(guard.entries), mg.Key(), old(mg.spec), r, err)
      ensures !Keyed(codec, old(mg.spec), r) ==> err == Some(NoKey(old(mg.spec), r))
    {
      hide Next;
      hide Path;
      hide UndoneBy;
      hide ManifestCalls;
      hide WithFailure;
      hide WithoutResource;
      hide FingerprintFor;
      hide ClassifyApplyError;
      hide SentOnly;
      hide SendCalls;
      hide Sendable;
      ghost var key, t0 := mg.Key(), guard.entries;
      err, steps := Apply(mg, true, r);
      if err.Some? { return; }
      if mg.spec.HasKubeConfig() {
        ghost var before, t1 := steps, guard.entries;
        var failed, installing := Install(mg, r, SentFingerprint(codec, mg.spec, r));
        Join(key, Permitted(true), t0, before, installing);
        steps := before + installing;
        if failed.Some? { return failed, steps; }
      } else {
        Extend(key, Permitted(true), t0, steps, AgentProtocol.Install(None));
        Installs(key, guard.entries, SentFingerprint(codec, mg.spec, r), Plain(""), "");
        steps := steps + [AgentProtocol.Install(None)];
      }
      mg.externalName := mg.spec.name;
    }

    /** The kubeconfig part of Create: install, or roll back and record why not. */
    method Install(mg: Resource, r: Replies, ghost sent: string) returns (err: Option<Error>, ghost steps: seq<Step>)
      modifies guard, remote
      ensures Path(mg.Key(), Installing(sent), old(guard.entries), steps) == Some((Idle, guard.entries))
      ensures err.None? <==> r.fetch.Done? && r.install.Done?
      ensures err.None? ==> remote.installed && remote.row == old(remote.row) && guard.entries == old(guard.entries)
      ensures err.Some? ==>
        guard.entries == WithFailure(old(guard.entries), mg.Key(), FingerprintFor(codec, mg.spec, r.secretLater), err)
      ensures err.Some? && FingerprintFor(codec, mg.spec, r.secretLater).Some? ==>
        IsTerminal(err.value) || IsRetryable(err.value)
      ensures remote.log == old(remote.log) + ManifestCalls(false, r.fetch, r.install)
        + (if err.Some? then UndoneBy(mg.spec, r) else [])
      ensures err.Some? && r.delete.TookEffect() ==> !remote.row
    {
      hide Next;
      ghost var key, t0 := mg.Key(), guard.entries;
      err := InstallAgentManifests(false, r.fetch, r.install);
      Extend(key, Installing(sent), t0, [], AgentProtocol.Install(err));
      ghost var fp := FingerprintFor(codec, mg.spec, r.secretLater);
      Installs(key, t0, sent, if err.Some? then err.value else Plain(""), if fp.Some? then fp.value else "");
      steps := [] + [AgentProtocol.Install(err)];
      if err.Some? {
        RollbackCreatedAgent(mg, r);
        var k := ComputeKey(mg, mg.spec, r.secretLater);
        Extend(key, Installing(sent), t0, steps, InstallKey(fp));
        steps := steps + [InstallKey(fp)];
        if k.None? { return; }
        ManifestErrorsAreDecided(err.value);
        err := ClassifyManifestInstallError(err);
        ghost var recorded := RecordTerminalWrite(mg, k.value, err.value);
        Join(key, Installing(sent), t0, steps, recorded);
        steps := steps + recorded;
      }
    }

    method Update(mg: Resource, r: Replies) returns (err: Option<Error>, ghost steps: seq<Step>)
      modifies guard, remote, mg
      ensures Path(mg.Key(), Permitted(false), old(guard.entries), steps) == Some((Idle, guard.entries))
      ensures OnlyFillsIn(old(mg.spec), mg.spec, r.lookup, r.parentWorkspace)
      ensures mg.spec == Written(old(mg.spec), r) && mg.externalName == old(mg.externalName)
      ensures if Sendable(codec, old(mg.spec), r)
        then
          && SentOnly(codec, mg.spec, r, old(remote.log), remote.log, steps)
          && err == ClassifyApplyError(r.apply.Outcome())
        else err.Some?
      ensures remote.log == old(remote.log) + SendCalls(codec, old(mg.spec), r)
      ensures guard.entries == AfterSending(codec, old(guard.entries), mg.Key(), old(mg.spec), r, err)
      ensures err.None? <==> Lands(codec, old(mg.spec), r)
      ensures err.None? ==> remote.row
      ensures remote.installed == old(remote.installed)
      ensures !Keyed(codec, old(mg.spec), r) ==> err == Some(NoKey(old(mg.spec), r))
    {
      err, steps := Apply(mg, false, r);
    }

    /** The guard forgets first; the row goes last, and only when stripping the managed cluster did not fail. */
    method Delete(mg: Resource, drifted: bool, r: Replies) returns (err: Option<Error>, ghost steps: seq<Step>)
      modifies guard, remote
      ensures guard.entries == WithoutResource(old(guard.entries), mg.Key())
      ensures Path(mg.Key(), if drifted then Permitted(false) else Idle, old(guard.entries), steps)
           == Some((Idle, guard.entries))
      ensures err.None? && mg.externalName != "" ==> !remote.row
      ensures err.None? && mg.externalName != "" && mg.spec.removeOnDestroy && mg.spec.HasKubeConfig() ==>
        !remote.installed
      ensures mg.externalName == "" ==> err.None?
      ensures mg.externalName != "" && InstanceID(mg.spec, r.lookup).Err? ==> err == Some(r.lookup.error)
      ensures mg.externalName != "" ==>
        (err.None? <==> Exchange(DeleteRow, Done) in DeleteCalls(mg.spec, mg.externalName, r))
      ensures remote.log == old(remote.log) + DeleteCalls(mg.spec, mg.externalName, r)
      ensures !mg.spec.removeOnDestroy || !mg.spec.HasKubeConfig() ==> remote.installed == old(remote.installed)
      ensures err.Some? && Exchange(DeleteRow, r.delete) in remote.log[|old(remote.log)|..] ==>
        r.delete.Failed? && (IsRetryable(err.value) <==> IsRetryable(r.delete.err) || IsConnectedAgent(r.delete.err))
    {
      ghost var phase := if drifted then Permitted(false) else Idle;
      Extend(mg.Key(), phase, guard.entries, [], AgentProtocol.Delete);
      steps := [] + [AgentProtocol.Delete];
      guard.Clear(mg.Key());
      if mg.externalName == "" { return None, steps; }
      var id := InstanceID(mg.spec, r.lookup);
      if id.Err? { return Some(id.error), steps; }
      if mg.spec.removeOnDestroy && mg.spec.HasKubeConfig() {
        err := InstallAgentManifests(true, r.stripFetch, r.strip);
        if err.Some? { return; }
      }
      err := remote.Do(DeleteRow, r.delete);
      if err.Some? && IsConnectedAgent(err.value) {
        err := Some(AsRetryable(err.value));
      }
    }

    /** One pass of the managed runtime: it writes only after an error-free Observe of the same pass. */
    method Reconcile(mg: Resource, seen: Readings, r: Replies) returns (err: Option<Error>, ghost steps: seq<Step>)
      modifies guard, remote, mg
      ensures Path(mg.Key(), Idle, old(guard.entries), steps) == Some((Idle, guard.entries))
      ensures InstanceID(old(mg.spec), seen.lookup).Ok? && !mg.deleting ==>
        var id := InstanceID(old(mg.spec), seen.lookup).value;
        var fp := FingerprintFor(codec, Effective(old(mg.spec), id, seen.parentWorkspace), seen.secret);
        fp.Some? && HasPayload(old(guard.entries), mg.Key().(fingerprint := fp.value)) ==>
          && remote.log == old(remote.log) && guard.entries == old(guard.entries)
          && mg.spec == old(mg.spec).(kargoInstanceID := id)
          && err.Some? && RemembersError(guard.entries, mg.Key().(fingerprint := fp.value), err.value)
      ensures InstanceID(old(mg.spec), seen.lookup).Err? ==>
        && err == Some(InstanceID(old(mg.spec), seen.lookup).error)
        && remote.log == old(remote.log) && guard.entries == old(guard.entries) && mg.spec == old(mg.spec)
      ensures InstanceID(old(mg.spec), seen.lookup).Ok? && !HasResource(old(guard.entries), mg.Key()) ==>
        match Unguarded(codec, old(mg.spec), old(mg.externalName), seen)
        case Err(e) => err == Some(e) && remote.log == old(remote.log)
        case Ok(Observation(found, same)) =>
          if mg.deleting then
            if found then err.None? && mg.externalName != "" ==> !remote.row
            else err.None? && remote.log == old(remote.log)
          else if found && same then
            && err.None? && remote.log == old(remote.log)
            && remote.row == old(remote.row) && guard.entries == old(guard.entries)
          else if err.Some? then true
          else
            && remote.row && |remote.log| > |old(remote.log)|
            && (!found && mg.spec.HasKubeConfig() ==> remote.installed)
    {
      hide Next;
      hide FingerprintFor;
      hide Matches;
      ghost var key, t0 := mg.Key(), guard.entries;
      if InstanceID(mg.spec, seen.lookup).Ok? {
        RoutingIsNotObserved(codec, mg.spec, InstanceID(mg.spec, seen.lookup).value, mg.externalName, seen);
      }
      hide Unguarded;
      var observed, looked := Observe(mg, seen);
      steps := looked;
      if observed.Err? { return Some(observed.error), steps; }
      var o := observed.value;
      ghost var written := [];
      ghost var phase, t1 := PhaseAfterObserve(observed), guard.entries;
      assert Path(key, phase, t1, []) == Some((phase, t1));
      hide Path;
      err := None;
      if mg.deleting {
        if o.found {
          err, written := Delete(mg, !o.upToDate, r);
        } else {
          Declines(key, t1);
          Extend(key, phase, t1, written, Stop);
          written := written + [Stop];
        }
      } else if !o.found {
        err, written := Create(mg, r);
      } else if !o.upToDate {
        err, written := Update(mg, r);
      }
      Join(key, Idle, t0, looked, written);
      steps := looked + written;
    }

    /** An Update that went through and the pass after it: against a platform that echoes what was sent, up to what it
        owns, the second pass finds nothing to do and sends nothing. */
    method UpdateThenReconcile(
      mg: Resource, r: Replies, seen: Readings, later: Replies, sent: Agents.Data, shown: Agents.Data)
      returns (err: Option<Error>, again: Option<Error>)
      requires !mg.deleting && mg.externalName != "" && Agents.Reflexive(codec.yaml)
      requires Agents.CustomSize(mg.spec.name, mg.spec.data, codec.yaml) == Ok(sent)
      requires Shows(seen, mg.spec, shown) && Agents.Echoes(mg.spec.data, sent, shown, codec.yaml)
      requires seen.lookup.Ok?
      modifies guard, remote, mg
      ensures err.None? ==> again.None? && remote.row && guard.entries == WithoutResource(old(guard.entries), mg.Key())
      ensures err.None? ==> |remote.log| == |old(remote.log)| + 1
    {
      ghost var steps;
      err, steps := Update(mg, r);
      again := None;
      if err.Some? { return; }
      EchoIsObserved(codec, mg.spec, sent, mg.externalName, seen, shown);
      assert !HasResource(guard.entries, mg.Key());
      assert InstanceID(mg.spec, seen.lookup).Ok?;
      assert Unguarded(codec, mg.spec, mg.externalName, seen) == Ok(Observation(true, true));
      hide HasResource;
      hide WithoutResource;
      hide Unguarded;
      hide FingerprintFor;
      again, steps := Reconcile(mg, seen, later);
    }

    /** A pass that is held back returns what holds it back and sends nothing. */
    method ReconcileHeldBack(mg: Resource, seen: Readings, later: Replies, ghost held: Error)
      returns (err: Option<Error>)
      requires !mg.deleting && HeldBack(codec, guard.entries, mg.Key(), mg.spec, ReadsBefore(seen), held)
      modifies guard, remote, mg
      ensures err == Some(held) && remote.log == old(remote.log)
      ensures HeldBack(codec, guard.entries, mg.Key(), mg.spec, ReadsBefore(seen), held)
    {
      hide FingerprintFor;
      hide Unguarded;
      ghost var p, b := mg.spec, ReadsBefore(seen);
      ghost var steps;
      if InstanceID(p, b.lookup).Ok? {
        WrittenIsAskedAgain(codec, guard.entries, mg.Key(), p, InstanceID(p, b.lookup).value, b, held);
      }
      err, steps := Reconcile(mg, seen, later);
    }

    /** Any number of them. */
    method PassesHeldBack(mg: Resource, passes: seq<(Readings, Replies)>, ghost b: Before, ghost held: Error)
      returns (errs: seq<Option<Error>>)
      requires !mg.deleting && HeldBack(codec, guard.entries, mg.Key(), mg.spec, b, held)
      requires forall pass | pass in passes :: ReadsBefore(pass.0) == b
      modifies guard, remote, mg
      ensures errs == seq(|passes|, _ => Some(held)) && remote.log == old(remote.log)
    {
      hide HeldBack;
      errs := [];
      for n := 0 to |passes|
        invariant errs == seq(n, _ => Some(held)) && remote.log == old(remote.log)
        invariant HeldBack(codec, guard.entries, mg.Key(), mg.spec, b, held)
      {
        assert passes[n] in passes;
        var err := ReconcileHeldBack(mg, passes[n].0, passes[n].1, held);
        errs := errs + [err];
      }
    }

    /** An Update that failed terminally and the passes after it: while what is read before the guard is asked stays
        what the Update read, every pass returns the Update's error and sends nothing. */
    method FailedUpdateThenReconcile(mg: Resource, r: Replies, passes: seq<(Readings, Replies)>)
      returns (err: Option<Error>, errs: seq<Option<Error>>)
      requires !mg.deleting
      requires forall pass | pass in passes :: ReadsBefore(pass.0) == Before(r.lookup, r.parentWorkspace, r.secret)
      modifies guard, remote, mg
      ensures err.Some? && IsTerminal(err.value) ==>
        && errs == seq(|passes|, _ => err)
        && remote.log == old(remote.log) + SendCalls(codec, old(mg.spec), r)
    {
      ghost var p, b, t0 := mg.spec, Before(r.lookup, r.parentWorkspace, r.secret), guard.entries;
      ghost var steps;
      err, steps := Update(mg, r);
      errs := [];
      if err.None? || !IsTerminal(err.value) { return; }
      if Keyed(codec, p, r) { FailureHoldsBack(codec, t0, mg.Key(), p, b, err.value); }
      errs := PassesHeldBack(mg, passes, b, err.value);
    }

    /** A Create that failed terminally and the passes after it, likewise. A failed install is charged to the
        fingerprint taken after it, so there the Secret must read as it did then, and there must be one. */
    method FailedCreateThenReconcile(mg: Resource, r: Replies, passes: seq<(Readings, Replies)>)
      returns (err: Option<Error>, errs: seq<Option<Error>>)
      requires !mg.deleting
      requires forall pass | pass in passes ::
        ReadsBefore(pass.0)
        == Before(r.lookup, r.parentWorkspace, if Lands(codec, mg.spec, r) then r.secretLater else r.secret)
      modifies guard, remote, mg
      ensures err.Some? && IsTerminal(err.value) && Chargeable(codec, old(mg.spec), r) ==>
        && errs == seq(|passes|, _ => err)
        && remote.log == old(remote.log) + CreateCalls(codec, old(mg.spec), r)
    {
      var p := mg.spec;
      ghost var t0, steps := guard.entries, [];
      ghost var b := Before(r.lookup, r.parentWorkspace, if Lands(codec, p, r) then r.secretLater else r.secret);
      err, steps := Create(mg, r);
      errs := [];
      if err.None? || !IsTerminal(err.value) || !Chargeable(codec, p, r) { return; }
      if Lands(codec, p, r) {
        FailureHoldsBack(codec, WithoutResource(t0, mg.Key()), mg.Key(), p, b, err.value);
      } else if Keyed(codec, p, r) {
        FailureHoldsBack(codec, t0, mg.Key(), p, b, err.value);
      }
      errs := PassesHeldBack(mg, passes, b, err.value);
    }
  }
}
