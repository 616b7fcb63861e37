/** Creating a Cluster (cluster/cluster.go): apply, set maintenance, install, or undo all of it. */
module ClusterCreate {
  import opened Wrappers
  import opened Reason
  import opened Guard
  import opened Platform
  import opened Fingerprint

  const CLUSTER := "core.akuity.crossplane.io/v1alpha1, Kind=Cluster"

  /** The maintenance fields as written by the user or reported by the platform. */
  datatype Maintenance = Maintenance(mode: Option<bool>, expiry: Option<string>)
  datatype Parameters = Parameters(instanceID: string, name: string, target: Target, removeOnDestroy: bool,
                                   maintenance: Maintenance, rest: string)
  {
    predicate HasKubeConfig() { target.HasKubeConfig() }
    predicate Strips() { removeOnDestroy && HasKubeConfig() }
  }

  datatype Replies = Replies(apply: Reply, maintain: Reply, fetch: Reply, install: Reply,
                             stripFetch: Reply, strip: Reply, delete: Reply)

  /** RFC 3339 parsing, to the instant it denotes. */
  type Clock = string -> Result<int, Error>

  /** Request building, encoding, hashing and clocks, as the libraries do them. */
  datatype Codec = Codec(build: Parameters -> Result<string, Error>, encoders: Encoders<Parameters>,
                         sha: string -> string, clock: Clock)

  class Resource {
    const uid: string
    const namespace: string
    const name: string
    var spec: Parameters
    var observed: Maintenance
    var externalName: string

    constructor (
      uid: string, namespace: string, name: string, spec: Parameters, observed: Maintenance, externalName: string)
      ensures this.uid == uid && this.namespace == namespace && this.name == name
      ensures this.spec == spec && this.observed == observed && this.externalName == externalName
    {
      this.uid, this.namespace, this.name := uid, namespace, name;
      this.spec, this.observed, this.externalName := spec, observed, externalName;
    }

    function Key(): WriteKey { WriteKey(CLUSTER, uid, namespace, name, "") }
  }

  // ----- Maintenance mode -----

  /** What the user asks for: nothing, something unreadable, or a mode with an optional end. */
  datatype Wish = Silent | Unreadable(err: Error) | Wanted(mode: bool, until: Option<int>)

  function WishOf(m: Maintenance, clock: Clock): Wish {
    if m.mode.None? && m.expiry.None? then Silent
    else
      var mode := m.mode.Some? && m.mode.value;
      if m.expiry.None? || m.expiry.value == "" then Wanted(mode, None)
      else match clock(m.expiry.value)
        case Ok(t) => Wanted(mode, Some(t))
        case Err(e) => Unreadable(e)
  }

  /** The platform reports the wanted mode and an end at the same instant, however either is spelt. */
  predicate Reports(m: Maintenance, mode: bool, until: Option<int>, clock: Clock) {
    && m.mode == Some(mode)
    && (until.None? <==> m.expiry.None?)
    && (until.Some? ==> clock(m.expiry.value) == Ok(until.value))
  }

  method MaintenanceModeAlreadyApplied(observed: Maintenance, mode: bool, until: Option<int>, clock: Clock)
    returns (applied: bool)
    ensures applied <==> Reports(observed, mode, until, clock)
  {
    if observed.mode.None? { return false; }
    if observed.mode.value != mode { return false; }
    if until.None? { return observed.expiry.None?; }
    if observed.expiry.None? { return false; }
    match clock(observed.expiry.value)
    case Err(_) => return false;
    case Ok(t) => return t == until.value;
  }

  /** Two spellings of one instant are one wish: respelling an expiry the platform already reports sends nothing. */
  lemma RespeltExpiryIsApplied(m: Maintenance, respelt: string, clock: Clock)
    requires m.mode.Some? && m.expiry.Some? && m.expiry.value != "" && respelt != ""
    requires clock(m.expiry.value).Ok? && clock(respelt) == clock(m.expiry.value)
    ensures WishOf(m.(expiry := Some(respelt)), clock) == WishOf(m, clock)
    ensures var w := WishOf(m, clock); w.Wanted? && Reports(m, w.mode, w.until, clock)
  {}

  /** When a report settles a wish exactly: all but an empty-string expiry, which wants none yet is reported as one. */
  lemma EchoSettlesExactly(m: Maintenance, clock: Clock)
    requires WishOf(m, clock).Wanted?
    ensures var w := WishOf(m, clock);
      Reports(m, w.mode, w.until, clock) <==> m.mode.Some? && m.expiry != Some("")
  {}

  /** Only fields left out altogether ask for nothing, and only text that is no instant is unreadable. */
  lemma WishesExactly(m: Maintenance, clock: Clock)
    ensures WishOf(m, clock) == Silent <==> m == Maintenance(None, None)
    ensures WishOf(m, clock).Unreadable? <==> m.expiry.Some? && m.expiry.value != "" && clock(m.expiry.value).Err?
    ensures WishOf(m, clock).Wanted? ==>
      var w := WishOf(m, clock);
      && (w.mode <==> m.mode == Some(true))
      && (w.until.Some? ==> m.expiry.Some? && clock(m.expiry.value) == Ok(w.until.value))
      && (w.until.None? <==> m.expiry in {None, Some("")})
  {}

  /** What the platform reports is one wish: another mode or another instant is not reported too. */
  lemma ReportIsOfOneWish(m: Maintenance, mode: bool, until: Option<int>, other: bool, later: Option<int>, clock: Clock)
    requires Reports(m, mode, until, clock) && Reports(m, other, later, clock)
    ensures mode == other && until == later
  {}

  // ----- What a write does -----

  function PayloadOf(c: Codec, p: Parameters, secret: string): Payload<Parameters> {
    match c.build(p)
    case Ok(body) => Request("*argocdv1.ApplyInstanceRequest", body, p.target.Text(secret))
    case Err(e) => Unbuildable("v1alpha1.ClusterParameters", p, p.target.Text(secret), e.Text())
  }

  /** The key a write of `mg` is recorded under; None when its parts do not encode. */
  function KeyFor(c: Codec, mg: Resource, secret: string): Option<WriteKey>
    reads mg
  {
    match FingerprintOf(PayloadOf(c, mg.spec, secret), c.encoders, c.sha)
    case None => None
    case Some(fp) => Some(mg.Key().(fingerprint := fp))
  }

  function Undone(p: Parameters, r: Replies): seq<Exchange> {
    RollbackCalls(p.Strips(), r.stripFetch, r.strip, r.delete)
  }

  /** What installing calls; a failure is followed by the rollback. */
  function ManifestPart(p: Parameters, r: Replies): seq<Exchange> {
    if !p.HasKubeConfig() then []
    else
      ManifestCalls(false, r.fetch, r.install) + (if r.fetch.Done? && r.install.Done? then [] else Undone(p, r))
  }

  /** What follows once the row has landed: the maintenance wish, then the manifests. */
  function AfterLanding(mg: Resource, clock: Clock, r: Replies): seq<Exchange>
    reads mg
  {
    match WishOf(mg.spec.maintenance, clock)
    case Silent => ManifestPart(mg.spec, r)
    case Unreadable(_) => Undone(mg.spec, r)
    case Wanted(mode, until) =>
      if Reports(mg.observed, mode, until, clock) then ManifestPart(mg.spec, r)
      else
        [Exchange(SetMaintenance(mode, until), r.maintain)]
        + (if r.maintain.Done? then ManifestPart(mg.spec, r) else Undone(mg.spec, r))
  }

  /** There is a key, and there is something to send. */
  predicate Sendable(c: Codec, mg: Resource, secret: string)
    reads mg
  {
    KeyFor(c, mg, secret).Some? && c.build(mg.spec).Ok?
  }

  lemma SameForEveryFingerprint(t: Entries, a: WriteKey, b: WriteKey)
    requires a == b.(fingerprint := a.fingerprint)
    ensures WithoutResource(t, a) == WithoutResource(t, b)
  {}

  /** No failure after the row has landed. */
  predicate GoesThrough(mg: Resource, clock: Clock, r: Replies)
    reads mg
  {
    && (match WishOf(mg.spec.maintenance, clock)
        case Silent => true
        case Unreadable(_) => false
        case Wanted(mode, until) => Reports(mg.observed, mode, until, clock) || r.maintain.Done?)
    && (mg.spec.HasKubeConfig() ==> r.fetch.Done? && r.install.Done?)
  }

  /** The user's maintenance wish is met: there is none, the platform reported it, or it was sent and accepted. */
  predicate Maintained(mg: Resource, calls: seq<Exchange>, clock: Clock)
    reads mg
  {
    match WishOf(mg.spec.maintenance, clock)
    case Silent => true
    case Unreadable(_) => false
    case Wanted(mode, until) =>
      Reports(mg.observed, mode, until, clock) || Exchange(SetMaintenance(mode, until), Done) in calls
  }

  /** A terminal failure is what the guard now holds for the resource; any other leaves nothing new behind. */
  ghost predicate Remembered(before: Entries, after: Entries, key: WriteKey, err: Error) {
    if IsTerminal(err) then after == WithoutResource(before, key)[key := err]
    else after == before || after == WithoutResource(before, key)
  }

  lemma RecordedTwice(t: Entries, key: WriteKey)
    ensures WithoutResource(WithoutResource(t, key), key) == WithoutResource(t, key)
  {}

  /** What a Create calls: the row, once, and what follows when it has landed. */
  function CreateCalls(c: Codec, mg: Resource, secret: string, r: Replies): seq<Exchange>
    reads mg
  {
    if !Sendable(c, mg, secret) then []
    else
      [Exchange(ApplyRow(c.build(mg.spec).value), r.apply)]
      + (if r.apply.Done? then AfterLanding(mg, c.clock, r) else [])
  }

  /** Whether a call is among those of the manifest part, of the rollback, or of both. */
  lemma PartCalls(p: Parameters, r: Replies, call: Call)
    ensures var installed := r.fetch.Done? && r.install.Done?;
      HasCall(ManifestPart(p, r), call) <==>
        p.HasKubeConfig() && (
          || call == FetchManifests || (r.fetch.Done? && call == InstallManifests)
          || (!installed && HasCall(Undone(p, r), call)))
    ensures HasCall(Undone(p, r), call) <==>
      call == DeleteRow || (p.Strips() && (call == FetchManifests || (r.stripFetch.Done? && call == RemoveManifests)))
    ensures EndsWithOnly(Undone(p, r), Exchange(DeleteRow, r.delete))
    ensures p.HasKubeConfig() && !(r.fetch.Done? && r.install.Done?) ==>
      EndsWithOnly(ManifestPart(p, r), Exchange(DeleteRow, r.delete))
  {
    RollbackCallsExactly(p.Strips(), r.stripFetch, r.strip, r.delete, call);
    if p.HasKubeConfig() {
      var first, undone := ManifestCalls(false, r.fetch, r.install), Undone(p, r);
      ManifestCallsExactly(false, r.fetch, r.install, call);
      ManifestCallsExactly(false, r.fetch, r.install, DeleteRow);
      hide ManifestCalls;
      hide RollbackCalls;
      hide HasCall;
      HasCallEither(first, undone, call);
      if !(r.fetch.Done? && r.install.Done?) {
        EndsWithTail(first, undone, Exchange(DeleteRow, r.delete));
      } else {
        assert first + [] == first;
      }
    }
  }

  lemma OneCall(e: Exchange, call: Call)
    ensures HasCall([e], call) <==> e.call == call
  {
    assert [e][0] == e;
  }

  /** After the row has landed: the wish is sent exactly when there is one that the platform does not report; manifests
      are installed only on a cluster with a kubeconfig and only once the wish is settled; the row is deleted, last and
      once, exactly when something failed; and the cluster is stripped only then, only when asked to and fetchable. */
  lemma AfterLandingExactly(mg: Resource, clock: Clock, r: Replies, call: Call)
    ensures var (calls, p, wish) := (AfterLanding(mg, clock, r), mg.spec, WishOf(mg.spec.maintenance, clock));
      var sends := wish.Wanted? && !Reports(mg.observed, wish.mode, wish.until, clock);
      var settled := !wish.Unreadable? && (sends ==> r.maintain.Done?);
      var fails := !settled || (p.HasKubeConfig() && !(r.fetch.Done? && r.install.Done?));
      var strips := fails && p.removeOnDestroy && p.HasKubeConfig();
      && (HasCall(calls, call) <==>
            || (sends && call == SetMaintenance(wish.mode, wish.until))
            || (call == FetchManifests && ((settled && p.HasKubeConfig()) || strips))
            || (call == InstallManifests && settled && p.HasKubeConfig() && r.fetch.Done?)
            || (call == RemoveManifests && strips && r.stripFetch.Done?)
            || (call == DeleteRow && fails))
      && (fails ==> EndsWithOnly(calls, Exchange(DeleteRow, r.delete)))
  {
    var p, wish := mg.spec, WishOf(mg.spec.maintenance, clock);
    PartCalls(p, r, call);
    hide WishOf;
    hide Reports;
    hide ManifestPart;
    hide Undone;
    if wish.Wanted? && !Reports(mg.observed, wish.mode, wish.until, clock) {
      var first := [Exchange(SetMaintenance(wish.mode, wish.until), r.maintain)];
      var rest := if r.maintain.Done? then ManifestPart(p, r) else Undone(p, r);
      HasCallEither(first, rest, call);
      OneCall(first[0], call);
      OneCall(first[0], DeleteRow);
      hide HasCall;
      if EndsWithOnly(rest, Exchange(DeleteRow, r.delete)) { EndsWithTail(first, rest, Exchange(DeleteRow, r.delete)); }
    }
    hide HasCall;
    hide EndsWithOnly;
  }

  lemma GoneThroughIsMaintained(mg: Resource, clock: Clock, r: Replies)
    requires GoesThrough(mg, clock, r)
    ensures forall first: seq<Exchange> :: Maintained(mg, first + AfterLanding(mg, clock, r), clock)
  {
    hide Reports;
    hide ManifestPart;
  }

  // ----- The client -----

  class Client {
    const guard: TerminalWriteGuard
    const remote: Remote
    const codec: Codec
    const clock := codec.clock

    constructor (guard: TerminalWriteGuard, remote: Remote, codec: Codec)
      ensures this.guard == guard && this.remote == remote && this.codec == codec
    {
      this.guard, this.remote, this.codec := guard, remote, codec;
    }

    method ClusterTerminalWriteKey(mg: Resource, secret: string) returns (key: Option<WriteKey>)
      ensures key == KeyFor(codec, mg, secret)
    {
      key := NewTerminalWriteKey(
        CLUSTER, mg.uid, mg.namespace, mg.name, Parts(PayloadOf(codec, mg.spec, secret)), codec.encoders, codec.sha);
    }

    /** Sends the wish, unless there is none, it is unreadable, or the platform already reports it. */
    method SyncMaintenanceMode(mg: Resource, reply: Reply) returns (err: Option<Error>)
      modifies remote
      ensures remote.row == old(remote.row) && remote.installed == old(remote.installed)
      ensures match WishOf(mg.spec.maintenance, clock)
        case Silent => err.None? && remote.log == old(remote.log)
        case Unreadable(e) => err.Some? && IsTerminal(err.value) && remote.log == old(remote.log)
        case Wanted(mode, until) =>
          if Reports(mg.observed, mode, until, clock) then err.None? && remote.log == old(remote.log)
          else err == reply.Outcome() && remote.log == old(remote.log) + [Exchange(SetMaintenance(mode, until), reply)]
    {
      var m := mg.spec.maintenance;
      if m.mode.None? && m.expiry.None? { return None; }
      var mode := false;
      if m.mode.Some? { mode := m.mode.value; }
      var until := None;
      if m.expiry.Some? && m.expiry.value != "" {
        match clock(m.expiry.value) {
          case Err(e) =>
            return Some(AsTerminal(Wrapped(
              "could not parse spec.forProvider.data.maintenanceModeExpiry as RFC3339: ", e, "")));
          case Ok(t) => until := Some(t);
        }
      }
      var applied := MaintenanceModeAlreadyApplied(mg.observed, mode, until, clock);
      if applied { return None; }
      err := remote.Do(SetMaintenance(mode, until), reply);
    }

    /** Strips the manifests when asked to and they can be fetched, then deletes the row; failures are only logged. */
    method RollbackCreatedCluster(mg: Resource, r: Replies)
      modifies remote
      ensures remote.log == old(remote.log) + Undone(mg.spec, r)
      ensures r.delete.TookEffect() ==> !remote.row
    {
      if mg.spec.Strips() {
        var err := remote.Do(FetchManifests, r.stripFetch);
        if err.None? {
          var _ := remote.Do(RemoveManifests, r.strip);
        }
      }
      var _ := remote.Do(DeleteRow, r.delete);
    }

    method RecordTerminalWrite(key: WriteKey, err: Option<Error>) returns (same: Option<Error>)
      modifies guard
      ensures guard.entries == Recorded(old(guard.entries), key, err) && same == err
    {
      guard.Record(key, err);
      same := err;
    }

    /** All or rolled back; whatever is given up on is what the guard will hold back, under the fingerprint of the very
        request that was sent. */
    method Create(mg: Resource, secret: string, r: Replies) returns (err: Option<Error>)
      modifies guard, remote, mg
      ensures old(remote.log) <= remote.log
      ensures mg.spec == old(mg.spec) && mg.observed == old(mg.observed)
      ensures mg.externalName == if err.None? then mg.spec.name else old(mg.externalName)
      ensures err.None? <==> Sendable(codec, mg, secret) && r.apply.Done? && GoesThrough(mg, clock, r)
      ensures Sendable(codec, mg, secret) && r.apply.Failed? ==> err == ClassifyApplyError(Some(r.apply.err))
      ensures err.None? ==> remote.row && Maintained(mg, remote.log[|old(remote.log)|..], clock)
      ensures err.None? ==> (mg.spec.HasKubeConfig() ==> remote.installed)
      ensures err.None? ==> guard.entries == WithoutResource(old(guard.entries), mg.Key())
      ensures remote.log == old(remote.log) + CreateCalls(codec, mg, secret, r)
      ensures err.Some? && Sendable(codec, mg, secret) && r.apply.Done? ==> (r.delete.TookEffect() ==> !remote.row)
      ensures err.Some? && KeyFor(codec, mg, secret).Some? ==>
        Remembered(old(guard.entries), guard.entries, KeyFor(codec, mg, secret).value, err.value)
      ensures err.Some? && KeyFor(codec, mg, secret).None? ==> guard.entries == old(guard.entries)
    {
      hide FingerprintOf;
      ghost var log0 := remote.log;
      var key := ClusterTerminalWriteKey(mg, secret);
      if key.None? { return Some(Plain("fingerprint")); }
      var request := codec.build(mg.spec);
      if request.Err? {
        err := RecordTerminalWrite(key.value,
          ClassifyApplyError(Some(Wrapped("cannot transform cluster to Akuity API model: ", request.error, ""))));
        return;
      }
      err := remote.Do(ApplyRow(request.value), r.apply);
      ghost var first := [Exchange(ApplyRow(request.value), r.apply)];
      assert remote.log[|log0|..] == first;
      if err.Some? {
        err := RecordTerminalWrite(key.value, ClassifyApplyError(err));
        return;
      }
      err := Complete(mg, key.value, r);
      if err.Some? { return; }
      GoneThroughIsMaintained(mg, clock, r);
      assert remote.log[|log0|..] == first + AfterLanding(mg, clock, r);
      SameForEveryFingerprint(old(guard.entries), key.value, mg.Key());
      mg.externalName := mg.spec.name;
    }

    /** Everything after the row has landed. */
    method Complete(mg: Resource, key: WriteKey, r: Replies) returns (err: Option<Error>)
      modifies guard, remote
      ensures remote.log == old(remote.log) + AfterLanding(mg, clock, r)
      ensures err.None? <==> GoesThrough(mg, clock, r)
      ensures err.None? ==> remote.row == old(remote.row)
      ensures err.None? ==> (mg.spec.HasKubeConfig() ==> remote.installed)
      ensures err.None? ==> guard.entries == WithoutResource(old(guard.entries), key)
      ensures err.Some? ==> (r.delete.TookEffect() ==> !remote.row)
      ensures err.Some? ==> Remembered(old(guard.entries), guard.entries, key, err.value)
    {
      ghost var t0 := guard.entries;
      err := SyncMaintenanceMode(mg, r.maintain);
      if err.Some? {
        RollbackCreatedCluster(mg, r);
        err := RecordTerminalWrite(key, ClassifyApplyError(err));
        return;
      }
      guard.Clear(key);
      RecordedTwice(t0, key);
      if mg.spec.HasKubeConfig() {
        err := InstallClusterManifests(mg, key, r);
      }
    }

    method InstallClusterManifests(mg: Resource, key: WriteKey, r: Replies) returns (err: Option<Error>)
      modifies guard, remote
      ensures err.None? <==> r.fetch.Done? && r.install.Done?
      ensures err.None? ==> remote.installed && remote.row == old(remote.row)
      ensures remote.log == old(remote.log) + ManifestCalls(false, r.fetch, r.install)
        + (if err.Some? then Undone(mg.spec, r) else [])
      ensures err.Some? ==> (r.delete.TookEffect() ==> !remote.row)
      ensures err.Some? ==> (IsTerminal(err.value) || IsRetryable(err.value))
      ensures guard.entries == Recorded(old(guard.entries), key, err)
    {
      err := remote.Do(FetchManifests, r.fetch);
      if err.Some? {
        RollbackCreatedCluster(mg, r);
        var failed := Wrapped("could not get cluster manifests to apply: ", err.value, "");
        ManifestErrorsAreDecided(failed);
        err := RecordTerminalWrite(key, ClassifyManifestInstallError(Some(failed)));
        return;
      }
      err := remote.Do(InstallManifests, r.install);
      if err.Some? {
        RollbackCreatedCluster(mg, r);
        var failed := Wrapped("could not apply cluster manifests: ", err.value, "");
        ManifestErrorsAreDecided(failed);
        err := RecordTerminalWrite(key, ClassifyManifestInstallError(Some(failed)));
      }
    }
  }
}
