/** Any number of KargoAgent reconciles sharing one guard (kargoagent/kargoagent.go), one atomic step at a time. */
module AgentProtocol {
  import opened Wrappers
  import opened Reason
  import opened Guard

  const AGENT := "core.akuity.crossplane.io/v1alpha1, Kind=KargoAgent"

  /** Where the reconcile of one resource stands. A fingerprint is that of the payload the resource would send now. */
  datatype Phase =
    | Idle
    | Checking                                        // Observe has resolved the parent instance
    | Asking(drifted: bool)                           // about to compute the fingerprint for Suppress
    | Asked(drifted: bool, fingerprint: string)       // about to call Suppress
    | Reading                                         // about to read the platform
    | Settled                                         // up to date
    | Stale                                           // up to date, with a failure still remembered
    | Permitted(creating: bool)                       // error-free Observe: the runtime may write
    | Writing(creating: bool, fingerprint: string)    // about to send
    | Landed(creating: bool, fingerprint: string)     // sent; about to clear
    | Installing(fingerprint: string)                 // about to install manifests for what was sent
    | NotInstalled(fingerprint: string, err: Error)   // rolled back; about to compute a fingerprint again
    | Recording(fingerprint: string, err: Error)      // about to tell the guard

  datatype ReadResult = Absent | Unreadable | Drifted | UpToDate

  /** Every reading of the outside world (spec, parent, Secrets, platform) is an argument, so it may change any time. */
  datatype Step =
    | Begin
    | Check
    | ObserveKey(computed: Option<string>)
    | Suppress(deleting: bool)
    | Read(result: ReadResult)
    | Forget(known: bool)
    | ApplyKey(computed: Option<string>)
    | BuildFails(cause: Error)
    | Send(reply: Option<Error>)
    | Clear
    | Install(outcome: Option<Error>)
    | InstallKey(computed: Option<string>)
    | Record
    | Delete
    | Stop

  function Unsuppressed(drifted: bool): Phase {
    if drifted then Permitted(false) else Reading
  }

  /** Where a step by one resource leads; None when the code cannot take it there. A reconcile may stop anywhere but
      between a failure and its recording. */
  function Next(key: WriteKey, phase: Phase, table: Entries, step: Step): Option<(Phase, Entries)> {
    match (phase, step)
    case (Idle, Begin) => Some((Checking, table))
    case (Checking, Check) => Some((if HasResource(table, key) then Asking(false) else Reading, table))
    case (Asking(drifted), ObserveKey(None)) => Some((Unsuppressed(drifted), table))
    case (Asking(drifted), ObserveKey(Some(fp))) => Some((Asked(drifted, fp), table))
    case (Asked(drifted, fp), Suppress(deleting)) =>
      var k := key.(fingerprint := fp);
      var held := !deleting && HasPayload(table, k);
      Some((if held then Idle else Unsuppressed(drifted), AfterSuppress(table, k, deleting)))
    case (Reading, Read(Absent)) => Some((Permitted(true), table))
    case (Reading, Read(Unreadable)) => Some((Idle, table))
    case (Reading, Read(Drifted)) => Some((Asking(true), table))
    case (Reading, Read(UpToDate)) => Some((Settled, table))
    case (Settled, Check) => Some((if HasResource(table, key) then Stale else Idle, table))
    case (Stale, Forget(known)) => Some((Idle, if known then WithoutResource(table, key) else table))
    case (Permitted(_), ApplyKey(None)) => Some((Idle, table))
    case (Permitted(creating), ApplyKey(Some(fp))) => Some((Writing(creating, fp), table))
    case (Writing(_, fp), BuildFails(e)) => Some((Recording(fp, ClassifyApplyError(Some(e)).value), table))
    case (Writing(_, fp), Send(Some(e))) => Some((Recording(fp, ClassifyApplyError(Some(e)).value), table))
    case (Writing(creating, fp), Send(None)) => Some((Landed(creating, fp), table))
    case (Landed(creating, fp), Clear) => Some((if creating then Installing(fp) else Idle, WithoutResource(table, key)))
    case (Installing(_), Install(None)) => Some((Idle, table))
    case (Installing(sent), Install(Some(e))) => Some((NotInstalled(sent, e), table))
    case (NotInstalled(_, _), InstallKey(None)) => Some((Idle, table))
    case (NotInstalled(_, e), InstallKey(Some(fp))) =>
      Some((Recording(fp, ClassifyManifestInstallError(Some(e)).value), table))
    case (Recording(fp, err), Record) => Some((Idle, Recorded(table, key.(fingerprint := fp), Some(err))))
    case (Idle, Delete) => Some((Idle, WithoutResource(table, key)))
    case (Permitted(_), Delete) => Some((Idle, WithoutResource(table, key)))
    case (_, Stop) => if phase.NotInstalled? || phase.Recording? then None else Some((Idle, table))
    case _ => None
  }

  // ----- Whole runs -----

  datatype Event =
    | Agent(uid: string, namespace: string, name: string, step: Step)
    | Other(op: Op)  // another kind of resource using the same guard

  datatype State = State(table: Entries, phases: map<string, Phase>)

  function PhaseOf(s: State, uid: string): Phase {
    if uid in s.phases then s.phases[uid] else Idle
  }

  function KeyOf(e: Event): WriteKey
    requires e.Agent?
  {
    WriteKey(AGENT, e.uid, e.namespace, e.name, "")
  }

  function Apply(s: State, e: Event): Option<State> {
    match e
    case Agent(uid, _, _, step) =>
      if uid == "" then None else
        (match Next(KeyOf(e), PhaseOf(s, uid), s.table, step)
         case None => None
         case Some((phase, table)) => Some(State(table, s.phases[uid := phase])))
    case Other(op) => if op.key.gvk == AGENT then None else Some(State(Guard.Step(s.table, op), s.phases))
  }

  /** The state after a run; None when some event of it was impossible. */
  function Exec(run: seq<Event>): Option<State> {
    if run == [] then Some(State(map[], map[])) else
      match Exec(run[..|run| - 1])
      case None => None
      case Some(s) => Apply(s, run[|run| - 1])
  }

  lemma {:induction false} PrefixesRun(run: seq<Event>, n: nat)
    requires n <= |run| && Exec(run).Some?
    ensures Exec(run[..n]).Some?
    decreases |run|
  {
    if n == |run| {
      assert run[..n] == run;
    } else {
      PrefixesRun(run[..|run| - 1], n);
      assert run[..|run| - 1][..n] == run[..n];
    }
  }

  // ----- No identical write twice -----

  /** In `s`, event `e` is payload `fp` of `uid` failing terminally: not built, not accepted, or not installed. */
  predicate FailsTerminally(s: State, e: Event, uid: string, fp: string) {
    e.Agent? && e.uid == uid &&
    match (PhaseOf(s, uid), e.step)
    case (Writing(_, sent), Send(Some(err))) => sent == fp && IsTerminal(ClassifyApplyError(Some(err)).value)
    case (Writing(_, built), BuildFails(err)) => built == fp && IsTerminal(ClassifyApplyError(Some(err)).value)
    case (Installing(sent), Install(Some(err))) =>
      sent == fp && IsTerminal(ClassifyManifestInstallError(Some(err)).value)
    case _ => false
  }

  /** In `s`, event `e` charges a terminally failed install to payload `fp`, the one computed after the rollback. */
  predicate IsCharged(s: State, e: Event, uid: string, fp: string) {
    e.Agent? && e.uid == uid &&
    match (PhaseOf(s, uid), e.step)
    case (NotInstalled(_, err), InstallKey(Some(now))) =>
      now == fp && IsTerminal(ClassifyManifestInstallError(Some(err)).value)
    case _ => false
  }

  predicate Sends(s: State, e: Event, uid: string, fp: string) {
    && e.Agent? && e.uid == uid && e.step.Send?
    && match PhaseOf(s, uid) case Writing(_, sent) => sent == fp case _ => false
  }

  /** Observe, or the fingerprint taken after a failed install, saw another payload (or none it could fingerprint), or
      the resource is being deleted. */
  predicate Excuses(e: Event, uid: string, fp: string) {
    e.Agent? && e.uid == uid &&
    match e.step
    case ObserveKey(computed) => computed != Some(fp)
    case InstallKey(computed) => computed != Some(fp)
    case Suppress(deleting) => deleting
    case Delete => true
    case _ => false
  }

  ghost predicate Remembers(table: Entries, uid: string, fp: string) {
    exists k :: k in table && k.gvk == AGENT && k.uid == uid && k.fingerprint == fp
  }

  /** From the failure until something excuses a retry, the resource never gets past the guard. */
  ghost predicate Blocked(s: State, uid: string, fp: string) {
    match PhaseOf(s, uid)
    case NotInstalled(sent, err) => sent == fp && IsTerminal(ClassifyManifestInstallError(Some(err)).value)
    case Recording(failed, err) => failed == fp && IsTerminal(err)
    case Idle => Remembers(s.table, uid, fp)
    case Checking => Remembers(s.table, uid, fp)
    case Asking(drifted) => !drifted && Remembers(s.table, uid, fp)
    case Asked(drifted, now) => !drifted && now == fp && Remembers(s.table, uid, fp)
    case _ => false
  }

  lemma BlockedStaysBlocked(s: State, e: Event, uid: string, fp: string)
    requires uid != "" && Blocked(s, uid, fp) && Apply(s, e).Some? && !Excuses(e, uid, fp)
    ensures Blocked(Apply(s, e).value, uid, fp)
  {
    var t := Apply(s, e).value;
    if e.Agent? && e.uid == uid && PhaseOf(s, uid).Recording? {
      assert KeyOf(e).(fingerprint := fp) in t.table;
    } else if !PhaseOf(s, uid).Recording? && !PhaseOf(s, uid).NotInstalled? {
      var k :| k in s.table && k.gvk == AGENT && k.uid == uid && k.fingerprint == fp;
      if e.Agent? && e.uid == uid {
        assert SameResource(k, KeyOf(e)) && SamePayload(k, KeyOf(e).(fingerprint := fp));
      }
      assert k in t.table;
    }
  }

  lemma FailureBlocks(s: State, e: Event, uid: string, fp: string)
    requires (FailsTerminally(s, e, uid, fp) || IsCharged(s, e, uid, fp)) && Apply(s, e).Some?
    ensures Blocked(Apply(s, e).value, uid, fp)
  {}

  /** Event `i` of the run is a terminal failure of payload `fp` for `uid`, or charges one to it. */
  ghost predicate FailedAt(run: seq<Event>, i: nat, uid: string, fp: string) {
    && i < |run| && Exec(run[..i]).Some?
    && (FailsTerminally(Exec(run[..i]).value, run[i], uid, fp) || IsCharged(Exec(run[..i]).value, run[i], uid, fp))
  }

  lemma {:induction false} BlockedUntilExcused(run: seq<Event>, i: nat, uid: string, fp: string)
    requires uid != "" && Exec(run).Some? && FailedAt(run, i, uid, fp)
    requires forall m | i < m < |run| :: !Excuses(run[m], uid, fp)
    ensures Blocked(Exec(run).value, uid, fp)
    decreases |run|
  {
    hide Next;
    hide FailsTerminally;
    hide IsCharged;
    hide Blocked;
    hide Apply;
    var n := |run| - 1;
    if i == n {
      FailureBlocks(Exec(run[..n]).value, run[n], uid, fp);
    } else {
      var init := run[..n];
      PrefixesRun(run, n);
      assert init[..i] == run[..i];
      BlockedUntilExcused(init, i, uid, fp);
      BlockedStaysBlocked(Exec(init).value, run[n], uid, fp);
    }
  }

  /** Over every interleaving: a payload that failed terminally, or was charged with a failed install, is not sent again
      unless another was seen, or a deletion, in between. */
  lemma NoRepeatWithoutExcuse(run: seq<Event>, i: nat, j: nat, uid: string, fp: string)
    requires uid != "" && i < j < |run| && Exec(run).Some? && FailedAt(run, i, uid, fp)
    requires Exec(run[..j]).Some? && Sends(Exec(run[..j]).value, run[j], uid, fp)
    ensures exists m :: i < m < j && Excuses(run[m], uid, fp)
  {
    hide Next;
    hide FailsTerminally;
    hide IsCharged;
    hide Exec;
    if forall m | i < m < j :: !Excuses(run[m], uid, fp) {
      var init := run[..j];
      assert init[..i] == run[..i];
      BlockedUntilExcused(init, i, uid, fp);
    }
  }

  predicate IsInstalling(phase: Phase) { phase.Installing? || phase.NotInstalled? }

  lemma InstallingStays(s: State, e: Event, uid: string, fp: string)
    requires uid != "" && Apply(s, e).Some? && IsInstalling(PhaseOf(Apply(s, e).value, uid))
    requires IsInstalling(PhaseOf(s, uid)) ==> !Remembers(s.table, uid, fp)
    ensures !Remembers(Apply(s, e).value.table, uid, fp)
  {
    if e.Agent? && e.uid == uid && PhaseOf(s, uid).Landed? {
      assert forall k | k in s.table :: k.gvk == AGENT && k.uid == uid ==> SameResource(k, KeyOf(e));
    }
  }

  /** While a resource installs, nothing is remembered for it: the write that landed has just been cleared. */
  lemma {:induction false} InstallingHoldsNothing(run: seq<Event>, uid: string, fp: string)
    requires uid != "" && Exec(run).Some? && IsInstalling(PhaseOf(Exec(run).value, uid))
    ensures !Remembers(Exec(run).value.table, uid, fp)
    decreases |run|
  {
    if run != [] {
      var n := |run| - 1;
      if IsInstalling(PhaseOf(Exec(run[..n]).value, uid)) { InstallingHoldsNothing(run[..n], uid, fp); }
      InstallingStays(Exec(run[..n]).value, run[n], uid, fp);
    }
  }

  /** After a failed install the resource is blocked on what was sent exactly when the fingerprint taken afterwards is
      still that of what was sent. */
  lemma InstallBlocksExactly(run: seq<Event>, e: Event, sent: string, err: Error, computed: Option<string>)
    requires Exec(run).Some? && e.Agent? && e.uid != "" && e.step == InstallKey(computed)
    requires PhaseOf(Exec(run).value, e.uid) == NotInstalled(sent, err)
    requires IsTerminal(ClassifyManifestInstallError(Some(err)).value)
    ensures Apply(Exec(run).value, e).Some?
    ensures Blocked(Apply(Exec(run).value, e).value, e.uid, sent) <==> computed == Some(sent)
  {
    InstallingHoldsNothing(run, e.uid, sent);
    hide Exec;
  }

  // ----- Suppression is always earned -----

  /** Some event of the run was a terminal failure of payload `fp` for `uid`, or charged one to it. */
  ghost predicate HasFailed(run: seq<Event>, uid: string, fp: string) {
    exists i | 0 <= i < |run| :: FailedAt(run, i, uid, fp)
  }

  lemma FailuresLast(run: seq<Event>, uid: string, fp: string)
    requires run != [] && HasFailed(run[..|run| - 1], uid, fp)
    ensures HasFailed(run, uid, fp)
  {
    var init := run[..|run| - 1];
    var i :| 0 <= i < |init| && FailedAt(init, i, uid, fp);
    assert init[..i] == run[..i];
    assert FailedAt(run, i, uid, fp);
  }

  /** Whatever is remembered for `uid`, or about to be, did fail. */
  ghost predicate Holds(s: State, uid: string, fp: string) {
    || Remembers(s.table, uid, fp)
    || match PhaseOf(s, uid) case Recording(failed, err) => failed == fp && IsTerminal(err) case _ => false
  }

  lemma HeldBeforeOrFailedNow(s: State, e: Event, uid: string, fp: string)
    requires uid != "" && Apply(s, e).Some? && Holds(Apply(s, e).value, uid, fp)
    ensures Holds(s, uid, fp) || FailsTerminally(s, e, uid, fp) || IsCharged(s, e, uid, fp)
  {}

  lemma NothingHeldAtFirst(uid: string, fp: string)
    ensures !Holds(State(map[], map[]), uid, fp)
  {}

  lemma {:induction false} HeldMeansFailed(run: seq<Event>, uid: string, fp: string)
    requires uid != "" && Exec(run).Some? && Holds(Exec(run).value, uid, fp)
    ensures HasFailed(run, uid, fp)
    decreases |run|
  {
    hide Holds;
    hide FailsTerminally;
    hide IsCharged;
    if run == [] {
      NothingHeldAtFirst(uid, fp);
    } else {
      var n := |run| - 1;
      var s, e := Exec(run[..n]).value, run[n];
      HeldBeforeOrFailedNow(s, e, uid, fp);
      if Holds(s, uid, fp) {
        HeldMeansFailed(run[..n], uid, fp);
        FailuresLast(run, uid, fp);
      } else {
        assert FailedAt(run, n, uid, fp);
      }
    }
  }

  /** Every key a KargoAgent leaves in the table carries its UID. */
  lemma {:induction false} KeysCarryUIDs(run: seq<Event>)
    requires Exec(run).Some?
    ensures forall k | k in Exec(run).value.table :: k.gvk == AGENT ==> k.uid != ""
    decreases |run|
  {
    if run != [] {
      KeysCarryUIDs(run[..|run| - 1]);
    }
  }

  /** Event `e` is Observe holding back payload `fp`. */
  predicate Suppresses(s: State, e: Event, uid: string, fp: string) {
    && e.Agent? && e.uid == uid && e.step == Suppress(false)
    && (match PhaseOf(s, uid) case Asked(_, now) => now == fp case _ => false)
    && Apply(s, e).Some? && PhaseOf(Apply(s, e).value, uid) == Idle
  }

  /** Observe only ever holds a write back when that very payload failed terminally, or was charged with a failed
      install, earlier in the run. */
  lemma SuppressionIsEarned(run: seq<Event>, e: Event, uid: string, fp: string)
    requires Exec(run).Some? && Suppresses(Exec(run).value, e, uid, fp)
    ensures HasFailed(run, uid, fp)
  {
    var table := Exec(run).value.table;
    KeysCarryUIDs(run);
    var k :| k in table && SamePayload(k, KeyOf(e).(fingerprint := fp));
    assert Remembers(table, uid, fp);
    HeldMeansFailed(run, uid, fp);
  }

  // ----- One resource on its own -----

  /** Where a sequence of steps of one resource leads, nothing else touching the guard meanwhile. */
  function Path(key: WriteKey, phase: Phase, table: Entries, steps: seq<Step>): Option<(Phase, Entries)> {
    if steps == [] then Some((phase, table)) else
      match Path(key, phase, table, steps[..|steps| - 1])
      case None => None
      case Some((p, t)) => Next(key, p, t, steps[|steps| - 1])
  }

  lemma Unfold(key: WriteKey, phase: Phase, table: Entries, steps: seq<Step>, step: Step)
    ensures Path(key, phase, table, steps + [step]) == match Path(key, phase, table, steps)
      case None => None
      case Some((p, t)) => Next(key, p, t, step)
  {
    assert (steps + [step])[..|steps|] == steps;
  }

  lemma Extend(key: WriteKey, phase: Phase, table: Entries, steps: seq<Step>, step: Step)
    requires Path(key, phase, table, steps).Some?
    ensures var (p, t) := Path(key, phase, table, steps).value;
      Path(key, phase, table, steps + [step]) == Next(key, p, t, step)
  {
    Unfold(key, phase, table, steps, step);
  }

  lemma OneStep(key: WriteKey, phase: Phase, table: Entries, step: Step)
    ensures Path(key, phase, table, [step]) == Next(key, phase, table, step)
  {
    Extend(key, phase, table, [], step);
    assert [] + [step] == [step];
  }

  lemma JoinStep(
    key: WriteKey, phase: Phase, table: Entries, a: seq<Step>, p: Phase, t: Entries, b: seq<Step>, last: Step)
    requires Path(key, phase, table, a) == Path(key, p, t, b)
    ensures Path(key, phase, table, a + [last]) == Path(key, p, t, b + [last])
  {
    Unfold(key, phase, table, a, last);
    Unfold(key, p, t, b, last);
    hide Path;
    hide Next;
  }

  lemma {:induction false} Join(key: WriteKey, phase: Phase, table: Entries, a: seq<Step>, b: seq<Step>)
    requires Path(key, phase, table, a).Some?
    ensures var (p, t) := Path(key, phase, table, a).value;
      Path(key, phase, table, a + b) == Path(key, p, t, b)
    decreases |b|
  {
    if b == [] {
      assert a + b == a;
    } else {
      hide Path;
      hide Next;
      var (p, t) := Path(key, phase, table, a).value;
      var init, last := b[..|b| - 1], b[|b| - 1];
      Join(key, phase, table, a, init);
      JoinStep(key, phase, table, a + init, p, t, init, last);
      assert a + b == a + init + [last] && b == init + [last];
    }
  }

  function Events(uid: string, namespace: string, name: string, steps: seq<Step>): (events: seq<Event>) {
    seq(|steps|, i requires 0 <= i < |steps| => Agent(uid, namespace, name, steps[i]))
  }

  /** A reconcile that nothing interrupts is part of a run. */
  lemma {:induction false} PathsAreRuns(run: seq<Event>, uid: string, namespace: string, name: string, steps: seq<Step>)
    requires uid != "" && Exec(run).Some?
    requires var s := Exec(run).value;
      Path(WriteKey(AGENT, uid, namespace, name, ""), PhaseOf(s, uid), s.table, steps).Some?
    ensures var after := Exec(run + Events(uid, namespace, name, steps));
      var s := Exec(run).value;
      && after.Some?
      && Path(WriteKey(AGENT, uid, namespace, name, ""), PhaseOf(s, uid), s.table, steps)
           == Some((PhaseOf(after.value, uid), after.value.table))
    decreases |steps|
  {
    hide Next;
    var events := Events(uid, namespace, name, steps);
    if steps == [] {
      assert run + events == run;
    } else {
      var n := |steps| - 1;
      PathsAreRuns(run, uid, namespace, name, steps[..n]);
      assert (run + events)[..|run + events| - 1] == run + Events(uid, namespace, name, steps[..n]);
      assert (run + events)[|run + events| - 1] == Agent(uid, namespace, name, steps[n]);
    }
  }

  /** An Observe that computes a payload other than the failed one forgets the failure. */
  lemma AnotherPayloadForgets(key: WriteKey, table: Entries, fp: string, other: string)
    requires Unrelated(table) && other != fp && HasPayload(table, key.(fingerprint := fp))
    requires key.uid != "" && forall k | k in table :: k.gvk == key.gvk ==> k.uid != ""
    ensures Path(key, Idle, table, [Begin] + [Check] + [ObserveKey(Some(other))] + [Suppress(false)])
         == Some((Reading, WithoutResource(table, key)))
  {
    assert !HasPayload(table, key.(fingerprint := other));
    assert WithoutResource(table, key.(fingerprint := other)) == WithoutResource(table, key);
    hide HasPayload;
    Extend(key, Idle, table, [], Begin);
    assert [] + [Begin] == [Begin];
    hide Path;
    Extend(key, Idle, table, [Begin], Check);
    Extend(key, Idle, table, [Begin] + [Check], ObserveKey(Some(other)));
    Extend(key, Idle, table, [Begin] + [Check] + [ObserveKey(Some(other))], Suppress(false));
  }

  /** The exception is real: the failed payload may then be sent again. */
  lemma ForgottenIsSentAgain(key: WriteKey, table: Entries, fp: string)
    requires !HasResource(table, key)
    ensures
      Path(key, Reading, table, [Read(Drifted)] + [ObserveKey(Some(fp))] + [Suppress(false)] + [ApplyKey(Some(fp))])
         == Some((Writing(false, fp), table))
  {
    var k := key.(fingerprint := fp);
    assert forall other | other in table :: SameResource(other, k) ==> SameResource(other, key);
    assert WithoutResource(table, k) == table && !HasPayload(table, k);
    Extend(key, Reading, table, [], Read(Drifted));
    assert [] + [Read(Drifted)] == [Read(Drifted)];
    hide Path;
    Extend(key, Reading, table, [Read(Drifted)], ObserveKey(Some(fp)));
    Extend(key, Reading, table, [Read(Drifted)] + [ObserveKey(Some(fp))], Suppress(false));
    Extend(key, Reading, table, [Read(Drifted)] + [ObserveKey(Some(fp))] + [Suppress(false)], ApplyKey(Some(fp)));
  }

  // ----- A rotation during an install -----

  /** One more step of a path, with where it leads written out. */
  lemma Then(
    key: WriteKey, from: (Phase, Entries), steps: seq<Step>, at: (Phase, Entries), step: Step, to: (Phase, Entries))
    requires Path(key, from.0, from.1, steps) == Some(at) && Next(key, at.0, at.1, step) == Some(to)
    ensures Path(key, from.0, from.1, steps + [step]) == Some(to)
  {
    hide Next;
    Unfold(key, from.0, from.1, steps, step);
  }

  /** A Create whose payload `f1` lands and is cleared. */
  function Sent(f1: string): seq<Step> {
    [Begin] + [Check] + [Read(Absent)] + [ApplyKey(Some(f1))] + [Send(None)] + [Clear]
  }

  lemma SentPath(key: WriteKey, f1: string)
    ensures Path(key, Idle, map[], Sent(f1)) == Some((Installing(f1), map[]))
  {
    var e: Entries := map[];
    var start := (Idle, e);
    OneStep(key, Idle, e, Begin);
    hide Path;
    var s := [Begin];
    Then(key, start, s, (Checking, e), Check, (Reading, e));
    Then(key, start, s + [Check], (Reading, e), Read(Absent), (Permitted(true), e));
    s := s + [Check] + [Read(Absent)];
    Then(key, start, s, (Permitted(true), e), ApplyKey(Some(f1)), (Writing(true, f1), e));
    Then(key, start, s + [ApplyKey(Some(f1))], (Writing(true, f1), e), Send(None), (Landed(true, f1), e));
    s := s + [ApplyKey(Some(f1))] + [Send(None)];
    assert WithoutResource(e, key) == e;
    Then(key, start, s, (Landed(true, f1), e), Clear, (Installing(f1), e));
  }

  /** Its install fails, and by the time the fingerprint is taken again it is `f2`. */
  function Charged(f2: string, err: Error): seq<Step> {
    [Install(Some(err))] + [InstallKey(Some(f2))] + [Record]
  }

  lemma ChargedSteps(key: WriteKey, t: Entries, f1: string, f2: string, err: Error, final: Error)
    requires final == ClassifyManifestInstallError(Some(err)).value && IsTerminal(final)
    ensures Next(key, Installing(f1), t, Install(Some(err))) == Some((NotInstalled(f1, err), t))
    ensures Next(key, NotInstalled(f1, err), t, InstallKey(Some(f2))) == Some((Recording(f2, final), t))
    ensures Next(key, Recording(f2, final), t, Record)
         == Some((Idle, WithoutResource(t, key.(fingerprint := f2))[key.(fingerprint := f2) := final]))
  {}

  lemma ChargedPath(key: WriteKey, f1: string, f2: string, err: Error)
    requires IsTerminal(ClassifyManifestInstallError(Some(err)).value)
    ensures Path(key, Installing(f1), map[], Charged(f2, err))
         == Some((Idle, map[key.(fingerprint := f2) := ClassifyManifestInstallError(Some(err)).value]))
  {
    var e: Entries := map[];
    var final, k2 := ClassifyManifestInstallError(Some(err)).value, key.(fingerprint := f2);
    var start := (Installing(f1), e);
    assert WithoutResource(e, k2) == e;
    ChargedSteps(key, e, f1, f2, err, final);
    OneStep(key, Installing(f1), e, Install(Some(err)));
    hide Path;
    hide Next;
    hide WithoutResource;
    hide ClassifyManifestInstallError;
    var s := [Install(Some(err))];
    Then(key, start, s, (NotInstalled(f1, err), e), InstallKey(Some(f2)), (Recording(f2, final), e));
    Then(key, start, s + [InstallKey(Some(f2))], (Recording(f2, final), e), Record, (Idle, map[k2 := final]));
  }

  /** The next pass finds the secret rotated back, up to the send. */
  function Retried(f1: string): seq<Step> {
    [Begin] + [Check] + [ObserveKey(Some(f1))] + [Suppress(false)] + [Read(Absent)] + [ApplyKey(Some(f1))]
  }

  lemma OtherIsForgotten(key: WriteKey, f1: string, f2: string, err: Error)
    requires f1 != f2 && key.uid != ""
    ensures var t := map[key.(fingerprint := f2) := err];
      && HasResource(t, key) && !HasPayload(t, key.(fingerprint := f1))
      && AfterSuppress(t, key.(fingerprint := f1), false) == map[]
  {
    var t := map[key.(fingerprint := f2) := err];
    assert key.(fingerprint := f2) in t && SameResource(key.(fingerprint := f2), key);
  }

  lemma RetriedPath(key: WriteKey, f1: string, f2: string, err: Error)
    requires f1 != f2 && key.uid != ""
    ensures Path(key, Idle, map[key.(fingerprint := f2) := err], Retried(f1)) == Some((Writing(true, f1), map[]))
  {
    var t: Entries, e: Entries := map[key.(fingerprint := f2) := err], map[];
    var start := (Idle, t);
    OtherIsForgotten(key, f1, f2, err);
    OneStep(key, Idle, t, Begin);
    hide Path;
    hide HasResource;
    hide HasPayload;
    hide AfterSuppress;
    var s := [Begin];
    Then(key, start, s, (Checking, t), Check, (Asking(false), t));
    Then(key, start, s + [Check], (Asking(false), t), ObserveKey(Some(f1)), (Asked(false, f1), t));
    s := s + [Check] + [ObserveKey(Some(f1))];
    Then(key, start, s, (Asked(false, f1), t), Suppress(false), (Reading, e));
    Then(key, start, s + [Suppress(false)], (Reading, e), Read(Absent), (Permitted(true), e));
    s := s + [Suppress(false)] + [Read(Absent)];
    Then(key, start, s, (Permitted(true), e), ApplyKey(Some(f1)), (Writing(true, f1), e));
  }

  /** The whole story up to the second send. */
  function Rotation(f1: string, f2: string, err: Error): (steps: seq<Step>)
    ensures |steps| == 15 && steps[..6] == Sent(f1) && steps[6] == Install(Some(err))
    ensures steps[7..] == [InstallKey(Some(f2)), Record] + Retried(f1)
  {
    Sent(f1) + Charged(f2, err) + Retried(f1)
  }

  lemma RotationPath(key: WriteKey, f1: string, f2: string, err: Error)
    requires key.uid != "" && f1 != f2 && IsTerminal(ClassifyManifestInstallError(Some(err)).value)
    ensures Path(key, Idle, map[], Rotation(f1, f2, err)) == Some((Writing(true, f1), map[]))
  {
    SentPath(key, f1);
    ChargedPath(key, f1, f2, err);
    RetriedPath(key, f1, f2, ClassifyManifestInstallError(Some(err)).value);
    Join(key, Idle, map[], Sent(f1), Charged(f2, err));
    Join(key, Idle, map[], Sent(f1) + Charged(f2, err), Retried(f1));
    hide Path;
    hide ClassifyManifestInstallError;
    hide Sent;
    hide Charged;
    hide Retried;
  }

  lemma RotationExcuses(uid: string, f1: string, f2: string, err: Error, m: nat)
    requires f1 != f2 && 6 < m < 15
    ensures var step := Rotation(f1, f2, err)[m];
      Excuses(Agent(uid, "", "", step), uid, f1) <==> step == InstallKey(Some(f2))
  {
    var rest := Rotation(f1, f2, err)[7..];
    assert Rotation(f1, f2, err)[m] == rest[m - 7];
    hide Rotation;
    assert rest == [InstallKey(Some(f2)), Record, Begin, Check, ObserveKey(Some(f1)), Suppress(false), Read(Absent),
                    ApplyKey(Some(f1))];
  }

  /** The state a first reconcile reaches after some steps. */
  lemma FirstReconcile(uid: string, steps: seq<Step>)
    requires uid != "" && Path(WriteKey(AGENT, uid, "", "", ""), Idle, map[], steps).Some?
    ensures var s := Exec(Events(uid, "", "", steps));
      && s.Some?
      && Some((PhaseOf(s.value, uid), s.value.table)) == Path(WriteKey(AGENT, uid, "", "", ""), Idle, map[], steps)
  {
    PathsAreRuns([], uid, "", "", steps);
    assert [] + Events(uid, "", "", steps) == Events(uid, "", "", steps);
    hide Path;
  }

  lemma InstallFails(s: State, uid: string, f1: string, err: Error)
    requires PhaseOf(s, uid) == Installing(f1) && IsTerminal(ClassifyManifestInstallError(Some(err)).value)
    ensures FailsTerminally(s, Agent(uid, "", "", Install(Some(err))), uid, f1)
  {}

  lemma SendGoesOut(s: State, uid: string, f1: string)
    requires uid != "" && PhaseOf(s, uid) == Writing(true, f1)
    ensures Apply(s, Agent(uid, "", "", Send(None))).Some? && Sends(s, Agent(uid, "", "", Send(None)), uid, f1)
  {}

  /** The excuse of the fingerprint taken after a failed install is needed: with it as the only one, a payload whose
      install failed terminally is sent again. */
  lemma RotationDuringInstall(uid: string, f1: string, f2: string, err: Error) returns (run: seq<Event>)
    requires uid != "" && f1 != f2 && IsTerminal(ClassifyManifestInstallError(Some(err)).value)
    ensures |run| == 16 && Exec(run).Some?
    ensures Exec(run[..6]).Some? && FailsTerminally(Exec(run[..6]).value, run[6], uid, f1)
    ensures Exec(run[..15]).Some? && Sends(Exec(run[..15]).value, run[15], uid, f1)
    ensures forall m | 6 < m < 15 ::
      run[m].Agent? && (Excuses(run[m], uid, f1) <==> run[m].step == InstallKey(Some(f2)))
  {
    var key := WriteKey(AGENT, uid, "", "", "");
    var steps := Rotation(f1, f2, err);
    SentPath(key, f1);
    RotationPath(key, f1, f2, err);
    hide Sent;
    hide Rotation;
    hide Path;
    hide Next;
    hide Apply;
    hide FailsTerminally;
    hide Sends;
    hide ClassifyManifestInstallError;
    FirstReconcile(uid, Sent(f1));
    FirstReconcile(uid, steps);
    var first, last := Events(uid, "", "", steps), Agent(uid, "", "", Send(None));
    run := first + [last];
    assert run[..15] == first && run[..6] == Events(uid, "", "", Sent(f1));
    assert Exec(run) == Apply(Exec(first).value, last);
    hide Exec;
    hide Excuses;
    InstallFails(Exec(run[..6]).value, uid, f1, err);
    SendGoesOut(Exec(run[..15]).value, uid, f1);
    forall m | 6 < m < 15
      ensures run[m].Agent? && (Excuses(run[m], uid, f1) <==> run[m].step == InstallKey(Some(f2)))
    {
      assert run[m] == Agent(uid, "", "", steps[m]);
      RotationExcuses(uid, f1, f2, err, m);
    }
  }
}
