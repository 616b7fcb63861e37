/** Error chains and their classification (internal/reason, base/fetch.go). */
module Reason {
  import opened Wrappers

  datatype Code =
    | OK | Canceled | Unknown | InvalidArgument | DeadlineExceeded | NotFound | AlreadyExists | PermissionDenied
    | ResourceExhausted | FailedPrecondition | Aborted | OutOfRange | Unimplemented | Internal | Unavailable
    | DataLoss | Unauthenticated
  {
    function Name(): string {
      match this
      case OK => "OK"
      case Canceled => "Canceled"
      case Unknown => "Unknown"
      case InvalidArgument => "InvalidArgument"
      case DeadlineExceeded => "DeadlineExceeded"
      case NotFound => "NotFound"
      case AlreadyExists => "AlreadyExists"
      case PermissionDenied => "PermissionDenied"
      case ResourceExhausted => "ResourceExhausted"
      case FailedPrecondition => "FailedPrecondition"
      case Aborted => "Aborted"
      case OutOfRange => "OutOfRange"
      case Unimplemented => "Unimplemented"
      case Internal => "Internal"
      case Unavailable => "Unavailable"
      case DataLoss => "DataLoss"
      case Unauthenticated => "Unauthenticated"
    }
  }

  /** The wrapper types of package reason. */
  datatype Mark = TerminalMark | RetryableMark | NotReconciledMark | NotFoundMark | PermissionDeniedMark
  datatype Error =
    | Plain(text: string)
    | Grpc(code: Code, message: string)
    | Wrapped(prefix: string, inner: Error, suffix: string)  // fmt.Errorf with one %w
    | Marked(mark: Mark, inner: Error)
  {
    function Text(): string {
      match this
      case Plain(text) => text
      case Grpc(code, message) => "rpc error: code = " + code.Name() + " desc = " + message
      case Wrapped(prefix, inner, suffix) => prefix + inner.Text() + suffix
      case Marked(_, inner) => inner.Text()
    }

    /** errors.Is against the zero value of a mark; of the marks, only Terminal has an Unwrap method. */
    predicate Is(m: Mark) {
      match this
      case Wrapped(_, inner, _) => inner.Is(m)
      case Marked(mark, inner) => mark == m || (mark == TerminalMark && inner.Is(m))
      case _ => false
    }

    /** The code status.FromError finds down the unwrappable part of the chain. */
    function Code(): Option<Code> {
      match this
      case Plain(_) => None
      case Grpc(code, _) => Some(code)
      case Wrapped(_, inner, _) => inner.Code()
      case Marked(mark, inner) => if mark == TerminalMark then inner.Code() else None
    }

    /** The message of that status: the whole text once anything wraps it. */
    function StatusMessage(): string {
      if Grpc? then message else Text()
    }
  }

  function AsTerminal(e: Error): Error { Marked(TerminalMark, e) }

  function AsRetryable(e: Error): Error { Marked(RetryableMark, e) }

  predicate IsTerminal(e: Error) { e.Is(TerminalMark) }

  predicate OccursAt(s: string, sub: string, i: int) {
    0 <= i <= |s| - |sub| && s[i..i + |sub|] == sub
  }

  /** strings.Contains. */
  predicate Contains(s: string, sub: string) {
    exists i | 0 <= i <= |s| :: OccursAt(s, sub, i)
  }

  lemma ContainsWithin(prefix: string, s: string, suffix: string, sub: string)
    requires Contains(s, sub)
    ensures Contains(prefix + s + suffix, sub)
  {
    var i :| 0 <= i <= |s| && OccursAt(s, sub, i);
    assert OccursAt(prefix + s + suffix, sub, |prefix| + i);
  }

  const PROVISIONING := "still being provisioned"
  const NOT_YET := "has not yet been reconciled"
  const NETWORK_FAILURES: seq<string> :=
    ["connection refused", "connection reset", "no such host", "i/o timeout", "EOF"]

  predicate IsProvisioningWait(e: Error) {
    e.Code() == Some(InvalidArgument) && Contains(e.StatusMessage(), PROVISIONING)
  }

  predicate LooksLikeNetworkFailure(e: Error) {
    exists i :: 0 <= i < |NETWORK_FAILURES| && Contains(e.Text(), NETWORK_FAILURES[i])
  }

  predicate IsRetryableGRPC(e: Error) {
    || e.Code() in {Some(Unavailable), Some(DeadlineExceeded), Some(Aborted), Some(ResourceExhausted), Some(Internal)}
    || (e.Code() == Some(InvalidArgument) && Contains(e.StatusMessage(), PROVISIONING))
    || LooksLikeNetworkFailure(e)
  }

  predicate IsRetryable(e: Error) {
    e.Is(RetryableMark) || IsRetryableGRPC(e)
  }

  function ClassifyApplyError(err: Option<Error>): Option<Error> {
    if err.None? || IsTerminal(err.value) || IsRetryable(err.value) then err
    else if err.value.Code() in {Some(InvalidArgument), Some(PermissionDenied)} then Some(AsTerminal(err.value))
    else err
  }

  predicate IsManifestReconciliationWait(e: Error) {
    e.Code() == Some(FailedPrecondition) || Contains(e.Text(), NOT_YET)
  }

  function ClassifyManifestInstallError(err: Option<Error>): Option<Error> {
    if err.None? || IsTerminal(err.value) || IsRetryable(err.value) then err
    else if err.value.Is(NotReconciledMark) || IsManifestReconciliationWait(err.value) then Some(AsRetryable(err.value))
    else Some(AsTerminal(err.value))
  }

  /** Classifying twice is classifying once. */
  lemma ClassifiersIdempotent(err: Option<Error>)
    ensures ClassifyApplyError(ClassifyApplyError(err)) == ClassifyApplyError(err)
    ensures ClassifyManifestInstallError(ClassifyManifestInstallError(err)) == ClassifyManifestInstallError(err)
  {}

  /** A failed manifest install is always sorted one way or the other. */
  lemma ManifestErrorsAreDecided(e: Error)
    ensures ClassifyManifestInstallError(Some(e)).Some?
    ensures var c := ClassifyManifestInstallError(Some(e)).value;
      var waits := IsRetryable(e) || e.Is(NotReconciledMark) || IsManifestReconciliationWait(e);
      && (IsTerminal(c) || IsRetryable(c))
      && (IsTerminal(c) <==> IsTerminal(e) || !waits)
  {
    assert AsRetryable(e).Is(RetryableMark);
    assert AsTerminal(e).Is(TerminalMark);
  }

  /** The Apply failures the write guard will remember. */
  lemma RecordedApplyErrorsExactly(e: Error)
    ensures ClassifyApplyError(Some(e)).Some?
    ensures IsTerminal(ClassifyApplyError(Some(e)).value)
       <==> IsTerminal(e) || (!IsRetryable(e) && e.Code() in {Some(InvalidArgument), Some(PermissionDenied)})
  {
    assert AsTerminal(e).Is(TerminalMark);
  }

  /** Classification marks an error; it never changes what the user reads. */
  lemma ClassificationKeepsText(e: Error)
    ensures ClassifyApplyError(Some(e)).value.Text() == e.Text()
    ensures ClassifyManifestInstallError(Some(e)).value.Text() == e.Text()
  {}

  /** An error behind any number of %w layers, outermost first. */
  function WrapAll(layers: seq<(string, string)>, e: Error): Error {
    if layers == [] then e else Wrapped(layers[0].0, WrapAll(layers[1..], e), layers[0].1)
  }

  lemma WrapKeepsRetryable(prefix: string, e: Error, suffix: string)
    requires IsRetryable(e)
    ensures IsRetryable(Wrapped(prefix, e, suffix))
  {
    var w := Wrapped(prefix, e, suffix);
    if e.Code() == Some(InvalidArgument) && Contains(e.StatusMessage(), PROVISIONING) {
      if e.Grpc? {
        var head := "rpc error: code = " + e.code.Name() + " desc = ";
        assert head + e.message + "" == e.Text();
        ContainsWithin(head, e.message, "", PROVISIONING);
      }
      ContainsWithin(prefix, e.Text(), suffix, PROVISIONING);
    }
    if i :| 0 <= i < |NETWORK_FAILURES| && Contains(e.Text(), NETWORK_FAILURES[i]) {
      ContainsWithin(prefix, e.Text(), suffix, NETWORK_FAILURES[i]);
    }
  }

  /** Adding context never turns a transient failure into one that is given up on. */
  lemma {:induction false} ContextKeepsRetryable(layers: seq<(string, string)>, e: Error)
    requires IsRetryable(e)
    ensures IsRetryable(WrapAll(layers, e))
    ensures ClassifyApplyError(Some(WrapAll(layers, e))) == Some(WrapAll(layers, e))
    ensures ClassifyManifestInstallError(Some(WrapAll(layers, e))) == Some(WrapAll(layers, e))
    decreases |layers|
  {
    hide IsRetryableGRPC;
    if layers != [] {
      ContextKeepsRetryable(layers[1..], e);
      WrapKeepsRetryable(layers[0].0, WrapAll(layers[1..], e), layers[0].1);
    }
  }

  /** And it keeps terminal errors terminal. */
  lemma {:induction false} ContextKeepsTerminal(layers: seq<(string, string)>, e: Error)
    requires IsTerminal(e)
    ensures IsTerminal(WrapAll(layers, e))
    decreases |layers|
  {
    if layers != [] {
      ContextKeepsTerminal(layers[1..], e);
    }
  }

  /** The other marks do not unwrap: behind one, only the text can still make an error transient. */
  lemma MarksHideCodes(m: Mark, e: Error)
    requires m != TerminalMark && m != RetryableMark
    ensures IsRetryable(Marked(m, e)) <==> LooksLikeNetworkFailure(e)
  {
    assert Marked(m, e).Text() == e.Text();
  }

  /** A terminal mark shows everything below it; any other shows itself and nothing else, but the text always stays. */
  lemma MarksExactly(m: Mark, e: Error, n: Mark)
    ensures Marked(m, e).Text() == e.Text()
    ensures m == TerminalMark ==> Marked(m, e).Code() == e.Code() && (Marked(m, e).Is(n) <==> n == m || e.Is(n))
    ensures m != TerminalMark ==> Marked(m, e).Code() == None && (Marked(m, e).Is(n) <==> n == m)
  {}

  // ----- What each status comes to -----

  lemma {:induction false} LayersKeepCode(layers: seq<(string, string)>, e: Error, m: Mark)
    ensures WrapAll(layers, e).Code() == e.Code() && (WrapAll(layers, e).Is(m) <==> e.Is(m))
    ensures layers != [] ==> WrapAll(layers, e).StatusMessage() == WrapAll(layers, e).Text()
    decreases |layers|
  {
    if layers != [] { LayersKeepCode(layers[1..], e, m); }
  }

  predicate SpeaksOfNetwork(e: Error) {
    || Contains(e.Text(), "connection refused") || Contains(e.Text(), "connection reset")
    || Contains(e.Text(), "no such host") || Contains(e.Text(), "i/o timeout") || Contains(e.Text(), "EOF")
  }

  lemma NetworkTexts(e: Error)
    ensures LooksLikeNetworkFailure(e) <==> SpeaksOfNetwork(e)
  {
    hide Contains;
    var texts := NETWORK_FAILURES;
    assert texts == [texts[0], texts[1], texts[2], texts[3], texts[4]];
  }

  /** No text that stands for a transient failure. */
  predicate SaysNothing(e: Error) {
    && !SpeaksOfNetwork(e)
    && !Contains(e.Text(), "still being provisioned") && !Contains(e.Text(), "has not yet been reconciled")
    && !Contains(e.StatusMessage(), "still being provisioned")
  }

  datatype Verdict = Terminal | Retry | Neither

  predicate HasVerdict(e: Error, v: Verdict) {
    match v
    case Terminal => IsTerminal(e)
    case Retry => !IsTerminal(e) && IsRetryable(e)
    case Neither => !IsTerminal(e) && !IsRetryable(e)
  }

  /** What each gRPC status comes to behind any context, when no text says otherwise: five are waited out on every
      path; a refused argument or permission is given up on; a failed precondition is waited out after an install and
      left open after an Apply; any other status, or none, gives up an install and leaves an Apply open. */
  lemma StatusVerdicts(layers: seq<(string, string)>, core: Error)
    requires core.Grpc? || core.Plain?
    requires SaysNothing(WrapAll(layers, core))
    ensures var (apply, install) := (ClassifyApplyError(Some(WrapAll(layers, core))).value,
                                     ClassifyManifestInstallError(Some(WrapAll(layers, core))).value);
      if core.Plain? then HasVerdict(apply, Neither) && HasVerdict(install, Terminal)
      else match core.code
        case Unavailable => HasVerdict(apply, Retry) && HasVerdict(install, Retry)
        case DeadlineExceeded => HasVerdict(apply, Retry) && HasVerdict(install, Retry)
        case Aborted => HasVerdict(apply, Retry) && HasVerdict(install, Retry)
        case ResourceExhausted => HasVerdict(apply, Retry) && HasVerdict(install, Retry)
        case Internal => HasVerdict(apply, Retry) && HasVerdict(install, Retry)
        case InvalidArgument => HasVerdict(apply, Terminal) && HasVerdict(install, Terminal)
        case PermissionDenied => HasVerdict(apply, Terminal) && HasVerdict(install, Terminal)
        case FailedPrecondition => HasVerdict(apply, Neither) && HasVerdict(install, Retry)
        case _ => HasVerdict(apply, Neither) && HasVerdict(install, Terminal)
  {
    var e := WrapAll(layers, core);
    LayersKeepCode(layers, core, TerminalMark);
    LayersKeepCode(layers, core, RetryableMark);
    LayersKeepCode(layers, core, NotReconciledMark);
    hide WrapAll;
    hide Contains;
    NetworkTexts(e);
    hide SpeaksOfNetwork;
    hide LooksLikeNetworkFailure;
    assert AsTerminal(e).Is(TerminalMark) && AsRetryable(e).Is(RetryableMark) && !AsRetryable(e).Is(TerminalMark);
  }

  function ClassifyGetError(err: Option<Error>): GetOutcome {
    match err
    case None => GetOK
    case Some(e) =>
      if e.Is(NotFoundMark) then GetAbsent
      else if IsProvisioningWait(e) then GetProvisioning
      else GetTerminal
  }

  /** And what a text comes to, whatever the error around it: five network failures are waited out on every path, and
      so is a refused argument that says the platform is still provisioning. */
  lemma TextVerdicts(e: Error)
    ensures SpeaksOfNetwork(e) ==> IsRetryable(e)
    ensures e.Code() == Some(InvalidArgument) && Contains(e.StatusMessage(), "still being provisioned") ==>
      IsRetryable(e) && (!e.Is(NotFoundMark) ==> ClassifyGetError(Some(e)) == GetProvisioning)
    ensures !IsTerminal(e) && !IsRetryable(e) && Contains(e.Text(), "has not yet been reconciled") ==>
      IsRetryable(ClassifyManifestInstallError(Some(e)).value)
  {
    hide Contains;
    NetworkTexts(e);
    hide SpeaksOfNetwork;
    assert AsRetryable(e).Is(RetryableMark);
  }

  // ----- Reads -----

  datatype GetOutcome = GetOK | GetAbsent | GetProvisioning | GetTerminal

  /** A read error means the resource is absent exactly when something below marks it so, behind any context; it is a
      wait exactly when, unmarked, it is a refused argument that says so; and any other error stands. */
  lemma GetOutcomesExactly(err: Option<Error>)
    ensures ClassifyGetError(err) == GetOK <==> err.None?
    ensures ClassifyGetError(err) == GetAbsent <==> err.Some? && err.value.Is(NotFoundMark)
    ensures ClassifyGetError(err) == GetProvisioning <==>
      && err.Some? && !err.value.Is(NotFoundMark) && err.value.Code() == Some(InvalidArgument)
      && Contains(err.value.StatusMessage(), "still being provisioned")
  {}

  lemma AbsentBehindContext(layers: seq<(string, string)>, e: Error)
    ensures ClassifyGetError(Some(WrapAll(layers, Marked(NotFoundMark, e)))) == GetAbsent
  {
    LayersKeepCode(layers, Marked(NotFoundMark, e), NotFoundMark);
  }
}
