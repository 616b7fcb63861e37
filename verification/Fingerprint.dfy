/** The fingerprint of a write: a hash over typed, newline-framed parts (base/terminal_write_guard.go,
    kube/targetapply.go). */
module Fingerprint {
  import opened Wrappers
  import opened Framing
  import opened Guard

  const TEXT := "string"

  /** Where manifests are to be installed. */
  datatype Target = Target(inCluster: bool, secretNamespace: string, secretName: string)
  {
    predicate HasKubeConfig() { inCluster || secretName != "" }

    predicate ReadsSecret() { !inCluster && secretName != "" }

    /** `secret` is what reading the kubeconfig Secret yields: its hash, or a marker for why it could not be read. */
    function Text(secret: string): string {
      if !HasKubeConfig() then ""
      else if inCluster then "in-cluster"
      else "secret:" + secretNamespace + "/" + secretName + ":" + secret
    }
  }

  /** Names as Kubernetes has them: a namespace without slash, a name without colon or slash. */
  predicate NamedRight(t: Target) {
    '/' !in t.secretNamespace && '/' !in t.secretName && ':' !in t.secretName
  }

  function SecretText(ns: string, name: string, reading: string): string {
    ns + "/" + name + ":" + reading
  }

  lemma SecretTextsExactly(ns: string, name: string, reading: string, ns': string, name': string, reading': string)
    requires '/' !in ns && '/' !in ns' && ':' !in name && ':' !in name'
    ensures SecretText(ns, name, reading) == SecretText(ns', name', reading')
       <==> ns == ns' && name == name' && reading == reading'
  {
    if SecretText(ns, name, reading) == SecretText(ns', name', reading') {
      var (x, y) := (name + [':'] + reading, name' + [':'] + reading');
      assert SecretText(ns, name, reading) == ns + ['/'] + x && SecretText(ns', name', reading') == ns' + ['/'] + y;
      SplitFirst(ns, x, ns', y, '/');
      SplitFirst(name, reading, name', reading', ':');
    }
  }

  lemma TextKind(t: Target, reading: string)
    ensures t.Text(reading) == if t.inCluster then "in-cluster"
      else if t.ReadsSecret() then "secret:" + SecretText(t.secretNamespace, t.secretName, reading) else ""
  {
    var head := "secret:";
    assert head + t.secretNamespace + "/" + t.secretName + ":" + reading
        == head + SecretText(t.secretNamespace, t.secretName, reading);
  }

  /** The cluster text tells targets apart: none, the own cluster, or a kubeconfig Secret with what it reads as. */
  lemma TargetTextExactly(a: Target, readingA: string, b: Target, readingB: string)
    requires NamedRight(a) && NamedRight(b)
    ensures a.Text(readingA) == b.Text(readingB) <==>
      if a.ReadsSecret() && b.ReadsSecret()
      then a.secretNamespace == b.secretNamespace && a.secretName == b.secretName && readingA == readingB
      else a.ReadsSecret() == b.ReadsSecret() && a.inCluster == b.inCluster
    ensures a.HasKubeConfig() <==> a.inCluster || a.ReadsSecret()
  {
    TextKind(a, readingA);
    TextKind(b, readingB);
    hide Target.Text;
    SecretTextsExactly(a.secretNamespace, a.secretName, readingA, b.secretNamespace, b.secretName, readingB);
    hide SecretText;
    var (x, y) := (SecretText(a.secretNamespace, a.secretName, readingA),
                   SecretText(b.secretNamespace, b.secretName, readingB));
    var head := "secret:";
    assert (head + x)[|head|..] == x && (head + y)[|head|..] == y;
    assert (head + x)[0] == 's' && (head + y)[0] == 's';
  }

  /** What a write would send, or why there is nothing to send, and the cluster it would install on. */
  datatype Payload<+P> =
    | Request(kind: string, body: string, target: string)
    | Unbuildable(kind: string, parameters: P, target: string, cause: string)

  datatype Part<+P> = Message(kind: string, body: string) | Words(text: string) | Structure(kind: string, parameters: P)
  const BUILD_ERROR := "build-error"

  function Parts<P>(p: Payload<P>): seq<Part<P>> {
    match p
    case Request(kind, body, target) => [Message(kind, body), Words(target)]
    case Unbuildable(kind, parameters, target, cause) =>
      [Words(BUILD_ERROR), Structure(kind, parameters), Words(target), Words(cause)]
  }

  // ----- Encoding -----

  /** Deterministic protobuf and JSON; None stands for a marshalling error. */
  datatype Encoders<!P> = Encoders(
    proto: string -> Option<string>, text: string -> Option<string>, record: P -> Option<string>)

  function Encode<P>(part: Part<P>, enc: Encoders<P>): Option<Entry> {
    match part
    case Message(kind, body) => if enc.proto(body).Some? then Some((kind, enc.proto(body).value)) else None
    case Words(text) => if enc.text(text).Some? then Some((TEXT, enc.text(text).value)) else None
    case Structure(kind, p) => if enc.record(p).Some? then Some((kind, enc.record(p).value)) else None
  }

  function EncodeAll<P>(parts: seq<Part<P>>, enc: Encoders<P>): Option<seq<Entry>> {
    if parts == [] then Some([])
    else
      var (init, last) := (EncodeAll(parts[..|parts| - 1], enc), Encode(parts[|parts| - 1], enc));
      if init.Some? && last.Some? then Some(init.value + [last.value]) else None
  }

  predicate TellsBodiesApart<P>(enc: Encoders<P>, a: string, b: string) {
    enc.proto(a).Some? && enc.proto(a) == enc.proto(b) ==> a == b
  }

  predicate TellsTextsApart<P>(enc: Encoders<P>, a: string, b: string) {
    enc.text(a).Some? && enc.text(a) == enc.text(b) ==> a == b
  }

  predicate OneLineText<P>(enc: Encoders<P>, a: string) {
    enc.text(a).Some? ==> NL !in enc.text(a).value
  }

  predicate OneLineRecord<P>(enc: Encoders<P>, p: P) {
    enc.record(p).Some? ==> NL !in enc.record(p).value
  }

  /** Protobuf and JSON tell values apart, and JSON text holds no raw newline; protobuf bytes may. */
  ghost predicate Faithful<P(!new)>(enc: Encoders<P>) {
    && (forall a, b :: TellsBodiesApart(enc, a, b) && TellsTextsApart(enc, a, b))
    && (forall a :: OneLineText(enc, a))
    && (forall p :: OneLineRecord(enc, p))
  }

  /** Such encoders exist. */
  lemma FaithfulEncodersExist<P(!new)>()
    ensures exists enc: Encoders<P> :: Faithful(enc)
  {
    var enc: Encoders<P> := Encoders(s => Some(s), s => Some(SpellOut(s)), _ => Some(""));
    forall a, b ensures TellsBodiesApart(enc, a, b) && TellsTextsApart(enc, a, b) {
      if SpellOut(a) == SpellOut(b) { SpellOutInjective(a, b); }
    }
    forall a ensures OneLineText(enc, a) { SpellOutPrintable(a); }
    assert forall p :: OneLineRecord(enc, p);
    assert Faithful(enc);
  }

  // ----- The fingerprint -----

  function FingerprintOf<P>(p: Payload<P>, enc: Encoders<P>, sha: string -> string): Option<string> {
    match EncodeAll(Parts(p), enc)
    case None => None
    case Some(entries) => Some(sha(Frames(entries, NL, NL)))
  }

  lemma EncodePrefix<P>(parts: seq<Part<P>>, i: nat, enc: Encoders<P>)
    requires i < |parts| && EncodeAll(parts[..i], enc).Some?
    ensures EncodeAll(parts[..i + 1], enc) == match Encode(parts[i], enc)
      case None => None
      case Some(e) => Some(EncodeAll(parts[..i], enc).value + [e])
  {
    assert parts[..i + 1][..i] == parts[..i];
  }

  lemma {:induction false} EncodeFails<P>(parts: seq<Part<P>>, n: nat, enc: Encoders<P>)
    requires n <= |parts| && EncodeAll(parts[..n], enc).None?
    ensures EncodeAll(parts, enc).None?
    decreases |parts|
  {
    if n == |parts| {
      assert parts[..n] == parts;
    } else {
      assert parts[..|parts| - 1][..n] == parts[..n];
      EncodeFails(parts[..|parts| - 1], n, enc);
    }
  }

  /** The loop over the parts of a key, stopping at one that does not encode. */
  method NewTerminalWriteKey<P>(
    gvk: string, uid: string, namespace: string, name: string, parts: seq<Part<P>>, enc: Encoders<P>,
    sha: string -> string)
    returns (key: Option<WriteKey>)
    ensures key == match EncodeAll(parts, enc)
      case None => None
      case Some(entries) => Some(WriteKey(gvk, uid, namespace, name, sha(Frames(entries, NL, NL))))
  {
    var buf := "";
    ghost var entries := [];
    for i := 0 to |parts|
      invariant EncodeAll(parts[..i], enc) == Some(entries) && buf == Frames(entries, NL, NL)
    {
      EncodePrefix(parts, i, enc);
      var e := Encode(parts[i], enc);
      if e.None? {
        EncodeFails(parts, i + 1, enc);
        return None;
      }
      FramesAppend(entries, e.value, NL, NL);
      entries := entries + [e.value];
      buf := buf + e.value.0 + [NL] + e.value.1 + [NL];
    }
    assert parts[..|parts|] == parts;
    key := Some(WriteKey(gvk, uid, namespace, name, sha(buf)));
  }

  // ----- What it identifies -----

  /** A Go type name that is not `string` and fits on a line. */
  predicate WellNamed<P>(p: Payload<P>) {
    NL !in p.kind && p.kind != TEXT
  }

  lemma EncodeStep<P>(init: seq<Part<P>>, last: Part<P>, enc: Encoders<P>)
    ensures EncodeAll(init + [last], enc) ==
      if EncodeAll(init, enc).Some? && Encode(last, enc).Some?
      then Some(EncodeAll(init, enc).value + [Encode(last, enc).value]) else None
  {
    assert (init + [last])[..|init|] == init;
  }

  lemma RequestEntries<P>(p: Payload<P>, enc: Encoders<P>)
    requires p.Request? && EncodeAll(Parts(p), enc).Some?
    ensures enc.proto(p.body).Some? && enc.text(p.target).Some?
    ensures EncodeAll(Parts(p), enc).value == [(p.kind, enc.proto(p.body).value), (TEXT, enc.text(p.target).value)]
  {
    var none: seq<Part<P>>, m: Part<P>, w: Part<P> := [], Message(p.kind, p.body), Words(p.target);
    EncodeStep(none, m, enc);
    EncodeStep([m], w, enc);
    assert none + [m] == [m] && Parts(p) == [m] + [w];
    hide EncodeAll;
  }

  lemma UnbuildableEntries<P>(p: Payload<P>, enc: Encoders<P>)
    requires p.Unbuildable? && EncodeAll(Parts(p), enc).Some?
    ensures enc.text(BUILD_ERROR).Some? && enc.record(p.parameters).Some?
    ensures enc.text(p.target).Some? && enc.text(p.cause).Some?
    ensures EncodeAll(Parts(p), enc).value ==
      [(TEXT, enc.text(BUILD_ERROR).value), (p.kind, enc.record(p.parameters).value),
       (TEXT, enc.text(p.target).value), (TEXT, enc.text(p.cause).value)]
  {
    var none: seq<Part<P>> := [];
    var w: Part<P>, x: Part<P> := Words(BUILD_ERROR), Structure(p.kind, p.parameters);
    var y: Part<P>, z: Part<P> := Words(p.target), Words(p.cause);
    EncodeStep(none, w, enc);
    EncodeStep([w], x, enc);
    EncodeStep([w] + [x], y, enc);
    EncodeStep([w] + [x] + [y], z, enc);
    assert none + [w] == [w];
    assert Parts(p) == [w] + [x] + [y] + [z];
    hide EncodeAll;
  }

  lemma RequestPreimage(kind: string, body: string, target: string)
    ensures Frames([(kind, body), (TEXT, target)], NL, NL) == kind + [NL] + (body + [NL] + TEXT + [NL] + target + [NL])
  {
    var parts: seq<Entry> := [(kind, body), (TEXT, target)];
    assert Frames(parts[2..], NL, NL) == "";
    assert parts[1..][1..] == parts[2..];
    assert Frames(parts[1..], NL, NL) == Frame(parts[1], NL, NL) + "";
  }

  lemma RequestsAreRead(k: string, b: string, t: string, k': string, b': string, t': string)
    requires NL !in k && NL !in k' && NL !in t && NL !in t'
    requires Frames([(k, b), (TEXT, t)], NL, NL) == Frames([(k', b'), (TEXT, t')], NL, NL)
    ensures k == k' && b == b' && t == t'
  {
    RequestPreimage(k, b, t);
    RequestPreimage(k', b', t');
    hide Frames;
    var x, x' := b + [NL] + TEXT + [NL] + t + [NL], b' + [NL] + TEXT + [NL] + t' + [NL];
    SplitFirst(k, x, k', x', NL);
    var y, y' := b + [NL] + TEXT, b' + [NL] + TEXT;
    assert x == (y + [NL] + t) + [NL] + "" && x' == (y' + [NL] + t') + [NL] + "";
    SplitLast(y + [NL] + t, "", y' + [NL] + t', "", NL);
    SplitLast(y, t, y', t', NL);
    SplitLast(b, TEXT, b', TEXT, NL);
  }

  lemma KindsTellApart(k: string, b: string, t: string, es: seq<Entry>)
    requires NL !in k && k != TEXT && es != [] && es[0].0 == TEXT
    ensures Frames([(k, b), (TEXT, t)], NL, NL) != Frames(es, NL, NL)
  {
    RequestPreimage(k, b, t);
    var rest := es[0].1 + [NL] + Frames(es[1..], NL, NL);
    assert Frames(es, NL, NL) == TEXT + [NL] + rest;
    if Frames([(k, b), (TEXT, t)], NL, NL) == Frames(es, NL, NL) {
      SplitFirst(k, b + [NL] + TEXT + [NL] + t + [NL], TEXT, rest, NL);
    }
  }

  /** The parameters at hand encode differently when they differ. */
  ghost predicate TellsRecordsApart<P>(enc: Encoders<P>, p: Payload<P>, q: Payload<P>) {
    p.Unbuildable? && q.Unbuildable? && enc.record(p.parameters) == enc.record(q.parameters) ==>
      p.parameters == q.parameters
  }

  lemma SameRequest<P(!new)>(p: Payload<P>, q: Payload<P>, enc: Encoders<P>)
    requires Faithful(enc) && WellNamed(p) && WellNamed(q) && p.Request? && q.Request?
    requires EncodeAll(Parts(p), enc).Some? && EncodeAll(Parts(q), enc).Some?
    requires Frames(EncodeAll(Parts(p), enc).value, NL, NL) == Frames(EncodeAll(Parts(q), enc).value, NL, NL)
    ensures p == q
  {
    RequestEntries(p, enc);
    RequestEntries(q, enc);
    hide EncodeAll;
    hide Frames;
    assert OneLineText(enc, p.target) && OneLineText(enc, q.target);
    RequestsAreRead(p.kind, enc.proto(p.body).value, enc.text(p.target).value,
                    q.kind, enc.proto(q.body).value, enc.text(q.target).value);
    assert TellsBodiesApart(enc, p.body, q.body) && TellsTextsApart(enc, p.target, q.target);
  }

  lemma SameRefusal<P(!new)>(p: Payload<P>, q: Payload<P>, enc: Encoders<P>)
    requires Faithful(enc) && WellNamed(p) && WellNamed(q) && p.Unbuildable? && q.Unbuildable?
    requires TellsRecordsApart(enc, p, q) && EncodeAll(Parts(p), enc).Some? && EncodeAll(Parts(q), enc).Some?
    requires Frames(EncodeAll(Parts(p), enc).value, NL, NL) == Frames(EncodeAll(Parts(q), enc).value, NL, NL)
    ensures p == q
  {
    UnbuildableEntries(p, enc);
    UnbuildableEntries(q, enc);
    var (es, fs) := (EncodeAll(Parts(p), enc).value, EncodeAll(Parts(q), enc).value);
    hide EncodeAll;
    assert OneLineText(enc, BUILD_ERROR) && OneLineText(enc, p.target) && OneLineText(enc, p.cause);
    assert OneLineText(enc, q.target) && OneLineText(enc, q.cause);
    assert OneLineRecord(enc, p.parameters) && OneLineRecord(enc, q.parameters);
    FramesInjective(es, fs, NL, NL);
    assert es[1] == fs[1] && es[2] == fs[2] && es[3] == fs[3];
    assert TellsTextsApart(enc, p.target, q.target) && TellsTextsApart(enc, p.cause, q.cause);
  }

  lemma RequestIsNoRefusal<P(!new)>(p: Payload<P>, q: Payload<P>, enc: Encoders<P>)
    requires WellNamed(p) && p.Request? && q.Unbuildable?
    requires EncodeAll(Parts(p), enc).Some? && EncodeAll(Parts(q), enc).Some?
    ensures Frames(EncodeAll(Parts(p), enc).value, NL, NL) != Frames(EncodeAll(Parts(q), enc).value, NL, NL)
  {
    RequestEntries(p, enc);
    UnbuildableEntries(q, enc);
    KindsTellApart(p.kind, enc.proto(p.body).value, enc.text(p.target).value, EncodeAll(Parts(q), enc).value);
  }

  /** Two writes have one fingerprint exactly when they carry the same payload to the same cluster. */
  lemma FingerprintIsThePayload<P(!new)>(p: Payload<P>, q: Payload<P>, enc: Encoders<P>, sha: string -> string)
    requires IdealHash(sha) && Faithful(enc) && TellsRecordsApart(enc, p, q) && WellNamed(p) && WellNamed(q)
    requires FingerprintOf(p, enc, sha).Some? && FingerprintOf(q, enc, sha).Some?
    ensures FingerprintOf(p, enc, sha) == FingerprintOf(q, enc, sha) <==> p == q
  {
    var (es, fs) := (EncodeAll(Parts(p), enc).value, EncodeAll(Parts(q), enc).value);
    assert TellsApart(sha, Frames(es, NL, NL), Frames(fs, NL, NL));
    hide EncodeAll;
    hide Faithful;
    hide Frames;
    if Frames(es, NL, NL) == Frames(fs, NL, NL) {
      if p.Request? && q.Request? {
        SameRequest(p, q, enc);
      } else if p.Request? {
        RequestIsNoRefusal(p, q, enc);
      } else if q.Request? {
        RequestIsNoRefusal(q, p, enc);
      } else {
        SameRefusal(p, q, enc);
      }
    }
  }
}
