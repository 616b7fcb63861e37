/** The shared table of failed writes (base/terminal_write_guard.go). */
module Guard {
  import opened Wrappers
  import opened Reason

  datatype WriteKey = WriteKey(gvk: string, uid: string, namespace: string, name: string, fingerprint: string)

  type Entries = map<WriteKey, Error>

  predicate SameResource(a: WriteKey, b: WriteKey) {
    && a.gvk == b.gvk
    && if a.uid != "" && b.uid != "" then a.uid == b.uid else a.namespace == b.namespace && a.name == b.name
  }

  predicate SamePayload(a: WriteKey, b: WriteKey) {
    SameResource(a, b) && a.fingerprint == b.fingerprint
  }

  /** An empty UID falls back to the name, so a nameless-UID key relates two resources that are unrelated. */
  lemma SameResourceIsNotTransitive()
    ensures exists a, b, c :: SameResource(a, b) && SameResource(b, c) && !SameResource(a, c)
  {
    var b := WriteKey("g", "", "ns", "n", "");
    var a, c := b.(uid := "1"), b.(uid := "2");
    assert SameResource(a, b) && SameResource(b, c) && !SameResource(a, c);
  }

  /** With UIDs on both sides only the UIDs tell two resources of one kind apart; without one, namespace and name do. */
  lemma SameResourceExactly(a: WriteKey, b: WriteKey)
    ensures a.uid != "" && b.uid != "" ==> (SameResource(a, b) <==> (a.gvk, a.uid) == (b.gvk, b.uid))
    ensures a.uid == "" || b.uid == "" ==>
      (SameResource(a, b) <==> (a.gvk, a.namespace, a.name) == (b.gvk, b.namespace, b.name))
  {}

  // ----- The table as a value -----

  function WithoutResource(entries: Entries, key: WriteKey): Entries {
    map k | k in entries && !SameResource(k, key) :: entries[k]
  }

  function Recorded(entries: Entries, key: WriteKey, err: Option<Error>): Entries {
    if err.Some? && IsTerminal(err.value) then WithoutResource(entries, key)[key := err.value] else entries
  }

  predicate HasResource(entries: Entries, key: WriteKey) {
    exists k :: k in entries && SameResource(k, key)
  }

  predicate HasPayload(entries: Entries, key: WriteKey) {
    exists k :: k in entries && SamePayload(k, key)
  }

  function AfterSuppress(entries: Entries, key: WriteKey, deleting: bool): Entries {
    if !deleting && HasPayload(entries, key) then entries else WithoutResource(entries, key)
  }

  // ----- The guard -----

  class TerminalWriteGuard {
    var entries: Entries

    constructor ()
      ensures entries == map[]
    {
      entries := map[];
    }

    method DeleteResource(key: WriteKey)
      modifies this
      ensures entries == WithoutResource(old(entries), key)
    {
      var rest := entries.Keys;
      while rest != {}
        invariant rest <= old(entries).Keys
        invariant entries == map k | k in old(entries) && (k in rest || !SameResource(k, key)) :: old(entries)[k]
        decreases |rest|
      {
        var existing :| existing in rest;
        rest := rest - {existing};
        if SameResource(existing, key) {
          entries := entries - {existing};
        }
      }
    }

    /** Only terminal errors are kept, one per resource. */
    method Record(key: WriteKey, err: Option<Error>)
      modifies this
      ensures entries == Recorded(old(entries), key, err)
    {
      if err.None? || !IsTerminal(err.value) { return; }
      DeleteResource(key);
      entries := entries[key := err.value];
    }

    method Clear(key: WriteKey)
      modifies this
      ensures entries == WithoutResource(old(entries), key)
    {
      DeleteResource(key);
    }

    method Has(key: WriteKey) returns (found: bool)
      ensures found <==> HasResource(entries, key)
    {
      var rest := entries.Keys;
      while rest != {}
        invariant rest <= entries.Keys
        invariant forall k | k in entries && k !in rest :: !SameResource(k, key)
        decreases |rest|
      {
        var existing :| existing in rest;
        rest := rest - {existing};
        if SameResource(existing, key) { return true; }
      }
      return false;
    }

    /** The remembered error of an identical write; anything else forgets the resource. */
    method Suppress(key: WriteKey, deleting: bool) returns (err: Option<Error>)
      modifies this
      ensures entries == AfterSuppress(old(entries), key, deleting)
      ensures err.Some? <==> !deleting && HasPayload(old(entries), key)
      ensures err.Some? ==> exists k :: k in old(entries) && SamePayload(k, key) && old(entries)[k] == err.value
    {
      err := None;
      if deleting {
        DeleteResource(key);
        return;
      }
      var rest := entries.Keys;
      while rest != {}
        invariant rest <= entries.Keys
        invariant forall k | k in entries && k !in rest :: !SamePayload(k, key)
        decreases |rest|
      {
        var existing :| existing in rest;
        rest := rest - {existing};
        if SamePayload(existing, key) { return Some(entries[existing]); }
      }
      DeleteResource(key);
    }
  }

  // ----- Every reachable table -----

  datatype Op =
    | DoRecord(key: WriteKey, err: Option<Error>)
    | DoClear(key: WriteKey)
    | DoHas(key: WriteKey)
    | DoSuppress(key: WriteKey, deleting: bool)

  function Step(entries: Entries, op: Op): Entries {
    match op
    case DoRecord(key, err) => Recorded(entries, key, err)
    case DoClear(key) => WithoutResource(entries, key)
    case DoHas(_) => entries
    case DoSuppress(key, deleting) => AfterSuppress(entries, key, deleting)
  }

  function Run(ops: seq<Op>): Entries {
    if ops == [] then map[] else Step(Run(ops[..|ops| - 1]), ops[|ops| - 1])
  }

  /** No two stored keys stand for the same resource, and every stored error is terminal. */
  ghost predicate Unrelated(entries: Entries) {
    && (forall a, b | a in entries && b in entries && a != b :: !SameResource(a, b))
    && (forall k | k in entries :: IsTerminal(entries[k]))
  }

  lemma {:induction false} ReachableIsUnrelated(ops: seq<Op>)
    ensures Unrelated(Run(ops))
    decreases |ops|
  {
    if ops != [] {
      ReachableIsUnrelated(ops[..|ops| - 1]);
    }
  }

  // ----- With UIDs, a simple map from resource to its last terminal failure -----

  type Resource = (string, string)

  function ResourceOf(key: WriteKey): Resource { (key.gvk, key.uid) }

  type Failures = map<Resource, (string, Error)>

  function FailureStep(m: Failures, op: Op): Failures {
    var r := ResourceOf(op.key);
    match op
    case DoRecord(key, err) => if err.Some? && IsTerminal(err.value) then m[r := (key.fingerprint, err.value)] else m
    case DoClear(_) => m - {r}
    case DoHas(_) => m
    case DoSuppress(key, deleting) => if !deleting && r in m && m[r].0 == key.fingerprint then m else m - {r}
  }

  function FailureRun(ops: seq<Op>): Failures {
    if ops == [] then map[] else FailureStep(FailureRun(ops[..|ops| - 1]), ops[|ops| - 1])
  }

  ghost predicate StoredFor(entries: Entries, r: Resource, fingerprint: string, err: Error) {
    exists k :: k in entries && ResourceOf(k) == r && k.fingerprint == fingerprint && entries[k] == err
  }

  /** The table holds, for each resource with a failure, exactly that failure. */
  ghost predicate Represents(entries: Entries, m: Failures) {
    && (forall k | k in entries :: k.uid != "" && ResourceOf(k) in m && m[ResourceOf(k)] == (k.fingerprint, entries[k]))
    && (forall r | r in m :: StoredFor(entries, r, m[r].0, m[r].1))
  }

  lemma StepHolds(entries: Entries, m: Failures, op: Op, r: Resource)
    requires Represents(entries, m) && op.key.uid != "" && r in FailureStep(m, op)
    ensures var (fp, err) := FailureStep(m, op)[r]; StoredFor(Step(entries, op), r, fp, err)
  {
    var next := Step(entries, op);
    if r == ResourceOf(op.key) && op.DoRecord? && op.err.Some? && IsTerminal(op.err.value) {
      assert op.key in next;
    } else {
      var k :| k in entries && ResourceOf(k) == r && k.fingerprint == m[r].0 && entries[k] == m[r].1;
      assert k in next;
    }
  }

  lemma StepKeeps(entries: Entries, m: Failures, op: Op, k: WriteKey)
    requires Represents(entries, m) && op.key.uid != "" && k in Step(entries, op)
    ensures k.uid != "" && ResourceOf(k) in FailureStep(m, op)
    ensures FailureStep(m, op)[ResourceOf(k)] == (k.fingerprint, Step(entries, op)[k])
  {
    if op.DoSuppress? && k in entries && SameResource(k, op.key) {
      assert HasPayload(entries, op.key);
      var same :| same in entries && SamePayload(same, op.key);
      assert m[ResourceOf(same)].0 == op.key.fingerprint;
    }
  }

  lemma StepRepresents(entries: Entries, m: Failures, op: Op)
    requires Represents(entries, m) && op.key.uid != ""
    ensures Represents(Step(entries, op), FailureStep(m, op))
  {
    var next, m' := Step(entries, op), FailureStep(m, op);
    hide Step;
    hide FailureStep;
    hide StoredFor;
    forall r | r in m' ensures StoredFor(next, r, m'[r].0, m'[r].1) {
      StepHolds(entries, m, op, r);
    }
    forall k | k in next ensures k.uid != "" && ResourceOf(k) in m' && m'[ResourceOf(k)] == (k.fingerprint, next[k]) {
      StepKeeps(entries, m, op, k);
    }
  }

  /** Every run of operations on keys with UIDs is a run of the simple map. */
  lemma {:induction false} GuardRefinesFailures(ops: seq<Op>)
    requires forall op | op in ops :: op.key.uid != ""
    ensures Represents(Run(ops), FailureRun(ops))
    decreases |ops|
  {
    if ops != [] {
      var init, last := ops[..|ops| - 1], ops[|ops| - 1];
      assert last in ops;
      GuardRefinesFailures(init);
      StepRepresents(Run(init), FailureRun(init), last);
    }
  }

  /** What callers see of the table is what the simple map says. */
  lemma AnswersAgree(entries: Entries, m: Failures, key: WriteKey, err: Error)
    requires Represents(entries, m) && key.uid != ""
    ensures HasResource(entries, key) <==> ResourceOf(key) in m
    ensures HasPayload(entries, key) <==> ResourceOf(key) in m && m[ResourceOf(key)].0 == key.fingerprint
    ensures (exists k :: k in entries && SamePayload(k, key) && entries[k] == err)
       <==> ResourceOf(key) in m && m[ResourceOf(key)] == (key.fingerprint, err)
  {
    var r := ResourceOf(key);
    if r in m {
      var k :| k in entries && ResourceOf(k) == r && k.fingerprint == m[r].0 && entries[k] == m[r].1;
      assert SameResource(k, key);
    }
  }

  /** An operation on one resource leaves every other resource's failure where it was. */
  lemma OthersUntouched(m: Failures, op: Op, other: Resource)
    requires other != ResourceOf(op.key)
    ensures other in FailureStep(m, op) <==> other in m
    ensures other in m ==> FailureStep(m, op)[other] == m[other]
  {}
}
