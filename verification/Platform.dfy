/** The outside world as the controllers see it: one remote row, one set of installed manifests, calls that may fail. */
module Platform {
  import opened Wrappers
  import opened Reason

  datatype Call =
    | ApplyRow(request: string)
    | SetMaintenance(mode: bool, expiry: Option<int>)
    | FetchManifests
    | InstallManifests
    | RemoveManifests
    | DeleteRow

  /** A failed call may still have taken effect. */
  datatype Reply = Done | Failed(err: Error, landed: bool)
  {
    predicate TookEffect() { Done? || landed }

    function Outcome(): Option<Error> {
      if Done? then None else Some(err)
    }
  }

  datatype Exchange = Exchange(call: Call, reply: Reply)

  function RowAfter(row: bool, e: Exchange): bool {
    if !e.reply.TookEffect() then row else if e.call.ApplyRow? then true else if e.call.DeleteRow? then false else row
  }

  function InstalledAfter(installed: bool, e: Exchange): bool {
    if !e.reply.TookEffect() then installed
    else if e.call.InstallManifests? then true
    else if e.call.RemoveManifests? then false
    else installed
  }

  class Remote {
    var row: bool
    var installed: bool
    var log: seq<Exchange>

    constructor (row: bool, installed: bool)
      ensures this.row == row && this.installed == installed && log == []
    {
      this.row, this.installed, log := row, installed, [];
    }

    method Do(call: Call, reply: Reply) returns (err: Option<Error>)
      modifies this
      ensures err == reply.Outcome()
      ensures log == old(log) + [Exchange(call, reply)]
      ensures row == RowAfter(old(row), Exchange(call, reply))
      ensures installed == InstalledAfter(old(installed), Exchange(call, reply))
    {
      var e := Exchange(call, reply);
      log, row, installed := log + [e], RowAfter(row, e), InstalledAfter(installed, e);
      err := reply.Outcome();
    }
  }

  // ----- Shapes of call sequences -----

  function ManifestCalls(del: bool, fetch: Reply, act: Reply): seq<Exchange> {
    [Exchange(FetchManifests, fetch)]
    + if fetch.Done? then [Exchange(if del then RemoveManifests else InstallManifests, act)] else []
  }

  /** Strip (when asked to), then delete the row. */
  function RollbackCalls(strips: bool, fetch: Reply, strip: Reply, delete: Reply): seq<Exchange> {
    (if strips then ManifestCalls(true, fetch, strip) else []) + [Exchange(DeleteRow, delete)]
  }

  predicate HasCall(calls: seq<Exchange>, call: Call) {
    exists i :: 0 <= i < |calls| && calls[i].call == call
  }

  /** The sequence ends with this exchange, and calls it nowhere before. */
  predicate EndsWithOnly(calls: seq<Exchange>, e: Exchange) {
    && calls != [] && calls[|calls| - 1] == e
    && forall i | 0 <= i < |calls| - 1 :: calls[i].call != e.call
  }

  lemma HasCallEither(s: seq<Exchange>, t: seq<Exchange>, call: Call)
    ensures HasCall(s + t, call) <==> HasCall(s, call) || HasCall(t, call)
  {
    if i :| 0 <= i < |s| && s[i].call == call { assert (s + t)[i] == s[i]; }
    if i :| 0 <= i < |t| && t[i].call == call { assert (s + t)[|s| + i] == t[i]; }
  }

  lemma EndsWithTail(s: seq<Exchange>, t: seq<Exchange>, e: Exchange)
    requires EndsWithOnly(t, e) && !HasCall(s, e.call)
    ensures EndsWithOnly(s + t, e)
  {
    forall i | 0 <= i < |s + t| - 1 ensures (s + t)[i].call != e.call {
      if i < |s| { assert s[i].call != e.call; } else { assert t[i - |s|].call != e.call; }
    }
  }

  /** Fetching and acting: the action only on what was fetched, and never the other one. */
  lemma ManifestCallsExactly(del: bool, fetch: Reply, act: Reply, call: Call)
    ensures HasCall(ManifestCalls(del, fetch, act), call)
       <==> call == FetchManifests || (fetch.Done? && call == if del then RemoveManifests else InstallManifests)
  {
    var calls := ManifestCalls(del, fetch, act);
    assert calls[0].call == FetchManifests;
    assert fetch.Done? ==> calls[1].call == if del then RemoveManifests else InstallManifests;
  }

  /** A rollback strips only when asked to, and deletes the row last, once, and whatever happened before. */
  lemma RollbackCallsExactly(strips: bool, fetch: Reply, strip: Reply, delete: Reply, call: Call)
    ensures var calls := RollbackCalls(strips, fetch, strip, delete);
      && (HasCall(calls, call) <==>
            call == DeleteRow || (strips && (call == FetchManifests || (fetch.Done? && call == RemoveManifests))))
      && EndsWithOnly(calls, Exchange(DeleteRow, delete))
  {
    var first, last := if strips then ManifestCalls(true, fetch, strip) else [], [Exchange(DeleteRow, delete)];
    if strips { ManifestCallsExactly(true, fetch, strip, call); }
    HasCallEither(first, last, call);
    assert last[0].call == DeleteRow;
  }
}
