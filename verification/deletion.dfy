/**
 * snapshotDelete: list the catalog, select every key that contains the id,
 * fail when there is none, and delete the selected keys one by one. A
 * failing delete call ends the procedure with its error.
 */
module Deletion {
  import opened Wrappers
  import opened Types
  import opened Text
  import opened Store
  import opened Catalog
  import opened Seqs

  datatype DeleteRun = DeleteRun(calls: seq<StoreCall>, result: Result<DeleteOutput, string>)

  /** Every listed key that contains the id anywhere, in listing order. */
  function Selected(listing: seq<string>, id: string): (keys: seq<string>)
    ensures IsSubsequence(keys, listing)
    ensures forall k :: k in keys <==> k in listing && Contains(k, id)
  {
    Filter(listing, k => Contains(k, id))
  }

  /** Each selected key is kept as often as it is listed. */
  lemma SelectedCounts(listing: seq<string>, id: string)
    ensures forall k :: multiset(Selected(listing, id))[k] == if Contains(k, id) then multiset(listing)[k] else 0
  {
    FilterCounts(listing, k => Contains(k, id));
  }

  /**
   * The delete calls for `keys`, in order, up to and including the first
   * one the store refuses; the error of that one, if any.
   */
  function DeleteEach(keys: seq<string>, reply: string -> Outcome<string>): (r: (seq<StoreCall>, Outcome<string>))
    ensures 1 <= |r.0| <= |keys| || (|keys| == 0 && r.0 == [])
    ensures forall i :: 0 <= i < |r.0| ==> r.0[i] == Delete(keys[i])
    ensures forall i :: 0 <= i < |r.0| - 1 ==> reply(keys[i]).Pass?
    ensures r.1.Pass? <==> |r.0| == |keys| && forall i :: 0 <= i < |keys| ==> reply(keys[i]).Pass?
    ensures r.1.Fail? ==> reply(keys[|r.0| - 1]) == r.1
  {
    if |keys| == 0 then ([], Pass)
    else match reply(keys[0])
      case Fail(e) => ([Delete(keys[0])], Fail(e))
      case Pass =>
        var tail := keys[1..];
        var rest := DeleteEach(tail, reply);
        assert forall i :: 0 <= i < |tail| ==> tail[i] == keys[i + 1];
        var calls := [Delete(keys[0])] + rest.0;
        assert forall i :: 0 <= i < |rest.0| ==> calls[i + 1] == rest.0[i];
        (calls, rest.1)
  }

  /** The delete procedure once the list call has returned `listing`; `reply` answers each delete call. */
  function DeleteListed(input: DeleteInput, listing: seq<string>, reply: string -> Outcome<string>): (run: DeleteRun)
    ensures 1 <= |run.calls| <= 1 + |Selected(listing, input.id)| && run.calls[0] == List(SnapshotsPrefix, None)
    // no key contains the id: not found, and nothing is deleted
    ensures Selected(listing, input.id) == [] ==>
      run.calls == [List(SnapshotsPrefix, None)] && run.result == Failure(NotFound(input.id))
    // only keys containing the id are deleted, each once, in listing order
    ensures forall i :: 1 <= i < |run.calls| ==>
      run.calls[i] == Delete(Selected(listing, input.id)[i - 1]) && Contains(Selected(listing, input.id)[i - 1], input.id)
    // success: every selected key was deleted
    ensures run.result.Success? <==>
      Selected(listing, input.id) != [] && forall k :: k in Selected(listing, input.id) ==> reply(k).Pass?
    ensures run.result.Success? ==>
      && run.result.value == DeleteOutput(true, input.id)
      && |run.calls| == 1 + |Selected(listing, input.id)|
  {
    var keys := Selected(listing, input.id);
    var list := List(SnapshotsPrefix, None);
    if |keys| == 0 then DeleteRun([list], Failure(NotFound(input.id)))
    else
      var (deletes, outcome) := DeleteEach(keys, reply);
      assert forall k :: k in keys ==> Contains(k, input.id);
      match outcome
      case Pass => DeleteRun([list] + deletes, Success(DeleteOutput(true, input.id)))
      case Fail(e) => DeleteRun([list] + deletes, Failure(e))
  }

  /**
   * When some key is selected, the deletes are those of DeleteEach: in order,
   * up to the first refusal, whose error ends the procedure.
   */
  lemma DeleteListedRefusal(input: DeleteInput, listing: seq<string>, reply: string -> Outcome<string>)
    requires Selected(listing, input.id) != []
    ensures var run := DeleteListed(input, listing, reply);
      var (deletes, outcome) := DeleteEach(Selected(listing, input.id), reply);
      && run.calls == [List(SnapshotsPrefix, None)] + deletes
      && (outcome.Fail? ==> run.result == Failure(outcome.error))
  {
  }

  /**
   * The whole delete procedure. `listError` is the error the list call
   * throws, if it throws; `listing` is the keys it returns otherwise.
   */
  function SnapshotDelete(
    input: DeleteInput, listError: Option<string>, listing: seq<string>, reply: string -> Outcome<string>): (run: DeleteRun)
    // a failed listing ends the procedure with its error, and nothing is deleted
    ensures listError.Some? ==> run == DeleteRun([List(SnapshotsPrefix, None)], Failure(listError.value))
    ensures listError.None? ==> run == DeleteListed(input, listing, reply)
    ensures run.result.Success? ==> listError.None?
  {
    match listError
    case Some(e) => DeleteRun([List(SnapshotsPrefix, None)], Failure(e))
    case None => DeleteListed(input, listing, reply)
  }
}
