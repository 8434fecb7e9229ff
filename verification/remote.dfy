/** The remote calls a view-model makes and the failures the network or the
    store's security rules can raise on them. Which calls fail is an input of
    the model: a call found in a `Faults` map throws an exception carrying the
    mapped message (`None` for an exception without a message). */
module Remote {
  import opened Wrappers

  datatype Call =
    | PublicUpcomingQuery | PublicPastQuery | MineQuery | MyPastQuery
    | GetByIdCall | UpsertCall | DeleteCall
    | AttendCall | UnAttendCall | CountCall | IsAttendingCall
    | ListCommentsCall | AddCommentCall

  type Faults = map<Call, Option<string>>

  /** How a sequence of remote calls ended. */
  datatype Outcome = Completed | Thrown(message: Option<string>)

  /** Running `calls` in order: the first call that fails throws and the rest
      never run. */
  function FirstFault(faults: Faults, calls: seq<Call>): (r: Outcome)
    ensures r.Completed? <==> forall i :: 0 <= i < |calls| ==> calls[i] !in faults
    ensures r.Thrown? ==> exists i ::
      && 0 <= i < |calls| && calls[i] in faults && r.message == faults[calls[i]]
      && forall j :: 0 <= j < i ==> calls[j] !in faults
  {
    if |calls| == 0 then Completed
    else if calls[0] in faults then Thrown(faults[calls[0]])
    else
      var r := FirstFault(faults, calls[1..]);
      assert forall i :: 0 < i < |calls| ==> calls[i] == calls[1..][i - 1];
      r
  }
}
