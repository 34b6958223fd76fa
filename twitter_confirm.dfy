/**
 * Confirming the Twitter task. Each press of the `follow_twitter` task
 * button registers another global `confirm_twitter` handler that closes over
 * the id of the user who pressed it. Handlers run in the order they were
 * registered, and the first one answers without passing the update on.
 * So every later confirmation, by anyone, marks the task of the first
 * user who pressed the button. This module models that as written, next to
 * the intended per-user confirmation that the engine uses.
 */
module TwitterConfirm {
  import opened Identity
  import opened Tasks

  /** The ids captured by the registered `confirm_twitter` handlers, oldest first. */
  function WithHandler(handlers: seq<UserId>, presser: UserId): (r: seq<UserId>)
    ensures |r| == |handlers| + 1 && r[..|handlers|] == handlers && r[|handlers|] == presser
  {
    handlers + [presser]
  }

  /** As written: the oldest handler runs and marks its own captured user's task; the presser is ignored. */
  function ConfirmAsWritten(handlers: seq<UserId>, tasks: map<UserId, seq<TaskRow>>, presser: UserId): (r: map<UserId, seq<TaskRow>>)
    ensures handlers == [] ==> r == tasks
    ensures handlers != [] ==> RowsOf(r, handlers[0]) == MarkCompleted(RowsOf(tasks, handlers[0]), FollowTwitter.Key())
    ensures handlers != [] ==> forall u :: u != handlers[0] ==> RowsOf(r, u) == RowsOf(tasks, u)
  {
    if handlers == [] then tasks else WithCompleted(tasks, handlers[0], FollowTwitter.Key())
  }

  /**
   * Users 1 and 2 both press the Twitter task button; user 2 then confirms.
   * User 1's task is marked and user 2's stays pending.
   */
  lemma ConfirmationGoesToFirstPresser()
    ensures var tasks := map[1 := DefaultTasks, 2 := DefaultTasks];
            var after := ConfirmAsWritten(WithHandler(WithHandler([], 1), 2), tasks, 2);
            && 1 in after && 2 in after && |after[1]| == 5 && |after[2]| == 5
            && after[1][2].taskType == "follow_twitter" && after[1][2].completed
            && after[2][2].taskType == "follow_twitter" && !after[2][2].completed
  {
  }

  /** Intended: a confirmation marks the presser's own `follow_twitter` row and nobody else's. */
  function Confirmed(tasks: map<UserId, seq<TaskRow>>, presser: UserId): (r: map<UserId, seq<TaskRow>>)
    ensures RowsOf(r, presser) == MarkCompleted(RowsOf(tasks, presser), FollowTwitter.Key())
    ensures forall u :: u != presser ==> RowsOf(r, u) == RowsOf(tasks, u)
  {
    WithCompleted(tasks, presser, FollowTwitter.Key())
  }

  /** The presser's Twitter task is completed afterwards, and confirming twice is confirming once. */
  lemma ConfirmationGoesToPresser(tasks: map<UserId, seq<TaskRow>>, presser: UserId)
    requires TableWellFormed(tasks) && presser in tasks
    ensures presser in Confirmed(tasks, presser)
    ensures Confirmed(tasks, presser)[presser][2].taskType == FollowTwitter.Key()
    ensures Confirmed(tasks, presser)[presser][2].completed
    ensures Confirmed(Confirmed(tasks, presser), presser) == Confirmed(tasks, presser)
  {
    MarkCompletedIdempotent(tasks[presser], FollowTwitter.Key());
  }
}
