/**
 * The airdrop screen built from a user's task rows: the progress figures,
 * one line per task and the inline buttons (one per pending task, the claim
 * button once everything is done, and a back button in the later bot).
 * The Markdown wording around these parts is not modelled.
 */
module AirdropScreen {
  import opened Wrappers
  import opened Tasks
  import opened Progress
  import opened Text

  /** One task line: the status mark, the display name and the reward. */
  datatype TaskLine = TaskLine(done: bool, name: string, reward: nat)

  /** The callback buttons: `complete_task_<type>`, `claim_airdrop`, `exit_airdrop`. */
  datatype Button = CompleteTaskButton(taskType: string) | ClaimButton | ExitButton

  datatype TaskView = TaskView(
    completed: nat, total: nat, percent: Option<nat>, bar: string,
    lines: seq<TaskLine>, buttons: seq<Button>)

  function LineOf(row: TaskRow): TaskLine {
    TaskLine(row.completed, TaskName(row.taskType), TaskReward(row.taskType))
  }

  /** The buttons of the pending tasks, in row order. */
  function PendingButtons(rows: seq<TaskRow>): seq<Button> {
    if rows == [] then []
    else
      var last := rows[|rows| - 1];
      PendingButtons(rows[..|rows| - 1]) + (if last.completed then [] else [CompleteTaskButton(last.taskType)])
  }

  /** The task lines, one per row, in row order. */
  function LinesOf(rows: seq<TaskRow>): (lines: seq<TaskLine>)
    ensures |lines| == |rows|
    ensures forall i :: 0 <= i < |rows| ==> lines[i] == LineOf(rows[i])
  {
    seq(|rows|, i requires 0 <= i < |rows| => LineOf(rows[i]))
  }

  /** Extending the walked prefix by one row adds that row's line, and its button if it is pending. */
  lemma WalkStep(rows: seq<TaskRow>, i: nat)
    requires i < |rows|
    ensures LinesOf(rows[..i + 1]) == LinesOf(rows[..i]) + [LineOf(rows[i])]
    ensures PendingButtons(rows[..i + 1])
            == PendingButtons(rows[..i]) + (if rows[i].completed then [] else [CompleteTaskButton(rows[i].taskType)])
  {
    assert rows[..i + 1][..i] == rows[..i];
  }

  /** A task has a button exactly when some row of its type is still pending. */
  lemma {:induction false} PendingButtonsExact(rows: seq<TaskRow>, b: Button)
    ensures b in PendingButtons(rows) <==>
              b.CompleteTaskButton? && exists i :: 0 <= i < |rows| && rows[i].taskType == b.taskType && !rows[i].completed
  {
    if rows != [] {
      var init := rows[..|rows| - 1];
      PendingButtonsExact(init, b);
      if b.CompleteTaskButton? {
        if exists i :: 0 <= i < |rows| && rows[i].taskType == b.taskType && !rows[i].completed {
          var i :| 0 <= i < |rows| && rows[i].taskType == b.taskType && !rows[i].completed;
          if i < |rows| - 1 {
            assert init[i] == rows[i];
          }
        }
        if exists i :: 0 <= i < |init| && init[i].taskType == b.taskType && !init[i].completed {
          var i :| 0 <= i < |init| && init[i].taskType == b.taskType && !init[i].completed;
          assert rows[i] == init[i];
        }
      }
    }
  }

  /** One button per pending task. */
  lemma {:induction false} PendingButtonsCount(rows: seq<TaskRow>)
    ensures |PendingButtons(rows)| == |rows| - CountCompleted(rows)
  {
    if rows != [] {
      PendingButtonsCount(rows[..|rows| - 1]);
    }
  }

  /** The claim button is offered exactly when every task is completed. */
  function ClaimButtons(rows: seq<TaskRow>): (bs: seq<Button>)
    ensures ClaimButton in bs <==> CountCompleted(rows) == |rows|
    ensures ClaimButton in bs <==> AllCompleted(rows)
  {
    if CountCompleted(rows) == |rows| then [ClaimButton] else []
  }

  /**
   * What the screen for `rows` shows: the counts, the percentage and bar,
   * one line per row in order, the pending buttons, the claim button when
   * everything is done and, when asked for, the back button.
   */
  predicate Shows(v: TaskView, rows: seq<TaskRow>, withExit: bool) {
    && v.completed == CountCompleted(rows) && v.total == |rows|
    && v.percent == Percent(v.completed, v.total) && v.bar == Bar(v.percent)
    && v.lines == LinesOf(rows)
    && v.buttons == PendingButtons(rows) + ClaimButtons(rows) + (if withExit then [ExitButton] else [])
  }

  /**
   * `showAirdropTasks(ctx, tasks)`: counts the completed rows, computes the
   * percentage and the bar, builds the lines and the task buttons, then adds
   * the claim button when everything is done and the back button.
   */
  method ShowAirdropTasks(rows: seq<TaskRow>, withExit: bool) returns (v: TaskView)
    ensures Shows(v, rows, withExit)
    ensures ClaimButton in v.buttons <==> AllCompleted(rows)
    ensures ExitButton in v.buttons <==> withExit
  {
    var completed := CountCompleted(rows);
    var total := |rows|;
    var percent := Percent(completed, total);
    var bar := Bar(percent);
    var lines, buttons := TaskLinesAndButtons(rows);
    if completed == total {
      buttons := buttons + [ClaimButton];
    }
    if withExit {
      buttons := buttons + [ExitButton];
    }
    v := TaskView(completed, total, percent, bar, lines, buttons);
    PendingButtonsExact(rows, ClaimButton);
    PendingButtonsExact(rows, ExitButton);
  }

  /** The walk over the rows: a line for each row and a button for each pending one, in row order. */
  method TaskLinesAndButtons(rows: seq<TaskRow>) returns (lines: seq<TaskLine>, buttons: seq<Button>)
    ensures lines == LinesOf(rows)
    ensures buttons == PendingButtons(rows)
  {
    lines := [];
    buttons := [];
    for i := 0 to |rows|
      invariant lines == LinesOf(rows[..i])
      invariant buttons == PendingButtons(rows[..i])
    {
      var row := rows[i];
      lines := lines + [LineOf(row)];
      if !row.completed {
        buttons := buttons + [CompleteTaskButton(row.taskType)];
      }
      WalkStep(rows, i);
    }
    assert rows[..|rows|] == rows;
  }

  /**
   * A list with nothing done: 0 completed, 0%, an empty bar, one button per
   * task and no claim button.
   */
  lemma NothingDoneShowsNoProgress(v: TaskView, rows: seq<TaskRow>, withExit: bool)
    requires rows != [] && forall i :: 0 <= i < |rows| ==> !rows[i].completed
    requires Shows(v, rows, withExit)
    ensures v.completed == 0 && v.percent == Some(0)
    ensures v.bar == Repeat(EmptyChar, BarLength)
    ensures ClaimButton !in v.buttons
    ensures |v.buttons| == |rows| + (if withExit then 1 else 0)
  {
    CountZero(rows);
    PendingButtonsCount(rows);
    assert FilledBlocks(0) == 0;
    assert Repeat(FilledChar, 0) == [];
    assert !rows[0].completed;
    PendingButtonsExact(rows, ClaimButton);
  }
}
