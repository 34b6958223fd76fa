/**
 * The airdrop checklist: the five task kinds with their display names and
 * rewards, the rows of the `airdrop_tasks` table, lazy seeding and the
 * `UPDATE ... SET completed = true` that is the only change a row ever sees.
 */
module Tasks {
  import opened Wrappers
  import opened Identity

  datatype TaskKind = ConnectWallet | JoinChannel | FollowTwitter | InviteFriend | CompleteQuiz {

    /** The `task_type` text stored in a row and carried by `complete_task_<type>`. */
    function Key(): string {
      match this
      case ConnectWallet => "connect_wallet"
      case JoinChannel => "join_channel"
      case FollowTwitter => "follow_twitter"
      case InviteFriend => "invite_friend"
      case CompleteQuiz => "complete_quiz"
    }

    function Name(): string {
      match this
      case ConnectWallet => "Подключить кошелек"
      case JoinChannel => "Подписаться на канал"
      case FollowTwitter => "Подписаться на Twitter"
      case InviteFriend => "Пригласить друга"
      case CompleteQuiz => "Пройти квиз о графене"
    }

    function Reward(): nat {
      match this
      case ConnectWallet => 10
      case JoinChannel => 15
      case FollowTwitter => 15
      case InviteFriend => 30
      case CompleteQuiz => 30
    }
  }

  /** The switch on `taskType`: which kind a stored or received type text names, if any. */
  function ParseKind(t: string): (k: Option<TaskKind>)
    ensures k.Some? ==> k.value.Key() == t
  {
    if t == "connect_wallet" then Some(ConnectWallet)
    else if t == "join_channel" then Some(JoinChannel)
    else if t == "follow_twitter" then Some(FollowTwitter)
    else if t == "invite_friend" then Some(InviteFriend)
    else if t == "complete_quiz" then Some(CompleteQuiz)
    else None
  }

  /** Every kind is recognised by its own key, so the keys are distinct. */
  lemma ParseKey(k: TaskKind)
    ensures ParseKind(k.Key()) == Some(k)
  {
  }

  const UnknownTaskName: string := "Неизвестное задание"

  /** `getTaskName`: the display name, with a fallback for unknown types. */
  function TaskName(t: string): (name: string)
    ensures name == UnknownTaskName <==> ParseKind(t).None?
  {
    match ParseKind(t)
    case Some(k) => k.Name()
    case None => UnknownTaskName
  }

  /** `getTaskReward`: the reward shown next to a task, 0 for unknown types. */
  function TaskReward(t: string): (r: nat)
    ensures r == 0 <==> ParseKind(t).None?
    ensures r == 10 || r == 15 || r == 30 || r == 0
  {
    match ParseKind(t)
    case Some(k) => k.Reward()
    case None => 0
  }

  /** The reward table, entry by entry. */
  lemma RewardTable()
    ensures TaskReward("connect_wallet") == 10 && TaskReward("join_channel") == 15
    ensures TaskReward("follow_twitter") == 15 && TaskReward("invite_friend") == 30
    ensures TaskReward("complete_quiz") == 30
  {
  }

  /** One row of `airdrop_tasks` for a given user. */
  datatype TaskRow = TaskRow(taskType: string, completed: bool)

  /** The kinds a user's checklist is seeded with, in insertion order. */
  const DefaultKinds: seq<TaskKind> := [ConnectWallet, JoinChannel, FollowTwitter, InviteFriend, CompleteQuiz]

  /** The five rows inserted on first access, all not completed. */
  const DefaultTasks: seq<TaskRow> := [
    TaskRow("connect_wallet", false), TaskRow("join_channel", false), TaskRow("follow_twitter", false),
    TaskRow("invite_friend", false), TaskRow("complete_quiz", false)
  ]

  /** A checklist holds exactly the five kinds, once each, in seeding order. */
  predicate WellFormedRows(rows: seq<TaskRow>) {
    |rows| == |DefaultKinds| && forall i :: 0 <= i < |rows| ==> rows[i].taskType == DefaultKinds[i].Key()
  }

  /** The per-task rewards of a full checklist add up to the 100 the claim pays. */
  lemma {:induction false} RewardsAddUp(rows: seq<TaskRow>)
    requires WellFormedRows(rows)
    ensures SumOfRewards(rows) == 100
  {
    forall i | 0 <= i < |rows|
      ensures TaskReward(rows[i].taskType) == DefaultKinds[i].Reward()
    {
      ParseKey(DefaultKinds[i]);
    }
    assert rows[..4][..3] == rows[..3] && rows[..3][..2] == rows[..2];
    assert rows[..2][..1] == rows[..1] && rows[..1][..0] == [];
    assert SumOfRewards(rows[..1]) == 10;
    assert SumOfRewards(rows[..2]) == 25;
    assert SumOfRewards(rows[..3]) == 40;
    assert SumOfRewards(rows[..4]) == 70;
    assert rows[..5] == rows;
  }

  function SumOfRewards(rows: seq<TaskRow>): nat {
    if rows == [] then 0 else SumOfRewards(rows[..|rows| - 1]) + TaskReward(rows[|rows| - 1].taskType)
  }

  /** Lazy seeding: a user without rows gets the five default rows; existing rows are kept. */
  function Seeded(rows: seq<TaskRow>): (r: seq<TaskRow>)
    ensures rows != [] ==> r == rows
    ensures rows == [] ==> WellFormedRows(r) && forall i :: 0 <= i < |r| ==> !r[i].completed
  {
    if rows == [] then DefaultTasks else rows
  }

  /** Seeding is idempotent: a second visit finds the rows and leaves them. */
  lemma SeededIdempotent(rows: seq<TaskRow>)
    ensures Seeded(Seeded(rows)) == Seeded(rows)
  {
  }

  predicate AllCompleted(rows: seq<TaskRow>) {
    forall i :: 0 <= i < |rows| ==> rows[i].completed
  }

  /** `tasks.filter(task => task.completed).length`. */
  function CountCompleted(rows: seq<TaskRow>): (n: nat)
    ensures n <= |rows|
    ensures n == |rows| <==> AllCompleted(rows)
  {
    if rows == [] then 0
    else CountCompleted(rows[..|rows| - 1]) + (if rows[|rows| - 1].completed then 1 else 0)
  }

  /** A checklist with nothing done counts zero, and a zero count means nothing is done. */
  lemma {:induction false} CountZero(rows: seq<TaskRow>)
    ensures CountCompleted(rows) == 0 <==> forall i :: 0 <= i < |rows| ==> !rows[i].completed
  {
    if rows != [] {
      CountZero(rows[..|rows| - 1]);
      assert forall i :: 0 <= i < |rows| - 1 ==> rows[..|rows| - 1][i] == rows[i];
    }
  }

  /**
   * `SUM(CASE WHEN completed THEN 1 ELSE 0 END)`: the number of completed
   * rows, or NULL when there are no rows at all.
   */
  function SumCompleted(rows: seq<TaskRow>): (s: Option<nat>)
    ensures s.None? <==> rows == []
    ensures s == Some(|rows|) <==> rows != [] && AllCompleted(rows)
  {
    if rows == [] then None else Some(CountCompleted(rows))
  }

  /**
   * `SELECT * ... WHERE task_type = t` followed by `task[0]`: the first row
   * of that type, if any.
   */
  function FirstOfType(rows: seq<TaskRow>, t: string): (r: Option<TaskRow>)
    ensures r.None? <==> forall i :: 0 <= i < |rows| ==> rows[i].taskType != t
    ensures r.Some? ==> r.value.taskType == t && r.value in rows
  {
    if rows == [] then None
    else if rows[0].taskType == t then Some(rows[0])
    else FirstOfType(rows[1..], t)
  }

  /** Different kinds have different keys, and the seeding order lists each kind once. */
  lemma KeysDistinct(a: TaskKind, b: TaskKind)
    ensures a != b ==> a.Key() != b.Key()
    ensures forall j, k :: 0 <= j < k < |DefaultKinds| ==> DefaultKinds[j] != DefaultKinds[k]
  {
    ParseKey(a);
    ParseKey(b);
  }

  /** In a well-formed checklist the row of a known kind is the row at its seeding position. */
  lemma FirstOfTypeWellFormed(rows: seq<TaskRow>, i: nat)
    requires WellFormedRows(rows) && i < |rows|
    ensures FirstOfType(rows, DefaultKinds[i].Key()) == Some(rows[i])
  {
    var t := DefaultKinds[i].Key();
    forall j | 0 <= j < i
      ensures rows[j].taskType != t
    {
      KeysDistinct(DefaultKinds[j], DefaultKinds[i]);
    }
    FirstOfTypeSkips(rows, t, i);
  }

  lemma {:induction false} FirstOfTypeSkips(rows: seq<TaskRow>, t: string, i: nat)
    requires i < |rows| && rows[i].taskType == t
    requires forall j :: 0 <= j < i ==> rows[j].taskType != t
    ensures FirstOfType(rows, t) == Some(rows[i])
    decreases i
  {
    if i > 0 {
      FirstOfTypeSkips(rows[1..], t, i - 1);
    }
  }

  /** `UPDATE airdrop_tasks SET completed = true WHERE task_type = t` on one user's rows. */
  function MarkCompleted(rows: seq<TaskRow>, t: string): (r: seq<TaskRow>)
    ensures |r| == |rows|
    ensures forall i :: 0 <= i < |rows| ==>
              r[i].taskType == rows[i].taskType && r[i].completed == (rows[i].completed || rows[i].taskType == t)
  {
    seq(|rows|, i requires 0 <= i < |rows| => if rows[i].taskType == t then rows[i].(completed := true) else rows[i])
  }

  /** Marking is idempotent: a second update changes nothing. */
  lemma MarkCompletedIdempotent(rows: seq<TaskRow>, t: string)
    ensures MarkCompleted(MarkCompleted(rows, t), t) == MarkCompleted(rows, t)
  {
  }

  /** The order in which tasks are completed does not matter. */
  lemma MarkCompletedCommutes(rows: seq<TaskRow>, a: string, b: string)
    ensures MarkCompleted(MarkCompleted(rows, a), b) == MarkCompleted(MarkCompleted(rows, b), a)
  {
  }

  /** Marking keeps the checklist's shape and never lowers the completed count. */
  lemma MarkCompletedKeepsShape(rows: seq<TaskRow>, t: string)
    ensures WellFormedRows(rows) ==> WellFormedRows(MarkCompleted(rows, t))
    ensures AllCompleted(rows) ==> AllCompleted(MarkCompleted(rows, t))
    ensures CountCompleted(rows) <= CountCompleted(MarkCompleted(rows, t))
  {
    CountMonotone(rows, MarkCompleted(rows, t));
  }

  /** Flags that only go from false to true cannot lower the count. */
  lemma {:induction false} CountMonotone(a: seq<TaskRow>, b: seq<TaskRow>)
    requires |a| == |b| && forall i :: 0 <= i < |a| ==> a[i].completed ==> b[i].completed
    ensures CountCompleted(a) <= CountCompleted(b)
  {
    if a != [] {
      CountMonotone(a[..|a| - 1], b[..|b| - 1]);
    }
  }

  /** Completing every seeded kind completes the checklist. */
  lemma {:induction false} CompletingEveryKind(rows: seq<TaskRow>)
    requires WellFormedRows(rows)
    ensures AllCompleted(MarkCompleted(MarkCompleted(MarkCompleted(MarkCompleted(MarkCompleted(rows,
              "connect_wallet"), "join_channel"), "follow_twitter"), "invite_friend"), "complete_quiz"))
  {
  }

  // The whole `airdrop_tasks` table, keyed by user; an absent key means no rows.

  function RowsOf(table: map<UserId, seq<TaskRow>>, id: UserId): seq<TaskRow> {
    if id in table then table[id] else []
  }

  /** The table after seeding one user's checklist. */
  function WithSeeded(table: map<UserId, seq<TaskRow>>, id: UserId): (r: map<UserId, seq<TaskRow>>)
    ensures RowsOf(r, id) == Seeded(RowsOf(table, id))
    ensures forall u :: u != id ==> RowsOf(r, u) == RowsOf(table, u)
    ensures RowsOf(table, id) != [] ==> r == table
  {
    if RowsOf(table, id) == [] then table[id := DefaultTasks] else table
  }

  /** The table after one user's task of type `t` is marked completed. */
  function WithCompleted(table: map<UserId, seq<TaskRow>>, id: UserId, t: string): (r: map<UserId, seq<TaskRow>>)
    ensures r.Keys == table.Keys
    ensures RowsOf(r, id) == MarkCompleted(RowsOf(table, id), t)
    ensures forall u :: u != id ==> RowsOf(r, u) == RowsOf(table, u)
  {
    if id in table then table[id := MarkCompleted(table[id], t)] else table
  }

  /** Every stored checklist is a full, well-ordered one. */
  predicate TableWellFormed(table: map<UserId, seq<TaskRow>>) {
    forall u :: u in table ==> WellFormedRows(table[u])
  }

  /**
   * Completion flags only go from false to true: from `before` to `after`
   * no row disappears, no type changes, and no completed row is reset.
   */
  ghost predicate FlagsMonotone(before: map<UserId, seq<TaskRow>>, after: map<UserId, seq<TaskRow>>) {
    forall u :: u in before ==> u in after && RowsMonotone(before[u], after[u])
  }

  /** One user's rows: none removed, no type changed, no completed flag reset. */
  ghost predicate RowsMonotone(before: seq<TaskRow>, after: seq<TaskRow>) {
    |before| <= |after| &&
    forall i :: 0 <= i < |before| ==>
      after[i].taskType == before[i].taskType && (before[i].completed ==> after[i].completed)
  }

  lemma FlagsMonotoneRefl(table: map<UserId, seq<TaskRow>>)
    ensures FlagsMonotone(table, table)
  {
    forall u | u in table
      ensures RowsMonotone(table[u], table[u])
    {
    }
  }

  /** Seeding and every completion UPDATE only set flags, and keep every stored checklist seeded. */
  lemma SeedingAndMarkingAreMonotone(table: map<UserId, seq<TaskRow>>, id: UserId, t: string)
    ensures FlagsMonotone(table, WithSeeded(table, id))
    ensures FlagsMonotone(table, WithCompleted(table, id, t))
    ensures TableWellFormed(table) ==> TableWellFormed(WithSeeded(table, id))
    ensures TableWellFormed(table) ==> TableWellFormed(WithCompleted(table, id, t))
  {
    SeedingIsMonotone(table, id);
    MarkingIsMonotone(table, id, t);
  }

  lemma SeedingIsMonotone(table: map<UserId, seq<TaskRow>>, id: UserId)
    ensures FlagsMonotone(table, WithSeeded(table, id))
    ensures TableWellFormed(table) ==> TableWellFormed(WithSeeded(table, id))
  {
    var after := WithSeeded(table, id);
    forall u | u in table
      ensures u in after && RowsMonotone(table[u], after[u])
    {
      assert RowsOf(table, u) != [] ==> after[u] == table[u];
    }
  }

  lemma MarkingIsMonotone(table: map<UserId, seq<TaskRow>>, id: UserId, t: string)
    ensures FlagsMonotone(table, WithCompleted(table, id, t))
    ensures TableWellFormed(table) ==> TableWellFormed(WithCompleted(table, id, t))
  {
    var after := WithCompleted(table, id, t);
    forall u | u in table
      ensures u in after && RowsMonotone(table[u], after[u])
    {
      assert RowsOf(after, u) == after[u] && RowsOf(table, u) == table[u];
    }
    if TableWellFormed(table) {
      MarkingKeepsTableWellFormed(table, id, t);
    }
  }

  lemma MarkingKeepsTableWellFormed(table: map<UserId, seq<TaskRow>>, id: UserId, t: string)
    requires TableWellFormed(table)
    ensures TableWellFormed(WithCompleted(table, id, t))
  {
    var after := WithCompleted(table, id, t);
    forall u | u in after
      ensures WellFormedRows(after[u])
    {
      MarkCompletedKeepsShape(table[u], t);
      assert RowsOf(after, u) == after[u] && RowsOf(table, u) == table[u];
    }
  }
}
