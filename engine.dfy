/**
 * The progression engine of `index.js` as one object: the `users` and
 * `airdrop_tasks` tables, the quiz sessions, and the ids captured by the
 * `confirm_twitter` handlers registered so far. Each bot handler is a method
 * that performs, step by step, a transition of the Users, Tasks and Quiz
 * modules and keeps the engine's invariant: codes and referrers well formed,
 * every token on a balance accounted for, every claim backed by a completed
 * checklist, and completion flags that only go from false to true.
 */
module Engine {
  import opened Wrappers
  import opened Identity
  import opened Text
  import opened Tasks
  import opened Users
  import opened Quiz
  import opened AirdropScreen
  import TwitterConfirm

  /** The `getChatMember` statuses of someone who is in the channel. */
  predicate IsMemberStatus(status: string) {
    status == "member" || status == "administrator" || status == "creator"
  }

  /** What a `complete_task_<type>` press leads to. */
  datatype TaskAction =
    | OpenWallet
    | ChannelJoined
    | NotAMember
    | AwaitTwitter
    | OpenReferral
    | QuizStarted
    | UnknownTask
    | AlreadyDone

  /** The referral screen: the user's code, how many users they referred, and what that earned them. */
  datatype ReferralScreen = ReferralScreen(code: string, invited: nat, earned: nat)

  /** What a handler shows next. */
  datatype Reply =
    | TasksShown(view: TaskView)
    | WalletPrompt
    | ReferralShown(screen: ReferralScreen)
    | QuestionShown(number: nat)

  /** The result of a `quiz_answer_<i>` press. */
  datatype QuizOutcome =
    | SessionExpired
    | NextQuestion(right: bool, number: nat)
    | QuizFinished(score: nat, passed: bool)

  /** `task.length > 0 && !task[0].completed`: the first row of that type exists and is pending. */
  predicate Pending(rows: seq<TaskRow>, taskType: string) {
    FirstOfType(rows, taskType).Some? && !FirstOfType(rows, taskType).value.completed
  }

  /**
   * The `complete_task_<type>` handler's decision. A missing or completed row
   * is answered as already done; otherwise the type selects the action, and
   * the channel task completes only for a member.
   */
  function Dispatch(rows: seq<TaskRow>, taskType: string, memberStatus: string): (a: TaskAction)
    ensures a == AlreadyDone <==> !Pending(rows, taskType)
    ensures a == UnknownTask <==> Pending(rows, taskType) && ParseKind(taskType).None?
    ensures a == ChannelJoined <==> Pending(rows, taskType) && taskType == JoinChannel.Key() && IsMemberStatus(memberStatus)
    ensures a == NotAMember <==> Pending(rows, taskType) && taskType == JoinChannel.Key() && !IsMemberStatus(memberStatus)
    ensures a == OpenWallet <==> Pending(rows, taskType) && taskType == ConnectWallet.Key()
    ensures a == AwaitTwitter <==> Pending(rows, taskType) && taskType == FollowTwitter.Key()
    ensures a == OpenReferral <==> Pending(rows, taskType) && taskType == InviteFriend.Key()
    ensures a == QuizStarted <==> Pending(rows, taskType) && taskType == CompleteQuiz.Key()
  {
    if !Pending(rows, taskType) then AlreadyDone
    else match ParseKind(taskType)
      case Some(ConnectWallet) => OpenWallet
      case Some(JoinChannel) => if IsMemberStatus(memberStatus) then ChannelJoined else NotAMember
      case Some(FollowTwitter) => AwaitTwitter
      case Some(InviteFriend) => OpenReferral
      case Some(CompleteQuiz) => QuizStarted
      case None => UnknownTask
  }

  /** On a seeded checklist every pending row has a known type, so the default branch is unreachable. */
  lemma DispatchKnowsSeededTypes(rows: seq<TaskRow>, taskType: string, memberStatus: string)
    requires WellFormedRows(rows)
    ensures Dispatch(rows, taskType, memberStatus) != UnknownTask
  {
    if Pending(rows, taskType) {
      var row := FirstOfType(rows, taskType).value;
      var i :| 0 <= i < |rows| && rows[i] == row;
      ParseKey(DefaultKinds[i]);
    }
  }

  /** The task kinds some handler of `index.js` marks completed: `connect_wallet` is not among them. */
  const MarkedAsWritten: set<TaskKind> := {JoinChannel, FollowTwitter, InviteFriend, CompleteQuiz}

  /** One user's checklist after the completion UPDATEs for `kinds`, in order. */
  function MarkAll(rows: seq<TaskRow>, kinds: seq<TaskKind>): (r: seq<TaskRow>)
    ensures |r| == |rows|
    ensures forall i :: 0 <= i < |rows| ==> r[i].taskType == rows[i].taskType
    ensures forall i :: 0 <= i < |rows| ==>
              r[i].completed == (rows[i].completed || exists k :: k in kinds && k.Key() == rows[i].taskType)
    decreases |kinds|
  {
    if kinds == [] then rows else MarkAll(MarkCompleted(rows, kinds[0].Key()), kinds[1..])
  }

  /**
   * As written, no sequence of handler updates completes `connect_wallet`, so
   * a seeded checklist is never complete and every claim is refused.
   */
  lemma ClaimNeverGrantedAsWritten(users: map<UserId, User>, kinds: seq<TaskKind>, id: UserId)
    requires forall k :: k in kinds ==> k in MarkedAsWritten
    ensures !MarkAll(DefaultTasks, kinds)[0].completed
    ensures !AllCompleted(MarkAll(DefaultTasks, kinds))
    ensures Claim(users, MarkAll(DefaultTasks, kinds), id).0 == Incomplete
  {
    assert DefaultTasks[0].taskType == ConnectWallet.Key();
    forall k | k in kinds
      ensures k.Key() != ConnectWallet.Key()
    {
      ParseKey(k);
    }
  }

  /**
   * With the wallet handler completing `connect_wallet`, doing every task
   * completes the checklist, and a registered user who has not claimed is paid.
   */
  lemma EveryTaskDoneGrantsClaim(users: map<UserId, User>, id: UserId)
    requires id in users && !users[id].airdropClaimed
    ensures var rows := MarkAll(DefaultTasks, DefaultKinds);
            && AllCompleted(rows)
            && Claim(users, rows, id).0 == Granted
            && Claim(users, rows, id).1[id].balance == users[id].balance + AirdropReward
  {
    assert Seeded([]) == DefaultTasks;
    MarkingEveryKindCompletes(DefaultTasks);
  }

  /** Updating every kind completes a seeded checklist. */
  lemma MarkingEveryKindCompletes(rows: seq<TaskRow>)
    requires WellFormedRows(rows)
    ensures AllCompleted(MarkAll(rows, DefaultKinds))
  {
    var after := MarkAll(rows, DefaultKinds);
    forall i | 0 <= i < |after|
      ensures after[i].completed
    {
      assert DefaultKinds[i] in DefaultKinds;
    }
  }

  class Bot {
    var users: map<UserId, User>
    var tasks: map<UserId, seq<TaskRow>>
    /** `ctx.session.quiz` of each user who has a quiz running. */
    var quizzes: map<UserId, Session>
    /** Ids captured by the `confirm_twitter` handlers registered so far, oldest first. */
    var confirmHandlers: seq<UserId>

    ghost predicate Valid()
      reads this
    {
      && UsersWellFormed(users) && Accounted(users)
      && TableWellFormed(tasks) && ClaimsBacked(users, tasks)
      && forall u :: u in quizzes ==> LiveSession(quizzes[u])
    }

    /** Empty tables, no quiz running, no handler registered. */
    constructor ()
      ensures Valid()
      ensures users == map[] && tasks == map[] && quizzes == map[] && confirmHandlers == []
    {
      users := map[];
      tasks := map[];
      quizzes := map[];
      confirmHandlers := [];
    }

    /** `registerUser`: insert the row only when none exists for the id. */
    method RegisterUser(id: UserId, username: Option<string>, firstName: Option<string>, lastName: Option<string>)
      requires Valid()
      modifies this
      ensures Valid()
      ensures users == Registered(old(users), id, username, firstName, lastName)
      ensures tasks == old(tasks) && quizzes == old(quizzes) && confirmHandlers == old(confirmHandlers)
    {
      RegisteredKeepsInvariants(users, tasks, id, username, firstName, lastName);
      if id !in users {
        users := users[id := NewUser(id, username, firstName, lastName)];
      }
    }

    /** The wallet scene's text handler as written: it stores a valid address and touches no task. */
    method SubmitWallet(id: UserId, text: string) returns (saved: Option<string>)
      requires Valid()
      modifies this
      ensures Valid()
      ensures saved == CheckWallet(text)
      ensures users == (if saved.Some? then WithWallet(old(users), id, saved.value) else old(users))
      ensures tasks == old(tasks) && quizzes == old(quizzes) && confirmHandlers == old(confirmHandlers)
    {
      var address := Trim(text);
      if |address| >= 3 && address[..3] == "sol" && Utf16Length(address) >= 32 {
        StoreWallet(id, address);
        saved := Some(address);
      } else {
        saved := None;
      }
    }

    /** `UPDATE users SET wallet_address = address WHERE telegram_id = id`. */
    method StoreWallet(id: UserId, address: string)
      requires Valid()
      modifies this
      ensures Valid()
      ensures users == WithWallet(old(users), id, address)
      ensures tasks == old(tasks) && quizzes == old(quizzes) && confirmHandlers == old(confirmHandlers)
    {
      WithWalletKeepsInvariants(users, tasks, id, address);
      if id in users {
        users := users[id := users[id].(wallet := Some(address))];
      }
    }

    /** The wallet handler with the missing update: a stored address also completes `connect_wallet`. */
    method SubmitWalletCompletingTask(id: UserId, text: string) returns (saved: Option<string>)
      requires Valid()
      modifies this
      ensures Valid()
      ensures saved == CheckWallet(text)
      ensures users == (if saved.Some? then WithWallet(old(users), id, saved.value) else old(users))
      ensures tasks == (if saved.Some? then WithCompleted(old(tasks), id, ConnectWallet.Key()) else old(tasks))
      ensures FlagsMonotone(old(tasks), tasks)
      ensures quizzes == old(quizzes) && confirmHandlers == old(confirmHandlers)
    {
      saved := SubmitWallet(id, text);
      if saved.Some? {
        MarkTask(id, ConnectWallet.Key());
      }
    }

    /** `UPDATE airdrop_tasks SET completed = true WHERE user_id = id AND task_type = t`. */
    method MarkTask(id: UserId, t: string)
      requires Valid()
      modifies this
      ensures Valid()
      ensures tasks == WithCompleted(old(tasks), id, t)
      ensures FlagsMonotone(old(tasks), tasks)
      ensures users == old(users) && quizzes == old(quizzes) && confirmHandlers == old(confirmHandlers)
    {
      SeedingAndMarkingAreMonotone(tasks, id, t);
      TaskChangesKeepClaimsBacked(users, tasks, id, t);
      if id in tasks {
        tasks := tasks[id := MarkCompleted(tasks[id], t)];
      }
    }

    /** Entering the airdrop scene: seed the five tasks when the user has none, then show the list. */
    method EnterAirdrop(id: UserId) returns (v: TaskView)
      requires Valid()
      modifies this
      ensures Valid()
      ensures tasks == WithSeeded(old(tasks), id)
      ensures old(RowsOf(tasks, id)) == [] ==> RowsOf(tasks, id) == DefaultTasks
      ensures FlagsMonotone(old(tasks), tasks)
      ensures Shows(v, RowsOf(tasks, id), true)
      ensures users == old(users) && quizzes == old(quizzes) && confirmHandlers == old(confirmHandlers)
    {
      SeedTasks(id);
      var r := ShowTasks(id);
      v := r.view;
    }

    /** The seeding INSERT: the five default rows for a user who has none. */
    method SeedTasks(id: UserId)
      requires Valid()
      modifies this
      ensures Valid()
      ensures tasks == WithSeeded(old(tasks), id)
      ensures old(RowsOf(tasks, id)) == [] ==> RowsOf(tasks, id) == DefaultTasks
      ensures FlagsMonotone(old(tasks), tasks)
      ensures users == old(users) && quizzes == old(quizzes) && confirmHandlers == old(confirmHandlers)
    {
      SeedingAndMarkingAreMonotone(tasks, id, "");
      TaskChangesKeepClaimsBacked(users, tasks, id, "");
      if RowsOf(tasks, id) == [] {
        tasks := tasks[id := DefaultTasks];
      }
    }

    /**
     * The `complete_task_<type>` handler. A pending wallet, referral or quiz
     * task opens its flow; the channel task completes for a member; the
     * Twitter task registers a confirmation handler; every other case shows
     * the refreshed list.
     */
    method CompleteTask(id: UserId, taskType: string, memberStatus: string) returns (a: TaskAction, r: Reply)
      requires Valid()
      modifies this
      ensures Valid()
      ensures a == Dispatch(RowsOf(old(tasks), id), taskType, memberStatus)
      ensures tasks == (if a == ChannelJoined then WithCompleted(old(tasks), id, JoinChannel.Key())
                        else if a == OpenReferral then WithCompleted(old(tasks), id, InviteFriend.Key())
                        else old(tasks))
      ensures FlagsMonotone(old(tasks), tasks)
      ensures users == old(users)
      ensures quizzes == (if a == QuizStarted then old(quizzes)[id := Fresh] else old(quizzes))
      ensures confirmHandlers == (if a == AwaitTwitter then TwitterConfirm.WithHandler(old(confirmHandlers), id)
                                  else old(confirmHandlers))
      ensures a == OpenWallet ==> r == WalletPrompt
      ensures a == OpenReferral ==>
                r == ReferralShown(ReferralScreen(ReferralCode(id), |ReferralsOf(users, id)|,
                                                  ReferralBonus * |ReferralsOf(users, id)|))
      ensures a == QuizStarted ==> r == QuestionShown(0)
      ensures a !in {OpenWallet, OpenReferral, QuizStarted} ==> r.TasksShown? && Shows(r.view, RowsOf(tasks, id), true)
    {
      FlagsMonotoneRefl(tasks);
      a := Dispatch(RowsOf(tasks, id), taskType, memberStatus);
      match a
      case OpenWallet =>
        r := WalletPrompt;
      case ChannelJoined =>
        r := JoinChannelTask(id);
      case AwaitTwitter =>
        r := AwaitTwitterConfirmation(id);
      case OpenReferral =>
        var screen := EnterReferral(id);
        r := ReferralShown(screen);
      case QuizStarted =>
        r := StartQuiz(id);
      case _ =>
        r := ShowTasks(id);
    }

    /** A member pressed the channel task: it is marked completed and the list refreshed. */
    method JoinChannelTask(id: UserId) returns (r: Reply)
      requires Valid()
      modifies this
      ensures Valid()
      ensures tasks == WithCompleted(old(tasks), id, JoinChannel.Key())
      ensures FlagsMonotone(old(tasks), tasks)
      ensures r.TasksShown? && Shows(r.view, RowsOf(tasks, id), true)
      ensures users == old(users) && quizzes == old(quizzes) && confirmHandlers == old(confirmHandlers)
    {
      MarkTask(id, JoinChannel.Key());
      r := ShowTasks(id);
    }

    /** The Twitter task registers a `confirm_twitter` handler capturing the user, and the list is refreshed. */
    method AwaitTwitterConfirmation(id: UserId) returns (r: Reply)
      requires Valid()
      modifies this
      ensures Valid()
      ensures confirmHandlers == TwitterConfirm.WithHandler(old(confirmHandlers), id)
      ensures r.TasksShown? && Shows(r.view, RowsOf(tasks, id), true)
      ensures users == old(users) && tasks == old(tasks) && quizzes == old(quizzes)
    {
      confirmHandlers := confirmHandlers + [id];
      r := ShowTasks(id);
    }

    /** The refreshed task list (`SELECT * FROM airdrop_tasks WHERE user_id = id`, then `showAirdropTasks`). */
    method ShowTasks(id: UserId) returns (r: Reply)
      ensures r.TasksShown? && Shows(r.view, RowsOf(tasks, id), true)
    {
      var v := ShowAirdropTasks(RowsOf(tasks, id), true);
      r := TasksShown(v);
    }

    /**
     * Entering the referral scene: the user's code, the number of users who
     * name them as referrer and the tokens that earned, after which the
     * `invite_friend` task is marked completed.
     */
    method EnterReferral(id: UserId) returns (screen: ReferralScreen)
      requires Valid()
      modifies this
      ensures Valid()
      ensures screen.code == ReferralCode(id)
      ensures screen.invited == |ReferralsOf(users, id)| && screen.earned == ReferralBonus * screen.invited
      ensures id in users ==> screen.earned <= users[id].balance
      ensures tasks == WithCompleted(old(tasks), id, InviteFriend.Key())
      ensures FlagsMonotone(old(tasks), tasks)
      ensures users == old(users) && quizzes == old(quizzes) && confirmHandlers == old(confirmHandlers)
    {
      var code := if id in users && users[id].referralCode != "" then users[id].referralCode else ReferralCode(id);
      var invited := |ReferralsOf(users, id)|;
      screen := ReferralScreen(code, invited, invited * ReferralBonus);
      MarkTask(id, InviteFriend.Key());
    }

    /**
     * A `confirm_twitter` press as written: the oldest registered handler
     * answers, marking the task of the user it captured, whoever pressed.
     * With no handler registered the press goes unanswered.
     */
    method ConfirmTwitterAsWritten(presser: UserId) returns (v: Option<TaskView>)
      requires Valid()
      modifies this
      ensures Valid()
      ensures tasks == TwitterConfirm.ConfirmAsWritten(old(confirmHandlers), old(tasks), presser)
      ensures v.None? <==> confirmHandlers == []
      ensures v.Some? ==> Shows(v.value, RowsOf(tasks, confirmHandlers[0]), true)
      ensures FlagsMonotone(old(tasks), tasks)
      ensures users == old(users) && quizzes == old(quizzes) && confirmHandlers == old(confirmHandlers)
    {
      if confirmHandlers == [] {
        FlagsMonotoneRefl(tasks);
        v := None;
      } else {
        var owner := confirmHandlers[0];
        MarkTask(owner, FollowTwitter.Key());
        var view := ShowAirdropTasks(RowsOf(tasks, owner), true);
        v := Some(view);
      }
    }

    /** A `confirm_twitter` press marking the presser's own Twitter task, then showing their list. */
    method ConfirmTwitter(presser: UserId) returns (v: TaskView)
      requires Valid()
      modifies this
      ensures Valid()
      ensures tasks == TwitterConfirm.Confirmed(old(tasks), presser)
      ensures Shows(v, RowsOf(tasks, presser), true)
      ensures FlagsMonotone(old(tasks), tasks)
      ensures users == old(users) && quizzes == old(quizzes) && confirmHandlers == old(confirmHandlers)
    {
      MarkTask(presser, FollowTwitter.Key());
      v := ShowAirdropTasks(RowsOf(tasks, presser), true);
    }

    /** `startQuiz` (also the `restart_quiz` button): a fresh session replaces any running one. */
    method StartQuiz(id: UserId) returns (r: Reply)
      requires Valid()
      modifies this
      ensures Valid()
      ensures quizzes == old(quizzes)[id := Fresh]
      ensures r == QuestionShown(0)
      ensures users == old(users) && tasks == old(tasks) && confirmHandlers == old(confirmHandlers)
    {
      quizzes := quizzes[id := Session(0, 0)];
      r := QuestionShown(Fresh.currentQuestion);
    }

    /**
     * A `quiz_answer_<i>` press. Without a session nothing changes. Otherwise
     * the score and the question advance; after the last question a pass
     * completes `complete_quiz`, the session is dropped either way, and the
     * list is shown again.
     */
    method AnswerQuiz(id: UserId, answer: nat) returns (o: QuizOutcome, v: Option<TaskView>)
      requires Valid()
      modifies this
      ensures Valid()
      ensures id !in old(quizzes) ==> o == SessionExpired && v.None? && tasks == old(tasks) && quizzes == old(quizzes)
      ensures id in old(quizzes) ==>
                var before := old(quizzes)[id];
                var after := Answered(before, answer);
                && (after.currentQuestion < |Bank| ==>
                      && o == NextQuestion(answer == Bank[before.currentQuestion].correctAnswer, after.currentQuestion)
                      && quizzes == old(quizzes)[id := after] && tasks == old(tasks) && v.None?)
                && (after.currentQuestion == |Bank| ==>
                      && o == QuizFinished(after.correctAnswers, Passed(after))
                      && quizzes == old(quizzes) - {id}
                      && tasks == (if Passed(after) then WithCompleted(old(tasks), id, CompleteQuiz.Key()) else old(tasks))
                      && v.Some? && Shows(v.value, RowsOf(tasks, id), true))
      ensures FlagsMonotone(old(tasks), tasks)
      ensures users == old(users) && confirmHandlers == old(confirmHandlers)
    {
      FlagsMonotoneRefl(tasks);
      if id !in quizzes {
        o, v := SessionExpired, None;
        return;
      }
      var quiz := quizzes[id];
      var right := answer == Bank[quiz.currentQuestion].correctAnswer;
      var correct := if right then quiz.correctAnswers + 1 else quiz.correctAnswers;
      var current := quiz.currentQuestion + 1;
      if current < |Bank| {
        quizzes := quizzes[id := Session(current, correct)];
        o, v := NextQuestion(right, current), None;
      } else {
        var passed := correct >= PassMark(|Bank|);
        if passed {
          MarkTask(id, CompleteQuiz.Key());
        }
        quizzes := quizzes - {id};
        var view := ShowAirdropTasks(RowsOf(tasks, id), true);
        o, v := QuizFinished(correct, passed), Some(view);
      }
    }

    /**
     * The referral part of `/start CODE`: look the code up, and link and
     * credit only a different, registered, not yet referred user.
     */
    method LinkReferral(id: UserId, code: string) returns (referrer: Option<UserId>, o: LinkOutcome)
      requires Valid()
      modifies this
      ensures Valid()
      ensures Resolves(old(users), code, referrer)
      ensures (o, users) == Link(old(users), id, referrer)
      ensures tasks == old(tasks) && quizzes == old(quizzes) && confirmHandlers == old(confirmHandlers)
    {
      referrer := FindReferrer(users, code);
      LinkKeepsInvariants(users, tasks, id, referrer);
      o := ApplyLink(id, referrer);
    }

    /** The guarded UPDATEs of `referred_by` and of the referrer's balance. */
    method ApplyLink(id: UserId, referrer: Option<UserId>) returns (o: LinkOutcome)
      requires referrer.Some? ==> referrer.value in users
      modifies this
      ensures (o, users) == Link(old(users), id, referrer)
      ensures tasks == old(tasks) && quizzes == old(quizzes) && confirmHandlers == old(confirmHandlers)
    {
      match referrer
      case None =>
        o := UnknownCode;
      case Some(r) =>
        if r == id {
          o := SelfReferral;
        } else if id !in users {
          o := NotRegistered;
        } else if users[id].referredBy.Some? {
          o := AlreadyReferred;
        } else {
          users := users[id := users[id].(referredBy := Some(r))];
          users := users[r := users[r].(balance := users[r].balance + ReferralBonus)];
          o := Linked(r);
        }
    }

    /** `/start CODE` as written: the link is attempted first and registration runs afterwards. */
    method StartWithCode(id: UserId, code: string, username: Option<string>, firstName: Option<string>, lastName: Option<string>)
      returns (referrer: Option<UserId>, o: LinkOutcome)
      requires Valid()
      modifies this
      ensures Valid()
      ensures Resolves(old(users), code, referrer)
      ensures o == Link(old(users), id, referrer).0
      ensures users == Registered(Link(old(users), id, referrer).1, id, username, firstName, lastName)
      ensures id !in old(users) ==> !o.Linked? && users == Registered(old(users), id, username, firstName, lastName)
      ensures tasks == old(tasks) && quizzes == old(quizzes) && confirmHandlers == old(confirmHandlers)
    {
      referrer, o := LinkReferral(id, code);
      RegisterUser(id, username, firstName, lastName);
    }

    /**
     * `/start CODE` registering first: a newcomer whose code resolves to
     * another user is linked to that user.
     */
    method StartWithCodeRegisteringFirst(id: UserId, code: string, username: Option<string>, firstName: Option<string>,
                                         lastName: Option<string>) returns (referrer: Option<UserId>, o: LinkOutcome)
      requires Valid()
      modifies this
      ensures Valid()
      ensures Resolves(Registered(old(users), id, username, firstName, lastName), code, referrer)
      ensures (o, users) == Link(Registered(old(users), id, username, firstName, lastName), id, referrer)
      ensures id !in old(users) && referrer.Some? && referrer.value != id ==> o == Linked(referrer.value)
      ensures tasks == old(tasks) && quizzes == old(quizzes) && confirmHandlers == old(confirmHandlers)
    {
      RegisterUser(id, username, firstName, lastName);
      referrer, o := LinkReferral(id, code);
    }

    /** `claim_airdrop`: pay 100 once, only for a non-empty, fully completed checklist. */
    method ClaimAirdrop(id: UserId) returns (o: ClaimOutcome)
      requires Valid()
      modifies this
      ensures Valid()
      ensures (o, users) == Claim(old(users), RowsOf(old(tasks), id), id)
      ensures tasks == old(tasks) && quizzes == old(quizzes) && confirmHandlers == old(confirmHandlers)
    {
      ClaimKeepsInvariants(users, tasks, id);
      o := ApplyClaim(id);
    }

    /** The claim's check of the task counts and the flag, then the UPDATE of balance and flag. */
    method ApplyClaim(id: UserId) returns (o: ClaimOutcome)
      modifies this
      ensures (o, users) == Claim(old(users), RowsOf(tasks, id), id)
      ensures tasks == old(tasks) && quizzes == old(quizzes) && confirmHandlers == old(confirmHandlers)
    {
      var rows := RowsOf(tasks, id);
      if SumCompleted(rows) == Some(|rows|) {
        if id !in users {
          o := Failed;
        } else if !users[id].airdropClaimed {
          users := users[id := users[id].(balance := users[id].balance + AirdropReward, airdropClaimed := true)];
          o := Granted;
        } else {
          o := AlreadyClaimed;
        }
      } else {
        o := Incomplete;
      }
    }
  }
}
