/**
 * The earlier variant of the bot (`bot.js`): registration, the airdrop list
 * with lazy seeding, and the referral link of `/start CODE`. It has no wallet,
 * quiz, completion or claim handlers, so every seeded checklist stays as
 * seeded, nobody ever claims, and every balance is exactly the referral
 * bonuses earned.
 */
module EarlyBot {
  import opened Wrappers
  import opened Identity
  import opened Tasks
  import opened Users
  import opened Progress
  import opened AirdropScreen

  class Bot {
    var users: map<UserId, User>
    var tasks: map<UserId, seq<TaskRow>>

    ghost predicate Valid()
      reads this
    {
      && UsersWellFormed(users) && Accounted(users)
      && (forall u :: u in users ==> !users[u].airdropClaimed)
      && (forall u :: u in tasks ==> tasks[u] == DefaultTasks)
    }

    /** Empty tables. */
    constructor ()
      ensures Valid()
      ensures users == map[] && tasks == map[]
    {
      users := map[];
      tasks := map[];
    }

    /** `registerUser`: insert the row only when none exists for the id. */
    method RegisterUser(id: UserId, username: Option<string>, firstName: Option<string>, lastName: Option<string>)
      requires Valid()
      modifies this
      ensures Valid()
      ensures users == Registered(old(users), id, username, firstName, lastName)
      ensures tasks == old(tasks)
    {
      RegisteredKeepsInvariants(users, map[], id, username, firstName, lastName);
      if id !in users {
        users := users[id := NewUser(id, username, firstName, lastName)];
      }
    }

    /**
     * `showAirdropTasks`: seed the five tasks when the user has none, then
     * build the list (this variant has no back button).
     */
    method ShowAirdropTasks(id: UserId) returns (v: TaskView)
      requires Valid()
      modifies this
      ensures Valid()
      ensures tasks == WithSeeded(old(tasks), id)
      ensures RowsOf(tasks, id) == DefaultTasks
      ensures Shows(v, RowsOf(tasks, id), false)
      ensures v.completed == 0 && v.percent == Some(0) && ClaimButton !in v.buttons
      ensures users == old(users)
    {
      SeedTasks(id);
      v := ShowSeededList(id);
    }

    /** The seeding INSERT: the five default rows for a user who has none. */
    method SeedTasks(id: UserId)
      requires Valid()
      modifies this
      ensures Valid()
      ensures tasks == WithSeeded(old(tasks), id)
      ensures RowsOf(tasks, id) == DefaultTasks
      ensures users == old(users)
    {
      if RowsOf(tasks, id) == [] {
        tasks := tasks[id := DefaultTasks];
      }
    }

    /** The list of a user whose rows are the seeded ones: nothing done, 0%, no claim button. */
    method ShowSeededList(id: UserId) returns (v: TaskView)
      requires RowsOf(tasks, id) == DefaultTasks
      ensures Shows(v, RowsOf(tasks, id), false)
      ensures v.completed == 0 && v.percent == Some(0) && ClaimButton !in v.buttons
    {
      var rows := RowsOf(tasks, id);
      assert rows == Seeded([]);
      v := AirdropScreen.ShowAirdropTasks(rows, false);
      NothingDoneShowsNoProgress(v, rows, false);
    }

    /**
     * The referral part of `/start CODE`: look the code up, and link and
     * credit only a different, registered, not yet referred user.
     */
    method LinkReferral(id: UserId, code: string) returns (referrer: Option<UserId>, o: LinkOutcome)
      requires Valid()
      modifies this
      ensures Valid()
      ensures Resolves(old(users), code, referrer)
      ensures (o, users) == Link(old(users), id, referrer)
      ensures tasks == old(tasks)
    {
      referrer := FindReferrer(users, code);
      LinkKeepsInvariants(users, map[], id, referrer);
      o := ApplyLink(id, referrer);
    }

    /** The guarded UPDATEs of `referred_by` and of the referrer's balance. */
    method ApplyLink(id: UserId, referrer: Option<UserId>) returns (o: LinkOutcome)
      requires referrer.Some? ==> referrer.value in users
      modifies this
      ensures (o, users) == Link(old(users), id, referrer)
      ensures tasks == old(tasks)
    {
      match referrer
      case None =>
        o := UnknownCode;
      case Some(r) =>
        if r == id {
          o := SelfReferral;
        } else if id !in users {
          o := NotRegistered;
        } else if users[id].referredBy.Some? {
          o := AlreadyReferred;
        } else {
          users := users[id := users[id].(referredBy := Some(r))];
          users := users[r := users[r].(balance := users[r].balance + ReferralBonus)];
          o := Linked(r);
        }
    }

    /** `/start CODE`: the link is attempted first and registration runs afterwards. */
    method StartWithCode(id: UserId, code: string, username: Option<string>, firstName: Option<string>, lastName: Option<string>)
      returns (referrer: Option<UserId>, o: LinkOutcome)
      requires Valid()
      modifies this
      ensures Valid()
      ensures Resolves(old(users), code, referrer)
      ensures o == Link(old(users), id, referrer).0
      ensures users == Registered(Link(old(users), id, referrer).1, id, username, firstName, lastName)
      ensures id !in old(users) ==> !o.Linked? && users == Registered(old(users), id, username, firstName, lastName)
      ensures tasks == old(tasks)
    {
      referrer, o := LinkReferral(id, code);
      RegisterUser(id, username, firstName, lastName);
    }
  }
}
