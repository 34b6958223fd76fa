/**
 * The `users` table and the one-shot transitions on it: registration, the
 * wallet address, the referral link with its bonus, and the airdrop claim.
 * Each transition is a function from the table before to the outcome and the
 * table after; the bots' handlers are proved to perform exactly these.
 */
module Users {
  import opened Wrappers
  import opened Identity
  import opened Text
  import opened Tasks

  const ReferralBonus: nat := 30
  const AirdropReward: nat := 100
  const CodePrefix: string := "GRAPH"
  const CodeDigits: nat := 6

  /** One row of `users` (the `joined_at` timestamp is not modelled). */
  datatype User = User(
    username: string, firstName: string, lastName: string,
    balance: nat,
    wallet: Option<string>,
    referralCode: string,
    referredBy: Option<UserId>,
    airdropClaimed: bool)

  function Min(a: nat, b: nat): nat {
    if a <= b then a else b
  }

  /**
   * `generateReferralCode`: "GRAPH" followed by at most the first six
   * characters of the id's decimal string.
   */
  function ReferralCode(id: UserId): (code: string)
    ensures |code| == |CodePrefix| + Min(CodeDigits, |DecimalString(id)|)
    ensures code[..|CodePrefix|] == CodePrefix
    ensures code[|CodePrefix|..] == DecimalString(id)[..Min(CodeDigits, |DecimalString(id)|)]
  {
    CodePrefix + DecimalString(id)[..Min(CodeDigits, |DecimalString(id)|)]
  }

  /** Ids of at most six digits get distinct codes. */
  lemma ReferralCodeInjectiveBelowMillion(a: UserId, b: UserId)
    requires a < Pow10(CodeDigits) && b < Pow10(CodeDigits)
    requires ReferralCode(a) == ReferralCode(b)
    ensures a == b
  {
    DecimalLengthBelow(a, CodeDigits);
    DecimalLengthBelow(b, CodeDigits);
    var da, db := DecimalString(a), DecimalString(b);
    assert da[..|da|] == da && db[..|db|] == db;
    assert da == ReferralCode(a)[|CodePrefix|..];
    DecimalStringInjective(a, b);
  }

  /** From seven digits on, the code ignores the last digit: the truncation makes codes collide. */
  lemma ReferralCodeDropsLastDigit(n: UserId)
    requires n >= Pow10(CodeDigits)
    ensures ReferralCode(n) == ReferralCode(n / 10)
  {
    DecimalLengthAbove(n / 10, CodeDigits - 1);
    var d, e := DecimalString(n), DecimalString(n / 10);
    assert d == e + [DigitChar(n % 10)];
    assert d[..CodeDigits] == e[..CodeDigits];
  }

  /** Two concrete users sharing a code. */
  lemma ReferralCodesCollide()
    ensures ReferralCode(1234567) == ReferralCode(1234568) == "GRAPH123456"
  {
    assert Pow10(CodeDigits) == 1000000 by {
      assert Pow10(1) == 10 && Pow10(2) == 100 && Pow10(3) == 1000;
      assert Pow10(4) == 10000 && Pow10(5) == 100000;
    }
    ReferralCodeDropsLastDigit(1234567);
    ReferralCodeDropsLastDigit(1234568);
    assert DecimalString(1) == "1";
    assert DecimalString(12) == "12";
    assert DecimalString(123) == "123";
    assert DecimalString(1234) == "1234";
    assert DecimalString(12345) == "12345";
    assert DecimalString(123456) == "123456";
  }

  /** The row `registerUser` inserts: balance 0, the generated code, no wallet, no referrer. */
  function NewUser(id: UserId, username: Option<string>, firstName: Option<string>, lastName: Option<string>): (u: User)
    ensures u.balance == 0 && u.wallet.None? && u.referredBy.None? && !u.airdropClaimed
    ensures u.referralCode == ReferralCode(id)
  {
    User(username.GetOr(""), firstName.GetOr(""), lastName.GetOr(""), 0, None, ReferralCode(id), None, false)
  }

  /** `registerUser`: a row is inserted only when none exists for the id. */
  function Registered(users: map<UserId, User>, id: UserId, username: Option<string>,
                      firstName: Option<string>, lastName: Option<string>): (r: map<UserId, User>)
    ensures r.Keys == users.Keys + {id}
    ensures id in users ==> r == users
    ensures id !in users ==> r[id] == NewUser(id, username, firstName, lastName)
    ensures forall u :: u in users ==> r[u] == users[u]
  {
    if id in users then users else users[id := NewUser(id, username, firstName, lastName)]
  }

  /** Registering again changes nothing, whatever profile fields come along. */
  lemma RegisteredIdempotent(users: map<UserId, User>, id: UserId, n: Option<string>, f: Option<string>, l: Option<string>,
                             n': Option<string>, f': Option<string>, l': Option<string>)
    ensures Registered(Registered(users, id, n, f, l), id, n', f', l') == Registered(users, id, n, f, l)
  {
  }

  /** The wallet scene's format check: starts with "sol" and is at least 32 UTF-16 units long. */
  predicate ValidWalletAddress(a: string) {
    |a| >= 3 && a[..3] == "sol" && Utf16Length(a) >= 32
  }

  /** The text handler of the wallet scene: the trimmed text when it passes the check. */
  function CheckWallet(text: string): (r: Option<string>)
    ensures r.Some? <==> ValidWalletAddress(Trim(text))
    ensures r.Some? ==> r.value == Trim(text)
  {
    var address := Trim(text);
    if ValidWalletAddress(address) then Some(address) else None
  }

  /**
   * For an address of "sol" and plain characters with no surrounding white
   * space, the check is exactly a length test: 31 characters are refused and
   * 32 accepted.
   */
  lemma WalletLengthBoundary(address: string)
    requires |address| >= 3 && address[..3] == "sol"
    requires !IsJsSpace(address[|address| - 1])
    requires forall i :: 0 <= i < |address| ==> address[i] as int < 0x1_0000
    ensures CheckWallet(address).Some? <==> |address| >= 32
    ensures CheckWallet(address).Some? ==> CheckWallet(address).value == address
  {
    TrimOfTrimmed(address);
  }

  /** Surrounding white space does not change the verdict or the stored address. */
  lemma WalletIgnoresSurroundingSpace(text: string)
    ensures CheckWallet(Trim(text)) == CheckWallet(text)
  {
    TrimIdempotent(text);
  }

  /** `UPDATE users SET wallet_address = ...`: a no-op for an id without a row. */
  function WithWallet(users: map<UserId, User>, id: UserId, address: string): (r: map<UserId, User>)
    ensures r.Keys == users.Keys
    ensures id in users ==> r[id] == users[id].(wallet := Some(address))
    ensures forall u :: u in users && u != id ==> r[u] == users[u]
  {
    if id in users then users[id := users[id].(wallet := Some(address))] else users
  }

  /** Why a referral link did or did not apply. */
  datatype LinkOutcome = Linked(referrer: UserId) | UnknownCode | SelfReferral | NotRegistered | AlreadyReferred

  /**
   * `SELECT telegram_id FROM users WHERE referral_code = code` followed by
   * `referrer[0]`: `chosen` is the row the store returned first, or None when
   * no row has that code. Codes can collide, so any matching row may come first.
   */
  predicate Resolves(users: map<UserId, User>, code: string, chosen: Option<UserId>) {
    match chosen
    case None => forall r :: r in users ==> users[r].referralCode != code
    case Some(r) => r in users && users[r].referralCode == code
  }

  /** `SELECT telegram_id FROM users WHERE referral_code = code`, taking the row that comes first. */
  method FindReferrer(users: map<UserId, User>, code: string) returns (referrer: Option<UserId>)
    ensures Resolves(users, code, referrer)
  {
    if r :| r in users && users[r].referralCode == code {
      referrer := Some(r);
    } else {
      referrer := None;
    }
  }

  /**
   * The referral handler once the code is resolved: it applies only to a
   * different, registered user not yet referred; then it records the referrer
   * and credits them the bonus.
   */
  function Link(users: map<UserId, User>, id: UserId, chosen: Option<UserId>): (r: (LinkOutcome, map<UserId, User>))
    requires chosen.Some? ==> chosen.value in users
    ensures r.0.Linked? <==> chosen.Some? && chosen.value != id && id in users && users[id].referredBy.None?
    ensures r.0.Linked? ==> r.0.referrer == chosen.value
    ensures r.0 == UnknownCode <==> chosen.None?
    ensures r.0 == SelfReferral <==> chosen == Some(id)
    ensures !r.0.Linked? ==> r.1 == users
    ensures r.1.Keys == users.Keys
    ensures r.0.Linked? ==>
              var ref := r.0.referrer;
              && r.1[id] == users[id].(referredBy := Some(ref))
              && r.1[ref] == users[ref].(balance := users[ref].balance + ReferralBonus)
              && forall u :: u in users && u != id && u != ref ==> r.1[u] == users[u]
  {
    match chosen
    case None => (UnknownCode, users)
    case Some(ref) =>
      if ref == id then (SelfReferral, users)
      else if id !in users then (NotRegistered, users)
      else if users[id].referredBy.Some? then (AlreadyReferred, users)
      else
        var linked := users[id := users[id].(referredBy := Some(ref))];
        (Linked(ref), linked[ref := linked[ref].(balance := linked[ref].balance + ReferralBonus)])
  }

  /** Once linked, every later referral attempt for that user, with any code, is a no-op. */
  lemma LinkOnce(users: map<UserId, User>, id: UserId, chosen: Option<UserId>, later: Option<UserId>)
    requires chosen.Some? ==> chosen.value in users
    requires Link(users, id, chosen).0.Linked?
    requires later.Some? ==> later.value in users
    ensures !Link(Link(users, id, chosen).1, id, later).0.Linked?
    ensures Link(Link(users, id, chosen).1, id, later).1 == Link(users, id, chosen).1
  {
  }

  /**
   * As the handler is written, the link is attempted before `registerUser`
   * runs: a user who has no row yet is never linked, and nobody is credited.
   */
  lemma NewUserNeverLinked(users: map<UserId, User>, id: UserId, chosen: Option<UserId>)
    requires chosen.Some? ==> chosen.value in users
    requires id !in users
    ensures !Link(users, id, chosen).0.Linked?
    ensures Link(users, id, chosen).1 == users
  {
  }

  /**
   * Registering first and linking second gives a newcomer who arrives with
   * another user's code the link, and that user the bonus.
   */
  lemma RegisteredNewcomerIsLinked(users: map<UserId, User>, id: UserId, ref: UserId,
                                   n: Option<string>, f: Option<string>, l: Option<string>)
    requires id !in users && ref in users && ref != id
    ensures var after := Registered(users, id, n, f, l);
            && Link(after, id, Some(ref)).0 == Linked(ref)
            && Link(after, id, Some(ref)).1[id].referredBy == Some(ref)
            && Link(after, id, Some(ref)).1[ref].balance == users[ref].balance + ReferralBonus
  {
  }

  /** The result of `claim_airdrop`. */
  datatype ClaimOutcome = Granted | AlreadyClaimed | Incomplete | Failed

  /**
   * `claim_airdrop` given the user's task rows: `total === completed` fails
   * when some row is pending and when there are no rows (SUM is NULL); a
   * missing user row makes the handler throw, which it catches (Failed).
   */
  function Claim(users: map<UserId, User>, rows: seq<TaskRow>, id: UserId): (r: (ClaimOutcome, map<UserId, User>))
    ensures r.0 == Granted <==> rows != [] && AllCompleted(rows) && id in users && !users[id].airdropClaimed
    ensures r.0 == Incomplete <==> !(rows != [] && AllCompleted(rows))
    ensures r.0 == AlreadyClaimed <==> rows != [] && AllCompleted(rows) && id in users && users[id].airdropClaimed
    ensures r.0 != Granted ==> r.1 == users
    ensures r.1.Keys == users.Keys
    ensures r.0 == Granted ==>
              && r.1[id] == users[id].(balance := users[id].balance + AirdropReward, airdropClaimed := true)
              && forall u :: u in users && u != id ==> r.1[u] == users[u]
  {
    if SumCompleted(rows) == Some(|rows|) then
      if id !in users then (Failed, users)
      else if !users[id].airdropClaimed then
        (Granted, users[id := users[id].(balance := users[id].balance + AirdropReward, airdropClaimed := true)])
      else (AlreadyClaimed, users)
    else (Incomplete, users)
  }

  /** A granted claim is the last: claiming again reports AlreadyClaimed and credits nothing. */
  lemma ClaimOnce(users: map<UserId, User>, rows: seq<TaskRow>, id: UserId)
    requires Claim(users, rows, id).0 == Granted
    ensures var after := Claim(users, rows, id).1;
            && after[id].balance == users[id].balance + AirdropReward
            && Claim(after, rows, id) == (AlreadyClaimed, after)
  {
  }

  // Invariants of the `users` table.

  /** The users whose `referred_by` names `r`. */
  function ReferralsOf(users: map<UserId, User>, r: UserId): set<UserId> {
    set u | u in users && users[u].referredBy == Some(r)
  }

  /**
   * Every code is the one generated from its owner's id; nobody is their own
   * referrer; a referrer is a registered user.
   */
  predicate UsersWellFormed(users: map<UserId, User>) {
    forall id :: id in users ==>
      && users[id].referralCode == ReferralCode(id)
      && users[id].referredBy != Some(id)
      && (users[id].referredBy.Some? ==> users[id].referredBy.value in users)
  }

  /**
   * Every token on a balance is accounted for: 30 per referred user and 100
   * for a claimed airdrop, so each credit happened exactly once.
   */
  predicate Accounted(users: map<UserId, User>) {
    forall id :: id in users ==>
      users[id].balance == ReferralBonus * |ReferralsOf(users, id)| + (if users[id].airdropClaimed then AirdropReward else 0)
  }

  /** A claimed airdrop implies a full, completed checklist. */
  predicate ClaimsBacked(users: map<UserId, User>, tasks: map<UserId, seq<TaskRow>>) {
    forall id :: id in users && users[id].airdropClaimed ==> RowsOf(tasks, id) != [] && AllCompleted(RowsOf(tasks, id))
  }

  /** A change that leaves every `referred_by` alone leaves every referral set alone. */
  lemma ReferralsUnchanged(users: map<UserId, User>, users': map<UserId, User>, x: UserId)
    requires users.Keys <= users'.Keys
    requires forall u :: u in users ==> users'[u].referredBy == users[u].referredBy
    requires forall u :: u in users' && u !in users ==> users'[u].referredBy.None?
    ensures ReferralsOf(users', x) == ReferralsOf(users, x)
  {
  }

  /**
   * A change that keeps every existing row's referrer, balance and claim, and
   * adds only rows with no referrer, no balance and no claim, keeps the
   * table accounted.
   */
  lemma AccountedWhenReferralsKept(users: map<UserId, User>, users': map<UserId, User>)
    requires UsersWellFormed(users) && Accounted(users)
    requires users.Keys <= users'.Keys
    requires forall u :: u in users ==>
               && users'[u].referredBy == users[u].referredBy
               && users'[u].balance == users[u].balance
               && users'[u].airdropClaimed == users[u].airdropClaimed
    requires forall u :: u in users' && u !in users ==>
               users'[u].referredBy.None? && users'[u].balance == 0 && !users'[u].airdropClaimed
    ensures Accounted(users')
  {
    forall x | x in users'
      ensures users'[x].balance
              == ReferralBonus * |ReferralsOf(users', x)| + (if users'[x].airdropClaimed then AirdropReward else 0)
    {
      ReferralsUnchanged(users, users', x);
      if x !in users {
        assert ReferralsOf(users, x) == {};
      }
    }
  }

  /**
   * A change that keeps every existing row's code and referrer, and adds only
   * rows with the generated code and no referrer, keeps the table well formed.
   */
  lemma WellFormedWhenCodesKept(users: map<UserId, User>, users': map<UserId, User>)
    requires UsersWellFormed(users)
    requires users.Keys <= users'.Keys
    requires forall u :: u in users ==>
               users'[u].referralCode == users[u].referralCode && users'[u].referredBy == users[u].referredBy
    requires forall u :: u in users' && u !in users ==>
               users'[u].referralCode == ReferralCode(u) && users'[u].referredBy.None?
    ensures UsersWellFormed(users')
  {
  }

  /** A change that sets no new claim keeps every claim backed. */
  lemma ClaimsBackedWhenClaimsKept(users: map<UserId, User>, users': map<UserId, User>, tasks: map<UserId, seq<TaskRow>>)
    requires ClaimsBacked(users, tasks)
    requires forall u :: u in users' && users'[u].airdropClaimed ==> u in users && users[u].airdropClaimed
    ensures ClaimsBacked(users', tasks)
  {
  }

  lemma RegisteredKeepsInvariants(users: map<UserId, User>, tasks: map<UserId, seq<TaskRow>>, id: UserId,
                                  n: Option<string>, f: Option<string>, l: Option<string>)
    requires UsersWellFormed(users) && Accounted(users) && ClaimsBacked(users, tasks)
    ensures var r := Registered(users, id, n, f, l);
            UsersWellFormed(r) && Accounted(r) && ClaimsBacked(r, tasks)
  {
    var r := Registered(users, id, n, f, l);
    AccountedWhenReferralsKept(users, r);
    WellFormedWhenCodesKept(users, r);
    ClaimsBackedWhenClaimsKept(users, r, tasks);
  }

  lemma WithWalletKeepsInvariants(users: map<UserId, User>, tasks: map<UserId, seq<TaskRow>>, id: UserId, a: string)
    requires UsersWellFormed(users) && Accounted(users) && ClaimsBacked(users, tasks)
    ensures var r := WithWallet(users, id, a);
            UsersWellFormed(r) && Accounted(r) && ClaimsBacked(r, tasks)
  {
    var r := WithWallet(users, id, a);
    AccountedWhenReferralsKept(users, r);
    WellFormedWhenCodesKept(users, r);
    ClaimsBackedWhenClaimsKept(users, r, tasks);
  }

  /** The link adds one referral to the referrer's set and leaves every other set alone. */
  lemma LinkReferrals(users: map<UserId, User>, id: UserId, ref: UserId, x: UserId)
    requires ref in users && Link(users, id, Some(ref)).0.Linked?
    ensures var r := Link(users, id, Some(ref)).1;
            && (x == ref ==> ReferralsOf(r, x) == ReferralsOf(users, x) + {id} && id !in ReferralsOf(users, x))
            && (x != ref ==> ReferralsOf(r, x) == ReferralsOf(users, x))
  {
    var r := Link(users, id, Some(ref)).1;
    if x == ref {
      assert ReferralsOf(r, x) == ReferralsOf(users, x) + {id};
    } else {
      assert ReferralsOf(r, x) == ReferralsOf(users, x);
    }
  }

  lemma LinkKeepsInvariants(users: map<UserId, User>, tasks: map<UserId, seq<TaskRow>>, id: UserId, chosen: Option<UserId>)
    requires chosen.Some? ==> chosen.value in users
    requires UsersWellFormed(users) && Accounted(users) && ClaimsBacked(users, tasks)
    ensures var r := Link(users, id, chosen).1;
            UsersWellFormed(r) && Accounted(r) && ClaimsBacked(r, tasks)
  {
    if Link(users, id, chosen).0.Linked? {
      var r := Link(users, id, chosen).1;
      LinkKeepsAccounted(users, id, chosen.value);
      LinkKeepsWellFormed(users, id, chosen.value);
      ClaimsBackedWhenClaimsKept(users, r, tasks);
    }
  }

  /** The recorded referrer is another registered user, and no code changes. */
  lemma LinkKeepsWellFormed(users: map<UserId, User>, id: UserId, ref: UserId)
    requires ref in users && Link(users, id, Some(ref)).0.Linked?
    requires UsersWellFormed(users)
    ensures UsersWellFormed(Link(users, id, Some(ref)).1)
  {
  }

  lemma LinkKeepsAccounted(users: map<UserId, User>, id: UserId, ref: UserId)
    requires ref in users && Link(users, id, Some(ref)).0.Linked?
    requires Accounted(users)
    ensures Accounted(Link(users, id, Some(ref)).1)
  {
    var r := Link(users, id, Some(ref)).1;
    forall x | x in r
      ensures r[x].balance == ReferralBonus * |ReferralsOf(r, x)| + (if r[x].airdropClaimed then AirdropReward else 0)
    {
      LinkReferrals(users, id, ref, x);
    }
  }

  lemma ClaimKeepsInvariants(users: map<UserId, User>, tasks: map<UserId, seq<TaskRow>>, id: UserId)
    requires UsersWellFormed(users) && Accounted(users) && ClaimsBacked(users, tasks)
    ensures var r := Claim(users, RowsOf(tasks, id), id).1;
            UsersWellFormed(r) && Accounted(r) && ClaimsBacked(r, tasks)
  {
    var rows := RowsOf(tasks, id);
    var r := Claim(users, rows, id).1;
    if Claim(users, rows, id).0 == Granted {
      WellFormedWhenCodesKept(users, r);
      ClaimKeepsAccounted(users, rows, id);
      forall u | u in r && r[u].airdropClaimed
        ensures RowsOf(tasks, u) != [] && AllCompleted(RowsOf(tasks, u))
      {
      }
    }
  }

  /** A granted claim adds exactly the 100 that the claimed flag accounts for. */
  lemma ClaimKeepsAccounted(users: map<UserId, User>, rows: seq<TaskRow>, id: UserId)
    requires Accounted(users)
    ensures Accounted(Claim(users, rows, id).1)
  {
    var r := Claim(users, rows, id).1;
    forall x | x in r
      ensures ReferralsOf(r, x) == ReferralsOf(users, x)
    {
      ReferralsUnchanged(users, r, x);
    }
  }

  /** Seeding and marking tasks keep every claim backed: flags never go back to false. */
  lemma TaskChangesKeepClaimsBacked(users: map<UserId, User>, tasks: map<UserId, seq<TaskRow>>, id: UserId, t: string)
    requires ClaimsBacked(users, tasks)
    ensures ClaimsBacked(users, WithSeeded(tasks, id))
    ensures ClaimsBacked(users, WithCompleted(tasks, id, t))
  {
    forall u | u in users && users[u].airdropClaimed
      ensures AllCompleted(RowsOf(WithCompleted(tasks, id, t), u))
    {
      MarkCompletedKeepsShape(RowsOf(tasks, u), t);
    }
  }
}
