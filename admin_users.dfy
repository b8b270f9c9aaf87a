/** The decision rules of the admin users controller
    (app/controllers/admin/users_controller.rb): the penalty-history
    remapping, the suspend and silence guards and target lists, unsuspending,
    the manual trust-level lock, the lock flag, disabling second factors and
    the post action that may follow a penalty. Guardian and Promotion checks,
    and `User#suspended?` / `User#silenced?`, are boolean inputs. */
module AdminUsers {
  import opened Options

  type UserId = int
  type Timestamp = int

  /** The user columns these actions read or write. */
  datatype User = User(
    id: UserId,
    trustLevel: int,
    manualLockedTrustLevel: Option<int>,
    suspendedTill: Option<Timestamp>,
    suspendedAt: Option<Timestamp>,
    secondFactors: nat,
    securityKeys: nat)

  /** How an action answered. */
  datatype Response =
    | Success
    | NotFound           // `fetch_user` found no user
    | InvalidAccess      // a guardian check refused
    | Conflict           // the 409 answer: already suspended / already silenced
    | ParameterMissing   // `params.require` found a parameter missing
    | InvalidParameters  // `Discourse::InvalidParameters`
    | JsonError          // `render_json_error`

  // ---------------------------------------------------------------------------
  // Penalty history

  /** The user-history actions the penalty remapping distinguishes; every other
      action is `OtherAction`. */
  datatype HistoryAction =
    | SilenceUser | UnsilenceUser | SuspendUser | UnsuspendUser
    | RemovedSilenceUser | RemovedUnsilenceUser | RemovedSuspendUser | RemovedUnsuspendUser
    | OtherAction(name: string)

  /** One `user_histories` row; `target_user_id` may be NULL. */
  datatype HistoryRow = HistoryRow(targetUserId: Option<UserId>, action: HistoryAction)

  /** The actions that count as a penalty (and so against TL3 promotion). */
  predicate IsPenalty(a: HistoryAction) {
    a.SilenceUser? || a.UnsilenceUser? || a.SuspendUser? || a.UnsuspendUser?
  }

  /** The `removed_*` counterpart of a penalty action. */
  function Removed(a: HistoryAction): (r: HistoryAction)
    requires IsPenalty(a)
    ensures !IsPenalty(r) && !r.OtherAction?
  {
    match a
    case SilenceUser => RemovedSilenceUser
    case UnsilenceUser => RemovedUnsilenceUser
    case SuspendUser => RemovedSuspendUser
    case UnsuspendUser => RemovedUnsuspendUser
  }

  /** Distinct penalties stay distinct once removed. */
  lemma RemovedInjective(a: HistoryAction, b: HistoryAction)
    requires IsPenalty(a) && IsPenalty(b) && a != b
    ensures Removed(a) != Removed(b)
  {
  }

  /** Whether a row is one the remapping for `userId` rewrites. */
  predicate PenaltyOf(row: HistoryRow, userId: UserId) {
    row.targetUserId == Some(userId) && IsPenalty(row.action)
  }

  /** `penalty_history`: every penalty row of the user becomes its removed
      counterpart; all other rows, and every row's target, stay as they were;
      afterwards the user has no penalty row left. */
  function RemapPenaltyHistory(rows: seq<HistoryRow>, userId: UserId): (r: seq<HistoryRow>)
    ensures |r| == |rows|
    ensures forall i :: 0 <= i < |rows| ==> r[i].targetUserId == rows[i].targetUserId
    ensures forall i :: 0 <= i < |rows| && !PenaltyOf(rows[i], userId) ==> r[i] == rows[i]
    ensures forall i :: 0 <= i < |rows| && PenaltyOf(rows[i], userId) ==>
      r[i].action == Removed(rows[i].action)
    ensures forall i :: 0 <= i < |r| ==> !PenaltyOf(r[i], userId)
  {
    if rows == [] then
      []
    else
      var row := rows[0];
      var row' := if PenaltyOf(row, userId) then row.(action := Removed(row.action)) else row;
      [row'] + RemapPenaltyHistory(rows[1..], userId)
  }

  /** Removing a user's penalty history twice is removing it once. */
  lemma RemapPenaltyHistoryIdempotent(rows: seq<HistoryRow>, userId: UserId)
    ensures RemapPenaltyHistory(RemapPenaltyHistory(rows, userId), userId) == RemapPenaltyHistory(rows, userId)
  {
  }

  // ---------------------------------------------------------------------------
  // Parameters

  /** Ruby's `blank?` on a string: nothing but white space. */
  predicate Blank(s: string) {
    forall i :: 0 <= i < |s| ==> s[i] in {' ', '\t', '\n', '\r'}
  }

  /** Ruby's `present?` on a parameter. */
  predicate Present(p: Option<string>) {
    p.Some? && !Blank(p.value)
  }

  // ---------------------------------------------------------------------------
  // The post action that may follow a suspension or a silencing

  /** The request parameters `perform_post_action` reads. */
  datatype PostActionParams = PostActionParams(
    postId: Option<string>,
    postAction: Option<string>,
    postEdit: Option<string>)

  /** What happens to the post. */
  datatype PostEffect =
    | NoPostEffect
    | DestroyPost(postId: string)
    | DestroyWithReplies(postId: string)
    | RevisePost(postId: string, raw: Option<string>)

  /** `perform_post_action`: nothing unless both a post id and an action are
      present and the post exists; deleting (with or without replies) needs
      the guardian's permission; editing does not. */
  function PostAction(p: PostActionParams, postFound: bool, canDeletePost: bool): (e: PostEffect)
    ensures !(Present(p.postId) && Present(p.postAction) && postFound) ==> e == NoPostEffect
    ensures e.DestroyPost? <==>
      Present(p.postId) && Present(p.postAction) && postFound
      && p.postAction == Some("delete") && canDeletePost
    ensures e.DestroyWithReplies? <==>
      Present(p.postId) && Present(p.postAction) && postFound
      && p.postAction == Some("delete_replies") && canDeletePost
    ensures e.RevisePost? <==>
      Present(p.postId) && Present(p.postAction) && postFound && p.postAction == Some("edit")
    ensures !e.NoPostEffect? ==> Some(e.postId) == p.postId
    ensures e.RevisePost? ==> e.raw == p.postEdit
  {
    if !(Present(p.postId) && Present(p.postAction)) then
      NoPostEffect
    else if !postFound then
      NoPostEffect
    else if p.postAction.value == "delete" then
      if canDeletePost then DestroyPost(p.postId.value) else NoPostEffect
    else if p.postAction.value == "delete_replies" then
      if canDeletePost then DestroyWithReplies(p.postId.value) else NoPostEffect
    else if p.postAction.value == "edit" then
      RevisePost(p.postId.value, p.postEdit)
    else
      NoPostEffect
  }

  // ---------------------------------------------------------------------------
  // The users a suspension or a silencing applies to

  predicate NoDuplicates(s: seq<UserId>) {
    forall i, j :: 0 <= i < j < |s| ==> s[i] != s[j]
  }

  /** The position of the first occurrence of `x` in `s`. */
  function FirstIndex(s: seq<UserId>, x: UserId): (k: nat)
    requires x in s
    ensures k < |s| && s[k] == x && x !in s[..k]
  {
    if s[0] == x then 0
    else
      var k := 1 + FirstIndex(s[1..], x);
      assert s[..k] == [s[0]] + s[1..][..k - 1];
      k
  }

  lemma FirstIndexUnique(s: seq<UserId>, x: UserId, k: nat)
    requires k < |s| && s[k] == x && x !in s[..k]
    ensures FirstIndex(s, x) == k
  {
  }

  /** Ruby's `uniq!`: keeps the first occurrence of every element, in the
      order of those first occurrences; an array without repeats is left as
      it is. */
  method Uniq(s: seq<UserId>) returns (r: seq<UserId>)
    ensures NoDuplicates(r)
    ensures forall x :: x in r <==> x in s
    ensures forall a, b :: 0 <= a < b < |r| ==> FirstIndex(s, r[a]) < FirstIndex(s, r[b])
    ensures |s| > 0 ==> |r| > 0 && r[0] == s[0]
    ensures NoDuplicates(s) ==> r == s
  {
    r := [];
    var i := 0;
    while i < |s|
      invariant 0 <= i <= |s|
      invariant NoDuplicates(r)
      invariant forall x :: x in r <==> x in s[..i]
      invariant forall x :: x in r ==> x in s
      invariant forall a :: 0 <= a < |r| ==> FirstIndex(s, r[a]) < i
      invariant forall a, b :: 0 <= a < b < |r| ==> FirstIndex(s, r[a]) < FirstIndex(s, r[b])
      invariant i == 0 ==> r == []
      invariant i > 0 ==> |r| > 0 && r[0] == s[0]
      invariant NoDuplicates(s) ==> r == s[..i]
    {
      if s[i] !in r {
        FirstIndexUnique(s, s[i], i);
        r := r + [s[i]];
      } else {
        assert !NoDuplicates(s);
      }
      assert s[..i + 1] == s[..i] + [s[i]];
      i := i + 1;
    }
    assert s[..i] == s;
  }

  /** `User.where(id: ids)`: the ids that name an existing user. The order in
      which the database returns them is not modelled (parameter order is kept). */
  function ExistingIds(ids: seq<UserId>, existing: set<UserId>): (r: seq<UserId>)
    ensures forall x :: x in r <==> x in ids && x in existing
  {
    if ids == [] then []
    else (if ids[0] in existing then [ids[0]] else []) + ExistingIds(ids[1..], existing)
  }

  /** `all_users` in `suspend` and `silence`: the fetched user first, then,
      only when `other_user_ids` is an array, the other existing users it
      names, each user once. */
  method PenaltyTargets(fetched: UserId, otherUserIds: Option<seq<UserId>>, existing: set<UserId>)
    returns (all: seq<UserId>)
    ensures |all| > 0 && all[0] == fetched
    ensures NoDuplicates(all)
    ensures otherUserIds.None? ==> all == [fetched]
    ensures forall id :: id in all <==>
      id == fetched || (otherUserIds.Some? && id in otherUserIds.value && id in existing)
  {
    all := [fetched];
    if otherUserIds.Some? {
      all := all + ExistingIds(otherUserIds.value, existing);
      all := Uniq(all);
    }
  }

  // ---------------------------------------------------------------------------
  // Trust level

  /** The manual lock after `trust_level` asks for `level`: an existing lock is
      kept; otherwise levels 0 to 2 are locked when the next level's
      requirements are met (`nextLevelMet`), level 3 when TL3 has been lost
      (`tl3Lost`), and no other level is ever locked. */
  function LockAfterTrustLevelChange(current: Option<int>, level: int, nextLevelMet: bool, tl3Lost: bool)
    : (r: Option<int>)
    ensures current.Some? ==> r == current
    ensures current.None? ==>
      (r.Some? <==> (0 <= level <= 2 && nextLevelMet) || (level == 3 && tl3Lost))
    ensures current.None? && r.Some? ==> r.value == level
  {
    if current.None? then
      if level in {0, 1, 2} && nextLevelMet then Some(level)
      else if level == 3 && tl3Lost then Some(level)
      else None
    else
      current
  }

  /** Whether `t` occurs in `s` at some position, the way an unanchored regular
      expression made of a literal matches. */
  function Contains(s: string, t: string): bool {
    if |s| < |t| then false
    else s[..|t|] == t || Contains(s[1..], t)
  }

  /** `t` occurs in `s` starting at position `i`. */
  predicate OccursAt(s: string, t: string, i: int) {
    0 <= i && i + |t| <= |s| && s[i..i + |t|] == t
  }

  lemma SliceOfTail(s: string, i: int, n: nat)
    requires 1 <= i && i + n <= |s|
    ensures s[i..i + n] == s[1..][i - 1..i - 1 + n]
  {
    var direct, viaTail := s[i..i + n], s[1..][i - 1..i - 1 + n];
    assert |direct| == |viaTail| == n;
    assert forall k :: 0 <= k < n ==> direct[k] == viaTail[k];
  }

  /** `Contains` is substring occurrence. */
  lemma {:induction false} ContainsIsSubstring(s: string, t: string)
    ensures Contains(s, t) <==> exists i :: OccursAt(s, t, i)
  {
    if |s| < |t| {
    } else if s[..|t|] == t {
      assert OccursAt(s, t, 0);
    } else {
      ContainsIsSubstring(s[1..], t);
      if Contains(s[1..], t) {
        var i :| OccursAt(s[1..], t, i);
        SliceOfTail(s, i + 1, |t|);
        assert OccursAt(s, t, i + 1);
      } else {
        forall i | OccursAt(s, t, i)
          ensures false
        {
          if i > 0 {
            SliceOfTail(s, i, |t|);
            assert OccursAt(s[1..], t, i - 1);
          }
        }
      }
    }
  }

  /** `trust_level_lock`'s reading of the `locked` parameter: rejected (None)
      unless "true" or "false" occurs in it somewhere; accepted, it locks only
      when it is exactly "true". */
  function ParseLockFlag(locked: string): (r: Option<bool>)
    ensures r.None? <==> !Contains(locked, "true") && !Contains(locked, "false")
    ensures r == Some(true) <==> locked == "true"
  {
    if !(Contains(locked, "true") || Contains(locked, "false")) then None
    else Some(locked == "true")
  }

  /** The unanchored match: "xtrue" is accepted, and clears the lock. */
  lemma ParseLockFlagUnanchored()
    ensures ParseLockFlag("xtrue") == Some(false)
    ensures ParseLockFlag("false") == Some(false)
    ensures ParseLockFlag("") == None
  {
  }

  // ---------------------------------------------------------------------------
  // The controller

  function Suspended(u: User, till: Timestamp, at: Timestamp): User {
    u.(suspendedTill := Some(till), suspendedAt := Some(at))
  }

  /** The users table, the user-history table, and the calls made to
      `change_trust_level!`, as the actions see and change them. */
  class UsersController {
    var users: map<UserId, User>
    var histories: seq<HistoryRow>
    var trustLevelChanges: seq<(UserId, int)>

    constructor (users: map<UserId, User>, histories: seq<HistoryRow>)
      ensures this.users == users && this.histories == histories && trustLevelChanges == []
    {
      this.users, this.histories, trustLevelChanges := users, histories, [];
    }

    /** `penalty_history` (no user lookup, no guardian check). */
    method PenaltyHistory(userId: UserId) returns (resp: Response)
      modifies this`histories
      ensures resp == Success
      ensures histories == RemapPenaltyHistory(old(histories), userId)
    {
      histories := RemapPenaltyHistory(histories, userId);
      resp := Success;
    }

    /** `suspend`: refuses an unknown user, a refused guardian check, an
        already suspended user (409) and a missing `suspend_until` or `reason`,
        changing nothing; otherwise suspends every target until `suspendUntil`, as of
        `now`, and performs the post action. */
    method Suspend(
      userId: UserId, canSuspend: bool, alreadySuspended: bool,
      suspendUntil: Option<Timestamp>, reason: Option<string>,
      otherUserIds: Option<seq<UserId>>, now: Timestamp,
      post: PostActionParams, postFound: bool, canDeletePost: bool)
      returns (resp: Response, targets: seq<UserId>, postEffect: PostEffect)
      modifies this`users
      ensures userId !in old(users) ==> resp == NotFound
      ensures userId in old(users) && !canSuspend ==> resp == InvalidAccess
      ensures userId in old(users) && canSuspend && alreadySuspended ==> resp == Conflict
      ensures (userId in old(users) && canSuspend && !alreadySuspended
               && (suspendUntil.None? || !Present(reason))) ==> resp == ParameterMissing
      ensures resp == Success <==>
        userId in old(users) && canSuspend && !alreadySuspended && suspendUntil.Some? && Present(reason)
      ensures resp != Success ==> users == old(users) && targets == [] && postEffect == NoPostEffect
      ensures resp == Success ==>
        && suspendUntil.Some?
        && |targets| > 0 && targets[0] == userId && NoDuplicates(targets)
        && (forall id :: id in targets <==>
              id == userId || (otherUserIds.Some? && id in otherUserIds.value && id in old(users)))
        && users.Keys == old(users).Keys
        && (forall id :: id in users ==>
              users[id] == if id in targets then Suspended(old(users)[id], suspendUntil.value, now)
                           else old(users)[id])
        && postEffect == PostAction(post, postFound, canDeletePost)
    {
      targets, postEffect := [], NoPostEffect;
      if userId !in users {
        return NotFound, targets, postEffect;
      }
      if !canSuspend {
        return InvalidAccess, targets, postEffect;
      }
      if alreadySuspended {
        return Conflict, targets, postEffect;
      }
      if suspendUntil.None? || !Present(reason) {
        return ParameterMissing, targets, postEffect;
      }
      var all := PenaltyTargets(userId, otherUserIds, users.Keys);
      var i := 0;
      while i < |all|
        invariant 0 <= i <= |all|
        invariant users.Keys == old(users).Keys
        invariant forall id :: id in users ==>
          users[id] == if id in all[..i] then Suspended(old(users)[id], suspendUntil.value, now)
                       else old(users)[id]
      {
        var id := all[i];
        assert id !in all[..i];
        users := users[id := Suspended(users[id], suspendUntil.value, now)];
        assert all[..i + 1] == all[..i] + [id];
        i := i + 1;
      }
      assert all[..i] == all;
      targets := all;
      postEffect := PostAction(post, postFound, canDeletePost);
      resp := Success;
    }

    /** `silence`: refuses an unknown user, a refused guardian check and an
        already silenced user (409); otherwise hands every target to the
        silencer and performs the post action. */
    method Silence(
      userId: UserId, canSilence: bool, alreadySilenced: bool,
      otherUserIds: Option<seq<UserId>>,
      post: PostActionParams, postFound: bool, canDeletePost: bool)
      returns (resp: Response, targets: seq<UserId>, postEffect: PostEffect)
      ensures userId !in users ==> resp == NotFound
      ensures userId in users && !canSilence ==> resp == InvalidAccess
      ensures userId in users && canSilence && alreadySilenced ==> resp == Conflict
      ensures resp == Success <==> userId in users && canSilence && !alreadySilenced
      ensures resp != Success ==> targets == [] && postEffect == NoPostEffect
      ensures resp == Success ==>
        && |targets| > 0 && targets[0] == userId && NoDuplicates(targets)
        && (forall id :: id in targets <==>
              id == userId || (otherUserIds.Some? && id in otherUserIds.value && id in users))
        && postEffect == PostAction(post, postFound, canDeletePost)
    {
      targets, postEffect := [], NoPostEffect;
      if userId !in users {
        return NotFound, targets, postEffect;
      }
      if !canSilence {
        return InvalidAccess, targets, postEffect;
      }
      if alreadySilenced {
        return Conflict, targets, postEffect;
      }
      targets := PenaltyTargets(userId, otherUserIds, users.Keys);
      postEffect := PostAction(post, postFound, canDeletePost);
      resp := Success;
    }

    /** `unsuspend`: clears both suspension columns of the user. */
    method Unsuspend(userId: UserId, canSuspend: bool) returns (resp: Response)
      modifies this`users
      ensures resp == (if userId !in old(users) then NotFound else if !canSuspend then InvalidAccess else Success)
      ensures resp != Success ==> users == old(users)
      ensures resp == Success ==>
        && users == old(users)[userId := old(users)[userId].(suspendedTill := None, suspendedAt := None)]
        && users[userId].suspendedTill.None? && users[userId].suspendedAt.None?
    {
      if userId !in users {
        return NotFound;
      }
      if !canSuspend {
        return InvalidAccess;
      }
      users := users[userId := users[userId].(suspendedTill := None, suspendedAt := None)];
      resp := Success;
    }

    /** `trust_level`: sets the manual lock as `LockAfterTrustLevelChange`
        says, then always asks for the level change. A refused guardian check,
        or a refused level change (`changeRejected`), is answered with a JSON
        error; the lock stays set in the second case. */
    method TrustLevel(
      userId: UserId, canChange: bool, level: int,
      nextLevelMet: bool, tl3Lost: bool, changeRejected: bool)
      returns (resp: Response)
      modifies this`users, this`trustLevelChanges
      ensures userId !in old(users) ==> resp == NotFound
      ensures userId in old(users) && !canChange ==> resp == JsonError
      ensures !(userId in old(users) && canChange) ==>
        users == old(users) && trustLevelChanges == old(trustLevelChanges)
      ensures userId in old(users) && canChange ==>
        && resp == (if changeRejected then JsonError else Success)
        && users == old(users)[userId := old(users)[userId].(manualLockedTrustLevel :=
             LockAfterTrustLevelChange(old(users)[userId].manualLockedTrustLevel, level, nextLevelMet, tl3Lost))]
        && trustLevelChanges == old(trustLevelChanges) + [(userId, level)]
    {
      if userId !in users {
        return NotFound;
      }
      if !canChange {
        return JsonError;
      }
      var user := users[userId];
      if user.manualLockedTrustLevel.None? {
        if level in {0, 1, 2} && nextLevelMet {
          users := users[userId := user.(manualLockedTrustLevel := Some(level))];
        } else if level == 3 && tl3Lost {
          users := users[userId := user.(manualLockedTrustLevel := Some(level))];
        }
      }
      trustLevelChanges := trustLevelChanges + [(userId, level)];
      resp := if changeRejected then JsonError else Success;
    }

    /** `trust_level_lock`: a flag with neither "true" nor "false" in it is
        refused and nothing changes; otherwise the lock becomes the current
        trust level for exactly "true" and is cleared for anything else. */
    method TrustLevelLock(userId: UserId, canChange: bool, locked: string) returns (resp: Response)
      modifies this`users
      ensures resp == (
        if userId !in old(users) then NotFound
        else if !canChange then InvalidAccess
        else if ParseLockFlag(locked).None? then JsonError
        else Success)
      ensures resp != Success ==> users == old(users)
      ensures resp == Success ==>
        users == old(users)[userId := old(users)[userId].(manualLockedTrustLevel :=
          if locked == "true" then Some(old(users)[userId].trustLevel) else None)]
    {
      if userId !in users {
        return NotFound;
      }
      if !canChange {
        return InvalidAccess;
      }
      var flag := ParseLockFlag(locked);
      if flag.None? {
        return JsonError;
      }
      var user := users[userId];
      users := users[userId := user.(manualLockedTrustLevel := if flag.value then Some(user.trustLevel) else None)];
      resp := Success;
    }

    /** `disable_second_factor`: refused with InvalidParameters when the user
        has neither a second factor nor a security key; otherwise removes both. */
    method DisableSecondFactor(userId: UserId, canDisable: bool) returns (resp: Response)
      modifies this`users
      ensures resp == (
        if userId !in old(users) then NotFound
        else if !canDisable then InvalidAccess
        else if old(users)[userId].secondFactors == 0 && old(users)[userId].securityKeys == 0 then InvalidParameters
        else Success)
      ensures resp != Success ==> users == old(users)
      ensures resp == Success ==>
        users == old(users)[userId := old(users)[userId].(secondFactors := 0, securityKeys := 0)]
    {
      if userId !in users {
        return NotFound;
      }
      if !canDisable {
        return InvalidAccess;
      }
      var user := users[userId];
      if user.secondFactors == 0 && user.securityKeys == 0 {
        return InvalidParameters;
      }
      users := users[userId := user.(secondFactors := 0, securityKeys := 0)];
      resp := Success;
    }
  }
}
