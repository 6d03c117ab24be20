/** The member roster (src/components/MemberList.jsx): leaving, the creator
    and current-user tests, the controls they unlock and the statistics
    cards. The roster's `members` list holds member records; the group record
    supplies the creator and the cap. */
module MemberList {
  import opened Wrappers
  import opened Seqs
  import opened Identity
  import opened Groups
  import GroupCard

  datatype Member = Member(uid: string, email: string, displayName: string, joinedAt: int)

  /** `group?.createdByUid`: `undefined` before the group is loaded. */
  function CreatorUidOf(group: Option<Group>): (uid: Option<string>)
    ensures uid.Some? <==> group.Some?
    ensures group.Some? ==> uid.value == group.value.createdByUid
  {
    if group.Some? then Some(group.value.createdByUid) else None
  }

  /** `isCreator(uid)`: `group?.createdByUid === uid`, where either side may be
      `undefined` (and `undefined === undefined`). */
  predicate IsCreator(group: Option<Group>, uid: Option<string>) {
    CreatorUidOf(group) == uid
  }

  /** `isCurrentUser(uid)`: `user?.uid === uid`. */
  predicate IsCurrentUser(user: Option<User>, uid: string) {
    UidOf(user) == Some(uid)
  }

  /** With the group loaded, a uid is the creator's exactly when it equals
      `createdByUid`. */
  lemma IsCreatorIffCreatedBy(g: Group, uid: string)
    ensures IsCreator(Some(g), Some(uid)) <==> g.createdByUid == uid
  {
  }

  /** The Leave Group button on a member's row. */
  predicate ShowsLeaveButton(user: Option<User>, group: Option<Group>, m: Member) {
    IsCurrentUser(user, m.uid) && !IsCreator(group, Some(m.uid))
  }

  /** Leave is offered only on the signed-in user's own row and never to the
      group's creator. */
  lemma LeaveOfferedOnlyToNonCreatorSelf(user: Option<User>, group: Option<Group>, m: Member)
    ensures ShowsLeaveButton(user, group, m) <==>
              user.Some? && user.value.uid == m.uid && (group.None? || group.value.createdByUid != m.uid)
    ensures group.Some? && m.uid == group.value.createdByUid ==> !ShowsLeaveButton(user, group, m)
  {
  }

  /** The Group Settings button: `isCreator(user?.uid)`. */
  predicate ShowsSettings(user: Option<User>, group: Option<Group>) {
    IsCreator(group, UidOf(user))
  }

  /** Once the group is loaded, Settings appear exactly for its creator and
      never when nobody is signed in. */
  lemma SettingsOnlyForCreator(user: Option<User>, g: Group)
    ensures ShowsSettings(user, Some(g)) <==> user.Some? && user.value.uid == g.createdByUid
    ensures user.None? ==> !ShowsSettings(user, Some(g))
  {
  }

  /** `m => !isCreator(m.uid)`. */
  function NotCreator(group: Option<Group>): Member -> bool {
    (m: Member) => !IsCreator(group, Some(m.uid))
  }

  /** `members.filter(m => !isCreator(m.uid)).length`. */
  function StudentCount(group: Option<Group>, members: seq<Member>): (n: nat)
    ensures n <= |members|
  {
    |Filter(members, NotCreator(group))|
  }

  /** The creator's entries (for a loaded group). */
  function CreatorEntries(group: Option<Group>): Member -> bool {
    (m: Member) => IsCreator(group, Some(m.uid))
  }

  /** Students and creator entries make up the whole roster. */
  lemma StudentsPlusCreatorIsEveryone(group: Option<Group>, members: seq<Member>)
    ensures StudentCount(group, members) + |Filter(members, CreatorEntries(group))| == |members|
  {
    FilterSplitsLength(members, NotCreator(group));
    FilterAgrees(members, (m: Member) => !NotCreator(group)(m), CreatorEntries(group));
  }

  /** Member uids are distinct. */
  predicate DistinctUids(members: seq<Member>) {
    forall i, j :: 0 <= i < j < |members| ==> members[i].uid != members[j].uid
  }

  /** With distinct uids, exactly one entry belongs to a uid that occurs. */
  lemma {:induction false} OneEntryPerUid(members: seq<Member>, uid: string, p: Member -> bool)
    requires DistinctUids(members)
    requires exists i :: 0 <= i < |members| && members[i].uid == uid
    requires forall m :: p(m) <==> m.uid == uid
    ensures |Filter(members, p)| == 1
  {
    if members[0].uid == uid {
      NoEntryForAbsentUid(members[1..], uid, p);
    } else {
      var i :| 0 <= i < |members| && members[i].uid == uid;
      assert members[1..][i - 1].uid == uid;
      OneEntryPerUid(members[1..], uid, p);
    }
  }

  lemma {:induction false} NoEntryForAbsentUid(members: seq<Member>, uid: string, p: Member -> bool)
    requires forall i :: 0 <= i < |members| ==> members[i].uid != uid
    requires forall m :: p(m) <==> m.uid == uid
    ensures Filter(members, p) == []
  {
    if members != [] {
      NoEntryForAbsentUid(members[1..], uid, p);
    }
  }

  /** In a roster with distinct uids that includes the creator, every member
      but the creator is a student. */
  lemma StudentsAreAllButCreator(g: Group, members: seq<Member>)
    requires DistinctUids(members)
    requires exists i :: 0 <= i < |members| && members[i].uid == g.createdByUid
    ensures StudentCount(Some(g), members) == |members| - 1
  {
    StudentsPlusCreatorIsEveryone(Some(g), members);
    OneEntryPerUid(members, g.createdByUid, CreatorEntries(Some(g)));
  }

  /** The Available Spots card: a number, or ∞. */
  datatype Spots = Unlimited | Finite(count: int)

  /** `group?.maxMembers ? group.maxMembers - getMemberCount() : '∞'`, where
      `getMemberCount()` is `members.length`. */
  function AvailableSpots(group: Option<Group>, members: seq<Member>): (s: Spots)
    ensures s.Finite? <==> group.Some? && HasCap(group.value.maxMembers)
    ensures s.Finite? ==> s.count + |members| == group.value.maxMembers.value
  {
    if group.Some? && HasCap(group.value.maxMembers) then Finite(group.value.maxMembers.value - |members|)
    else Unlimited
  }

  /** The spots card and the group card agree: with as many roster entries as
      the group lists, no spot is left exactly when the card shows "Full". */
  lemma NoSpotsIffFull(g: Group, members: seq<Member>)
    requires g.members.Some? && |g.members.value| == |members|
    ensures GroupCard.IsFull(g) <==> AvailableSpots(Some(g), members).Finite? &&
                                     AvailableSpots(Some(g), members).count <= 0
  {
  }

  /** `member => member.uid !== user.uid`. */
  function KeepOtherUids(uid: string): Member -> bool {
    (m: Member) => m.uid != uid
  }

  /** `prev.filter(member => member.uid !== user.uid)`. */
  function RemoveUid(members: seq<Member>, uid: string): (r: seq<Member>)
    ensures |r| <= |members|
    ensures forall i :: 0 <= i < |r| ==> r[i].uid != uid
  {
    Filter(members, KeepOtherUids(uid))
  }

  /** Leaving removes every entry of the leaving uid and keeps every other
      member, in order and as often as before; a uid that is not on the roster
      leaves it unchanged. */
  lemma RemoveUidKeepsOthers(members: seq<Member>, uid: string)
    ensures IsSubsequence(RemoveUid(members, uid), members)
    ensures forall m: Member :: m.uid != uid ==> multiset(RemoveUid(members, uid))[m] == multiset(members)[m]
    ensures (forall i :: 0 <= i < |members| ==> members[i].uid != uid) ==> RemoveUid(members, uid) == members
  {
    FilterIsSubsequence(members, KeepOtherUids(uid));
    forall m: Member | m.uid != uid
      ensures multiset(RemoveUid(members, uid))[m] == multiset(members)[m]
    {
      FilterKeepsCount(members, KeepOtherUids(uid), m);
    }
    FilterKeepsAll(members, KeepOtherUids(uid));
  }

  /** After leaving, no row of the roster offers Leave to the one who left. */
  lemma NoLeaveButtonAfterLeaving(u: User, group: Option<Group>, members: seq<Member>)
    ensures forall i :: 0 <= i < |RemoveUid(members, u.uid)| ==>
              !ShowsLeaveButton(Some(u), group, RemoveUid(members, u.uid)[i])
  {
  }

  /** The roster's state. */
  class RosterView {
    var members: seq<Member>
    var user: Option<User>
    var group: Option<Group>

    constructor (user: Option<User>, group: Option<Group>, members: seq<Member>)
      ensures this.user == user && this.group == group && this.members == members
    {
      this.user := user;
      this.group := group;
      this.members := members;
    }

    /** `handleLeaveGroup`: with a user and a confirmed dialog the user's entries
        are removed; otherwise nothing changes. Like the source, the handler does
        not check for the creator: only the hidden button keeps the creator in. */
    method HandleLeaveGroup(confirmed: bool) returns (left: bool)
      modifies this
      ensures left <==> old(user).Some? && confirmed
      ensures members == if left then RemoveUid(old(members), old(user).value.uid) else old(members)
      ensures user == old(user) && group == old(group)
    {
      if user.None? {
        return false;
      }
      if confirmed {
        members := Filter(members, KeepOtherUids(user.value.uid));
        left := true;
      } else {
        left := false;
      }
    }
  }
}
