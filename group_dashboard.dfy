/** The group page header (src/components/GroupDashboard.jsx): the membership
    test, the member count, the Join button and the page's own copy of the
    subject colour table. `group` is `None` while the page has no group. */
module GroupDashboard {
  import opened Wrappers
  import opened Identity
  import opened Groups
  import GroupCard
  import CreateGroup

  /** `user && group?.members?.includes(user.uid) || false`. */
  predicate IsMember(user: Option<User>, group: Option<Group>) {
    user.Some? && group.Some? && group.value.members.Some? && user.value.uid in group.value.members.value
  }

  /** Membership needs a user, a group and a member list, and then means the
      user's uid is on that list. */
  lemma IsMemberIffListed(user: Option<User>, group: Option<Group>)
    ensures user.None? || group.None? || group.value.members.None? ==> !IsMember(user, group)
    ensures user.Some? && group.Some? && group.value.members.Some? ==>
              (IsMember(user, group) <==>
               exists i :: 0 <= i < |group.value.members.value| && group.value.members.value[i] == user.value.uid)
  {
  }

  /** `group?.members?.length || 0`. */
  function MemberCount(group: Option<Group>): (n: nat)
    ensures group.None? || group.value.members.None? ==> n == 0
    ensures group.Some? && group.value.members.Some? ==> n == |group.value.members.value|
  {
    if group.Some? && group.value.members.Some? then |group.value.members.value| else 0
  }

  /** The page and the group card count a loaded group's members alike. */
  lemma MemberCountAgreesWithCard(g: Group)
    ensures MemberCount(Some(g)) == GroupCard.MemberCount(g)
  {
  }

  /** A member is counted: the count of a group with a member is at least one. */
  lemma MemberIsCounted(user: Option<User>, group: Option<Group>)
    requires IsMember(user, group)
    ensures MemberCount(group) >= 1
  {
  }

  /** The Join Group button: `!isMember() && <button>` inside the page header,
      which is rendered only once a group is loaded (otherwise the page shows
      "Group Not Found"). */
  predicate ShowsJoinButton(user: Option<User>, group: Option<Group>) {
    group.Some? && !IsMember(user, group)
  }

  /** Join is never offered without a group. For a loaded group it is offered
      when no user is signed in or the group has no member list, and otherwise
      exactly when the user's uid is not on the list. */
  lemma JoinOfferedToNonMembers(user: Option<User>, group: Option<Group>)
    ensures group.None? ==> !ShowsJoinButton(user, group)
    ensures group.Some? && (user.None? || group.value.members.None?) ==> ShowsJoinButton(user, group)
    ensures user.Some? && group.Some? && group.value.members.Some? && user.value.uid !in group.value.members.value ==>
              ShowsJoinButton(user, group)
    ensures user.Some? && group.Some? && group.value.members.Some? && user.value.uid in group.value.members.value ==>
              !ShowsJoinButton(user, group)
  {
  }

  const DefaultColor := "bg-gray-500"

  /** The page's own `colors` table. */
  const SubjectColors: map<string, string> := map[
    "Mathematics" := "bg-blue-500",
    "Physics" := "bg-purple-500",
    "Chemistry" := "bg-green-500",
    "Biology" := "bg-red-500",
    "Computer Science" := "bg-indigo-500",
    "English" := "bg-yellow-500",
    "History" := "bg-orange-500",
    "Literature" := "bg-pink-500"
  ]

  /** `colors[subject] || 'bg-gray-500'`. */
  function SubjectColor(subject: string): (c: string)
    ensures subject !in SubjectColors ==> c == DefaultColor
  {
    if subject in SubjectColors then SubjectColors[subject] else DefaultColor
  }

  /** The page's colour lookup and the card's give the same class for every
      subject, with the same default. */
  lemma SubjectColorAgreesWithCard(subject: string)
    ensures SubjectColor(subject) == GroupCard.SubjectColor(subject)
    ensures DefaultColor == GroupCard.DefaultColor
  {
    assert SubjectColors == GroupCard.SubjectColors;
  }

  /** Every subject the create form offers has its own colour. */
  lemma FormSubjectsAreColoured(i: nat)
    requires i < |CreateGroup.Subjects|
    ensures SubjectColor(CreateGroup.Subjects[i]) != DefaultColor
  {
  }

  /** A freshly created group is shown with one member, its creator, and the
      `uid` the form records is a member of it. */
  lemma CreatedGroupMembership(form: CreateGroup.FormData, id: string, now: int, u: User)
    requires CreateGroup.Submit(form, id, now).Ok?
    requires u.uid == CreateGroup.CreatorUid
    ensures var g := CreateGroup.Submit(form, id, now).value;
            MemberCount(Some(g)) == 1 && IsMember(Some(u), Some(g)) && !ShowsJoinButton(Some(u), Some(g))
  {
    CreateGroup.CreatedGroupHasOnlyCreator(form, id, now);
  }
}
