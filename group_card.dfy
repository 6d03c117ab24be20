/** The rules of the group card (src/components/GroupCard.jsx): member count,
    the Full / Join / Leave button, the tag badges and the subject colour. */
module GroupCard {
  import opened Wrappers
  import opened Groups

  /** `group.members ? group.members.length : 0`. */
  function MemberCount(g: Group): (n: nat)
    ensures g.members.None? ==> n == 0
    ensures g.members.Some? ==> n == |g.members.value|
  {
    if g.members.Some? then |g.members.value| else 0
  }

  /** `group.maxMembers && getMemberCount() >= group.maxMembers`. */
  predicate IsFull(g: Group) {
    HasCap(g.maxMembers) && MemberCount(g) >= g.maxMembers.value
  }

  /** A missing or zero cap never makes a group full; a negative cap, which
      every count exceeds, always does. */
  lemma FullOnDegenerateCaps(g: Group)
    ensures g.maxMembers.None? || g.maxMembers == Some(0) ==> !IsFull(g)
    ensures g.maxMembers.Some? && g.maxMembers.value < 0 ==> IsFull(g)
  {
  }

  /** Room is left in a group that is not full: one more member stays within a
      positive cap. */
  lemma NotFullHasRoom(g: Group)
    requires !IsFull(g)
    requires g.maxMembers.Some? && g.maxMembers.value > 0
    ensures MemberCount(g) + 1 <= g.maxMembers.value
  {
  }

  /** More members never turn a full group back into one with room. */
  lemma FullIsMonotone(g: Group, more: seq<string>)
    requires IsFull(g)
    ensures IsFull(g.(members := Some(g.members.GetOr([]) + more)))
  {
  }

  /** The button in the card's corner. */
  datatype CardButton = LeaveButton | JoinButton(disabled: bool, caption: string)

  /** A member is offered Leave; anyone else is offered Join, disabled and
      captioned "Full" when the group is full. */
  function Button(g: Group, isMember: bool): (b: CardButton)
    ensures b.LeaveButton? <==> isMember
    ensures b.JoinButton? ==> (b.disabled <==> IsFull(g))
    ensures b.JoinButton? ==> (b.caption == "Full" <==> b.disabled)
    ensures b.JoinButton? ==> b.caption == "Full" || b.caption == "Join"
  {
    if isMember then LeaveButton
    else JoinButton(IsFull(g), if IsFull(g) then "Full" else "Join")
  }

  /** What a click on the card's button hands to the parent: `onJoin(group.id)`
      or `onLeave(group.id)`, each only when that callback was supplied
      (`onJoin && onJoin(group.id)`), and nothing for a disabled button. */
  datatype Request = JoinRequest(groupId: string) | LeaveRequest(groupId: string)

  function Click(g: Group, isMember: bool, hasOnJoin: bool, hasOnLeave: bool): (r: Option<Request>)
    ensures r.Some? ==> r.value.groupId == g.id
    ensures r.Some? && r.value.JoinRequest? <==> !isMember && !IsFull(g) && hasOnJoin
    ensures r.Some? && r.value.LeaveRequest? <==> isMember && hasOnLeave
  {
    match Button(g, isMember)
    case LeaveButton => if hasOnLeave then Some(LeaveRequest(g.id)) else None
    case JoinButton(disabled, _) =>
      if !disabled && hasOnJoin then Some(JoinRequest(g.id)) else None
  }

  /** A full group never receives a join request, and a member never sends one. */
  lemma NoJoinWhenFullOrMember(g: Group, isMember: bool, hasOnJoin: bool, hasOnLeave: bool)
    requires IsFull(g) || isMember
    ensures Click(g, isMember, hasOnJoin, hasOnLeave).None? ||
            Click(g, isMember, hasOnJoin, hasOnLeave).value.LeaveRequest?
  {
  }

  /** The tag badges: at most the first two tags, and a "+n" badge counting the rest. */
  datatype TagBadges = TagBadges(shown: seq<string>, more: Option<nat>)

  function Badges(tags: Option<seq<string>>): (b: TagBadges)
    ensures |b.shown| <= 2
    ensures tags.None? ==> b.shown == [] && b.more.None?
    ensures tags.Some? ==> |b.shown| == if |tags.value| < 2 then |tags.value| else 2
    ensures tags.Some? ==> b.shown == tags.value[..|b.shown|]
    ensures b.more.Some? <==> tags.Some? && |tags.value| > 2
    ensures b.more.Some? ==> b.more.value == |tags.value| - 2
  {
    if tags.None? || |tags.value| == 0 then TagBadges([], None)
    else
      var ts := tags.value;
      TagBadges(if |ts| < 2 then ts else ts[..2], if |ts| > 2 then Some(|ts| - 2) else None)
  }

  /** No tag is lost from view: the shown tags plus the "+n" count are all of them. */
  lemma BadgesAccountForAllTags(tags: seq<string>)
    ensures |Badges(Some(tags)).shown| + Badges(Some(tags)).more.GetOr(0) == |tags|
  {
  }

  const DefaultColor := "bg-gray-500"

  /** The `colors` table of `getSubjectColor`. */
  const SubjectColors: map<string, string> := map[
    "Mathematics" := "bg-blue-500",
    "Physics" := "bg-purple-500",
    "Chemistry" := "bg-green-500",
    "Biology" := "bg-red-500",
    "Computer Science" := "bg-indigo-500",
    "English" := "bg-yellow-500",
    "History" := "bg-orange-500",
    "Literature" := "bg-pink-500"
  ]

  /** `colors[subject] || 'bg-gray-500'`. */
  function SubjectColor(subject: string): (c: string)
    ensures subject !in SubjectColors ==> c == DefaultColor
  {
    if subject in SubjectColors then SubjectColors[subject] else DefaultColor
  }

  /** The eight listed subjects get eight different colours, none of them the
      default; every other subject gets the default. */
  lemma SubjectColorsDistinct(a: string, b: string)
    ensures a in SubjectColors ==> SubjectColor(a) != DefaultColor
    ensures a in SubjectColors && b in SubjectColors && a != b ==> SubjectColor(a) != SubjectColor(b)
    ensures a !in SubjectColors ==> SubjectColor(a) == DefaultColor
  {
  }
}
