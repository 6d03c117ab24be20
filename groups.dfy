/** The study-group record as the components pass it around. Fields JavaScript
    may leave out (`tags`, `members`) are options; `maxMembers` is `None` for
    `null` (and for the `NaN` that `parseInt` gives on text without digits,
    which every component treats the same way). Timestamps are abstract
    integers. */
module Groups {
  import opened Wrappers

  datatype Group = Group(
    id: string,
    name: string,
    subject: string,
    description: string,
    maxMembers: Option<int>,
    schedule: string,
    tags: Option<seq<string>>,
    createdBy: string,
    createdByUid: string,
    createdAt: int,
    members: Option<seq<string>>)

  /** `group.maxMembers` is truthy: a cap is set and is not 0. */
  predicate HasCap(maxMembers: Option<int>) {
    maxMembers.Some? && maxMembers.value != 0
  }
}
