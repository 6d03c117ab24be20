/** The create-group dialog (src/components/CreateGroup.jsx): the form record,
    field edits, the two submit guards and the group record built from the form. */
module CreateGroup {
  import opened Wrappers
  import opened Seqs
  import opened Text
  import opened Groups
  import GroupCard

  /** The subjects the dialog's select offers. */
  const Subjects: seq<string> := [
    "Mathematics", "Physics", "Chemistry", "Biology",
    "Computer Science", "English", "History", "Literature"
  ]

  /** The identity the dialog writes as the creator of every group. */
  const CreatorEmail := "user@example.com"
  const CreatorUid := "user"

  datatype FieldName = Name | Subject | Description | MaxMembers | Schedule | Tags

  /** The `formData` state: every field holds the raw text of its input. */
  datatype FormData = FormData(
    name: string,
    subject: string,
    description: string,
    maxMembers: string,
    schedule: string,
    tags: string)

  const EmptyForm := FormData("", "", "", "", "", "")

  function FieldValue(f: FormData, k: FieldName): string {
    match k
    case Name => f.name
    case Subject => f.subject
    case Description => f.description
    case MaxMembers => f.maxMembers
    case Schedule => f.schedule
    case Tags => f.tags
  }

  /** `{...prev, [name]: value}`: the named field takes the new value and every
      other field keeps its old one. */
  function WithField(f: FormData, k: FieldName, v: string): (r: FormData)
    ensures FieldValue(r, k) == v
    ensures forall k' :: k' != k ==> FieldValue(r, k') == FieldValue(f, k')
  {
    match k
    case Name => f.(name := v)
    case Subject => f.(subject := v)
    case Description => f.(description := v)
    case MaxMembers => f.(maxMembers := v)
    case Schedule => f.(schedule := v)
    case Tags => f.(tags := v)
  }

  datatype SubmitError = NameRequired | SubjectRequired

  function ErrorText(e: SubmitError): string {
    match e
    case NameRequired => "Group name is required"
    case SubjectRequired => "Please select a subject"
  }

  function TrimAll(pieces: seq<string>): (r: seq<string>)
    ensures |r| == |pieces|
    ensures forall i :: 0 <= i < |r| ==> r[i] == Trim(pieces[i])
  {
    seq(|pieces|, i requires 0 <= i < |pieces| => Trim(pieces[i]))
  }

  /** `tag.length > 0`. */
  predicate NonEmpty(t: string) {
    t != []
  }

  /** `tags.split(",").map(tag => tag.trim()).filter(tag => tag.length > 0)`. */
  function ParseTags(text: string): (tags: seq<string>)
    ensures forall i :: 0 <= i < |tags| ==> NonEmpty(tags[i])
    ensures |tags| <= CommaCount(text) + 1
  {
    SplitCount(text);
    Filter(TrimAll(Split(text)), NonEmpty)
  }

  /** Every tag is non-empty and carries no surrounding whitespace. */
  lemma ParseTagsTrimmed(text: string)
    ensures forall i :: 0 <= i < |ParseTags(text)| ==> NonEmpty(ParseTags(text)[i]) && IsTrimmed(ParseTags(text)[i])
  {
    var trimmed := TrimAll(Split(text));
    var tags := ParseTags(text);
    forall i | 0 <= i < |tags| ensures IsTrimmed(tags[i]) {
      FilterMembers(trimmed, NonEmpty, tags[i]);
      var j :| 0 <= j < |trimmed| && trimmed[j] == tags[i];
    }
  }

  /** The tags are the non-blank trimmed pieces in input order, each as often as
      it occurs. */
  lemma ParseTagsInOrder(text: string)
    ensures IsSubsequence(ParseTags(text), TrimAll(Split(text)))
    ensures forall t :: NonEmpty(t) ==> multiset(ParseTags(text))[t] == multiset(TrimAll(Split(text)))[t]
  {
    FilterIsSubsequence(TrimAll(Split(text)), NonEmpty);
    forall t | NonEmpty(t) ensures multiset(ParseTags(text))[t] == multiset(TrimAll(Split(text)))[t] {
      FilterKeepsCount(TrimAll(Split(text)), NonEmpty, t);
    }
  }

  /** Every comma-separated piece that is not blank becomes a tag. */
  lemma ParseTagsKeepsEveryPiece(text: string, i: nat)
    requires i < |Split(text)|
    requires Trim(Split(text)[i]) != []
    ensures Trim(Split(text)[i]) in ParseTags(text)
  {
    var trimmed := TrimAll(Split(text));
    assert trimmed[i] in trimmed;
    FilterMembers(trimmed, NonEmpty, trimmed[i]);
  }

  /** Tags joined by commas parse back to themselves. */
  lemma ParseTagsOfJoined(tags: seq<string>)
    requires |tags| >= 1
    requires forall i :: 0 <= i < |tags| ==> NonEmpty(tags[i]) && IsTrimmed(tags[i]) && ',' !in tags[i]
    ensures ParseTags(Join(tags)) == tags
  {
    SplitJoin(tags);
    TrimAllOfTrimmed(tags);
    FilterKeepsAll(tags, NonEmpty);
  }

  lemma TrimAllOfTrimmed(tags: seq<string>)
    requires forall i :: 0 <= i < |tags| ==> IsTrimmed(tags[i])
    ensures TrimAll(tags) == tags
  {
    forall i | 0 <= i < |tags| ensures TrimAll(tags)[i] == tags[i] {
      TrimOfTrimmed(tags[i]);
    }
  }

  /** `formData.maxMembers ? parseInt(formData.maxMembers) : null`. */
  function ParseCap(text: string): (cap: Option<int>)
    ensures text == [] ==> cap.None?
  {
    if text == [] then None else ParseInt(text)
  }

  /** The decimal text of a number becomes that cap; an empty field is no cap. */
  lemma ParseCapOfNumber(n: nat)
    ensures ParseCap(NatToString(n)) == Some(n)
  {
    ParseIntOfNatToString(n, []);
    assert NatToString(n) + [] == NatToString(n);
  }

  /** The `groupData` record, built once both guards have passed. */
  function BuildGroup(form: FormData, id: string, now: int): (g: Group)
    ensures g.id == id && g.createdAt == now
    ensures g.name == Trim(form.name) && g.subject == form.subject
    ensures g.description == Trim(form.description) && g.schedule == Trim(form.schedule)
    ensures g.maxMembers == ParseCap(form.maxMembers)
    ensures g.tags == Some(ParseTags(form.tags))
    ensures g.createdBy == CreatorEmail && g.createdByUid == CreatorUid
    ensures g.members == Some([CreatorUid])
  {
    Group(id, Trim(form.name), form.subject, Trim(form.description), ParseCap(form.maxMembers),
          Trim(form.schedule), Some(ParseTags(form.tags)), CreatorEmail, CreatorUid, now, Some([CreatorUid]))
  }

  /** `handleSubmit` as a value: the name guard first, then the subject guard,
      then the group. */
  function Submit(form: FormData, id: string, now: int): (r: Result<Group, SubmitError>)
    ensures Trim(form.name) == [] ==> r == Err(NameRequired)
    ensures Trim(form.name) != [] && form.subject == [] ==> r == Err(SubjectRequired)
    ensures r.Ok? <==> Trim(form.name) != [] && form.subject != []
    ensures r.Ok? ==> r.value == BuildGroup(form, id, now)
  {
    if Trim(form.name) == [] then Err(NameRequired)
    else if form.subject == [] then Err(SubjectRequired)
    else Ok(BuildGroup(form, id, now))
  }

  /** A created group has exactly its creator as member: the creator is a
      member and the count shown on the card is 1. */
  lemma CreatedGroupHasOnlyCreator(form: FormData, id: string, now: int)
    requires Submit(form, id, now).Ok?
    ensures CreatorUid in Submit(form, id, now).value.members.value
    ensures GroupCard.MemberCount(Submit(form, id, now).value) == 1
  {
  }

  /** A created group's stored text fields are already trimmed, so trimming them
      again changes nothing. */
  lemma CreatedGroupFieldsTrimmed(form: FormData, id: string, now: int)
    requires Submit(form, id, now).Ok?
    ensures var g := Submit(form, id, now).value;
            g.name != [] && Trim(g.name) == g.name &&
            Trim(g.description) == g.description && Trim(g.schedule) == g.schedule
  {
    TrimIdempotent(form.name);
    TrimIdempotent(form.description);
    TrimIdempotent(form.schedule);
  }

  /** With the cap field left empty the new group is uncapped and so never full;
      with a cap of n it is full only when n is 1 (its one member reaches it). */
  lemma CreatedGroupCapacity(form: FormData, id: string, now: int)
    requires Submit(form, id, now).Ok?
    ensures form.maxMembers == [] ==> !GroupCard.IsFull(Submit(form, id, now).value)
    ensures forall n: nat :: form.maxMembers == NatToString(n) ==>
              (GroupCard.IsFull(Submit(form, id, now).value) <==> n == 1)
  {
    forall n: nat | form.maxMembers == NatToString(n)
      ensures GroupCard.IsFull(Submit(form, id, now).value) <==> n == 1
    {
      ParseCapOfNumber(n);
    }
  }

  /** The dialog's state: the form record, the `loading` flag and the error text. */
  class CreateGroupForm {
    var formData: FormData
    var loading: bool
    var error: string

    constructor ()
      ensures formData == EmptyForm && !loading && error == ""
    {
      formData := EmptyForm;
      loading := false;
      error := "";
    }

    /** `handleInputChange`: one field of the form takes the input's value. */
    method HandleInputChange(k: FieldName, v: string)
      modifies this
      ensures formData == WithField(old(formData), k, v)
      ensures loading == old(loading) && error == old(error)
    {
      formData := WithField(formData, k, v);
    }

    /** `handleSubmit`: a failed guard sets its message and returns early; past
        the guards the error is cleared and the group built (and handed to
        `onGroupCreated` by the timer, see `FinishCreate`). */
    method HandleSubmit(id: string, now: int) returns (created: Option<Group>)
      modifies this
      ensures formData == old(formData)
      ensures Submit(old(formData), id, now).Err? ==>
                created.None? && error == ErrorText(Submit(old(formData), id, now).error) &&
                loading == old(loading)
      ensures Submit(old(formData), id, now).Ok? ==>
                created == Some(Submit(old(formData), id, now).value) && error == "" && !loading
    {
      var name := Trim(formData.name);
      if name == [] {
        error := ErrorText(NameRequired);
        return None;
      }
      if formData.subject == [] {
        error := ErrorText(SubjectRequired);
        return None;
      }
      loading := true;
      error := "";
      var tagsArray := ParseTags(formData.tags);
      var groupData := Group(id, name, formData.subject, Trim(formData.description),
                             ParseCap(formData.maxMembers), Trim(formData.schedule), Some(tagsArray),
                             CreatorEmail, CreatorUid, now, Some([CreatorUid]));
      created := Some(groupData);
      loading := false;
    }

    /** The one-second timer after a successful submit: the form is reset. */
    method FinishCreate()
      modifies this
      ensures formData == EmptyForm
      ensures loading == old(loading) && error == old(error)
    {
      formData := EmptyForm;
    }
  }
}
