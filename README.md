# Study group organizer — component rules in Dafny

This project models the rules of the study group organizer's React components.
These are what the code actually decides:

- **Create Group dialog** (`CreateGroup.jsx`): field updates, the two validation guards in their order, the tag-parsing pipeline (`split(",")`, `trim`, drop empty), the `maxMembers` conversion and the new group record.
- **Group chat** (`Chat.jsx`): sending a trimmed message, the own-message test, date separators and the message-count label.
- **Upload panel** (`UploadFile.jsx`): the 10 MiB size check, the simulated progress bar, the new resource record put in front of the list, deleting by id, the delete permission and the file-type icon.
- **Member roster** (`MemberList.jsx`): leaving the group, the creator and current-user tests, the Leave and Settings controls, and the student and available-spot counts.
- **Group card** (`GroupCard.jsx`): member count, the Full/Join/Leave button, tag badges and the subject colour.
- **Group page header** (`GroupDashboard.jsx`): membership, member count, the Join button and the page's own subject colour table.

The layout follows the source:

- Component state that handlers change becomes a class whose methods have `modifies` and `old(...)` contracts: `CreateGroupForm`, `ChatView`, `UploadPanel` and `RosterView`.
- Expressions become functions and lemmas.
- The JavaScript built-ins the rules rely on are modelled once, in `common.dfy`: `trim`, `split(",")`, `includes`, `parseInt`, number printing and `Array.prototype.filter`. `Text.Join` is not called by any component. It is a proof helper that states the round trip of `split(",")`.

The source has no synchronisation engine: no live subscriptions, optimistic queue, reconciliation or sessions. Nothing of that kind is modelled. Where the code's documented intent and the code differ, the model follows the code:

- The progress updater is `prev >= 90 ? 90 : prev + 10` (`UploadFile.ProgressStep`). It is not a `min`. `UploadFile.StepOnGrid` shows the two agree on the values the bar actually takes.
- `handleDelete` does not check that the requester uploaded the file. Only the hidden Delete button enforces that (`UploadFile.CanDelete`).
- `handleLeaveGroup` does not refuse the creator. Only the hidden Leave button keeps the creator in (`MemberList.LeaveOfferedOnlyToNonCreatorSelf`).
- No error is reported for these cases, because the handlers raise none.

Inputs that the components read from the environment become parameters:

- the signed-in user, stored in local storage;
- ids and timestamps from `Date.now()`;
- the answer to `window.confirm`;
- the blob URL;
- the number of progress-timer firings;
- the day a timestamp falls on. `formatDate` becomes an abstract `dayKey` function.

## Model

| member | source | states |
|---|---|---|
| Seqs.Filter | src/components/CreateGroup.jsx:55 | `filter` keeps only elements that pass and never lengthens the list |
| Seqs.FilterIsSubsequence | src/components/MemberList.jsx:73 | the kept elements stay in their original order |
| Seqs.FilterKeepsCount | src/components/UploadFile.jsx:135 | every passing element keeps its number of occurrences |
| Seqs.FilterKeepsAll | src/components/CreateGroup.jsx:55 | filtering leaves the list unchanged exactly when every element passes |
| Seqs.FilterMembers | src/components/CreateGroup.jsx:55 | an element is kept exactly when it is in the list and passes |
| Seqs.FilterSplitsLength | src/components/MemberList.jsx:199 | what passes and what fails add up to the whole list |
| Seqs.FilterAgrees | src/components/MemberList.jsx:199 | two tests that agree on every element keep the same elements |
| Text.TrimStart | src/components/CreateGroup.jsx:38 | the result does not start with whitespace |
| Text.TrimStartSplits | src/components/CreateGroup.jsx:38 | `TrimStart` drops exactly a whitespace prefix |
| Text.TrimStartOfBlank | src/components/CreateGroup.jsx:38 | all-whitespace text loses everything |
| Text.TrimStartOfBlankThen | src/components/CreateGroup.jsx:62 | leading whitespace in front of text that does not start with whitespace is exactly what is skipped |
| Text.TrimEnd | src/components/CreateGroup.jsx:38 | the result does not end with whitespace and starts where the input does |
| Text.TrimEndSplits | src/components/CreateGroup.jsx:38 | `TrimEnd` drops exactly a whitespace suffix |
| Text.Trim | src/components/CreateGroup.jsx:38 | `trim` gives text that neither starts nor ends with whitespace |
| Text.TrimIsInfix | src/components/CreateGroup.jsx:59 | the trimmed text is the infix of the input between a whitespace prefix and a whitespace suffix |
| Text.TrimEmptyIffBlank | src/components/Chat.jsx:68 | trimmed text is empty exactly when the input is all whitespace |
| Text.TrimOfTrimmed | src/components/CreateGroup.jsx:54 | text without surrounding whitespace is left unchanged by `trim` |
| Text.TrimIdempotent | src/components/CreateGroup.jsx:59-63 | trimming twice is the same as trimming once |
| Text.Split | src/components/CreateGroup.jsx:53 | `split(",")` gives at least one piece and no piece contains a comma |
| Text.SplitCount | src/components/CreateGroup.jsx:53 | there is one piece more than there are commas |
| Text.JoinSplit | src/components/CreateGroup.jsx:53 | joining the pieces with commas gives back the text |
| Text.SplitJoin | src/components/CreateGroup.jsx:53 | splitting comma-free pieces joined by commas gives back the pieces |
| Text.SplitOfCommaFree | src/components/CreateGroup.jsx:53 | comma-free text is one piece |
| Text.SplitAtComma | src/components/CreateGroup.jsx:53 | a comma-free head before a comma is the first piece |
| Text.Includes | src/components/UploadFile.jsx:152 | decides `type.includes(sub)` by scanning each start position; `Text.IncludesIffOccurs` states that it holds exactly when `sub` occurs somewhere |
| Text.IncludesIffOccurs | src/components/UploadFile.jsx:151-159 | the `includes` scan succeeds exactly when the substring occurs at some position |
| Text.DigitChar | src/components/Chat.jsx:131 | a digit value becomes the digit character of that value |
| Text.NatToString | src/components/Chat.jsx:131 | a number prints as a non-empty digit string with no leading zero (except for 0) |
| Text.LeadingDigits | src/components/CreateGroup.jsx:62 | the longest digit prefix `parseInt` reads |
| Text.ParseInt | src/components/CreateGroup.jsx:62 | decides `parseInt(text)`: leading whitespace skipped, an optional sign, the longest digit prefix, `None` for `NaN`; `Text.ParseIntOfNatToString`, `Text.ParseIntOfNegative` and `Text.ParseIntNoDigits` state its results |
| Text.DigitsValueOfNatToString | src/components/Chat.jsx:131 | the printed digits denote the number |
| Text.LeadingDigitsOfDigitsThen | src/components/CreateGroup.jsx:62 | digit reading stops at the first non-digit |
| Text.ParseIntOfNatToString | src/components/CreateGroup.jsx:62 | `parseInt` reads back a printed number, whatever non-digit text follows |
| Text.ParseIntOfNegative | src/components/CreateGroup.jsx:62 | `parseInt` reads back a negative number written with a minus sign |
| Text.ParseIntNoDigits | src/components/CreateGroup.jsx:62 | all-whitespace text gives `NaN` (no number) |
| Text.ParseIntWithoutDigits | src/components/CreateGroup.jsx:62 | text whose first character after the leading whitespace and an optional sign is not a digit gives `NaN` |
| Identity.SenderLabel | src/components/Chat.jsx:76 | `displayName \|\| email`: the display name when non-empty, else the e-mail |
| Identity.UidOf | src/components/Chat.jsx:113 | `user?.uid`: the uid exactly when a user is signed in |
| Groups.HasCap | src/components/GroupCard.jsx:105 | decides whether `group.maxMembers` is truthy: set and non-zero; `MemberList.AvailableSpots` and `GroupCard.FullOnDegenerateCaps` state what follows from it |
| GroupCard.MemberCount | src/components/GroupCard.jsx:22-24 | the list length, or 0 when the list is missing |
| GroupCard.IsFull | src/components/GroupCard.jsx:105-107 | decides `group.maxMembers && getMemberCount() >= group.maxMembers`; `GroupCard.FullOnDegenerateCaps`, `GroupCard.NotFullHasRoom` and `GroupCard.FullIsMonotone` state its properties |
| GroupCard.FullOnDegenerateCaps | src/components/GroupCard.jsx:105-107 | a missing or zero cap is never full; a negative cap is always full |
| GroupCard.NotFullHasRoom | src/components/GroupCard.jsx:105 | a group that is not full has room for one more under a positive cap |
| GroupCard.FullIsMonotone | src/components/GroupCard.jsx:105 | adding members never makes a full group not full |
| GroupCard.Button | src/components/GroupCard.jsx:94-109 | members get Leave; others get Join, disabled and captioned "Full" exactly when the group is full |
| GroupCard.Click | src/components/GroupCard.jsx:4-20 | a click requests a join only for a non-member of a non-full group with `onJoin` supplied, and a leave only for a member with `onLeave` supplied, always with the group's id |
| GroupCard.NoJoinWhenFullOrMember | src/components/GroupCard.jsx:4-11 | a full group or a member never produces a join request |
| GroupCard.Badges | src/components/GroupCard.jsx:79-90 | at most the first two tags are shown, with a "+n" badge for n = length − 2 exactly when there are more than two |
| GroupCard.BadgesAccountForAllTags | src/components/GroupCard.jsx:79-88 | the shown tags plus the "+n" count are all the tags |
| GroupCard.SubjectColor | src/components/GroupCard.jsx:26-38 | an unlisted subject gets `bg-gray-500` |
| GroupCard.SubjectColorsDistinct | src/components/GroupCard.jsx:26-38 | the eight listed subjects get eight different non-default colours; every other subject gets the default |
| CreateGroup.WithField | src/components/CreateGroup.jsx:27-33 | the named field takes the new value and every other field keeps its old one |
| CreateGroup.ErrorText | src/components/CreateGroup.jsx:38-46 | the message each failed guard shows: "Group name is required" for the name, "Please select a subject" for the subject; `CreateGroup.CreateGroupForm.HandleSubmit` states which one is set when |
| CreateGroup.CreateGroupForm.constructor | src/components/CreateGroup.jsx:5-14 | the dialog starts with an empty form, not loading, with no error |
| CreateGroup.CreateGroupForm.HandleInputChange | src/components/CreateGroup.jsx:27-33 | the form becomes the old form with only the named field changed; loading and error are unchanged |
| CreateGroup.TrimAll | src/components/CreateGroup.jsx:54 | `map(tag => tag.trim())`: the same number of pieces, each one trimmed in place |
| CreateGroup.TrimAllOfTrimmed | src/components/CreateGroup.jsx:54 | trimming already-trimmed pieces changes nothing |
| CreateGroup.ParseTags | src/components/CreateGroup.jsx:52-55 | every tag is non-empty, and there are at most as many tags as commas + 1 |
| CreateGroup.ParseTagsTrimmed | src/components/CreateGroup.jsx:52-55 | every tag is non-empty and has no leading or trailing whitespace |
| CreateGroup.ParseTagsInOrder | src/components/CreateGroup.jsx:52-55 | the tags are the non-blank trimmed pieces in input order, each as often as it occurs |
| CreateGroup.ParseTagsKeepsEveryPiece | src/components/CreateGroup.jsx:52-55 | every piece that is not blank becomes a tag |
| CreateGroup.ParseTagsOfJoined | src/components/CreateGroup.jsx:52-55 | non-empty, trimmed, comma-free tags joined by commas parse back to themselves |
| CreateGroup.ParseCap | src/components/CreateGroup.jsx:62 | an empty cap field gives `null` (no cap) |
| CreateGroup.ParseCapOfNumber | src/components/CreateGroup.jsx:62 | the decimal text of n gives the cap n |
| CreateGroup.BuildGroup | src/components/CreateGroup.jsx:57-69 | the record holds the trimmed name, description and schedule, the parsed cap and tags, the fixed creator, and members `["user"]` |
| CreateGroup.Submit | src/components/CreateGroup.jsx:35-69 | a name that is blank after trimming fails with NameRequired; otherwise an empty subject fails with SubjectRequired; a group is produced exactly when both pass |
| CreateGroup.CreateGroupForm.HandleSubmit | src/components/CreateGroup.jsx:35-69 | a failing guard sets its message ("Group name is required" / "Please select a subject") and produces nothing; otherwise the error is cleared and the group is produced |
| CreateGroup.CreateGroupForm.FinishCreate | src/components/CreateGroup.jsx:75-83 | the form is reset to empty |
| CreateGroup.CreatedGroupHasOnlyCreator | src/components/CreateGroup.jsx:66-68 | the creator is a member of a new group and its member count is 1 |
| CreateGroup.CreatedGroupFieldsTrimmed | src/components/CreateGroup.jsx:59-63 | a new group's name is non-empty, and its name, description and schedule are already trimmed |
| CreateGroup.CreatedGroupCapacity | src/components/CreateGroup.jsx:62-68 | with an empty cap field the new group is never full; with cap n it is full exactly when n = 1 |
| Chat.NewMessage | src/components/Chat.jsx:73-79 | the message carries the text, the sender's uid and label, the id and the time |
| Chat.IsOwnMessage | src/components/Chat.jsx:112-114 | decides `msg.senderUid === user?.uid`; `Chat.OwnMessageIffSender` states its meaning |
| Chat.OwnMessageIffSender | src/components/Chat.jsx:112-114 | a message is one's own exactly when its sender is the signed-in user; nothing is own without a user; a user's sent message is their own |
| Chat.SenderCaption | src/components/Chat.jsx:163-167 | other people's messages show `senderName \|\| 'Unknown'`; own messages show none |
| Chat.ShowDate | src/components/Chat.jsx:145 | decides whether a message gets a date separator: the first message, or one whose day differs from the previous one's; `Chat.HeaderShowsOwnDay` and `Chat.AppendKeepsSeparators` state its properties |
| Chat.HeaderIndex | src/components/Chat.jsx:145 | the nearest separator at or before a message, with none between it and the message |
| Chat.HeaderShowsOwnDay | src/components/Chat.jsx:144-155 | the date heading above every message is that message's own day |
| Chat.AppendKeepsSeparators | src/components/Chat.jsx:145 | appending keeps every earlier separator; the new message gets one exactly when it starts a new day |
| Chat.CountLabel | src/components/Chat.jsx:131 | the `n message{n !== 1 ? 's' : ''}` caption; `Chat.CountLabelMeaning` states its meaning |
| Chat.CountLabelMeaning | src/components/Chat.jsx:131 | the label is plural exactly when the count is not 1, and it starts with the count |
| Chat.ChatView.constructor | src/components/Chat.jsx:4-8 | the chat starts empty with an empty input, not sending |
| Chat.ChatView.SetNewMessage | src/components/Chat.jsx:189 | the input takes the typed value and nothing else changes |
| Chat.ChatView.HandleSend | src/components/Chat.jsx:66-90 | a send happens exactly when the trimmed input is non-empty and a user is signed in; then the trimmed text is appended as that user's message and the input is cleared; otherwise nothing changes |
| Chat.SentMessageAppended | src/components/Chat.jsx:82 | a send adds one message at the end, earlier messages keep their places, and the new one is the sender's own, non-empty and trimmed |
| Chat.SendEnabled | src/components/Chat.jsx:196 | decides whether the Send button is enabled: non-blank trimmed input and no send in progress; `Chat.SendButtonMatchesHandler` ties it to the handler |
| Chat.SendButtonMatchesHandler | src/components/Chat.jsx:196 | an enabled Send button with a user signed in makes `HandleSend` send; blank input or a send in progress disables it; non-blank input enables it when idle |
| UploadFile.SizeCeiling | src/components/UploadFile.jsx:64-68 | exactly 10485760 bytes is accepted and anything larger is refused |
| UploadFile.SizeAllowed | src/components/UploadFile.jsx:65 | decides `!(file.size > 10 * 1024 * 1024)`; `UploadFile.SizeCeiling` states the exact bound |
| UploadFile.ProgressFromZero | src/components/UploadFile.jsx:81-89 | from 0 the bar shows min(10·ticks, 90), always a multiple of 10 between 0 and 90 |
| UploadFile.StepOnGrid | src/components/UploadFile.jsx:82-88 | on multiples of 10 up to 90 the updater is the capped increment min(prev + 10, 90) |
| UploadFile.ProgressStep | src/components/UploadFile.jsx:82-88 | one firing of the updater: 90 from 90 or more, else ten more |
| UploadFile.ProgressAfter | src/components/UploadFile.jsx:81-89 | the bar after a number of firings; `UploadFile.ProgressFromZero` states its values from 0 |
| UploadFile.NewResource | src/components/UploadFile.jsx:98-108 | the record carries the file's name, size and type and the uploader's uid and label |
| UploadFile.CanDelete | src/components/UploadFile.jsx:161-163 | decides `resource.uploadedBy === user?.uid`; `UploadFile.CanDeleteIffUploader` states its meaning |
| UploadFile.CanDeleteIffUploader | src/components/UploadFile.jsx:161-163 | Delete is offered exactly to the uploader, never without a user, and always on one's own upload |
| UploadFile.RemoveById | src/components/UploadFile.jsx:135 | no resource with the deleted id remains |
| UploadFile.RemoveByIdKeepsOthers | src/components/UploadFile.jsx:135 | the other resources stay, in order, each as often as before; an id not in the list changes nothing |
| UploadFile.GetFileIcon | src/components/UploadFile.jsx:151-159 | picks the icon by the first keyword test that succeeds; `UploadFile.FileIconFirstMatch` states each icon's condition |
| UploadFile.FileIconFirstMatch | src/components/UploadFile.jsx:151-159 | each icon is chosen exactly when its keyword occurs and no earlier keyword does; the folder icon is chosen when none occurs |
| UploadFile.UploadPanel.constructor | src/components/UploadFile.jsx:4-8 | no file, not loading, progress 0 |
| UploadFile.UploadPanel.HandleFileSelect | src/components/UploadFile.jsx:61-71 | an oversize file raises the alert and leaves the selection alone; an allowed file becomes the selection; no file changes nothing |
| UploadFile.UploadPanel.ClearSelection | src/components/UploadFile.jsx:196 | the selection is cleared and nothing else changes |
| UploadFile.UploadPanel.ProgressTick | src/components/UploadFile.jsx:82-88 | one firing applies the updater and stops the timer at 90 or more |
| UploadFile.UploadPanel.StartUpload | src/components/UploadFile.jsx:73-92 | an upload starts exactly when a file is selected and a user is signed in; then loading is on, the bar is 0, the timer runs and the file and user are captured, with the selection left as it is; otherwise nothing changes |
| UploadFile.UploadPanel.FinishUpload | src/components/UploadFile.jsx:92-126 | after the wait the resource built from the captured file and user is put first, the selection is cleared whatever was picked meanwhile, the bar ends at 100 after the last value shown, and loading and the timer stop |
| UploadFile.UploadPanel.HandleUpload | src/components/UploadFile.jsx:73-127 | with no other event during the wait: an upload happens exactly when a file is selected and a user is signed in. Then the new resource is put first, the selection is cleared, the bar ends at 100 and the last value shown before that is the timer's capped progress. Otherwise nothing changes |
| UploadFile.UploadPanel.ResetProgress | src/components/UploadFile.jsx:119 | the bar returns to 0 |
| UploadFile.UploadPanel.HandleDelete | src/components/UploadFile.jsx:129-141 | with a user and a confirmed dialog every resource with the id is removed; otherwise nothing changes |
| UploadFile.UploadEnabled | src/components/UploadFile.jsx:224 | decides whether the Upload button is enabled: a file is selected and no upload runs; `UploadFile.UploadButtonMatchesHandler` ties it to the handler |
| UploadFile.UploadButtonMatchesHandler | src/components/UploadFile.jsx:224 | an enabled Upload button with a user signed in makes `HandleUpload` upload; without a file or during an upload it is disabled |
| MemberList.CreatorUidOf | src/components/MemberList.jsx:90 | `group?.createdByUid`: the creator's uid exactly when the group is loaded |
| MemberList.IsCreator | src/components/MemberList.jsx:89-91 | decides `group?.createdByUid === uid`; `MemberList.IsCreatorIffCreatedBy` states its meaning for a loaded group |
| MemberList.IsCurrentUser | src/components/MemberList.jsx:93-95 | decides `user?.uid === uid`; `MemberList.LeaveOfferedOnlyToNonCreatorSelf` states what it contributes to the Leave button |
| MemberList.IsCreatorIffCreatedBy | src/components/MemberList.jsx:89-91 | for a loaded group, a uid is the creator's exactly when it equals `createdByUid` |
| MemberList.ShowsLeaveButton | src/components/MemberList.jsx:170 | decides whether a row shows Leave: the current user's own row, not the creator's; `MemberList.LeaveOfferedOnlyToNonCreatorSelf` states its meaning |
| MemberList.LeaveOfferedOnlyToNonCreatorSelf | src/components/MemberList.jsx:170 | Leave appears exactly on the signed-in user's own row when that user is not the creator, so never for the creator |
| MemberList.ShowsSettings | src/components/MemberList.jsx:222 | decides `isCreator(user?.uid)`; `MemberList.SettingsOnlyForCreator` states its meaning |
| MemberList.SettingsOnlyForCreator | src/components/MemberList.jsx:222 | with the group loaded, Settings appear exactly for its creator and never without a user |
| MemberList.StudentCount | src/components/MemberList.jsx:199 | the student count never exceeds the roster size |
| MemberList.StudentsPlusCreatorIsEveryone | src/components/MemberList.jsx:199 | students plus creator entries are the whole roster |
| MemberList.NoEntryForAbsentUid | src/components/MemberList.jsx:199 | a uid not on the roster has no entries |
| MemberList.OneEntryPerUid | src/components/MemberList.jsx:199 | with distinct uids, a uid on the roster has exactly one entry |
| MemberList.StudentsAreAllButCreator | src/components/MemberList.jsx:199 | with distinct uids and the creator listed, the student count is the roster size minus one |
| MemberList.AvailableSpots | src/components/MemberList.jsx:206 | a number exactly when a cap is set, and then cap minus roster size; otherwise ∞ |
| MemberList.NoSpotsIffFull | src/components/MemberList.jsx:206 | with as many roster entries as listed members, no spot is left exactly when the group card shows "Full" |
| MemberList.RemoveUid | src/components/MemberList.jsx:73 | no entry of the leaving uid remains |
| MemberList.RemoveUidKeepsOthers | src/components/MemberList.jsx:73 | every other member stays, in order, each as often as before; an absent uid changes nothing |
| MemberList.NoLeaveButtonAfterLeaving | src/components/MemberList.jsx:170 | after leaving, no row offers Leave to the user who left |
| MemberList.RosterView.constructor | src/components/MemberList.jsx:4-7 | the roster holds the given user, group and members |
| MemberList.RosterView.HandleLeaveGroup | src/components/MemberList.jsx:67-87 | with a user and a confirmed dialog that user's entries are removed; otherwise nothing changes |
| GroupDashboard.IsMemberIffListed | src/components/GroupDashboard.jsx:43-45 | membership is false without a user, group or member list, and otherwise means the uid is on the list |
| GroupDashboard.IsMember | src/components/GroupDashboard.jsx:43-45 | decides `user && group?.members?.includes(user.uid) \|\| false`; `GroupDashboard.IsMemberIffListed` states its meaning |
| GroupDashboard.MemberCount | src/components/GroupDashboard.jsx:47-49 | 0 when the group or its list is missing, else the list length |
| GroupDashboard.MemberCountAgreesWithCard | src/components/GroupDashboard.jsx:47-49 | the page and the card count a loaded group's members alike |
| GroupDashboard.MemberIsCounted | src/components/GroupDashboard.jsx:43-49 | a group with a member has a count of at least 1 |
| GroupDashboard.ShowsJoinButton | src/components/GroupDashboard.jsx:77-117 | decides whether the header's `!isMember()` button is rendered: only once a group is loaded, and then for non-members; `GroupDashboard.JoinOfferedToNonMembers` states when it holds |
| GroupDashboard.JoinOfferedToNonMembers | src/components/GroupDashboard.jsx:77-117 | Join is never shown without a group; for a loaded group it is shown when no user is signed in or there is no member list, and otherwise exactly when the user's uid is not on the list |
| GroupDashboard.SubjectColor | src/components/GroupDashboard.jsx:51-63 | an unlisted subject gets `bg-gray-500` |
| GroupDashboard.SubjectColorAgreesWithCard | src/components/GroupDashboard.jsx:51-63 | the page's colour lookup agrees with the card's on every subject, with the same default |
| GroupDashboard.FormSubjectsAreColoured | src/components/GroupDashboard.jsx:51-63 | every subject the create form offers gets a non-default colour |
| GroupDashboard.CreatedGroupMembership | src/components/GroupDashboard.jsx:43-49 | a newly created group shows one member, its recorded creator is a member, and no Join button is shown to that creator |

## Left out

- Firestore, Firebase Auth and Storage calls, and the components built only on them (`GroupList.jsx`, `JoinGroup.jsx`, `GroupResources.jsx`, `FileList.jsx`, `GroupForm.jsx`, `AuthForm.jsx`, `Dashboard.jsx`, `firebase.js`): they wrap a library that is not part of this model.
- `useAuth.js` and the `localStorage.getItem('user')` reads: the signed-in user is a parameter or field.
- The loading flags and mock fixtures filled in by `setTimeout` in each component, and all JSX markup and styling: they are fixtures and presentation.
- Routing (`App.jsx`, `ProtectedRoute.jsx`) and the redirect after leaving a group: navigation only.
- `formatFileSize`: it uses `Math.log`, `Math.pow` and `toFixed`, which are floating point.
- `formatTime` and `formatDate`: they depend on `Date` and the locale. The day key is an abstract function.
- Timer scheduling, `window.confirm` and `alert`, `URL.createObjectURL` and resetting the file input: the confirm answer, the blob URL and the number of timer firings are parameters. The alert is a returned flag.
- The `catch` branches (`Failed to create group`, `Failed to send message`, `Upload failed`, `Failed to delete file`, `Failed to leave group`): in this code nothing inside the `try` blocks can throw once I/O is removed.
- The group card's `catch` branches (`Failed to join group`, `Failed to leave group`): their `try` blocks call the parent's `onJoin` and `onLeave` callbacks, which belong to the parent component and are not part of this model. `GroupCard.Click` models only which request the card passes on.
- The `activeTab` state and the tab switching in `GroupDashboard.jsx`: rendering only.
- The `Members (n)`, `n/cap members` and `Shared Files (n)` captions: `n` is the list length and the cap is shown as `maxMembers || '∞'`. These are display text over the counts already modelled.
- A live synchronisation layer (subscriptions, an optimistic mutation queue, reconciliation, sessions, partial-failure errors, capacity errors): no such code exists, so modelling it would be invention.
- Text.ParseInt: reads an optional sign and decimal digits after leading whitespace. It does not model the `0x` hexadecimal prefix or the loss of precision for very long digit strings. `NaN` is written `None`, which every component treats like `null`, because both are falsy.
- Text.Trim: characters are Unicode scalar values rather than UTF-16 code units. This changes lengths only for characters outside the Basic Multilingual Plane, and no rule here depends on that.
- GroupCard.SubjectColor: does not model lookups of inherited object keys such as `"constructor"`, whose value JavaScript would return from `colors[subject]`.
- GroupDashboard.SubjectColor: the same limitation.
- UploadFile.UploadPanel.HandleUpload: the interleaving of the timer with the two-second wait is abstracted to a number of firings before the bar jumps to 100. Other events during the wait, such as a new file selection that `FinishUpload` then drops, are modelled by calling `StartUpload`, the other methods and `FinishUpload` in turn.
