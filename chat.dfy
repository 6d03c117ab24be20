/** The group chat (src/components/Chat.jsx): sending appends to the
    transcript, the own-message test, the date separators and the count label.
    Dates are abstract: `dayKey` stands for `formatDate`, the day a timestamp
    falls on as the reader sees it. */
module Chat {
  import opened Wrappers
  import opened Text
  import opened Identity

  datatype Message = Message(id: string, text: string, senderName: string, senderUid: string, createdAt: int)

  /** `message.senderUid === user?.uid`. */
  predicate IsOwnMessage(user: Option<User>, m: Message) {
    UidOf(user) == Some(m.senderUid)
  }

  /** The `messageData` record `handleSend` builds for `text`. */
  function NewMessage(u: User, text: string, id: string, now: int): (m: Message)
    ensures m.text == text && m.senderUid == u.uid && m.senderName == SenderLabel(u)
    ensures m.id == id && m.createdAt == now
  {
    Message(id, text, SenderLabel(u), u.uid, now)
  }

  /** Own messages are exactly those whose sender is the signed-in user; with
      nobody signed in no message is one's own, and what a user sends is their own. */
  lemma OwnMessageIffSender(user: Option<User>, m: Message, text: string, id: string, now: int)
    ensures IsOwnMessage(user, m) <==> user.Some? && m.senderUid == user.value.uid
    ensures user.None? ==> !IsOwnMessage(user, m)
    ensures user.Some? ==> IsOwnMessage(user, NewMessage(user.value, text, id, now))
  {
  }

  /** The sender line above a bubble: shown for other people's messages only,
      as `msg.senderName || 'Unknown'`. */
  function SenderCaption(user: Option<User>, m: Message): (caption: Option<string>)
    ensures caption.Some? <==> !IsOwnMessage(user, m)
    ensures caption.Some? && m.senderName != [] ==> caption.value == m.senderName
    ensures caption.Some? && m.senderName == [] ==> caption.value == "Unknown"
  {
    if IsOwnMessage(user, m) then None
    else Some(if m.senderName != [] then m.senderName else "Unknown")
  }

  /** `showDate`: the first message, and any message whose day differs from
      the one before it, gets a date separator. */
  predicate ShowDate(msgs: seq<Message>, i: nat, dayKey: int -> string)
    requires i < |msgs|
  {
    i == 0 || dayKey(msgs[i].createdAt) != dayKey(msgs[i - 1].createdAt)
  }

  /** The separator a reader sees above message `i`: the nearest one at or
      before it. */
  function HeaderIndex(msgs: seq<Message>, i: nat, dayKey: int -> string): (j: nat)
    requires i < |msgs|
    ensures j <= i && ShowDate(msgs, j, dayKey)
    ensures forall k :: j < k <= i ==> !ShowDate(msgs, k, dayKey)
  {
    if ShowDate(msgs, i, dayKey) then i else HeaderIndex(msgs, i - 1, dayKey)
  }

  /** The date heading above every message is that message's own day. */
  lemma {:induction false} HeaderShowsOwnDay(msgs: seq<Message>, i: nat, dayKey: int -> string)
    requires i < |msgs|
    ensures dayKey(msgs[HeaderIndex(msgs, i, dayKey)].createdAt) == dayKey(msgs[i].createdAt)
  {
    if !ShowDate(msgs, i, dayKey) {
      HeaderShowsOwnDay(msgs, i - 1, dayKey);
    }
  }

  /** Appending a message leaves every earlier separator as it was, and the new
      message gets one exactly when it opens a new day. */
  lemma AppendKeepsSeparators(msgs: seq<Message>, m: Message, dayKey: int -> string)
    ensures forall i :: 0 <= i < |msgs| ==> ShowDate(msgs + [m], i, dayKey) == ShowDate(msgs, i, dayKey)
    ensures ShowDate(msgs + [m], |msgs|, dayKey) <==>
              msgs == [] || dayKey(m.createdAt) != dayKey(msgs[|msgs| - 1].createdAt)
  {
  }

  /** The header count: `n message` for one, `n messages` otherwise. */
  function CountLabel(n: nat): string {
    NatToString(n) + " message" + (if n != 1 then "s" else "")
  }

  /** The label is plural exactly when the count is not one, and it starts with
      the count itself, which `parseInt` reads back. */
  lemma CountLabelMeaning(n: nat)
    ensures (CountLabel(n)[|CountLabel(n)| - 1] == 's') <==> n != 1
    ensures ParseInt(CountLabel(n)) == Some(n)
  {
    var rest := " message" + (if n != 1 then "s" else "");
    assert CountLabel(n) == NatToString(n) + rest;
    ParseIntOfNatToString(n, rest);
  }

  /** The Send button is enabled: something other than whitespace is typed and
      no send is in progress. */
  predicate SendEnabled(newMessage: string, sending: bool) {
    Trim(newMessage) != [] && !sending
  }

  /** The button and the handler agree: an enabled button with a user signed in
      always sends, blank input (all whitespace) keeps the button disabled, and
      so does a send in progress. */
  lemma SendButtonMatchesHandler(newMessage: string, sending: bool, user: Option<User>)
    ensures SendEnabled(newMessage, sending) && user.Some? ==> Trim(newMessage) != [] && user.Some?
    ensures AllWhitespace(newMessage) ==> !SendEnabled(newMessage, sending)
    ensures !AllWhitespace(newMessage) ==> SendEnabled(newMessage, false)
    ensures !SendEnabled(newMessage, true)
  {
    TrimEmptyIffBlank(newMessage);
  }

  /** The chat's state: the transcript, the input box, the `sending` flag and
      the user read from local storage. */
  class ChatView {
    var messages: seq<Message>
    var newMessage: string
    var sending: bool
    var user: Option<User>

    constructor (user: Option<User>)
      ensures messages == [] && newMessage == "" && !sending && this.user == user
    {
      messages := [];
      newMessage := "";
      sending := false;
      this.user := user;
    }

    /** The input's `onChange`. */
    method SetNewMessage(v: string)
      modifies this
      ensures newMessage == v
      ensures messages == old(messages) && sending == old(sending) && user == old(user)
    {
      newMessage := v;
    }

    /** `handleSend`: nothing happens when the trimmed input is empty or nobody is
        signed in; otherwise the trimmed text is appended as the user's message
        and the input is cleared. */
    method HandleSend(id: string, now: int) returns (sent: bool)
      modifies this
      ensures sent <==> Trim(old(newMessage)) != [] && old(user).Some?
      ensures sent ==> messages == old(messages) + [NewMessage(old(user).value, Trim(old(newMessage)), id, now)]
      ensures sent ==> newMessage == "" && !sending
      ensures !sent ==> messages == old(messages) && newMessage == old(newMessage) && sending == old(sending)
      ensures user == old(user)
    {
      var text := Trim(newMessage);
      if text == [] || user.None? {
        return false;
      }
      sending := true;
      var u := user.value;
      var messageData := Message(id, text, SenderLabel(u), u.uid, now);
      messages := messages + [messageData];
      newMessage := "";
      sending := false;
      sent := true;
    }
  }

  /** A send grows the transcript by one at the end: earlier messages keep their
      place, the new one is the user's own, and its text is non-empty and trimmed. */
  lemma SentMessageAppended(before: seq<Message>, u: User, typed: string, id: string, now: int)
    requires Trim(typed) != []
    ensures var after := before + [NewMessage(u, Trim(typed), id, now)];
            |after| == |before| + 1 && after[..|before|] == before &&
            IsOwnMessage(Some(u), after[|before|]) &&
            after[|before|].text != [] && IsTrimmed(after[|before|].text)
  {
  }
}
