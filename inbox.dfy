/**
 * The inbox page of the browser: one entry per conversation it is given, each
 * with a prefix, a 15-character preview and an unread marker, and the chat the
 * user opened (`curChat`), which decides the highlight and the document title.
 */
module Inbox {
  import opened Wrappers

  datatype User = User(username: string, avatar: Option<string>)

  /** One inbox entry as the page reads it. */
  datatype Entry = Entry(messageId: int, sender: User, receiver: User, content: string,
                         seen: bool, latestFromUser: bool)

  const PreviewLength: nat := 15

  /** `content.slice(0, 15)` followed by "..." when the content is longer than 15. */
  function Preview(content: string): (r: string)
    ensures |r| <= PreviewLength + 3
    ensures |content| <= PreviewLength ==> r == content
    ensures |content| > PreviewLength ==> |r| == PreviewLength + 3 && r[PreviewLength..] == "..."
    ensures r[..if |content| <= PreviewLength then |content| else PreviewLength]
         == content[..if |content| <= PreviewLength then |content| else PreviewLength]
  {
    if |content| > PreviewLength then content[..PreviewLength] + "..." else content
  }

  /**
   * The preview equals the content exactly when the content fits in 15 characters
   * or is 18 characters ending in "..." (then the cut and the added dots coincide).
   */
  lemma PreviewWholeIff(content: string)
    ensures Preview(content) == content <==>
      |content| <= PreviewLength || (|content| == PreviewLength + 3 && content[PreviewLength..] == "...")
  {
    if |content| == PreviewLength + 3 && content[PreviewLength..] == "..." {
      assert content == content[..PreviewLength] + content[PreviewLength..];
    }
  }

  /** "You: " for the user's own latest message, otherwise the receiver's name. */
  function Prefix(e: Entry): (r: string)
    ensures e.latestFromUser ==> r == "You: "
    ensures !e.latestFromUser ==> r == e.receiver.username + ": "
  {
    if e.latestFromUser then "You: " else e.receiver.username + ": "
  }

  /** The mail marker: the latest message came from the other side and is unseen. */
  predicate Unread(e: Entry)
  {
    !e.latestFromUser && !e.seen
  }

  /**
   * The mail marker never shows on an entry the user wrote last (whose line reads
   * "You: "), and never on a seen one: a marked entry names the receiver.
   */
  lemma UnreadMarker(e: Entry)
    ensures Unread(e) ==> Prefix(e) == e.receiver.username + ": " && !e.seen
    ensures e.latestFromUser ==> !Unread(e) && Prefix(e) == "You: "
    ensures !e.latestFromUser ==> (Unread(e) <==> !e.seen)
  {
  }

  /** `curChat.username === message.sender.username`; with no chat open nothing is highlighted. */
  predicate Highlighted(curChat: Option<User>, e: Entry)
  {
    curChat.Some? && curChat.value.username == e.sender.username
  }

  /** The title while mounted. */
  function Title(curChat: Option<User>): (r: string)
    ensures curChat.Some? ==> r == "Inbox | " + curChat.value.username
    ensures curChat.None? ==> r == "Threaddit | Inbox"
  {
    if curChat.Some? then "Inbox | " + curChat.value.username else "Threaddit | Inbox"
  }

  /** The inbox page: `curChat` (`false` while no chat is open) and the document title its effect keeps. */
  class InboxPage {
    var curChat: Option<User>
    var title: string

    /** Mounting renders with no chat open and runs the title effect. */
    constructor ()
      ensures curChat.None? && title == "Threaddit | Inbox"
    {
      curChat := None;
      title := Title(None);
    }

    /** The mobile list shows only while no chat is open. */
    predicate MobileListVisible()
      reads this
    {
      curChat.None?
    }

    /** Clicking an entry opens the chat with its sender; the re-render's effect sets the title. */
    method Open(e: Entry)
      modifies this
      ensures curChat == Some(e.sender)
      ensures title == "Inbox | " + e.sender.username
      ensures Highlighted(curChat, e) && !MobileListVisible()
    {
      curChat := Some(e.sender);
      title := Title(curChat);
    }

    /**
     * The chat's close control hands back `false`: no chat is open and the list
     * returns. That the `Chat` component passes `false` is taken as given here;
     * `Chat` is not part of this model.
     */
    method Close()
      modifies this
      ensures curChat.None? && title == "Threaddit | Inbox"
      ensures MobileListVisible()
    {
      curChat := None;
      title := Title(curChat);
    }

    /** Leaving the page runs the effect's cleanup. */
    method Unmount()
      modifies this
      ensures title == "Threaddit" && curChat == old(curChat)
    {
      title := "Threaddit";
    }
  }

  /** After opening the chat with `e`'s sender, exactly the entries from a sender of that name are highlighted. */
  lemma HighlightAfterOpen(e: Entry, entries: seq<Entry>)
    ensures forall k :: 0 <= k < |entries| ==>
      (Highlighted(Some(e.sender), entries[k]) <==> entries[k].sender.username == e.sender.username)
    ensures forall k :: 0 <= k < |entries| ==> !Highlighted(None, entries[k])
  {
  }
}
