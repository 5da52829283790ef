/**
 * The `messages` table of the server: one row per direct message, its
 * dictionary form, and the inbox query (every message the user sent or
 * received, newest first).
 */
module Messages {
  import opened Wrappers
  import opened Sorting

  /** A `messages` row; `createdAt` is the timestamp as a number. */
  datatype Message = Message(id: int, senderId: int, receiverId: int, content: string, seen: bool, createdAt: int)

  /** `as_dict()`: the row's fields with `id` under the name `message_id`. */
  datatype MessageDict = MessageDict(messageId: int, senderId: int, receiverId: int, content: string, seen: bool, createdAt: int)

  /** A new row: `seen` left out is stored as false; `createdAt` is the database's `now()`, passed in. */
  function NewMessage(id: int, senderId: int, receiverId: int, content: string, seen: Option<bool>, now: int): (m: Message)
    ensures seen.None? ==> !m.seen
    ensures seen.Some? ==> m.seen == seen.value
    ensures m.senderId == senderId && m.receiverId == receiverId && m.content == content && m.createdAt == now
  {
    Message(id, senderId, receiverId, content, seen.GetOr(false), now)
  }

  function AsDict(m: Message): MessageDict
  {
    MessageDict(m.id, m.senderId, m.receiverId, m.content, m.seen, m.createdAt)
  }

  /** Reading a row back from its dictionary. */
  function FromDict(d: MessageDict): Message
  {
    Message(d.messageId, d.senderId, d.receiverId, d.content, d.seen, d.createdAt)
  }

  /** `as_dict` loses nothing: the row comes back from its dictionary, and the dictionary from the row. */
  lemma AsDictRoundTrip(m: Message, d: MessageDict)
    ensures FromDict(AsDict(m)) == m
    ensures AsDict(FromDict(d)) == d
    ensures AsDict(m).messageId == m.id
  {
  }

  /** `receiver_id == user_id OR sender_id == user_id`. */
  predicate Involves(m: Message, userId: int)
  {
    m.receiverId == userId || m.senderId == userId
  }

  /** The rows the inbox query's filter keeps, in table order. */
  function Involving(table: seq<Message>, userId: int): (r: seq<Message>)
    ensures forall k :: 0 <= k < |r| ==> Involves(r[k], userId)
    ensures forall m :: Involves(m, userId) ==> multiset(r)[m] == multiset(table)[m]
    ensures forall m :: !Involves(m, userId) ==> multiset(r)[m] == 0
  {
    if table == [] then []
    else
      assert table == [table[0]] + table[1..];
      if Involves(table[0], userId) then [table[0]] + Involving(table[1..], userId)
      else Involving(table[1..], userId)
  }

  function CreatedAt(m: Message): int { m.createdAt }

  /** The rows of the inbox query, newest first. */
  function InboxRows(table: seq<Message>, userId: int): seq<Message>
  {
    SortDesc(Involving(table, userId), CreatedAt)
  }

  /** `get_inbox(user_id)`: the user's messages, newest first, as dictionaries. */
  function GetInbox(table: seq<Message>, userId: int): (r: seq<MessageDict>)
  {
    var rows := InboxRows(table, userId);
    seq(|rows|, k requires 0 <= k < |rows| => AsDict(rows[k]))
  }

  /** Each inbox entry is the dictionary of the row at the same place. */
  lemma InboxEntries(table: seq<Message>, userId: int)
    ensures |GetInbox(table, userId)| == |InboxRows(table, userId)|
    ensures forall k :: 0 <= k < |GetInbox(table, userId)| ==>
      FromDict(GetInbox(table, userId)[k]) == InboxRows(table, userId)[k]
  {
  }

  /**
   * The inbox holds every message the user sent or received, as many times as the
   * table does (nothing is merged per conversation partner), nothing else, and
   * in descending order of creation time.
   */
  lemma InboxSpec(table: seq<Message>, userId: int)
    ensures var r := GetInbox(table, userId);
      (forall k :: 0 <= k < |r| ==> Involves(FromDict(r[k]), userId))
      && (forall i, j :: 0 <= i < j < |r| ==> r[i].createdAt >= r[j].createdAt)
      && multiset(seq(|r|, k requires 0 <= k < |r| => FromDict(r[k]))) == multiset(Involving(table, userId))
  {
    InboxInvolves(table, userId);
    InboxSorted(table, userId);
    InboxPermutation(table, userId);
  }

  lemma InboxInvolves(table: seq<Message>, userId: int)
    ensures var r := GetInbox(table, userId);
      forall k :: 0 <= k < |r| ==> Involves(FromDict(r[k]), userId)
  {
    var rows := InboxRows(table, userId);
    var r := GetInbox(table, userId);
    InboxEntries(table, userId);
    forall k | 0 <= k < |r|
      ensures Involves(FromDict(r[k]), userId)
    {
      assert rows[k] in multiset(rows);
    }
  }

  lemma InboxSorted(table: seq<Message>, userId: int)
    ensures var r := GetInbox(table, userId);
      forall i, j :: 0 <= i < j < |r| ==> r[i].createdAt >= r[j].createdAt
  {
    var rows := InboxRows(table, userId);
    var r := GetInbox(table, userId);
    InboxEntries(table, userId);
    forall i, j | 0 <= i < j < |r|
      ensures r[i].createdAt >= r[j].createdAt
    {
      assert CreatedAt(rows[i]) >= CreatedAt(rows[j]);
    }
  }

  lemma InboxPermutation(table: seq<Message>, userId: int)
    ensures var r := GetInbox(table, userId);
      multiset(seq(|r|, k requires 0 <= k < |r| => FromDict(r[k]))) == multiset(Involving(table, userId))
  {
    var r := GetInbox(table, userId);
    InboxEntries(table, userId);
    assert seq(|r|, k requires 0 <= k < |r| => FromDict(r[k])) == InboxRows(table, userId);
  }

  /** A message is in the inbox exactly when it is in the table and the user sent or received it. */
  lemma InboxMembership(table: seq<Message>, userId: int, m: Message)
    ensures AsDict(m) in GetInbox(table, userId) <==> m in table && Involves(m, userId)
  {
    var rows := InboxRows(table, userId);
    var r := GetInbox(table, userId);
    if AsDict(m) in r {
      var k :| 0 <= k < |r| && r[k] == AsDict(m);
      assert FromDict(r[k]) == m;
      assert rows[k] == m;
      assert m in multiset(rows);
    }
    if m in table && Involves(m, userId) {
      assert m in multiset(table);
      assert m in multiset(rows);
      var k :| 0 <= k < |rows| && rows[k] == m;
      assert r[k] == AsDict(m);
    }
  }

  /** The inbox has one entry per message involving the user. */
  lemma InboxSize(table: seq<Message>, userId: int)
    ensures |GetInbox(table, userId)| == |Involving(table, userId)|
  {
    var rows := InboxRows(table, userId);
    assert |multiset(rows)| == |multiset(Involving(table, userId))|;
  }
}
