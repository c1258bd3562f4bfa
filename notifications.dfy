/** The notification list of the front end (src/components/common/NotificationSystem.js).
    The list is replaced, never mutated: each operation is a function of the
    previous list. */
module Notifications {

  /** What the server sends: the fields the list shows. */
  datatype Payload = Payload(kind: string, message: string)

  /** An entry of the list: the payload with an id and a time stamp, both taken
      from the clock when it arrives, and a read flag. */
  datatype Notification = Notification(payload: Payload, id: int, read: bool, timestamp: int)

  /** The socket's 'notification' handler at time now: the new entry, unread,
      goes in front of the previous list. */
  function Receive(list: seq<Notification>, incoming: Payload, now: int): (r: seq<Notification>)
    ensures |r| == |list| + 1
    ensures r[0].payload == incoming && !r[0].read && r[0].id == now && r[0].timestamp == now
    ensures r[1..] == list
  {
    [Notification(incoming, now, false, now)] + list
  }

  /** One entry after markAsRead(id). */
  function MarkOne(n: Notification, id: int): Notification {
    if n.id == id then n.(read := true) else n
  }

  /** markAsRead(id): every entry with that id is marked read, every other entry
      stays as it was, and length and order are kept. */
  function MarkAsRead(list: seq<Notification>, id: int): (r: seq<Notification>)
    ensures |r| == |list|
    ensures forall i :: 0 <= i < |list| ==> r[i] == MarkOne(list[i], id)
  {
    if list == [] then [] else [MarkOne(list[0], id)] + MarkAsRead(list[1..], id)
  }

  /** filter(n => !n.read): the unread entries, each as often as in the list. */
  function Unread(list: seq<Notification>): (r: seq<Notification>)
    ensures |r| <= |list|
    ensures forall n :: n in r ==> !n.read
    ensures forall n: Notification :: !n.read ==> multiset(r)[n] == multiset(list)[n]
  {
    if list == [] then []
    else if list[0].read then
      assert list == [list[0]] + list[1..];
      Unread(list[1..])
    else
      assert list == [list[0]] + list[1..];
      [list[0]] + Unread(list[1..])
  }

  /** unreadCount, the badge's number: the length of the filtered list. It
      never exceeds the list's length, and it is zero exactly when every entry
      has been read. */
  function UnreadCount(list: seq<Notification>): (c: nat)
    ensures c <= |list|
    ensures c == 0 <==> forall i :: 0 <= i < |list| ==> list[i].read
  {
    var r := Unread(list);
    if r == [] then
      0
    else
      assert r[0] in multiset(list);
      |r|
  }

  /** The number of unread entries with the given id. */
  function UnreadWithId(list: seq<Notification>, id: int): nat {
    if list == [] then 0
    else (if list[0].id == id && !list[0].read then 1 else 0) + UnreadWithId(list[1..], id)
  }

  /** A new notification is one more unread entry. */
  lemma ReceiveAddsOneUnread(list: seq<Notification>, incoming: Payload, now: int)
    ensures UnreadCount(Receive(list, incoming, now)) == UnreadCount(list) + 1
  {
    var r := Receive(list, incoming, now);
    assert r[1..] == list;
  }

  /** Marking as read twice is marking once. */
  lemma MarkAsReadIdempotent(list: seq<Notification>, id: int)
    ensures MarkAsRead(MarkAsRead(list, id), id) == MarkAsRead(list, id)
  {
    var once := MarkAsRead(list, id);
    var twice := MarkAsRead(once, id);
    assert |twice| == |once|;
    forall i | 0 <= i < |once| ensures twice[i] == once[i] {
      assert twice[i] == MarkOne(once[i], id);
    }
  }

  /** markAsRead(id) removes from the unread count exactly the unread entries
      with that id. */
  lemma {:induction false} MarkAsReadCount(list: seq<Notification>, id: int)
    ensures UnreadCount(MarkAsRead(list, id)) + UnreadWithId(list, id) == UnreadCount(list)
  {
    if list != [] {
      MarkAsReadCount(list[1..], id);
      var r := MarkAsRead(list, id);
      assert r == [MarkOne(list[0], id)] + MarkAsRead(list[1..], id);
      assert r[1..] == MarkAsRead(list[1..], id);
    }
  }

  /** Some unread entry has the id exactly when the count of such entries is positive. */
  lemma {:induction false} UnreadWithIdPositive(list: seq<Notification>, id: int)
    ensures UnreadWithId(list, id) > 0 <==> exists i :: 0 <= i < |list| && list[i].id == id && !list[i].read
  {
    if list != [] {
      UnreadWithIdPositive(list[1..], id);
      if UnreadWithId(list[1..], id) > 0 {
        var i :| 0 <= i < |list[1..]| && list[1..][i].id == id && !list[1..][i].read;
        assert list[i + 1] == list[1..][i];
      }
      if exists i :: 0 <= i < |list| && list[i].id == id && !list[i].read {
        var i :| 0 <= i < |list| && list[i].id == id && !list[i].read;
        if i > 0 {
          assert list[1..][i - 1] == list[i];
        }
      }
    }
  }

  /** markAsRead never raises the unread count, and lowers it exactly when some
      unread entry has the id. */
  lemma MarkAsReadLowersCountIff(list: seq<Notification>, id: int)
    ensures UnreadCount(MarkAsRead(list, id)) <= UnreadCount(list)
    ensures UnreadCount(MarkAsRead(list, id)) < UnreadCount(list)
            <==> exists i :: 0 <= i < |list| && list[i].id == id && !list[i].read
  {
    MarkAsReadCount(list, id);
    UnreadWithIdPositive(list, id);
  }
}
