/** The notifications slice of the client store: a reducer over
    `{notifications, loading, error}` driven by four plain actions and the
    settled outcomes of two requests (fetch all, mark all as read). */
module Notifications {
  import opened Wrappers
  import opened Seqs

  /** A notification as the server sends it; `message` stands for the fields the slice never reads. */
  datatype Notification = Notification(notificationId: int, isRead: bool, message: string)

  datatype State = State(notifications: seq<Notification>, loading: bool, error: Option<string>)

  const InitialState: State := State([], false, None)

  const FetchFailedMessage: string := "Failed to fetch notifications"
  const MarkAllFailedMessage: string := "Failed to mark notifications as read"

  /** The reducer's inputs. A rejected request carries the value it was rejected with, if any. */
  datatype Action =
    | MarkAsRead(notificationId: int)
    | AddNotification(notification: Notification)
    | DeleteNotification(notificationId: int)
    | ClearNotifications
    | FetchPending
    | FetchFulfilled(fetched: seq<Notification>)
    | FetchRejected(payload: Option<string>)
    | MarkAllPending
    | MarkAllFulfilled
    | MarkAllRejected(payload: Option<string>)

  function HasId(id: int): Notification -> bool
  {
    (n: Notification) => n.notificationId == id
  }

  /** `markAsRead`: the first notification with the id, as `find` returns it, becomes read. */
  function MarkAsReadIn(ns: seq<Notification>, id: int): (r: seq<Notification>)
    ensures |r| == |ns|
    ensures forall j :: 0 <= j < |ns| ==>
      r[j] == if ns[j].notificationId == id && forall k :: 0 <= k < j ==> ns[k].notificationId != id
              then ns[j].(isRead := true)
              else ns[j]
    ensures (forall j :: 0 <= j < |ns| ==> ns[j].notificationId != id) ==> r == ns
  {
    match FirstIndex(ns, HasId(id))
    case None => ns
    case Some(i) => ns[i := ns[i].(isRead := true)]
  }

  /** `deleteNotification`: every notification with the id goes; the rest keep their order. */
  function DeleteIn(ns: seq<Notification>, id: int): (r: seq<Notification>)
    ensures forall n: Notification :: n in r <==> n in ns && n.notificationId != id
    ensures forall n: Notification :: n.notificationId != id ==> multiset(r)[n] == multiset(ns)[n]
  {
    FilterMultiset(ns, (n: Notification) => n.notificationId != id);
    Filter(ns, (n: Notification) => n.notificationId != id)
  }

  /** Deleting distributes over concatenation: what survives keeps its relative order. */
  lemma DeleteKeepsOrder(a: seq<Notification>, b: seq<Notification>, id: int)
    ensures DeleteIn(a + b, id) == DeleteIn(a, id) + DeleteIn(b, id)
  {
    FilterAppend(a, b, (n: Notification) => n.notificationId != id);
  }

  /** `markAllNotificationsAsRead.fulfilled`: every notification becomes read, nothing else changes. */
  function MarkAllIn(ns: seq<Notification>): (r: seq<Notification>)
    ensures |r| == |ns|
    ensures forall j :: 0 <= j < |ns| ==>
      r[j].isRead && r[j].notificationId == ns[j].notificationId && r[j].message == ns[j].message
  {
    seq(|ns|, j requires 0 <= j < |ns| => ns[j].(isRead := true))
  }

  /** `action.payload || default`: a missing or empty payload falls back to the default message. */
  function RejectionMessage(payload: Option<string>, default: string): (m: string)
    ensures payload.Some? && payload.value != "" ==> m == payload.value
    ensures payload.None? || payload.value == "" ==> m == default
  {
    if payload.Some? && payload.value != "" then payload.value else default
  }

  /** The slice's reducer. */
  function Reduce(s: State, a: Action): (r: State)
    ensures a.MarkAsRead? || a.AddNotification? || a.DeleteNotification? || a.ClearNotifications? ==>
      r.loading == s.loading && r.error == s.error
    ensures a.MarkAsRead? ==> r.notifications == MarkAsReadIn(s.notifications, a.notificationId)
    ensures a.AddNotification? ==> r.notifications == s.notifications + [a.notification]
    ensures a.DeleteNotification? ==> r.notifications == DeleteIn(s.notifications, a.notificationId)
    ensures a.ClearNotifications? ==> r.notifications == []
    ensures a.FetchPending? || a.MarkAllPending? ==>
      r == s.(loading := true, error := None)
    ensures a.FetchRejected? ==> r == s.(loading := false, error := Some(RejectionMessage(a.payload, FetchFailedMessage)))
    ensures a.MarkAllRejected? ==> r == s.(loading := false, error := Some(RejectionMessage(a.payload, MarkAllFailedMessage)))
    ensures a.FetchFulfilled? ==> r == s.(loading := false, notifications := a.fetched)
    ensures a.MarkAllFulfilled? ==> r == s.(loading := false, notifications := MarkAllIn(s.notifications))
  {
    match a
    case MarkAsRead(id) => s.(notifications := MarkAsReadIn(s.notifications, id))
    case AddNotification(n) => s.(notifications := s.notifications + [n])
    case DeleteNotification(id) => s.(notifications := DeleteIn(s.notifications, id))
    case ClearNotifications => s.(notifications := [])
    case FetchPending => s.(loading := true, error := None)
    case FetchFulfilled(fetched) => s.(loading := false, notifications := fetched)
    case FetchRejected(payload) => s.(loading := false, error := Some(RejectionMessage(payload, FetchFailedMessage)))
    case MarkAllPending => s.(loading := true, error := None)
    case MarkAllFulfilled => s.(loading := false, notifications := MarkAllIn(s.notifications))
    case MarkAllRejected(payload) => s.(loading := false, error := Some(RejectionMessage(payload, MarkAllFailedMessage)))
  }

  /** Marking everything read a second time changes nothing. */
  lemma MarkAllIdempotent(s: State)
    ensures Reduce(Reduce(s, MarkAllFulfilled), MarkAllFulfilled) == Reduce(s, MarkAllFulfilled)
  {
  }

  function Unread(): Notification -> bool
  {
    (n: Notification) => !n.isRead
  }

  function UnreadCount(ns: seq<Notification>): nat
  {
    |Filter(ns, Unread())|
  }

  /** After marking all as read nothing is unread. */
  lemma MarkAllLeavesNothingUnread(s: State)
    ensures UnreadCount(Reduce(s, MarkAllFulfilled).notifications) == 0
  {
    FilterNone(MarkAllIn(s.notifications), Unread());
  }

  /** The first notification carrying `id` is at position `j` and is unread. */
  predicate FirstWithIdUnread(ns: seq<Notification>, id: int, j: int)
  {
    0 <= j < |ns| && ns[j].notificationId == id && !ns[j].isRead
    && forall k :: 0 <= k < j ==> ns[k].notificationId != id
  }

  /** Marking one notification read lowers the unread count by one exactly when
      the first notification with that id was unread, and otherwise keeps it. */
  lemma {:induction false} MarkAsReadUnreadCount(ns: seq<Notification>, id: int)
    ensures (exists j :: FirstWithIdUnread(ns, id, j)) ==> UnreadCount(MarkAsReadIn(ns, id)) == UnreadCount(ns) - 1
    ensures (forall j :: !FirstWithIdUnread(ns, id, j)) ==> UnreadCount(MarkAsReadIn(ns, id)) == UnreadCount(ns)
  {
    match FirstIndex(ns, HasId(id))
    case None =>
      assert MarkAsReadIn(ns, id) == ns;
    case Some(i) =>
      var marked := ns[i].(isRead := true);
      MarkAsReadAt(ns, id, i);
      UnreadAround(ns[..i], ns[i], ns[i + 1..]);
      UnreadAround(ns[..i], marked, ns[i + 1..]);
      FirstUnreadAt(ns, id, i);
  }

  /** Marking splits the list around the first match, which alone changes. */
  lemma MarkAsReadAt(ns: seq<Notification>, id: int, i: nat)
    requires FirstIndex(ns, HasId(id)) == Some(i)
    ensures ns == ns[..i] + [ns[i]] + ns[i + 1..]
    ensures MarkAsReadIn(ns, id) == ns[..i] + [ns[i].(isRead := true)] + ns[i + 1..]
  {
  }

  /** When the first match is at `i`, the first match is unread exactly when `ns[i]` is. */
  lemma FirstUnreadAt(ns: seq<Notification>, id: int, i: nat)
    requires FirstIndex(ns, HasId(id)) == Some(i)
    ensures (exists j :: FirstWithIdUnread(ns, id, j)) <==> !ns[i].isRead
  {
    if exists j :: FirstWithIdUnread(ns, id, j) {
      var j :| FirstWithIdUnread(ns, id, j);
      assert j == i;
    } else {
      assert !FirstWithIdUnread(ns, id, i);
    }
  }

  /** The unread count of a sequence split around one notification. */
  lemma UnreadAround(a: seq<Notification>, x: Notification, b: seq<Notification>)
    ensures UnreadCount(a + [x] + b) == UnreadCount(a) + (if x.isRead then 0 else 1) + UnreadCount(b)
  {
    var p := Unread();
    FilterAppend(a + [x], b, p);
    FilterAppend(a, [x], p);
    FilterSingleton(x, p);
  }

  /** Adding a notification and then deleting its id is the same as deleting the id alone. */
  lemma AddThenDelete(s: State, n: Notification)
    ensures Reduce(Reduce(s, AddNotification(n)), DeleteNotification(n.notificationId))
         == Reduce(s, DeleteNotification(n.notificationId))
  {
    var p := (m: Notification) => m.notificationId != n.notificationId;
    FilterAppend(s.notifications, [n], p);
    FilterSingleton(n, p);
  }

  /** The slice starts with no notifications, not loading and without an error, so
      nothing is unread. */
  lemma InitialStateEmpty()
    ensures InitialState.notifications == [] && !InitialState.loading && InitialState.error.None?
    ensures UnreadCount(InitialState.notifications) == 0
  {
  }

  /** From the initial state, a fetch that settles successfully leaves exactly the
      fetched notifications, not loading and without an error. */
  lemma FetchFromInitial(fetched: seq<Notification>)
    ensures Reduce(Reduce(InitialState, FetchPending), FetchFulfilled(fetched)) == State(fetched, false, None)
  {
  }

  /** A pending request followed by its rejection leaves the notifications as they were. */
  lemma PendingThenRejected(s: State, payload: Option<string>)
    ensures Reduce(Reduce(s, FetchPending), FetchRejected(payload)).notifications == s.notifications
    ensures !Reduce(Reduce(s, FetchPending), FetchRejected(payload)).loading
    ensures Reduce(Reduce(s, FetchPending), FetchRejected(payload)).error.Some?
  {
  }
}
