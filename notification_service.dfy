/**
 * The notification service. Update and delete look the record up through
 * `getNotificationById`, which returns the stored document itself, then
 * assign the patch to it and `save` it, or `remove` it. A failure of that
 * write (`fault`) is a 500 with the operation's message; the 400 and 404 of
 * the lookup reach the caller unchanged.
 */
module NotificationService {
  import opened Wrappers
  import opened ApiErrors
  import opened DocumentStore

  datatype NotificationBody = NotificationBody(title: string, message: string)

  /** The keys an update body may carry; an absent key is `None`. */
  datatype NotificationPatch = NotificationPatch(title: Option<string>, message: Option<string>)

  /** `createNotification`: the body stored as a new record and returned. */
  method CreateNotification(db: Db, notificationBody: NotificationBody, newId: Id, now: nat, fault: Option<string>)
    returns (r: Outcome<(Id, Notification)>)
    requires db.Valid()
    modifies db
    ensures db.Valid()
    ensures db.forms == old(db.forms) && db.formTypes == old(db.formTypes)
    ensures db.regulations == old(db.regulations)
    ensures r.Ok? <==> fault.None? && newId !in old(db.notifications.docs)
    ensures r.Fails? ==> r == Throw(InternalServerError, "Error creating notification")
    ensures r.Fails? ==> db.notifications == old(db.notifications)
    ensures r.Ok? ==>
      r.value == (newId, Notification(notificationBody.title, notificationBody.message, now)) &&
      db.notifications == old(db.notifications).Insert(newId, r.value.1)
  {
    if fault.Some? {
      return Caught(Fails(Internal(fault.value)), "Error creating notification");
    }
    if newId in db.notifications.docs {
      return Caught(Fails(Internal("duplicate key")), "Error creating notification");
    }
    var notification := Notification(notificationBody.title, notificationBody.message, now);
    db.notifications := db.notifications.Insert(newId, notification);
    r := Ok((newId, notification));
  }

  /** `getAllNotifications`: every stored notification, once each, in store order. */
  function GetAllNotifications(notifications: Table<Notification>): (r: Outcome<seq<(Id, Notification)>>)
    requires notifications.Valid()
    ensures r.Ok? && |r.value| == |notifications.ids|
    ensures forall i :: 0 <= i < |r.value| ==>
      r.value[i].0 == notifications.ids[i] && r.value[i].1 == notifications.docs[notifications.ids[i]]
    ensures forall id :: id in notifications.docs <==> exists i :: 0 <= i < |r.value| && r.value[i].0 == id
  {
    Ok(notifications.Rows())
  }

  /** `getNotificationById`: 400 for a malformed id, 404 for an absent one, else the record. */
  function GetNotificationById(notifications: Table<Notification>, notificationId: Id): (r: Outcome<Notification>)
    ensures !ValidId(notificationId) ==> r == Throw(BadRequest, "Invalid document ID")
    ensures ValidId(notificationId) && notificationId !in notifications.docs ==>
      r == Throw(NotFound, "Notification not found")
    ensures r.Ok? <==> ValidId(notificationId) && notificationId in notifications.docs
    ensures r.Ok? ==> r.value == notifications.docs[notificationId]
  {
    if !ValidId(notificationId) then Throw(BadRequest, "Invalid document ID")
    else if notificationId !in notifications.docs then Throw(NotFound, "Notification not found")
    else Ok(notifications.docs[notificationId])
  }

  /** The record with the keys present in the patch assigned. */
  function Patched(notification: Notification, patch: NotificationPatch): (n: Notification)
    ensures n.title == patch.title.GetOr(notification.title)
    ensures n.message == patch.message.GetOr(notification.message)
    ensures n.createdAt == notification.createdAt
  {
    notification.(title := patch.title.GetOr(notification.title), message := patch.message.GetOr(notification.message))
  }

  /**
   * `updateNotificationById`: the keys of the patch assigned to the stored
   * record, which is saved and returned. The source re-checks that the
   * lookup found a record; that branch cannot be taken.
   */
  method UpdateNotificationById(db: Db, notificationId: Id, updateBody: NotificationPatch, fault: Option<string>)
    returns (r: Outcome<Notification>)
    requires db.Valid()
    modifies db
    ensures db.Valid()
    ensures db.forms == old(db.forms) && db.formTypes == old(db.formTypes)
    ensures db.regulations == old(db.regulations)
    ensures !ValidId(notificationId) ==> r == Throw(BadRequest, "Invalid document ID")
    ensures ValidId(notificationId) && notificationId !in old(db.notifications.docs) ==>
      r == Throw(NotFound, "Notification not found")
    ensures ValidId(notificationId) && notificationId in old(db.notifications.docs) && fault.Some? ==>
      r == Throw(InternalServerError, "Error updating notification")
    ensures r.Ok? <==> ValidId(notificationId) && notificationId in old(db.notifications.docs) && fault.None?
    ensures r.Fails? ==> db.notifications == old(db.notifications)
    ensures r.Ok? ==>
      r.value == Patched(old(db.notifications.docs[notificationId]), updateBody) &&
      db.notifications == old(db.notifications).Replace(notificationId, r.value)
  {
    if !ValidId(notificationId) {
      return Throw(BadRequest, "Invalid document ID");
    }
    var found := GetNotificationById(db.notifications, notificationId);
    if found.Fails? {
      return Caught(found, "Error updating notification");
    }
    if notificationId !in db.notifications.docs {
      assert false;
    }
    var notification := Patched(found.value, updateBody);
    if fault.Some? {
      return Caught(Fails(Internal(fault.value)), "Error updating notification");
    }
    db.notifications := db.notifications.Replace(notificationId, notification);
    r := Ok(notification);
  }

  /**
   * `deleteNotificationById`: the record removed and its state before the
   * removal returned; a later delete of the same id is a 404.
   */
  method DeleteNotificationById(db: Db, notificationId: Id, fault: Option<string>) returns (r: Outcome<Notification>)
    requires db.Valid()
    modifies db
    ensures db.Valid()
    ensures db.forms == old(db.forms) && db.formTypes == old(db.formTypes)
    ensures db.regulations == old(db.regulations)
    ensures !ValidId(notificationId) ==> r == Throw(BadRequest, "Invalid document ID")
    ensures ValidId(notificationId) && notificationId !in old(db.notifications.docs) ==>
      r == Throw(NotFound, "Notification not found")
    ensures ValidId(notificationId) && notificationId in old(db.notifications.docs) && fault.Some? ==>
      r == Throw(InternalServerError, "Error deleting notification")
    ensures r.Ok? <==> ValidId(notificationId) && notificationId in old(db.notifications.docs) && fault.None?
    ensures r.Fails? ==> db.notifications == old(db.notifications)
    ensures r.Ok? ==>
      r.value == old(db.notifications.docs[notificationId]) &&
      db.notifications == old(db.notifications).Remove(notificationId) &&
      notificationId !in db.notifications.docs
  {
    if !ValidId(notificationId) {
      return Throw(BadRequest, "Invalid document ID");
    }
    var found := GetNotificationById(db.notifications, notificationId);
    if found.Fails? {
      return Caught(found, "Error deleting notification");
    }
    if notificationId !in db.notifications.docs {
      assert false;
    }
    if fault.Some? {
      return Caught(Fails(Internal(fault.value)), "Error deleting notification");
    }
    db.notifications := db.notifications.Remove(notificationId);
    r := found;
  }

  /** Deleting twice: the second call finds nothing. */
  method DeleteNotificationTwice(db: Db, notificationId: Id) returns (first: Outcome<Notification>, second: Outcome<Notification>)
    requires db.Valid()
    modifies db
    ensures first.Ok? ==> second == Throw(NotFound, "Notification not found")
  {
    first := DeleteNotificationById(db, notificationId, None);
    second := DeleteNotificationById(db, notificationId, None);
  }

  /** An update reads back: the record under the id is the patched one. */
  lemma GetAfterUpdate(notifications: Table<Notification>, notificationId: Id, patch: NotificationPatch)
    requires notifications.Valid() && ValidId(notificationId) && notificationId in notifications.docs
    ensures var updated := notifications.Replace(notificationId, Patched(notifications.docs[notificationId], patch));
      GetNotificationById(updated, notificationId).Ok? &&
      GetNotificationById(updated, notificationId).value.title == patch.title.GetOr(notifications.docs[notificationId].title) &&
      GetNotificationById(updated, notificationId).value.message == patch.message.GetOr(notifications.docs[notificationId].message)
  {
  }

  /** Once a notification is deleted, looking it up gives 404. */
  lemma GetAfterDelete(notifications: Table<Notification>, notificationId: Id)
    requires notifications.Valid() && ValidId(notificationId)
    ensures GetNotificationById(notifications.Remove(notificationId), notificationId) == Throw(NotFound, "Notification not found")
  {
  }
}
