/**
 * The request schemas of the notification routes: create needs a title and
 * a message; update takes the id from the path, checked by the custom
 * `objectId` rule, and a body of at least one of title and message.
 * custom.validation.js is not part of this model, so its rule is the
 * parameter `isObjectId`.
 */
module NotificationValidation {
  import opened Wrappers
  import opened JoiRules
  import NotificationService

  const Keys: set<string> := {"title", "message"}

  predicate CreateNotification(body: Part) {
    KeysWithin(body, Keys)
    && "title" in body && IsString(body["title"])
    && "message" in body && IsString(body["message"])
  }

  predicate UpdateParams(params: Part, isObjectId: string -> bool) {
    KeysWithin(params, {"notificationId"})
    && ("notificationId" in params ==> IsString(params["notificationId"]) && isObjectId(params["notificationId"].s))
  }

  predicate UpdateBody(body: Part) {
    KeysWithin(body, Keys)
    && ("title" in body ==> IsString(body["title"]))
    && ("message" in body ==> IsString(body["message"]))
    && |body| >= 1
  }

  predicate UpdateNotification(params: Part, body: Part, isObjectId: string -> bool) {
    UpdateParams(params, isObjectId) && UpdateBody(body)
  }

  /** The patch an admitted update body amounts to. */
  function PatchOf(body: Part): (p: NotificationService.NotificationPatch)
    requires UpdateBody(body)
    ensures p.title.Some? <==> "title" in body
    ensures p.message.Some? <==> "message" in body
  {
    NotificationService.NotificationPatch(
      if "title" in body then Some(body["title"].s) else None,
      if "message" in body then Some(body["message"].s) else None)
  }

  /** An admitted update body sets at least one key. */
  lemma UpdateSetsSomething(body: Part)
    requires UpdateBody(body)
    ensures PatchOf(body) != NotificationService.NotificationPatch(None, None)
  {
    assert body != map[];
    var k :| k in body;
    assert k == "title" || k == "message";
  }

  /** The empty body is refused, whatever the path. */
  lemma EmptyUpdateRefused(params: Part, isObjectId: string -> bool)
    ensures !UpdateNotification(params, map[], isObjectId)
  {
  }

  /** Every create body is an admissible update body. */
  lemma CreateIsUpdate(body: Part)
    requires CreateNotification(body)
    ensures UpdateBody(body)
  {
    assert "title" in body.Keys;
  }
}
