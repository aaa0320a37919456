/** The push message built for a `notifications` document (functions/index.js:441-510):
    the string-only data payload and the delivery settings that distinguish an incoming
    call from any other notification. */
module Notifications {
  import opened Outcomes
  import opened JsValues

  /** The notification document fields the message depends on; "" stands for an unset
      or empty field. */
  datatype Notification = Notification(
    notificationType: string,
    priority: string,
    title: string,
    body: string,
    data: map<string, JsValue>)

  /** `String(value)` for a value that is not an object and not null or undefined;
      objects and arrays go through `JSON.stringify`, which the JSON text of `Object`
      already is. The decimal rendering of a number is a parameter. */
  function Stringify(v: JsValue, numberText: JsNumber -> string): string
    requires !v.Null? && !v.Undefined?
  {
    match v
    case Bool(b) => if b then "true" else "false"
    case Number(n) => numberText(n)
    case Str(s) => s
    case Object(json) => json
  }

  /** The data fields that survive the conversion, as strings. */
  function Converted(data: map<string, JsValue>, numberText: JsNumber -> string): map<string, string> {
    map k | k in data && !data[k].Null? && !data[k].Undefined? :: Stringify(data[k], numberText)
  }

  /** `notification.type || "general"`. */
  function TypeOrGeneral(t: string): string {
    if t == "" then "general" else t
  }

  /** The data payload: the converted data, then `notificationId` and `type`, then the
      sender's photo as `imageUrl` when there is one; later writes win. */
  function DataPayload(n: Notification, notificationId: string, senderPhotoUrl: string,
                       numberText: JsNumber -> string): map<string, string> {
    var p := Converted(n.data, numberText)["notificationId" := notificationId]["type" := TypeOrGeneral(n.notificationType)];
    if senderPhotoUrl != "" then p["imageUrl" := senderPhotoUrl] else p
  }

  /** The `forEach` over the data fields followed by the fixed fields. */
  method BuildDataPayload(n: Notification, notificationId: string, senderPhotoUrl: string,
                          numberText: JsNumber -> string) returns (payload: map<string, string>)
    ensures payload == DataPayload(n, notificationId, senderPhotoUrl, numberText)
  {
    payload := map[];
    var keys := n.data.Keys;
    while keys != {}
      invariant keys <= n.data.Keys
      invariant payload == map k | k in n.data.Keys - keys && !n.data[k].Null? && !n.data[k].Undefined? :: Stringify(n.data[k], numberText)
      decreases keys
    {
      var key :| key in keys;
      var value := n.data[key];
      if !value.Null? && !value.Undefined? {
        payload := payload[key := Stringify(value, numberText)];
      }
      keys := keys - {key};
    }
    payload := payload["notificationId" := notificationId];
    payload := payload["type" := TypeOrGeneral(n.notificationType)];
    if senderPhotoUrl != "" {
      payload := payload["imageUrl" := senderPhotoUrl];
    }
  }

  /** What the payload holds: the notification id and type always, overriding data
      fields of the same name; the photo as `imageUrl` when the sender has one, and
      otherwise a data field `imageUrl` survives; every other data field exactly when it
      is neither null nor undefined, and nothing else. */
  lemma PayloadContents(n: Notification, notificationId: string, senderPhotoUrl: string,
                        numberText: JsNumber -> string)
    ensures var p := DataPayload(n, notificationId, senderPhotoUrl, numberText);
            && p["notificationId"] == notificationId
            && p["type"] == (if n.notificationType == "" then "general" else n.notificationType)
            && p["type"] != ""
            && (senderPhotoUrl != "" ==> p["imageUrl"] == senderPhotoUrl)
            && (forall k :: k in p <==>
                  k == "notificationId" || k == "type" || (k == "imageUrl" && senderPhotoUrl != "") ||
                  (k in n.data && !n.data[k].Null? && !n.data[k].Undefined?))
            && (forall k :: k in p && k != "notificationId" && k != "type" && !(k == "imageUrl" && senderPhotoUrl != "") ==>
                  p[k] == Stringify(n.data[k], numberText))
  {
  }

  /** The Android part of the message. */
  datatype AndroidConfig = AndroidConfig(
    priority: string,
    channelId: string,
    notificationPriority: string,
    tag: Option<string>,
    sticky: bool)

  /** The APNs part of the message. */
  datatype ApnsConfig = ApnsConfig(
    apnsPriority: string,
    interruptionLevel: string,
    category: Option<string>,
    mutableContent: bool)

  datatype Delivery = Delivery(title: string, body: string, android: AndroidConfig, apns: ApnsConfig)

  predicate IsCall(n: Notification) {
    n.notificationType == "audio_call" || n.notificationType == "video_call"
  }

  /** The delivery settings of the message. */
  function DeliveryFor(n: Notification, senderPhotoUrl: string): Delivery {
    var call := IsCall(n);
    var requestedHigh := n.priority == "high";
    Delivery(
      if n.title == "" then "Talia" else n.title,
      if n.body == "" then "Tienes una nueva notificación" else n.body,
      AndroidConfig(
        if call then "high" else if requestedHigh then "high" else "normal",
        if call then "calls_channel" else "high_importance_channel",
        if call then "max" else if requestedHigh then "high" else "default",
        if call then Some("incoming_call") else None,
        call),
      ApnsConfig(
        if call then "10" else "5",
        if call then "time-sensitive" else "active",
        if call then Some("INCOMING_CALL") else None,
        senderPhotoUrl != ""))
  }

  /** Calls, and only calls, get the calls channel, the top APNs priority, a sticky
      tagged Android notification and the time-sensitive call category. Any other
      notification is high priority on Android exactly when it asks for it, and never
      gets the top APNs priority. */
  lemma CallsAreDeliveredUrgently(n: Notification, senderPhotoUrl: string)
    ensures var d := DeliveryFor(n, senderPhotoUrl);
            && (IsCall(n) <==> d.android.channelId == "calls_channel")
            && (IsCall(n) <==> d.apns.apnsPriority == "10")
            && (IsCall(n) <==> d.android.sticky)
            && (IsCall(n) <==> d.android.tag.Some?)
            && (IsCall(n) <==> d.apns.category.Some?)
            && (IsCall(n) <==> d.apns.interruptionLevel == "time-sensitive")
            && (IsCall(n) ==> d.android.priority == "high" && d.android.notificationPriority == "max")
            && (!IsCall(n) ==> (d.android.priority == "high" <==> n.priority == "high"))
            && (!IsCall(n) ==> (d.android.notificationPriority == "high" <==> n.priority == "high"))
            && (d.apns.apnsPriority == "10" ==> d.android.priority == "high")
            && (d.apns.mutableContent <==> senderPhotoUrl != "")
            && d.title != "" && d.body != ""
            && (n.title != "" ==> d.title == n.title)
  {
  }
}
