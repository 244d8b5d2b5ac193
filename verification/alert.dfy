/** The alert that `send_alert` / `post_alert` sends: the six-key JSON
    payload, the bearer header and the endpoint. The HTTP exchange itself is
    an effect; its result is an input (`Delivery`), and only the messages
    `send_alert` logs depend on it. */
module AlertDispatcher {

  import opened Wrappers
  import opened Json
  import opened ConfigResolver

  const ContentType := "text/plain"
  const SubjectPrefix := "Scheduled execution failed: "

  const PayloadKeys: set<string> := {"channel", "category", "origin", "subject", "contentType", "body"}

  /** The object `json!` builds in `post_alert`. */
  function Payload(config: AlertConfig, subject: string, contentType: string, body: string): (p: map<string, Value>)
    ensures p.Keys == PayloadKeys && |p| == 6
    ensures p["channel"] == Str(config.channel)
    ensures p["category"] == FromOption(config.category) && (p["category"] == Null <==> config.category.None?)
    ensures p["origin"] == FromOption(config.origin) && (p["origin"] == Null <==> config.origin.None?)
    ensures p["subject"] == Str(subject) && p["contentType"] == Str(contentType) && p["body"] == Str(body)
  {
    var p := map[
      "channel" := Str(config.channel),
      "category" := FromOption(config.category),
      "origin" := FromOption(config.origin),
      "subject" := Str(subject),
      "contentType" := Str(contentType),
      "body" := Str(body)];
    assert p.Keys == PayloadKeys;
    assert |PayloadKeys| == 6 by {
      assert PayloadKeys == {"channel"} + {"category"} + {"origin"} + {"subject"} + {"contentType"} + {"body"};
    }
    p
  }

  /** The POST request: where it goes, its `Authorization` header, its body. */
  datatype Request = Request(endpoint: string, authorization: string, payload: map<string, Value>)

  /** `send_alert`'s request: a plain-text alert with the given subject and
      body, sent to the configured endpoint with the configured token. */
  function AlertRequest(config: AlertConfig, subject: string, body: string): (req: Request)
    ensures req.endpoint == config.endpoint
    ensures req.authorization == "Bearer " + config.token
    ensures req.payload == Payload(config, subject, ContentType, body)
    ensures req.payload["contentType"] == Str("text/plain")
  {
    Request(config.endpoint, "Bearer " + config.token, Payload(config, subject, ContentType, body))
  }

  /** How the POST ended: the confirmation key of a JSON reply, or the text
      of the transport or decoding error. */
  datatype Delivery = Delivered(key: string) | DeliveryFailed(reason: string)

  /** What `send_alert` writes to standard error around the POST. */
  function SendAlertLog(delivery: Delivery): (log: seq<string>)
    ensures |log| == 2 && log[0] == "Command failed. Sending alert..."
    ensures delivery.Delivered? ==> log[1] == "Alert sent. Key: " + delivery.key
    ensures delivery.DeliveryFailed? ==> log[1] == "Failed to send alert: " + delivery.reason
  {
    ["Command failed. Sending alert...",
     match delivery
     case Delivered(key) => "Alert sent. Key: " + key
     case DeliveryFailed(reason) => "Failed to send alert: " + reason]
  }
}
