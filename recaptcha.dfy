/**
 * `verify_recaptcha`: the bot check that gates registration. The HTTP round trip
 * to Google's siteverify endpoint is an oracle; what is kept is the payload it is
 * given and the guard that an unconfigured secret rejects every token.
 */
module Recaptcha {
  import opened Wrappers

  /**
   * The siteverify endpoint, given the posted form fields: the `success` field
   * of its JSON answer (false when the field is absent), or None when the
   * request, the timeout or the JSON decoding raised.
   */
  type SiteVerify = map<string, string> -> Option<bool>

  /** The remote address is sent only when it is present and not empty. */
  function Payload(secret: string, token: string, remoteIp: Option<string>): (p: map<string, string>)
    ensures "secret" in p && p["secret"] == secret
    ensures "response" in p && p["response"] == token
    ensures "remoteip" in p <==> remoteIp.Some? && remoteIp.value != ""
    ensures "remoteip" in p ==> p["remoteip"] == remoteIp.value
    ensures p.Keys <= {"secret", "response", "remoteip"}
  {
    var base := map["secret" := secret, "response" := token];
    if remoteIp.Some? && remoteIp.value != "" then base["remoteip" := remoteIp.value] else base
  }

  /**
   * True only when a secret is configured and siteverify answered success; an
   * empty secret, a failed request and an unsuccessful answer all give false.
   */
  function VerifyRecaptcha(secret: string, token: string, remoteIp: Option<string>, siteverify: SiteVerify): (ok: bool)
    ensures secret == "" ==> !ok
    ensures ok <==> secret != "" && siteverify(Payload(secret, token, remoteIp)) == Some(true)
  {
    if secret == "" then false
    else
      match siteverify(Payload(secret, token, remoteIp))
      case Some(success) => success
      case None => false
  }
}
