/**
 * The handler's `catch` block: whatever the page fetch or a generation
 * call throws becomes a 500 response whose `error` text is chosen from the
 * thrown value.
 */
module Upstream {
  import opened Wrappers
  import opened JsText

  /** The `response` an HTTP client attaches to an error for a reply it
      received: its status code and, when present, its reason phrase. */
  datatype HttpReply = HttpReply(status: int, statusText: Option<string>)

  /** What the handler reads from a thrown value: `e.response` and
      `e.message`, each possibly absent. */
  datatype Fault = Fault(response: Option<HttpReply>, message: Option<string>)

  /** A template literal prints an absent value as "undefined". */
  function Interpolate(text: Option<string>): string {
    match text
    case Some(t) => t
    case None => "undefined"
  }

  /** The fault carries a truthy `e.response.status`. */
  predicate HasStatus(e: Fault) {
    e.response.Some? && e.response.value.status != 0
  }

  /** The `error` text sent for a fault: "Upstream <status> <statusText>"
      when the fault carries a status; otherwise its message if non-empty;
      otherwise "fetch failed". */
  function FaultMessage(e: Fault): (m: string)
    ensures m != ""
  {
    if HasStatus(e) then
      "Upstream " + IntToString(e.response.value.status) + " " + Interpolate(e.response.value.statusText)
    else if e.message.Some? && e.message.value != "" then e.message.value
    else "fetch failed"
  }

  /** Which text is chosen: a status wins over any message, a non-empty
      message wins over the fallback, and the fallback is used only when
      neither is there. */
  lemma FaultMessagePrecedence(e: Fault)
    ensures HasStatus(e) ==> FaultMessage(e) == FaultMessage(Fault(e.response, None))
    ensures !HasStatus(e) && e.message.Some? && e.message.value != "" ==> FaultMessage(e) == e.message.value
    ensures !HasStatus(e) && (e.message.None? || e.message.value == "") ==> FaultMessage(e) == "fetch failed"
  {
  }

  /** The status of an upstream reply can be read back from the message:
      the digits after "Upstream " are the status code, followed by a space
      and the reason phrase. */
  lemma UpstreamStatusReadBack(e: Fault)
    requires HasStatus(e) && e.response.value.status > 0
    ensures var digits := NatToString(e.response.value.status);
      && |FaultMessage(e)| > 9 + |digits|
      && FaultMessage(e)[..9] == "Upstream "
      && FaultMessage(e)[9..9 + |digits|] == digits
      && DecimalValue(FaultMessage(e)[9..9 + |digits|]) == e.response.value.status
      && FaultMessage(e)[9 + |digits|] == ' '
      && FaultMessage(e)[10 + |digits|..] == Interpolate(e.response.value.statusText)
  {
    var digits := NatToString(e.response.value.status);
    var m := FaultMessage(e);
    assert m == "Upstream " + digits + " " + Interpolate(e.response.value.statusText);
    assert m[9..9 + |digits|] == digits;
    NatToStringRoundTrip(e.response.value.status);
  }

  /** An upstream 404 becomes "Upstream 404 Not Found". */
  lemma NotFoundMessage()
    ensures FaultMessage(Fault(Some(HttpReply(404, Some("Not Found"))), Some("Request failed"))) ==
      "Upstream 404 Not Found"
  {
    assert IntToString(404) == "404" by {
      assert NatToString(4) == [DigitChar(4)] == "4";
      assert NatToString(40) == NatToString(4) + [DigitChar(0)] == "40";
      assert NatToString(404) == NatToString(40) + [DigitChar(4)] == "404";
    }
  }
}
