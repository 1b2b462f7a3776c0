/**
 * The assistant side of a send: what is forwarded upstream, which text is
 * stored as the assistant's message (the reply, or an apology naming the
 * failure), and the character-by-character reveal of a reply.
 *
 * The HTTP exchange itself is not modelled; its outcome is an input.
 */
module ChatReply {
  import opened Optional
  import opened Text

  /** One entry of the `messages` array in the request body. */
  datatype WireMessage = WireMessage(role: string, content: string)

  /**
   * The outcome of the upstream call as seen by the page: either the call
   * or the decoding of its body threw (`reason` is the error's message), or
   * a response arrived with a status and, possibly, the content of the
   * first choice.
   */
  datatype Upstream =
    | Unreachable(reason: string)
    | Answered(status: nat, firstChoice: Option<string>)

  const SystemInstruction: string :=
    "You are MannieTech AI, a helpful AI assistant specialized in web development, coding, design, and technology. Provide clear, concise, and helpful responses. Keep responses focused on web development topics when possible."

  const ApologyLead: string := "I apologize, but I'm having trouble connecting right now. Error: "
  const ApologyTail: string := ". Please reach out to Manasseh or try again."
  const StatusFailurePrefix: string := "API request failed: "
  const NoResponse: string := "No response from AI"

  /**
   * The conversation sent upstream: the fixed system instruction and the
   * latest user message only; no earlier message of the session is sent.
   */
  function UpstreamMessages(userMessage: string): (r: seq<WireMessage>)
    ensures |r| == 2 && r[0].role == "system" && r[|r| - 1] == WireMessage("user", userMessage)
  {
    [WireMessage("system", SystemInstruction), WireMessage("user", userMessage)]
  }

  /** `response.ok`: a status in the 2xx range. */
  predicate IsOk(status: nat)
  {
    200 <= status <= 299
  }

  /** The text shown and stored when the call fails. */
  function Apology(detail: string): string
  {
    ApologyLead + detail + ApologyTail
  }

  /** The error message that is thrown, if any: `None` means the reply is used. */
  function FailureDetail(up: Upstream): Option<string>
  {
    match up
    case Unreachable(reason) => Some(reason)
    case Answered(status, choice) =>
      if !IsOk(status) then Some(StatusFailurePrefix + Decimal(status))
      else if choice == None || choice == Some("") then Some(NoResponse)
      else None
  }

  /**
   * What streamAIResponseWithClearTyping returns, and so what is stored as
   * the assistant's message: the reply text, or the apology embedding the
   * error message.
   */
  function ReplyContent(up: Upstream): (r: string)
    ensures FailureDetail(up).None? ==> up.Answered? && up.firstChoice.Some? && r == up.firstChoice.value
    ensures FailureDetail(up).Some? ==> r == Apology(FailureDetail(up).value)
  {
    match FailureDetail(up)
    case Some(detail) => Apology(detail)
    case None => up.firstChoice.value
  }

  /** The stored assistant content is never empty: an empty reply is replaced by the apology. */
  lemma StoredReplyIsNeverEmpty(up: Upstream)
    ensures ReplyContent(up) != ""
    ensures up.Answered? && IsOk(up.status) && up.firstChoice.Some? && up.firstChoice.value != "" ==>
              ReplyContent(up) == up.firstChoice.value
  {
    if FailureDetail(up).Some? {
      assert |ReplyContent(up)| >= |ApologyLead|;
    }
  }

  /** A non-2xx response is reported in the stored text as "API request failed: <status>". */
  lemma FailedStatusIsReported(status: nat, choice: Option<string>)
    requires !IsOk(status)
    ensures Contains(ReplyContent(Answered(status, choice)), StatusFailurePrefix + Decimal(status))
  {
    var detail := StatusFailurePrefix + Decimal(status);
    var r := ReplyContent(Answered(status, choice));
    assert r[|ApologyLead|..|ApologyLead| + |detail|] == detail;
    assert OccursAt(r, detail, |ApologyLead|);
  }

  /** A 2xx response without usable content is reported as "No response from AI". */
  lemma MissingReplyIsReported(status: nat, choice: Option<string>)
    requires IsOk(status) && (choice == None || choice == Some(""))
    ensures Contains(ReplyContent(Answered(status, choice)), NoResponse)
  {
    var r := ReplyContent(Answered(status, choice));
    assert r[|ApologyLead|..|ApologyLead| + |NoResponse|] == NoResponse;
    assert OccursAt(r, NoResponse, |ApologyLead|);
  }

  /**
   * The typewriter loop: appends the reply one character at a time; when
   * it ends the displayed text is the whole reply.
   */
  method TypeOut(fullResponse: string) returns (displayedText: string)
    ensures displayedText == fullResponse
  {
    displayedText := "";
    for i := 0 to |fullResponse|
      invariant displayedText == fullResponse[..i]
    {
      displayedText := displayedText + [fullResponse[i]];
    }
  }

  /**
   * streamAIResponseWithClearTyping given the upstream outcome: `shown` is
   * what the message element holds at the end and `stored` is the value
   * returned to be saved; both are the reply content.
   */
  method StreamReply(up: Upstream) returns (shown: string, stored: string)
    ensures stored == ReplyContent(up)
    ensures shown == stored
  {
    match FailureDetail(up)
    case Some(detail) =>
      stored := Apology(detail);
      shown := stored;
    case None =>
      var fullResponse := up.firstChoice.value;
      shown := TypeOut(fullResponse);
      stored := fullResponse;
  }
}
