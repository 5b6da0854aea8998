/** The chat widget (`script.js`, class `MissCheckerChatbot`). The fields stand
    for the page elements it drives: the text area's value, the send button's
    `disabled` flag, the error banner's visibility and text, and the list of
    messages shown. `handleSendMessage` is split at its `await`: `Submit` is
    the part that runs when the user sends, `Complete` the part that runs when
    the relay's answer (or a failure) arrives. */
module Widget {
  import opened JsValues
  import opened JsStrings
  import Format

  /** The longest message, after trimming, the widget sends. */
  const MaxLength := 285

  /** The two messages the error banner shows. */
  datatype Notice = TooLongNotice | FailureNotice

  function NoticeText(n: Notice): string
  {
    match n
    case TooLongNotice => "Message too long. Please keep it under 285 characters."
    case FailureNotice => "Failed to get response. Please check your connection and try again."
  }
  const ApologyText := "I apologize, but I encountered an error processing your request. Please try again later."
  const NoResponseText := "No response received."

  /** The CSS class each message carries. */
  datatype Role = User | Bot | Error

  /** One message of the transcript: for a bot message the value given to
      `innerHTML` (the formatted reply), otherwise the value given to
      `textContent`. */
  datatype Entry = Entry(content: Json, role: Role)

  /** What the widget's `fetch` to the relay gives: a status and the body as
      `response.json()` reads it, or a rejection (network failure). */
  datatype Reply = Answered(status: int, body: Parse) | Unreachable

  /** The text the user is allowed to send. */
  predicate ValidInput(text: string)
  {
    0 < |Trim(text)| <= MaxLength
  }

  predicate TooLong(text: string)
  {
    |Trim(text)| > MaxLength
  }

  /** `sendToAPI`'s outcome: `None` when it throws (a transport failure, a
      status outside 200-299, a body that is not JSON, or `null` data whose
      `response` cannot be read), else `data.response || data.message ||
      "No response received."`. */
  function SelectReply(reply: Reply): (r: Option<Json>)
    ensures r.Some? <==> reply.Answered? && 200 <= reply.status <= 299 && reply.body.Parsed?
                         && !reply.body.value.JNull?
    // the reply handed on is never falsy
    ensures r.Some? ==> Truthy(r)
    // `response` wins over `message`; the fixed text only when both are falsy
    ensures r.Some? && Truthy(Property(reply.body.value, "response")) ==>
              r == Property(reply.body.value, "response")
    ensures r.Some? && !Truthy(Property(reply.body.value, "response"))
                    && Truthy(Property(reply.body.value, "message")) ==>
              r == Property(reply.body.value, "message")
    ensures r.Some? && !Truthy(Property(reply.body.value, "response"))
                    && !Truthy(Property(reply.body.value, "message")) ==>
              r == Some(JString(NoResponseText))
  {
    if reply.Unreachable? || !(200 <= reply.status <= 299) || reply.body.Unparseable? then None
    else if reply.body.value.JNull? then None
    else
      var data := reply.body.value;
      Or(Or(Property(data, "response"), Property(data, "message")), Some(JString(NoResponseText)))
  }

  /** The JSON body the widget posts for `message` (the timestamp is the
      client clock's ISO string, an input here). */
  function RequestBody(message: string, timestamp: string): Json
  {
    JObject(map["message" := JString(message), "timestamp" := JString(timestamp)])
  }

  class Chatbot {
    var input: string
    var isLoading: bool
    var sendDisabled: bool
    var errorVisible: bool
    var errorNotice: Option<Notice>
    var transcript: seq<Entry>

    /** What holds whenever no handler is running: the button is disabled
        exactly when the trimmed input is empty or too long or a request is
        in flight. */
    predicate Valid()
      reads this
    {
      sendDisabled == (!ValidInput(input) || isLoading)
    }

    /** What holds right after every validation: the banner is up exactly
        when the input is too long, showing the too-long notice. The
        five-second timer of `showError` ends it by hiding a too-long banner
        while the input stays too long, so this is not an invariant. */
    predicate BannerMatchesInput()
      reads this
    {
      errorVisible == TooLong(input) && (errorVisible ==> errorNotice == Some(TooLongNotice))
    }

    /** The constructor and the initial `validateInput` of line 53, on the
        text area's initial value. */
    constructor (initialInput: string)
      ensures Valid() && BannerMatchesInput()
      ensures input == initialInput && !isLoading && transcript == []
    {
      input := initialInput;
      isLoading := false;
      sendDisabled := false;
      errorVisible := false;
      errorNotice := None;
      transcript := [];
      new;
      ValidateInput();
    }

    /** `showError`: show the banner with notice `n`. Its timer, five seconds
        later, runs `HideError`. */
    method ShowError(n: Notice)
      modifies this`errorNotice, this`errorVisible
      ensures errorNotice == Some(n) && errorVisible
      ensures Valid() == old(Valid())
    {
      errorNotice := Some(n);
      errorVisible := true;
    }

    /** `hideError`, called by `validateInput` and by the timer of
        `showError`; the button rule is not its concern and survives it. */
    method HideError()
      modifies this`errorVisible
      ensures !errorVisible
      ensures Valid() == old(Valid())
    {
      errorVisible := false;
    }

    /** `validateInput`: the button state and the too-long banner from the
        trimmed input. */
    method ValidateInput()
      modifies this`sendDisabled, this`errorNotice, this`errorVisible
      ensures Valid() && BannerMatchesInput()
      ensures errorNotice == if TooLong(input) then Some(TooLongNotice) else old(errorNotice)
    {
      var message := Trim(input);
      var isValid := |message| > 0 && |message| <= MaxLength;
      sendDisabled := !isValid || isLoading;
      if |message| > MaxLength {
        ShowError(TooLongNotice);
      } else {
        HideError();
      }
    }

    /** The `input` listener of lines 48 to 50: the user edits the text. */
    method InputChanged(text: string)
      modifies this`input, this`sendDisabled, this`errorNotice, this`errorVisible
      ensures input == text && Valid() && BannerMatchesInput()
    {
      input := text;
      ValidateInput();
    }

    /** `addMessage`: append one entry; a bot reply is formatted first. */
    method AddMessage(text: Json, role: Role)
      modifies this`transcript
      ensures transcript == old(transcript) + [Entry(if role == Bot then Format.FormatBotResponse(text) else text, role)]
    {
      var shown := if role == Bot then Format.FormatBotResponse(text) else text;
      transcript := transcript + [Entry(shown, role)];
    }

    /** `setLoadingState`: set the flag, then revalidate (which decides the
        button and the banner). */
    method SetLoadingState(loading: bool)
      modifies this`isLoading, this`sendDisabled, this`errorNotice, this`errorVisible
      ensures isLoading == loading && Valid() && BannerMatchesInput()
      ensures errorNotice == if TooLong(input) then Some(TooLongNotice) else old(errorNotice)
    {
      isLoading := loading;
      sendDisabled := loading;
      ValidateInput();
    }

    /** Lines 88 to 106: the synchronous part of `handleSendMessage`. Returns
        the message handed to `sendToAPI`, if one is sent. */
    method Submit() returns (sent: Option<string>)
      requires Valid()
      modifies this
      ensures Valid()
      // one request at a time, and only for a valid input
      ensures sent.Some? <==> ValidInput(old(input)) && !old(isLoading)
      // nothing happens on an empty input or while a request is in flight
      ensures |Trim(old(input))| == 0 || old(isLoading) ==>
                input == old(input) && isLoading == old(isLoading) && transcript == old(transcript)
                && sendDisabled == old(sendDisabled) && errorVisible == old(errorVisible)
                && errorNotice == old(errorNotice)
      // a too-long input only shows the banner
      ensures !old(isLoading) && TooLong(old(input)) ==>
                input == old(input) && !isLoading && transcript == old(transcript)
                && errorVisible && errorNotice == Some(TooLongNotice) && BannerMatchesInput()
      // a valid input is logged as the user's, trimmed, and the widget starts waiting
      ensures sent.Some? ==>
                sent.value == Trim(old(input))
                && transcript == old(transcript) + [Entry(JString(Trim(old(input))), User)]
                && input == "" && isLoading && sendDisabled && !errorVisible && BannerMatchesInput()
                && errorNotice == old(errorNotice)
    {
      var message := Trim(input);
      if |message| == 0 || isLoading {
        return None;
      }
      if |message| > MaxLength {
        ShowError(TooLongNotice);
        return None;
      }
      StartRequest(message);
      sent := Some(message);
    }

    /** Lines 97 to 106: log `message` as the user's, clear the text area and
        start waiting. */
    method StartRequest(message: string)
      modifies this
      ensures transcript == old(transcript) + [Entry(JString(message), User)]
      ensures input == "" && isLoading && Valid() && BannerMatchesInput()
      ensures sendDisabled && !errorVisible && errorNotice == old(errorNotice)
    {
      AddMessage(JString(message), User);
      input := "";
      ValidateInput();
      SetLoadingState(true);
    }

    /** Lines 108 to 123: the rest of `handleSendMessage`, once `sendToAPI`
        has settled with `reply`. The `finally` revalidates the input, and so
        hides the failure banner that the `catch` has just shown. */
    method Complete(reply: Reply)
      modifies this
      ensures Valid()
      // exactly one entry: the formatted reply, or the fixed apology
      ensures SelectReply(reply).Some? ==>
                transcript == old(transcript) + [Entry(Format.FormatBotResponse(SelectReply(reply).value), Bot)]
      ensures SelectReply(reply).None? ==>
                transcript == old(transcript) + [Entry(JString(ApologyText), Error)]
      // the widget stops waiting; the input is left as it was
      ensures !isLoading && input == old(input)
      // no failure banner survives: the banner is up only for a too-long input
      ensures BannerMatchesInput()
      // the hidden banner keeps the failure notice after a failure, and its old notice after a reply
      ensures !TooLong(input) && SelectReply(reply).None? ==> errorNotice == Some(FailureNotice)
      ensures !TooLong(input) && SelectReply(reply).Some? ==> errorNotice == old(errorNotice)
    {
      var r := SelectReply(reply);
      if r.Some? {
        AddMessage(r.value, Bot);
      } else {
        AddMessage(JString(ApologyText), Error);
        ShowError(FailureNotice);
      }
      SetLoadingState(false);
    }
  }
}
