/** The widget and the relay together: what the widget posts is what the
    relay accepts and forwards, and what the relay answers is what the widget
    shows. */
module EndToEnd {
  import opened JsValues
  import opened JsStrings
  import Relay
  import Widget
  import Format

  /** The relay's response as the widget's `fetch` reads it: the status, and
      the body parsed back (`JSON.parse` of `JSON.stringify` gives the value
      back; the empty text does not parse). */
  function AsSeenByClient(r: Relay.Response): Widget.Reply
  {
    Widget.Answered(r.status, if r.body.Serialized? then Parsed(r.body.value) else Unparseable)
  }

  /** The relay's outcome for the body the widget posts with `message`. */
  function RelayAnswer(config: Relay.Config, message: string, timestamp: string, upstream: Relay.Upstream): Relay.Outcome
  {
    Relay.Handle("POST", config, Parsed(Widget.RequestBody(message, timestamp)), upstream)
  }

  /** Every message the widget sends passes the relay's checks: the relay's
      stricter-looking length rule (on the untrimmed text) never refuses it,
      because the widget sends the trimmed text. */
  lemma WidgetMessagesAreAccepted(input: string, timestamp: string)
    requires Widget.ValidInput(input)
    ensures Relay.AcceptedMessage(Parsed(Widget.RequestBody(Trim(input), timestamp))) == Some(Trim(input))
  {
    TrimIdempotent(input);
  }

  /** With the relay configured, the message the widget sends is forwarded
      upstream exactly as sent. */
  lemma WidgetMessagesAreForwarded(config: Relay.Config, input: string, timestamp: string, upstream: Relay.Upstream)
    requires !Relay.ConfigMissing(config) && Widget.ValidInput(input)
    ensures RelayAnswer(config, Trim(input), timestamp, upstream).forwarded ==
            Some(Relay.UpstreamCall(config.apiUrl.value, config.apiKey.value, Trim(input)))
  {
    WidgetMessagesAreAccepted(input, timestamp);
  }

  /** An ok upstream answer reaches the widget as if the widget had asked
      upstream itself; a failed or refused one makes the widget apologise. */
  lemma UpstreamAnswerReachesWidget(config: Relay.Config, input: string, timestamp: string, upstream: Relay.Upstream)
    requires !Relay.ConfigMissing(config) && Widget.ValidInput(input)
    ensures upstream.Replied? && Relay.IsOk(upstream.status) ==>
              Widget.SelectReply(AsSeenByClient(RelayAnswer(config, Trim(input), timestamp, upstream).response)) ==
              Widget.SelectReply(Widget.Answered(200, Parsed(upstream.data)))
    ensures upstream.Failed? || !Relay.IsOk(upstream.status) ==>
              Widget.SelectReply(AsSeenByClient(RelayAnswer(config, Trim(input), timestamp, upstream).response)) == None
  {
    WidgetMessagesAreForwarded(config, input, timestamp, upstream);
  }

  /** An unconfigured relay answers 500, which the widget shows as the
      apology. */
  lemma MissingConfigurationMakesWidgetApologise(config: Relay.Config, message: string, timestamp: string, upstream: Relay.Upstream)
    requires Relay.ConfigMissing(config)
    ensures RelayAnswer(config, message, timestamp, upstream).forwarded == None
    ensures Widget.SelectReply(AsSeenByClient(RelayAnswer(config, message, timestamp, upstream).response)) == None
  {
  }

  /** One send from the widget through the relay and back: the widget logs
      the trimmed text and the reply (or the apology), and the relay forwards
      that trimmed text exactly once. */
  method RoundTrip(bot: Widget.Chatbot, config: Relay.Config, timestamp: string, upstream: Relay.Upstream)
      returns (forwarded: Option<Relay.UpstreamRequest>)
    requires bot.Valid()
    modifies bot
    ensures bot.Valid() && bot.isLoading == old(bot.isLoading)
    ensures Widget.ValidInput(old(bot.input)) && !old(bot.isLoading) ==> bot.BannerMatchesInput()
    ensures forwarded.Some? <==> Widget.ValidInput(old(bot.input)) && !old(bot.isLoading) && !Relay.ConfigMissing(config)
    ensures forwarded.Some? ==>
              forwarded.value == Relay.UpstreamCall(config.apiUrl.value, config.apiKey.value, Trim(old(bot.input)))
    ensures Widget.ValidInput(old(bot.input)) && !old(bot.isLoading) ==>
              var reply := AsSeenByClient(RelayAnswer(config, Trim(old(bot.input)), timestamp, upstream).response);
              |bot.transcript| == |old(bot.transcript)| + 2
              && bot.transcript[..|old(bot.transcript)| + 1] ==
                 old(bot.transcript) + [Widget.Entry(JString(Trim(old(bot.input))), Widget.User)]
              && (Widget.SelectReply(reply).Some? ==>
                    bot.transcript[|old(bot.transcript)| + 1] ==
                    Widget.Entry(Format.FormatBotResponse(Widget.SelectReply(reply).value), Widget.Bot))
              && (Widget.SelectReply(reply).None? ==>
                    bot.transcript[|old(bot.transcript)| + 1] == Widget.Entry(JString(Widget.ApologyText), Widget.Error))
  {
    var sent := bot.Submit();
    if sent.None? {
      return None;
    }
    var outcome := RelayAnswer(config, sent.value, timestamp, upstream);
    WidgetMessagesAreAccepted(old(bot.input), timestamp);
    bot.Complete(AsSeenByClient(outcome.response));
    forwarded := outcome.forwarded;
  }
}
