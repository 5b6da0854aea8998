# MissChecker chat: a Dafny model

MissChecker is a web page with a chat widget. Visitors use it to ask about the
safety of cosmetic ingredients. The system has two parts, and this project
models both, together with the path between them.

- **The relay** is a serverless function (`netlify/functions/chat.js`,
  `handler`). It accepts a POST whose JSON body carries a `message`. It
  checks its two environment values and validates the message, then
  forwards the message to the upstream analysis service with the API key in
  an `X-API-Key` header. It passes upstream's answer back with CORS headers,
  and maps every failure to a JSON `{error: ...}` body with a status code.
  Module `Relay` models it as one pure function, `Relay.Handle`. The
  environment, the parse of the request body and the outcome of the
  upstream call are its inputs.
- **The widget** is the page script (`script.js`, class
  `MissCheckerChatbot`). It keeps the send button enabled only while the
  trimmed text is between 1 and 285 characters and no request is in
  flight. It shows a banner for an over-long text. On send it appends the
  user's message to the transcript, clears the text area, POSTs to the
  relay, and appends either the bot reply or an apology. Bot replies are rewritten into HTML
  first: line breaks and bullets become markup, and whole-word safety
  terms are highlighted in colour. Module `Widget` models it as the class
  `Widget.Chatbot`. Its fields stand for the state of the page: the text
  area's value, the loading flag, the button's `disabled` flag, the
  banner's visibility and notice, and the transcript of messages.
  `handleSendMessage` is split at its `await` into `Submit` and `Complete`.
- **The reply formatter** (`formatBotResponse`) is pure. Module `Format`
  models it by functions and lemmas. `JsStrings` and `JsValues` model the
  JavaScript built-ins both parts rely on:
  - `trim`, with ECMAScript's whitespace set;
  - global literal `replace` and `includes`;
  - property reads, including the throw of a read on `null`;
  - truthiness and `||`.
- **The end-to-end path.** Module `EndToEnd` composes the two parts. It
  shows that every message the widget sends passes the relay's checks and,
  when the relay is configured, is forwarded exactly as sent, and that the relay's answer ends up in the
  widget's transcript.

Strings are sequences of Dafny characters, that is of Unicode scalar values.
`|s|` is JavaScript's `length` only for text inside the Basic Multilingual
Plane. A character above U+FFFF counts once here but twice in JavaScript.
So for such text the model's 285-character checks, in the widget and in the
relay, accept messages that the code rejects. A JSON value is the `JsValues.Json` datatype. A response body is
modelled as that value before `JSON.stringify`.

Where the code does something other than what the code's own comments and
dead branches suggest, the model follows the code:

- **OPTIONS.** The method gate runs before the CORS preflight branch, so
  an OPTIONS request gets 405, not an empty 200 (`Relay.PreflightUnreachable`).
- **What is forwarded.** The relay forwards the message as received, not
  trimmed.
- **The relay's length check.** It holds the untrimmed length against 285.
  Only the emptiness check is on the trimmed text.
- **A `null` body, or a truthy non-string `message`,** gets 500 "Internal server
  error", not a 4xx.
- **The failure banner.** The widget's "Failed to get response" banner
  does not stay up for five seconds. The `finally` clause calls
  `setLoadingState(false)`, which revalidates the input and hides the
  banner at once, unless the input is too long (`Widget.Chatbot.Complete`).
- **The dash-bullet rule** (`/^- /gm`) also fires after `\r`, U+2028 and
  U+2029, the other line terminators of a multiline regular expression.

## Model

| member | source | states |
|---|---|---|
| Relay.Handle | netlify/functions/chat.js:3-154 | Every response allows any origin. Any method but POST gets 405 "Method not allowed" with the methods header, and nothing is forwarded. Missing configuration gets 500 and a body that does not parse gets 400, both before anything is forwarded. A body that parses to a string, number, boolean or array has an undefined `message` and gets 400 "Message is required". Exactly one upstream POST is made, exactly when the method is POST, the configuration is present and the message is accepted, and it carries the untrimmed message with the key in `X-API-Key`. A non-ok upstream status is passed back with `{error: "Failed to process request", details}`. An ok one gives 200 with upstream's data. A failed call gives 500 `{error: "Internal server error", message}`. |
| Relay.ConfigMissing | netlify/functions/chat.js:47 | The configuration counts as missing when the API URL or the API key is absent or empty, the two falsy strings. Used by `Relay.Handle` and `Relay.TryBlock`. |
| Relay.UpstreamCall | netlify/functions/chat.js:101-110 | The one upstream request: a POST to the configured URL with a JSON content type, the key in `X-API-Key`, and a body holding only `message`. `Relay.Handle` states when it is made and with which message. |
| Relay.TryBlock | netlify/functions/chat.js:37-138 | Every response returned from the `try` allows any origin. It sends upstream exactly when the configuration is present and the body holds an accepted message. What it sends is that message to the configured URL with the key. A failing upstream call makes it throw with the call's message. |
| Relay.PreflightUnreachable | netlify/functions/chat.js:12-35 | An OPTIONS request is answered 405, never with the empty preflight body. |
| Relay.NullBodyIsInternalError | netlify/functions/chat.js:76-152 | A body of `null` parses, but reading its `message` throws. The catch-all answers 500 with the TypeError's message, and nothing is forwarded. |
| Relay.MessageTypeRules | netlify/functions/chat.js:76-85 | A missing or falsy `message` gets 400 "Message is required". A truthy non-string one has no `trim`, so the handler answers 500 with that TypeError and forwards nothing. |
| Relay.StringMessageRules | netlify/functions/chat.js:76-96 | A string message made only of whitespace gets 400 "Message is required". A non-blank one whose untrimmed length exceeds 285 gets 400 "Message too long. Maximum 285 characters allowed.". |
| JsValues.Property | netlify/functions/chat.js:76 | A property read on a value other than `null`. An object gives its own member or `undefined`; a string, number, boolean or array gives `undefined` for the names read here. `Relay.Handle` models the read on `null` as the throw. `JsValues.PropertyReadsUpdate` and `JsValues.PropertyOfNonObject` state its laws. |
| JsValues.Truthy | script.js:153 | JavaScript's ToBoolean: `undefined`, `null`, `false`, `0` and `""` are falsy; every other string, number, boolean `true`, array and object is truthy. `JsValues.Or` and `Relay.MessageTypeRules` rest on it. |
| JsValues.PropertyReadsUpdate | netlify/functions/chat.js:76 | A key read right after it was set gives the value set. Setting a different key leaves the read as it was. |
| JsValues.PropertyOfNonObject | netlify/functions/chat.js:76 | A string, number, boolean or array has no property: every read gives `undefined`, which is falsy. |
| JsValues.Or | script.js:153 | `a \|\| b` is truthy exactly when one of `a` and `b` is. The result is `a` when `a` is truthy and `b` when it is not. |
| JsStrings.IsJsWhitespace | script.js:75 | The characters `trim` removes: ECMAScript's WhiteSpace (tab, vertical tab, form feed, space, no-break space, the byte order mark, the Unicode space separators) and its LineTerminator set. |
| JsStrings.IsLineTerminator | script.js:191 | ECMAScript's LineTerminator set (LF, CR, U+2028, U+2029), after which `^` matches under the `m` flag. |
| JsStrings.Contains | script.js:196 | `includes` for a literal: some offset holds the pattern. |
| JsStrings.ReplaceAll | script.js:185-193 | A global replace of a literal pattern, scanning left to right and resuming after each replacement. `JsStrings.ReplaceAllRemovesChar`, `JsStrings.ReplaceAllKeepsAbsent` and `JsStrings.ReplaceAllWithoutOccurrence` state its effect. |
| JsStrings.Trim | script.js:75 | The trimmed text is no longer than the input, and it neither starts nor ends with ECMAScript whitespace. |
| JsStrings.TrimIsInfix | script.js:75 | The trimmed text is the part of the input that lies between a whitespace prefix and a whitespace suffix. |
| JsStrings.TrimEmptyIffBlank | netlify/functions/chat.js:76 | A text trims to the empty string exactly when every character of it is whitespace. |
| JsStrings.TrimIdempotent | script.js:88 | Trimming an already-trimmed text changes nothing. This is why the relay's checks on the widget's message see the same text. |
| JsStrings.ReplaceAllRemovesChar | script.js:189 | Replacing every occurrence of a character by text that lacks it leaves no occurrence. |
| JsStrings.ReplaceAllKeepsAbsent | script.js:185-193 | A global replace brings in no character found in neither the input nor the replacement. |
| JsStrings.ReplaceAllWithoutOccurrence | script.js:185-193 | A global replace of a pattern that does not occur returns the input unchanged. |
| JsStrings.ReplaceCharAppend | script.js:189 | Replacing a one-character pattern distributes over concatenation. |
| Format.Unescaped | script.js:185 | Every escaped quote `\"` becomes a plain quote. |
| Format.ParagraphBreaks | script.js:187 | Every pair of line feeds becomes `</p><p>`, pairs taken left to right. |
| Format.LineBreaks | script.js:189 | Every remaining line feed becomes `<br>`. |
| Format.BulletLines | script.js:191 | The `^- ` rule with the `m` flag: a dash and a space at the start of the text or after any line terminator become a bullet and a space. `Format.BulletLinesKeepsAbsent`, `Format.BulletLinesInsideLine` and `Format.BulletLinesOnOneLine` state its effect. |
| Format.BulletBreaks | script.js:193 | Every `<br>- ` becomes `<br>• `. |
| Format.Rewritten | script.js:183-193 | The five replace steps in their order: unescaping quotes, paragraph breaks, line breaks, dash bullets at line starts, dash bullets after `<br>`. `Format.RewrittenLeavesNoNewline` states its effect. |
| Format.WrapParagraphs | script.js:196-198 | The text is wrapped in `<p>` and `</p>` exactly when it holds `</p><p>`. `Format.FormatWrapsParagraphs` states it on the whole transform. |
| Format.LineBreaksLeaveNoNewline | script.js:187-189 | After the paragraph-break and line-break replaces, no line feed is left. |
| Format.BulletLinesKeepsAbsent | script.js:191 | The multiline bullet rule brings in no character but the bullet and the space. |
| Format.BulletLinesInsideLine | script.js:191 | With no line start in reach, the bullet rule leaves the text unchanged. |
| Format.BulletLinesOnOneLine | script.js:189-191 | In a text with no line terminator left (line feeds have become `<br>` and there is no `\r`, U+2028 or U+2029), the `^- ` rule can only fire at the very start of the text. It turns a leading `- ` into a bullet and leaves everything else as it is. |
| Format.RewrittenLeavesNoNewline | script.js:183-193 | The five replace steps together leave no line feed. |
| Format.IsWordChar | script.js:203-207 | `\w`, and so what `\b` separates, without the `u` flag: ASCII letters, digits and `_`. |
| Format.Lower | script.js:203-207 | The case folding of the `i` flag without `u`, as it bears on the ASCII term lists: only `A`-`Z` fold onto `a`-`z`. |
| Format.TermAt | script.js:203 | The alternation with a trailing boundary matches at least two characters, all of them word characters, within the text. |
| Format.TermAtMeaning | script.js:202-208 | The alternation matches at the front of a text exactly when some listed term matches there case-insensitively with a word boundary after it, and the matched length is that term's length. |
| Format.MatchLengthUnique | script.js:206-208 | Two terms that both match at the same place have the same length. So `safe` and `safer` never compete, and alternation order does not matter for these lists. |
| Format.TermListsAreWellFormed | script.js:203-207 | The danger and safe lists hold only lower-case ASCII words of two or more letters. |
| Format.Scan | script.js:201-209 | The global search of one highlight regular expression: at each offset with a word boundary before it, the matched term, else one plain character. `Format.ScanKeepsText` and `Format.ScanFindsWholeWords` state its effect. |
| Format.Highlight | script.js:201-209 | One highlight pass: each matched term is wrapped in the given opening tag and `</strong>`. `Format.WordHighlight` and `Format.HighlightAppend` state its effect. |
| Format.Highlights | script.js:201-209 | The danger pass, then the safe pass over its output, tags included. `Format.HighlightsPaintsWholeWords` states its effect. |
| Format.FormatText | script.js:183-209 | The transform of a non-empty string: rewrite, wrap, highlight. |
| Format.ScanKeepsText | script.js:201-209 | The global search splits the text into matched terms and plain characters that spell the text back exactly: highlighting loses, adds and reorders nothing. |
| Format.ScanFindsWholeWords | script.js:201-209 | A highlighted term starts at an offset exactly when a whole-word, case-insensitive occurrence of a term starts there. The highlight holds that occurrence as written, in its original case. |
| Format.ScanAppend | script.js:201-209 | Across a joint with a non-word character on one side, the search of a concatenation is the search of its two parts. |
| Format.RenderAppend | script.js:204-208 | The markup of joined pieces is the joined markup. |
| Format.HighlightKeepsWrapper | script.js:196-209 | Highlighting a text wrapped in `<p>` and `</p>` highlights only the inside and keeps the wrapper. |
| Format.HighlightKeepsAbsent | script.js:201-209 | A highlight pass brings in only the characters of its opening and closing tags. |
| Format.WordRun | script.js:201-209 | The run of word characters at the front of a text: every character in it is a word character, and it stops at the end or at a non-word character. |
| Format.MarkedKeepsText | script.js:201-209 | The word-by-word reading spells the text back exactly. |
| Format.HighlightAppend | script.js:201-209 | Across a joint with a non-word character on one side, a highlight pass of a concatenation is the pass of its two parts. |
| Format.WordHighlight | script.js:201-209 | A pass over one whole word wraps it in the tags exactly when the word is one of its terms up to ASCII case, and otherwise leaves it alone. |
| Format.ListsDisjoint | script.js:203-207 | No word is both a danger term and a safe term. So a word painted pink is never also painted green. |
| Format.SafePassKeepsDangerOpen | script.js:203-207 | The safe pass leaves the pink opening tag as it is: `strong`, `style`, `color` and `e91e63` are no safe terms. |
| Format.SafePassKeepsClose | script.js:203-207 | The safe pass leaves `</strong>` as it is. |
| Format.WordHighlights | script.js:201-209 | Both passes over one whole word give that word's mark: pink for a danger term, else green for a safe term, else the word alone. |
| Format.HighlightsAppend | script.js:201-209 | Across a non-word joint both passes together act on each side alone. |
| Format.HighlightsPaintsWholeWords | script.js:201-209 | The two passes together paint each maximal run of word characters: pink when it is a danger term up to ASCII case, else green when it is a safe term, else unchanged. Every other character is left alone, and the safe pass never touches the danger pass's tags. |
| Format.FormatWrapsParagraphs | script.js:183-209 | The paragraph wrap is decided on the rewritten text. If it holds `</p><p>`, the result is the highlighted rewritten text inside one `<p>...</p>`. Otherwise the result is the highlighted rewritten text alone. |
| Format.FormatTextHasNoNewline | script.js:183-209 | No line feed survives the transform. |
| Format.FormatBotResponse | script.js:177-212 | A non-string or empty reply is handed back unchanged. A non-empty string becomes a string with no line feed. It is the rewritten, possibly wrapped text with each whole danger word painted pink and each other whole safe word painted green. |
| Widget.SelectReply | script.js:126-159 | `sendToAPI` produces a value exactly when the relay answers with a status in 200-299, a body that parses, and data that is not null. The value is then truthy: `response` if truthy, else `message` if truthy, else "No response received.". |
| Widget.RequestBody | script.js:136-139 | The JSON body the widget posts: the message and the client's timestamp. |
| Widget.Chatbot.constructor | script.js:2-53 | The widget starts idle with an empty transcript and the given text, with the button and the banner already validated. |
| Widget.Chatbot.ShowError | script.js:241-245 | The banner is visible with the given notice. The button rule is as it was. |
| Widget.Chatbot.HideError | script.js:247-249 | The banner is hidden, and nothing else changes. So the button rule survives the timer of `showError`, which calls it. |
| Widget.Chatbot.ValidateInput | script.js:74-85 | The button is disabled exactly when the trimmed text is empty or longer than 285 or a request is in flight. Right after it, the banner is up exactly when the trimmed text is longer than 285, with the too-long notice (`BannerMatchesInput`). Otherwise the notice is kept as it was. The text and the transcript do not change. |
| Widget.Chatbot.InputChanged | script.js:38-50 | Editing the text, or picking a recommendation tag, sets the text and re-establishes the button and banner rule. |
| Widget.Chatbot.AddMessage | script.js:161-175 | Exactly one entry is appended with the given role. A bot entry holds the formatted reply, and any other holds the text as given. |
| Widget.Chatbot.SetLoadingState | script.js:214-217 | The loading flag is set, and the button and banner are revalidated against it. |
| Widget.Chatbot.Submit | script.js:87-106 | A request starts exactly when the trimmed text is valid and none is in flight. An empty text, or a request in flight, changes nothing. A too-long text only raises the too-long banner. It needs only the button rule, so it also applies after the timer of `showError` has hidden that banner, and it shows the banner again. A send appends the trimmed text as the user's entry, clears the text area, disables the button and starts waiting, and keeps the hidden banner's notice. It hands exactly that trimmed text on. |
| Widget.Chatbot.StartRequest | script.js:97-106 | The user entry is appended, the text area is cleared, and the widget is waiting with the button disabled and no banner. The banner's notice is kept. |
| Widget.Chatbot.Complete | script.js:108-123 | Exactly one entry is appended: the formatted reply when `sendToAPI` produced one, otherwise the fixed apology. The widget stops waiting and keeps the text area as it is. The failure banner does not survive the `finally`: the banner is up only for a too-long text. Otherwise it stays hidden, holding the failure notice after a failure and its earlier notice after a reply. |
| EndToEnd.WidgetMessagesAreAccepted | script.js:88-139 | Every message the widget sends passes all of the relay's checks, its untrimmed length check included. |
| EndToEnd.WidgetMessagesAreForwarded | netlify/functions/chat.js:101-110 | With the relay configured, the widget's trimmed message is forwarded upstream exactly as sent. |
| EndToEnd.UpstreamAnswerReachesWidget | netlify/functions/chat.js:112-138 | An ok upstream answer reaches the widget as if the widget had asked upstream directly. A failed or non-ok one makes `sendToAPI` fail. |
| EndToEnd.MissingConfigurationMakesWidgetApologise | netlify/functions/chat.js:47-57 | An unconfigured relay forwards nothing, and its 500 makes the widget apologise. |
| EndToEnd.RoundTrip | script.js:87-153 | One send through the relay and back. The relay forwards exactly when the widget sends and the relay is configured, and it forwards the widget's trimmed text. A send grows the transcript by two: the user's trimmed text, then the formatted reply or the apology. The button rule holds afterwards. After a send, the banner is again up exactly for a too-long text. |

## Left out

- **Page layout:** textarea auto-resize (`adjustTextareaHeight`, `setupAutoResize`), scrolling and the smooth-scroll link handlers. These are layout only, with no effect on what is sent or shown.
- **The loading indicator** (the "Analyzing ingredient safety..." element added and removed by `setLoadingState`). It is presentation that is never read back.
- **Event wiring:** click, Enter key and DOMContentLoaded. The model's methods are the handlers these events call. The recommendation-tag click is modelled by `Widget.Chatbot.InputChanged`.
- Widget.Chatbot.ShowError: the 5-second timer is not scheduled by the model, because timers are outside a sequential model. The method the timer runs is `Widget.Chatbot.HideError`, which may be called at any point between handlers and keeps `Valid()`, the button rule.
- Widget.Chatbot.BannerMatchesInput: the banner rule holds right after every validation, but it is not an invariant. Once the timer fires on a too-long banner, the banner is hidden while the text is still too long, and the rule is false until the next validation. `Widget.Chatbot.Submit` therefore requires only `Valid()`.
- **Console logging** in both files. It has no effect on behaviour.
- **Inputs, not computed:** the environment variables, the request body's parse, `fetch` with its `response.json()`, and the client clock. The ISO timestamp is an opaque string input.
- **Asynchrony:** a second send while a request is in flight is modelled through the loading flag only. The interleavings of JavaScript's event loop are not modelled.
- **JSON details:** number precision, key order and duplicate keys. `EndToEnd.AsSeenByClient` treats `JSON.parse` of `JSON.stringify` as exact.
- **Widget.SelectReply:** an upstream body that is not JSON is merged into the failed call (`Relay.Upstream.Failed`). A non-ok status causes a `response.json()` read whose result is discarded; that read is not modelled.
- **The wording of the runtime's error messages:** the two TypeError texts are written as V8 words them.
- **Banner texts:** they are the `Widget.Notice` values, and `Widget.NoticeText` gives their words.
- **Non-string replies:** how `innerHTML` converts one to text is not modelled. The transcript holds the value itself.
- **Characters beyond UTF-16 code units:** surrogate pairs and case folding beyond ASCII. Under the `i` flag without `u`, only ASCII letters match the ASCII term lists.
