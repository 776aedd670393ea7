# Vault-AI chat core, modelled in Dafny

Vault-AI is an iOS chat app built around Apple's on-device language model. This
project models three parts of it and proves properties of each.

- **The language-model service** (`LLM`, `llm_service.dfy`).
  - `initialize()` maps the system model's availability to a success or
    failure state.
  - `generateResponse(for:)` fails fast before `initialize`. Once initialized,
    it sends the prompt, with the configured instructions and temperature, to a
    fresh session.
- **The main chat view model** (`MainChat`, `main_chat_view_model.dfy`).
  - `generateResponse(from:)` ignores an empty input. Otherwise it turns the
    loading indicator on, asks the service, sends the response model, starts a
    simulated stream, and turns loading off when the request completes.
  - `streamMessage(_:)` splits a text into words on whitespace and newlines. It
    then emits a growing, space-joined prefix per word.
- **The hex colour initializer** (`CustomColors`, `custom_colors.dfy`).
  - `UIColor(hex:)` trims whitespace, removes every `#` and scans a hex
    integer. It accepts only 6-character (RRGGBB) and 8-character (RRGGBBAA)
    texts and extracts the channels by mask and shift.
  - The app's two colour constants, `Colors.lightGray` and `Colors.primary`,
    are built with it.
- **Whitespace** (`Unicode`, `unicode.dfy`). The model takes the Unicode
  White_Space property as the set that both `trimmingCharacters(in:
  .whitespacesAndNewlines)` and `Character.isWhitespace` select. This module
  defines it once for the other three.

The on-device model is not part of this model. Its availability is an input
value. `LanguageModelSession.respond` is a function parameter `Backend` that
maps the request it receives to the content it returns or the error it throws.

The view model's output subjects are an event log in the class's `events`
field, oldest first. It records the values sent to the loading, response and
stream subjects, and a `Requested(prompt)` event marks the call into the
service. The service keeps every request it sends in its `requests` field.

Two behaviours of the code are worth stating up front:

- `initialize()` sets `isInitialized` to true after every availability check,
  even when it reports a failure (LLMService.swift line 67). So a service whose
  model is unavailable still calls the backend on the next request;
  `LLM.InitializeThenGenerate` states this.
- The service does not reject an empty prompt. Only the view model ignores
  empty input.

`LLMService` has no session reset and no transcript. It creates each
`LanguageModelSession` with no tools, so `Tools.swift` is not modelled.

## Model

| member | source | states |
|---|---|---|
| LLM.FailureMessage | vault-ai/Services/LLMService.swift:53-64 | Every message is non-empty, and only an unclassified reason's message starts with "Apple Intelligence unavailable ". |
| LLM.StateFor | vault-ai/Services/LLMService.swift:49-65 | The state is success exactly when the model is available. |
| LLM.FailureMessages | vault-ai/Services/LLMService.swift:53-64 | The failure message for each unavailability reason: the three named texts, and the prefix "Apple Intelligence unavailable " followed by the reason's description. |
| LLM.OtherMessageKeepsDescription | vault-ai/Services/LLMService.swift:62-64 | An unclassified reason's description survives verbatim after the prefix, and two descriptions give the same message only if they are equal. |
| LLM.LLMService.constructor | vault-ai/Services/LLMService.swift:28-42 | The service keeps the configuration it was given, starts uninitialized and has sent nothing. |
| LLM.LLMService.Initialize | vault-ai/Services/LLMService.swift:44-70 | Returns the state for the availability (success exactly when available) and leaves the service initialized in every case. |
| LLM.Respond | vault-ai/Services/LLMService.swift:72-76 | Before initialization the answer is the "LLMService is not initialized" error with code 0. No backend is involved. |
| LLM.Deliver | vault-ai/Services/LLMService.swift:83-89 | The publisher succeeds exactly when the backend returns content, and then yields that content. A thrown error fails the publisher with the same description. |
| LLM.RequestFor | vault-ai/Services/LLMService.swift:78-85 | The request carries the prompt unchanged, the configured instructions and the configured temperature. |
| LLM.LLMService.GenerateResponse | vault-ai/Services/LLMService.swift:72-93 | Uninitialized: the not-initialized error, and no request is sent. Initialized: exactly one request is recorded, built from the configured instructions, the configured temperature and the prompt. The result is the backend's reply to that request. |
| LLM.ContentPassedOn | vault-ai/Services/LLMService.swift:80-88 | When the backend returns content for the request, an initialized service yields that content unchanged. |
| LLM.BackendErrorPassedOn | vault-ai/Services/LLMService.swift:83-89 | When the backend throws for the request, an initialized service fails with that error's description. |
| LLM.InitializeThenGenerate | vault-ai/Services/LLMService.swift:67-76 | A request made before `initialize` fails without reaching the backend. After an `initialize` that reported "Model not ready", the next request does reach the backend. |
| MainChat.Words | vault-ai/Modules/MainChat/MainChatViewModel.swift:97-99 | Every token is non-empty and contains no whitespace. |
| MainChat.WordLength | vault-ai/Modules/MainChat/MainChatViewModel.swift:97-98 | A token is the maximal run of non-whitespace characters: the next character, if any, is whitespace. |
| MainChat.WordsEmptyIffBlank | vault-ai/Modules/MainChat/MainChatViewModel.swift:97-99 | A text splits into no tokens exactly when it is all whitespace. |
| MainChat.WordsKeepContent | vault-ai/Modules/MainChat/MainChatViewModel.swift:97-99 | Splitting loses no characters except whitespace: the tokens concatenated are the text's non-whitespace characters in order. |
| MainChat.WordsOfJoin | vault-ai/Modules/MainChat/MainChatViewModel.swift:97-99 | Round trip: splitting the space-joined tokens gives the tokens back. |
| MainChat.NormalizeIdempotent | vault-ai/Modules/MainChat/MainChatViewModel.swift:97-109 | Joining a text's tokens is a normal form: normalizing twice equals normalizing once. |
| MainChat.AppendWord | vault-ai/Modules/MainChat/MainChatViewModel.swift:106-109 | One scan step keeps the accumulated text as a prefix and ends with the word. When the accumulated text is non-empty, a single space separates the two; otherwise the result is the word. |
| MainChat.Partials | vault-ai/Modules/MainChat/MainChatViewModel.swift:97-109 | Splitting and then scanning gives one text per word. |
| MainChat.ScanFrom | vault-ai/Modules/MainChat/MainChatViewModel.swift:104-109 | The scan emits one value per word. |
| MainChat.ScanFromJoins | vault-ai/Modules/MainChat/MainChatViewModel.swift:106-109 | Starting from the joined words `pre`, the k-th scanned value is `pre` followed by the next k + 1 words, all joined by single spaces. |
| MainChat.PartialsAreJoinedPrefixes | vault-ai/Modules/MainChat/MainChatViewModel.swift:94-116 | The stream has one value per word, and the k-th value is the first k + 1 words joined by single spaces. |
| MainChat.PartialsEnds | vault-ai/Modules/MainChat/MainChatViewModel.swift:94-116 | The stream is empty exactly for an all-whitespace text. Its first value is the first word. Its last value is the whole normalized text. |
| MainChat.PartialsGrow | vault-ai/Modules/MainChat/MainChatViewModel.swift:106-109 | Each streamed text is a strict prefix of the next. |
| MainChat.HelloWorld | vault-ai/Modules/MainChat/MainChatViewModel.swift:94-116 | "hello world" streams "hello", then "hello world". |
| MainChat.WithTexts | vault-ai/Modules/MainChat/MainChatViewModel.swift:110-114 | Each streamed model is the input model with only its text replaced by the scanned value. Bubble state and copy action are kept. |
| MainChat.StreamMessage | vault-ai/Modules/MainChat/MainChatViewModel.swift:94-116 | One model per word of the message. The k-th is the input model whose text is the first k + 1 words joined by single spaces. |
| MainChat.IncomingModel | vault-ai/Modules/MainChat/MainChatViewModel.swift:80 | The response's bubble holds the received text, is incoming, and has the copy action enabled (the model's default). |
| MainChat.SinkEvents | vault-ai/Modules/MainChat/MainChatViewModel.swift:73-83 | Success: the incoming response model with the whole text first, then the single `Loading(false)`, then one `Streamed` event per word, the k-th holding the first k words joined by single spaces. Failure: only `Loading(false)`. |
| MainChat.TurnEvents | vault-ai/Modules/MainChat/MainChatViewModel.swift:71-83 | A turn starts with loading on, then the one request, and makes no other request. |
| MainChat.StreamedEvents | vault-ai/Modules/MainChat/MainChatViewModel.swift:87-92 | One stream event per model, in order. |
| MainChat.LoadingBracketsRequest | vault-ai/Modules/MainChat/MainChatViewModel.swift:71-74 | In a turn, loading is switched on once, first, before the request. It is switched off exactly once, after the request, on success and on failure. |
| MainChat.ResponseThenStream | vault-ai/Modules/MainChat/MainChatViewModel.swift:73-83 | On success, exactly one response is sent, holding the whole text as an incoming model. It is followed by one streamed model per word, the k-th holding the first k words. On failure, nothing is sent or streamed. |
| MainChat.MainChatViewModel.constructor | vault-ai/Modules/MainChat/MainChatViewModel.swift:53-64 | Creates a fresh service with the default configuration and initializes it, whatever the availability. No event has been sent. |
| MainChat.MainChatViewModel.Publish | vault-ai/Modules/MainChat/MainChatViewModel.swift:89-91 | Appends one stream event per value, in order. Nothing else changes. |
| MainChat.MainChatViewModel.InitStreaming | vault-ai/Modules/MainChat/MainChatViewModel.swift:87-92 | Appends exactly the stream events of `streamMessage` of the model. |
| MainChat.MainChatViewModel.Sink | vault-ai/Modules/MainChat/MainChatViewModel.swift:73-83 | Success: sends the response model, subscribes its stream, then turns loading off. Failure: only turns loading off. |
| MainChat.MainChatViewModel.GenerateResponse | vault-ai/Modules/MainChat/MainChatViewModel.swift:66-85 | An empty input changes nothing. Otherwise the new events are exactly the turn's events for the service's answer, and the service records a request exactly when it is initialized. |
| CustomColors.Rgb6 | vault-ai/Shared/CustomColors.swift:21-27 | Masking and shifting the scanned value gives red, green and blue as its bytes 2, 1 and 0, with full alpha. |
| CustomColors.Rgba8 | vault-ai/Shared/CustomColors.swift:29-35 | Masking and shifting give red, green, blue and alpha as bytes 3, 2, 1 and 0 (RRGGBBAA). |
| CustomColors.Trim | vault-ai/Shared/CustomColors.swift:11 | The result has no whitespace at either end. It is the contiguous slice after the leading whitespace, and everything after it is whitespace. |
| CustomColors.Without | vault-ai/Shared/CustomColors.swift:12 | No `#` is left. The result is no longer than the input. A text without `#` is unchanged. |
| CustomColors.Sanitize | vault-ai/Shared/CustomColors.swift:11-12 | The text the scanner reads contains no `#` and is no longer than the input. |
| CustomColors.ScanHex | vault-ai/Shared/CustomColors.swift:16 | The scan fails exactly when no hex digit follows the leading whitespace. A value it returns fits in a UInt64. |
| CustomColors.ScanHexInt64 | vault-ai/Shared/CustomColors.swift:14-16 | The loop scanner succeeds exactly when `ScanHex` does, and returns its value. On failure the value stays 0. |
| CustomColors.HexColor | vault-ai/Shared/CustomColors.swift:10-40 | A colour it returns has byte channels. It comes from a sanitized text of length 6 or 8, and a 6-digit colour has full alpha. |
| CustomColors.HexColorFailures | vault-ai/Shared/CustomColors.swift:16-38 | The initializer fails exactly when the scan fails or the sanitized length is neither 6 nor 8. |
| CustomColors.ParseHex | vault-ai/Shared/CustomColors.swift:10-40 | The step-by-step initializer, with its mask and shift expressions as written, gives exactly `HexColor`. |
| CustomColors.Hex6RoundTrip | vault-ai/Shared/CustomColors.swift:21-27 | Round trip: three bytes written as six upper-case hex digits parse back to those bytes with full alpha. |
| CustomColors.Hex8RoundTrip | vault-ai/Shared/CustomColors.swift:29-35 | Round trip: four bytes written as eight hex digits parse back as red, green, blue, alpha. |
| CustomColors.HashPrefixIgnored | vault-ai/Shared/CustomColors.swift:11-12 | A leading `#` before a text that does not start with whitespace gives the same result as the text alone. |
| CustomColors.HashRemovedAnywhere | vault-ai/Shared/CustomColors.swift:12 | A `#` anywhere in the trimmed text is removed as if it were not there. |
| CustomColors.LeadingDigitsDecide | vault-ai/Shared/CustomColors.swift:16-21 | A 6-character text of digits followed by a non-digit tail gives the colour of the leading digits alone. The length test counts the tail. |
| CustomColors.TrailingJunkAccepted | vault-ai/Shared/CustomColors.swift:16-21 | "12GGGG" is accepted as blue 0x12. |
| CustomColors.NoLeadingDigitRejected | vault-ai/Shared/CustomColors.swift:16 | "GGGGGG" gives no colour. |
| CustomColors.WrongLengthRejected | vault-ai/Shared/CustomColors.swift:18-38 | Hex digits of a length other than 6 or 8 give no colour, with or without a leading `#`. |
| CustomColors.ShorthandRejected | vault-ai/Shared/CustomColors.swift:18-38 | The shorthand "#FFF" gives no colour. |
| CustomColors.LightGray | vault-ai/Shared/CustomColors.swift:5 | `Colors.lightGray` is EF/EF/EF with full alpha. The fallback is never used. |
| CustomColors.Primary | vault-ai/Shared/CustomColors.swift:6 | `Colors.primary` is FF/4A/4A with full alpha. The fallback is never used. |

## Left out

- The SwiftUI and UIKit views, the view controllers that subscribe to the view model, and the app design system are not part of this model. They only consume the outputs modelled here.
- The console logging is left out because it does not affect any result.
- Combine scheduling and timing are not modelled.
  - The deferred future, the `Task`, and `Timer.publish` every 0.05 s become event order only. A response's stream events follow its completion, because the timer ticks come later than the completion in the run loop.
  - The model has no interleaving of two turns and no wall-clock time.
- `weak self`, the dispose bag and subscription lifetimes are not modelled. The view model never goes away in this model.
- The on-device language model is an input. Availability is a value, `respond` is a pure function of its request, and `LanguageModelSession` state is not modelled because each call builds a fresh session.
- Floating point: the channels are the byte values. The division by 255.0 into `CGFloat` is left out.
- `CustomColors.ScanHex` skips leading whitespace, reads the longest run of hex digits and saturates at `UInt64.max`, as Foundation's `Scanner` does. It does not model the optional `0x` prefix the scanner also accepts: Foundation's implementation is not part of this model. So for a text such as "0x1234" the model reads only the digit 0, where the scanner would read 0x1234.
- `CustomColors.LeadingDigitsDecide` inherits that gap: with the digits "0" and a tail starting with `x` or `X`, it states the colour of 0, where the scanner would read the digits after the `0x`.
- Swift counts and splits strings by grapheme cluster. Here a string is a sequence of Unicode scalars, so one combining sequence counts as several characters in `hexSanitized.count`.
- The mock messages (`mockOutgoingMessage`, `mockIncomingMessage`) are constant sample data for the UI. They have no behaviour.
- `Tools.swift` is not modelled: the service creates its sessions without tools.
- Whitespace is the Unicode White_Space property. Foundation's `CharacterSet.whitespacesAndNewlines`, documented as general category Z* plus U+000A to U+000D and U+0085, may differ from it on a few format characters such as U+200B.
- UIKit's fallback colours (`.lightGray`, `.red`) are given as constants for completeness. The proofs show they are never used.
