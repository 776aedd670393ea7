/**
 * The main chat screen's view model: the send flow around the language-model
 * service, and the simulated streaming that re-emits a finished response one
 * word per timer tick as a growing, space-joined prefix.
 */
module MainChat {
  import opened Unicode
  import opened LLM

  datatype BubbleState = Incoming | Outgoing

  /** A conversation bubble's model; streaming replaces only `text`. */
  datatype UIModel = UIModel(text: string, state: BubbleState, copyActionEnabled: bool)

  // ---------------------------------------------------------------------------
  // Tokenizer: split on whitespace and newlines, dropping empty pieces
  // ---------------------------------------------------------------------------

  /** A token the tokenizer can produce: non-empty, without whitespace. */
  predicate IsWord(w: string)
  {
    w != [] && NoWhitespace(w)
  }

  predicate AllWords(ws: seq<string>)
  {
    forall i :: 0 <= i < |ws| ==> IsWord(ws[i])
  }

  /** The length of the leading run of non-whitespace characters. */
  function WordLength(s: string): (n: nat)
    ensures n <= |s|
    ensures NoWhitespace(s[..n])
    ensures n < |s| ==> IsWhitespace(s[n])
  {
    if s == [] || IsWhitespace(s[0]) then 0 else 1 + WordLength(s[1..])
  }

  /** `text.split(whereSeparator: { $0.isWhitespace || $0.isNewline })`. */
  function Words(s: string): (ws: seq<string>)
    ensures AllWords(ws)
    decreases |s|
  {
    if s == [] then []
    else if IsWhitespace(s[0]) then Words(s[1..])
    else
      var n := WordLength(s);
      [s[..n]] + Words(s[n..])
  }

  /** The words joined by single spaces. */
  function Join(ws: seq<string>): string
  {
    if ws == [] then ""
    else if |ws| == 1 then ws[0]
    else ws[0] + " " + Join(ws[1..])
  }

  /** All characters of the words, in order, without separators. */
  function Concat(ws: seq<string>): string
  {
    if ws == [] then "" else ws[0] + Concat(ws[1..])
  }

  /** The characters of `s` that are not whitespace, in order. */
  function NonWhitespace(s: string): string
  {
    if s == [] then ""
    else if IsWhitespace(s[0]) then NonWhitespace(s[1..])
    else [s[0]] + NonWhitespace(s[1..])
  }

  // ---------------------------------------------------------------------------
  // The scan: one emission per word
  // ---------------------------------------------------------------------------

  /** The accumulator step of the scan: the first word alone, every later word
      after a single space. */
  function AppendWord(partial: string, word: string): (r: string)
    ensures |r| == |partial| + |word| + (if partial == [] then 0 else 1)
    ensures r[..|partial|] == partial && r[|r| - |word|..] == word
    ensures partial != [] ==> r[|partial|] == ' '
  {
    if partial == [] then word else partial + " " + word
  }

  /** The values `scan` emits from the accumulator `partial`, one per word. */
  function ScanFrom(partial: string, ws: seq<string>): (ps: seq<string>)
    ensures |ps| == |ws|
    decreases |ws|
  {
    if ws == [] then []
    else
      var p := AppendWord(partial, ws[0]);
      [p] + ScanFrom(p, ws[1..])
  }

  /** The texts the stream emits for a message text. */
  function Partials(text: string): (ps: seq<string>)
    ensures |ps| == |Words(text)|
  {
    ScanFrom("", Words(text))
  }

  /** Each streamed value is the input model with the scanned text. */
  function WithTexts(m: UIModel, ps: seq<string>): (out: seq<UIModel>)
    ensures |out| == |ps|
    ensures forall k :: 0 <= k < |out| ==> out[k].state == m.state && out[k].copyActionEnabled == m.copyActionEnabled
    ensures forall k :: 0 <= k < |out| ==> out[k].text == ps[k]
  {
    if ps == [] then [] else [m.(text := ps[0])] + WithTexts(m, ps[1..])
  }

  /** `streamMessage(_:)`: one model per word of the message, the k-th holding
      the first k words joined by single spaces. */
  function StreamMessage(m: UIModel): (out: seq<UIModel>)
    ensures |out| == |Words(m.text)|
    ensures forall k :: 0 <= k < |out| ==> out[k] == m.(text := Join(Words(m.text)[..k + 1]))
  {
    var ps := Partials(m.text);
    PartialsAreJoinedPrefixes(m.text);
    WithTexts(m, ps)
  }

  // ---------------------------------------------------------------------------
  // Lemmas about the tokenizer
  // ---------------------------------------------------------------------------

  /** A text yields no words exactly when it is all whitespace. */
  lemma {:induction false} WordsEmptyIffBlank(s: string)
    ensures Words(s) == [] <==> AllWhitespace(s)
    decreases |s|
  {
    if s != [] && IsWhitespace(s[0]) {
      WordsEmptyIffBlank(s[1..]);
      if AllWhitespace(s[1..]) {
        forall i | 0 <= i < |s| ensures IsWhitespace(s[i]) {
          if i > 0 { assert s[i] == s[1..][i - 1]; }
        }
      } else {
        var i :| 0 <= i < |s[1..]| && !IsWhitespace(s[1..][i]);
        assert !IsWhitespace(s[i + 1]);
      }
    }
  }

  lemma {:induction false} NonWhitespaceAppend(a: string, b: string)
    ensures NonWhitespace(a + b) == NonWhitespace(a) + NonWhitespace(b)
    decreases |a|
  {
    if a == [] {
      assert a + b == b;
    } else {
      assert (a + b)[1..] == a[1..] + b;
      NonWhitespaceAppend(a[1..], b);
    }
  }

  lemma {:induction false} NonWhitespaceOfWord(w: string)
    requires NoWhitespace(w)
    ensures NonWhitespace(w) == w
    decreases |w|
  {
    if w != [] {
      NonWhitespaceOfWord(w[1..]);
    }
  }

  /** The tokenizer loses no character except whitespace. */
  lemma {:induction false} WordsKeepContent(s: string)
    ensures Concat(Words(s)) == NonWhitespace(s)
    decreases |s|
  {
    if s == [] {
    } else if IsWhitespace(s[0]) {
      WordsKeepContent(s[1..]);
    } else {
      var n := WordLength(s);
      WordsKeepContent(s[n..]);
      assert s == s[..n] + s[n..];
      NonWhitespaceAppend(s[..n], s[n..]);
      NonWhitespaceOfWord(s[..n]);
    }
  }

  lemma {:induction false} WordsSkipsWhitespace(pre: string, s: string)
    requires AllWhitespace(pre)
    ensures Words(pre + s) == Words(s)
    decreases |pre|
  {
    if pre != [] {
      assert (pre + s)[1..] == pre[1..] + s;
      WordsSkipsWhitespace(pre[1..], s);
    } else {
      assert pre + s == s;
    }
  }

  lemma {:induction false} WordLengthOfWord(w: string, rest: string)
    requires IsWord(w)
    requires rest == [] || IsWhitespace(rest[0])
    ensures WordLength(w + rest) == |w|
    decreases |w|
  {
    if |w| > 1 {
      assert (w + rest)[1..] == w[1..] + rest;
      WordLengthOfWord(w[1..], rest);
    } else {
      assert (w + rest)[1..] == rest;
    }
  }

  /** Words followed by a separator or the end of text come back one by one. */
  lemma WordsOfWordThen(w: string, rest: string)
    requires IsWord(w)
    requires rest == [] || IsWhitespace(rest[0])
    ensures Words(w + rest) == [w] + Words(rest)
  {
    WordLengthOfWord(w, rest);
    assert (w + rest)[..|w|] == w;
    assert (w + rest)[|w|..] == rest;
  }

  /** Round trip: splitting the space-joined words gives the words back. */
  lemma {:induction false} WordsOfJoin(ws: seq<string>)
    requires AllWords(ws)
    ensures Words(Join(ws)) == ws
    decreases |ws|
  {
    if ws == [] {
    } else if |ws| == 1 {
      WordsOfWordThen(ws[0], "");
      assert ws[0] + "" == ws[0];
    } else {
      var rest := Join(ws[1..]);
      WordsOfJoin(ws[1..]);
      assert ws[0] + " " + rest == ws[0] + (" " + rest);
      WordsOfWordThen(ws[0], " " + rest);
      WordsSkipsWhitespace(" ", rest);
    }
  }

  /** Joining a text's words is a normal form: joining the words of the
      normalized text changes nothing. */
  lemma NormalizeIdempotent(s: string)
    ensures Join(Words(Join(Words(s)))) == Join(Words(s))
  {
    WordsOfJoin(Words(s));
  }

  // ---------------------------------------------------------------------------
  // Lemmas about the scan
  // ---------------------------------------------------------------------------

  lemma {:induction false} JoinEmptyIff(ws: seq<string>)
    requires AllWords(ws)
    ensures Join(ws) == "" <==> ws == []
  {
    if |ws| > 1 {
      assert |Join(ws)| >= |ws[0]|;
    }
  }

  /** Appending a word at the end of a joined sequence. */
  lemma {:induction false} JoinSnoc(ws: seq<string>, w: string)
    ensures Join(ws + [w]) == if ws == [] then w else Join(ws) + " " + w
    decreases |ws|
  {
    if |ws| == 1 {
      assert ws + [w] == [ws[0], w];
      assert [ws[0], w][1..] == [w];
    } else if |ws| > 1 {
      assert (ws + [w])[1..] == ws[1..] + [w];
      JoinSnoc(ws[1..], w);
    }
  }

  /** One scan step appends a word to the joined words. */
  lemma AppendWordJoins(pre: seq<string>, w: string)
    requires Join(pre) == "" <==> pre == []
    ensures AppendWord(Join(pre), w) == Join(pre + [w])
  {
    JoinSnoc(pre, w);
  }

  /** The k-th value scanned from the joined words `pre` is `pre` followed by
      the first k + 1 remaining words, all joined by single spaces. */
  lemma {:induction false} ScanFromJoins(pre: seq<string>, ws: seq<string>, k: nat)
    requires Join(pre) == "" <==> pre == []
    requires forall i :: 0 <= i < |ws| ==> ws[i] != []
    requires k < |ws|
    ensures ScanFrom(Join(pre), ws)[k] == Join(pre + ws[..k + 1])
    decreases |ws|
  {
    var p := AppendWord(Join(pre), ws[0]);
    AppendWordJoins(pre, ws[0]);
    if k == 0 {
      assert ws[..1] == [ws[0]];
    } else {
      var pre' := pre + [ws[0]];
      assert p != "";
      assert ScanFrom(Join(pre), ws)[k] == ScanFrom(p, ws[1..])[k - 1];
      ScanFromJoins(pre', ws[1..], k - 1);
      PrefixShift(pre, ws, k);
    }
  }

  lemma PrefixShift<T>(pre: seq<T>, ws: seq<T>, k: nat)
    requires 0 < k < |ws|
    ensures (pre + [ws[0]]) + ws[1..][..k] == pre + ws[..k + 1]
  {
  }

  /** The k-th emission is the first k + 1 words joined by single spaces. */
  lemma PartialsAreJoinedPrefixes(text: string)
    ensures |Partials(text)| == |Words(text)|
    ensures forall k :: 0 <= k < |Partials(text)| ==> Partials(text)[k] == Join(Words(text)[..k + 1])
  {
    var ws := Words(text);
    forall k | 0 <= k < |ws| ensures Partials(text)[k] == Join(ws[..k + 1]) {
      ScanFromJoins([], ws, k);
      assert [] + ws[..k + 1] == ws[..k + 1];
    }
  }

  /** The first emission is the first word alone; the last is all words joined
      by single spaces; a text without words emits nothing. */
  lemma PartialsEnds(text: string)
    ensures Partials(text) == [] <==> AllWhitespace(text)
    ensures Partials(text) != [] ==> Partials(text)[0] == Words(text)[0]
    ensures Partials(text) != [] ==> Partials(text)[|Partials(text)| - 1] == Join(Words(text))
  {
    var ws := Words(text);
    WordsEmptyIffBlank(text);
    PartialsAreJoinedPrefixes(text);
    if ws != [] {
      assert ws[..1] == [ws[0]];
      assert ws[..|ws|] == ws;
    }
  }

  /** Each emission is a strict prefix of the next. */
  lemma PartialsGrow(text: string, k: nat)
    requires k + 1 < |Partials(text)|
    ensures Partials(text)[k] < Partials(text)[k + 1]
  {
    var ws := Words(text);
    PartialsAreJoinedPrefixes(text);
    assert ws[..k + 2] == ws[..k + 1] + [ws[k + 1]];
    JoinSnoc(ws[..k + 1], ws[k + 1]);
  }

  /** The example of a two-word text. */
  lemma HelloWorld()
    ensures Partials("hello world") == ["hello", "hello world"]
  {
    HelloWorldWords();
    PartialsAreJoinedPrefixes("hello world");
    HelloWorldPrefixes();
  }

  /** Literals evaluated on their own, outside the proof that uses them. */
  lemma HelloWorldPrefixes()
    ensures Join(["hello", "world"][..1]) == "hello"
    ensures Join(["hello", "world"][..2]) == "hello world"
  {
    var ws := ["hello", "world"];
    assert ws[..1] == ["hello"] && ws[..2] == ws;
  }

  lemma HelloWorldWords()
    ensures Words("hello world") == ["hello", "world"]
  {
    var ws := ["hello", "world"];
    assert AllWords(ws);
    WordsOfJoin(ws);
    assert Join(ws) == "hello world";
  }

  // ---------------------------------------------------------------------------
  // The send flow
  // ---------------------------------------------------------------------------

  /** What an observer of the view model sees: the loading flag, the call into
      the service, the response model and each streamed model. */
  datatype Event =
    | Loading(on: bool)
    | Requested(prompt: string)
    | Response(model: UIModel)
    | Streamed(model: UIModel)

  /** The bubble model of a received response. */
  function IncomingModel(text: string): (m: UIModel)
    ensures m.text == text && m.state == Incoming && m.copyActionEnabled
  {
    UIModel(text, Incoming, true)
  }

  function StreamedEvents(ms: seq<UIModel>): (es: seq<Event>)
    ensures |es| == |ms|
    ensures forall k :: 0 <= k < |es| ==> es[k] == Streamed(ms[k])
  {
    if ms == [] then [] else [Streamed(ms[0])] + StreamedEvents(ms[1..])
  }

  /** What the subscriber of the service's publisher sends, given what the
      publisher yielded. On success the response model is sent and its stream
      subscribed before the publisher completes; the stream's values follow on
      later timer ticks. Completion, successful or not, turns loading off. */
  function SinkEvents(outcome: Result<string>): (es: seq<Event>)
    ensures |es| == if outcome.Ok? then 2 + |Words(outcome.value)| else 1
    ensures forall i :: 0 <= i < |es| ==> (es[i].Loading? <==> i == if outcome.Ok? then 1 else 0)
    ensures forall i :: 0 <= i < |es| ==> (es[i].Response? <==> outcome.Ok? && i == 0)
    ensures es[if outcome.Ok? then 1 else 0] == Loading(false)
    ensures outcome.Ok? ==> es[0] == Response(IncomingModel(outcome.value))
    ensures outcome.Ok? ==> forall i :: 2 <= i < |es| ==>
      es[i] == Streamed(IncomingModel(outcome.value).(text := Join(Words(outcome.value)[..i - 1])))
  {
    if outcome.Ok? then
      var m := IncomingModel(outcome.value);
      [Response(m), Loading(false)] + StreamedEvents(StreamMessage(m))
    else
      [Loading(false)]
  }

  /** The events of one call of `generateResponse` with a non-empty input. */
  function TurnEvents(input: string, outcome: Result<string>): (es: seq<Event>)
    ensures |es| >= 3 && es[0] == Loading(true) && es[1] == Requested(input)
    ensures forall i :: 2 <= i < |es| ==> !es[i].Requested?
  {
    [Loading(true), Requested(input)] + SinkEvents(outcome)
  }

  /** Loading is switched on first, before the request, and nowhere else; it
      is switched off exactly once, after the request, whether the service
      succeeded or failed. */
  lemma LoadingBracketsRequest(input: string, outcome: Result<string>)
    ensures var es := TurnEvents(input, outcome);
      && |es| >= 3 && es[1] == Requested(input)
      && (forall i :: 0 <= i < |es| ==> (es[i] == Loading(true) <==> i == 0))
      && (forall i :: 0 <= i < |es| ==> (es[i] == Loading(false) <==> i == if outcome.Ok? then 3 else 2))
  {
  }

  /** On success exactly one response is sent, with the whole text and the
      incoming state, and it is followed by one streamed model per word, the
      k-th holding the first k words; on failure nothing is sent. */
  lemma ResponseThenStream(input: string, outcome: Result<string>)
    ensures var es := TurnEvents(input, outcome);
      forall i :: 0 <= i < |es| ==> (es[i].Response? <==> outcome.Ok? && i == 2)
    ensures var es := TurnEvents(input, outcome);
      outcome.Err? ==> forall i :: 0 <= i < |es| ==> !es[i].Streamed?
    ensures outcome.Ok? ==>
      var es := TurnEvents(input, outcome);
      var ws := Words(outcome.value);
      && es[2] == Response(UIModel(outcome.value, Incoming, true))
      && |es| == 4 + |ws|
      && forall k :: 4 <= k < |es| ==> es[k] == Streamed(UIModel(Join(ws[..k - 3]), Incoming, true))
  {
  }

  class MainChatViewModel {
    const llmService: LLMService
    /** Everything sent to the loading, response and stream subjects, and every
        call into the service, oldest first. */
    var events: seq<Event>

    /** Creates the service with its default configuration and initializes it;
        the outcome is only logged. */
    constructor (availability: Availability)
      ensures fresh(llmService)
      ensures llmService.config == DefaultConfiguration
      ensures llmService.isInitialized && llmService.requests == []
      ensures events == []
    {
      var service := new LLMService(DefaultConfiguration);
      var status := service.Initialize(availability);
      llmService := service;
      events := [];
    }

    /** Emits `Streamed` for every value of `streamMessage(uiModel)`. */
    method InitStreaming(uiModel: UIModel)
      modifies this`events
      ensures events == old(events) + StreamedEvents(StreamMessage(uiModel))
    {
      var stream := StreamMessage(uiModel);
      Publish(stream);
    }

    /** The subscription's sink: one `Streamed` per value, in order. */
    method Publish(stream: seq<UIModel>)
      modifies this`events
      ensures events == old(events) + StreamedEvents(stream)
    {
      ghost var start := events;
      for i := 0 to |stream|
        invariant events == start + StreamedEvents(stream[..i])
      {
        assert stream[..i + 1] == stream[..i] + [stream[i]];
        StreamedEventsAppend(stream[..i], stream[i]);
        events := events + [Streamed(stream[i])];
      }
      assert stream[..|stream|] == stream;
    }

    /** Ignores an empty input; otherwise turns loading on, asks the service,
        sends the response and streams it on success, and turns loading off. */
    method GenerateResponse(inputText: string, backend: Backend)
      modifies this`events, llmService`requests
      ensures inputText == [] ==> events == old(events) && llmService.requests == old(llmService.requests)
      ensures inputText != [] ==>
        events == old(events) + TurnEvents(inputText, Respond(llmService.isInitialized, llmService.config, inputText, backend))
      ensures inputText != [] ==>
        llmService.requests == old(llmService.requests)
          + (if llmService.isInitialized then [RequestFor(llmService.config, inputText)] else [])
    {
      if inputText == [] {
        return;
      }
      ghost var before := events;
      events := events + [Loading(true)];
      events := events + [Requested(inputText)];
      var outcome := llmService.GenerateResponse(inputText, backend);
      Sink(outcome);
      TurnEventsAfter(before, inputText, outcome);
    }

    /** The subscriber of the service's publisher: the value handler, then the
        completion handler. */
    method Sink(outcome: Result<string>)
      modifies this`events
      ensures events == old(events) + SinkEvents(outcome)
    {
      match outcome
      case Ok(responseText) =>
        var uiModel := IncomingModel(responseText);
        events := events + [Response(uiModel)];
        events := events + [Loading(false)];
        InitStreaming(uiModel);
      case Err(_) =>
        events := events + [Loading(false)];
    }
  }

  /** The events of a turn, appended in three steps. */
  lemma TurnEventsAfter(before: seq<Event>, input: string, outcome: Result<string>)
    ensures before + [Loading(true)] + [Requested(input)] + SinkEvents(outcome) == before + TurnEvents(input, outcome)
  {
  }

  lemma {:induction false} StreamedEventsAppend(ms: seq<UIModel>, m: UIModel)
    ensures StreamedEvents(ms + [m]) == StreamedEvents(ms) + [Streamed(m)]
  {
    var a := StreamedEvents(ms + [m]);
    var b := StreamedEvents(ms) + [Streamed(m)];
    assert |a| == |b|;
    forall k | 0 <= k < |a| ensures a[k] == b[k] {
      if k < |ms| { assert (ms + [m])[k] == ms[k]; }
    }
  }
}
