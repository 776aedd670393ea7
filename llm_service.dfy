/**
 * The language-model service: an initialization flag set from the on-device
 * model's availability, and one request per prompt to a fresh session built
 * from an immutable configuration.
 *
 * The on-device backend is not part of this model. Its availability is an
 * input value, and `LanguageModelSession.respond` is the function `Backend`,
 * which maps the request it receives to the content it answers or the error
 * it throws.
 */
module LLM {

  /** Why the system model is unavailable; `Other` stands for every reason
      the three named cases do not cover, with its printed description. */
  datatype UnavailableReason =
    | DeviceNotEligible
    | AppleIntelligenceNotEnabled
    | ModelNotReady
    | Other(description: string)

  datatype Availability = Available | Unavailable(reason: UnavailableReason)

  /** The outcome of `initialize()`. */
  datatype LLMState = Success | Failure(message: string)

  datatype LLMConfiguration = LLMConfiguration(defaultInstructions: string, temperature: real)

  datatype GenerationOptions = GenerationOptions(temperature: real)

  /** What one call of `session.respond` receives: the instructions the fresh
      session was created with, the options, and the prompt. */
  datatype Request = Request(instructions: string, options: GenerationOptions, prompt: string)

  /** What the backend answers: the response's content, or the error it throws. */
  datatype Reply = Content(content: string) | Thrown(description: string)

  type Backend = Request -> Reply

  /** Errors the service's publisher fails with. */
  datatype Error =
    | NSError(domain: string, code: int)
    | BackendError(description: string)

  datatype Result<T> = Ok(value: T) | Err(error: Error)

  /** The error of a `generateResponse` call made before `initialize`. */
  const NotInitializedError: Error := NSError("LLMService is not initialized", 0)

  /** The configuration `LLMService()` is created with when none is given. */
  const DefaultConfiguration: LLMConfiguration :=
    LLMConfiguration("Keep the conversatioon concise and make them build naturally\nfrom the given topic.", 1.0)

  const UnavailablePrefix := "Apple Intelligence unavailable "

  /** The message `initialize` reports for an unavailability reason: only an
      unclassified reason's message starts with the "unavailable" prefix. */
  function FailureMessage(reason: UnavailableReason): (msg: string)
    ensures msg != []
    ensures reason.Other? <==> |UnavailablePrefix| <= |msg| && msg[..|UnavailablePrefix|] == UnavailablePrefix
  {
    match reason
    case DeviceNotEligible => "Device not eligible"
    case AppleIntelligenceNotEnabled => "Apple Intelligence not enabled"
    case ModelNotReady => "Model not ready"
    case Other(description) => UnavailablePrefix + description
  }

  /** The state `initialize` returns for an availability value. */
  function StateFor(availability: Availability): (state: LLMState)
    ensures state.Success? <==> availability.Available?
  {
    match availability
    case Available => Success
    case Unavailable(reason) => Failure(FailureMessage(reason))
  }

  /** The request an initialized service sends for `prompt`. */
  function RequestFor(config: LLMConfiguration, prompt: string): (req: Request)
    ensures req.prompt == prompt
    ensures req.instructions == config.defaultInstructions
    ensures req.options.temperature == config.temperature
  {
    Request(config.defaultInstructions, GenerationOptions(config.temperature), prompt)
  }

  /** The backend's reply as the service's publisher delivers it. */
  function Deliver(reply: Reply): (r: Result<string>)
    ensures r.Ok? <==> reply.Content?
    ensures reply.Content? ==> r.value == reply.content
    ensures reply.Thrown? ==> r.error == BackendError(reply.description)
  {
    match reply
    case Content(content) => Ok(content)
    case Thrown(description) => Err(BackendError(description))
  }

  /** What `generateResponse` yields, given whether the service is initialized. */
  function Respond(initialized: bool, config: LLMConfiguration, prompt: string, backend: Backend): (r: Result<string>)
    ensures !initialized ==> r == Err(NotInitializedError)
  {
    if !initialized then Err(NotInitializedError) else Deliver(backend(RequestFor(config, prompt)))
  }

  /** The three named reasons and every other reason get a fixed message. */
  lemma FailureMessages(description: string)
    ensures StateFor(Unavailable(DeviceNotEligible)) == Failure("Device not eligible")
    ensures StateFor(Unavailable(AppleIntelligenceNotEnabled)) == Failure("Apple Intelligence not enabled")
    ensures StateFor(Unavailable(ModelNotReady)) == Failure("Model not ready")
    ensures StateFor(Unavailable(Other(description))) == Failure("Apple Intelligence unavailable " + description)
  {
  }

  /** The description of an unclassified reason is kept verbatim in its
      message, and no two descriptions give the same message. */
  lemma OtherMessageKeepsDescription(d1: string, d2: string)
    ensures FailureMessage(Other(d1))[|UnavailablePrefix|..] == d1
    ensures FailureMessage(Other(d1)) == FailureMessage(Other(d2)) <==> d1 == d2
  {
    if FailureMessage(Other(d1)) == FailureMessage(Other(d2)) {
      assert d1 == FailureMessage(Other(d1))[|UnavailablePrefix|..];
    }
  }

  /** The content the backend returns for the request reaches the caller
      unchanged. */
  lemma ContentPassedOn(config: LLMConfiguration, prompt: string, backend: Backend, content: string)
    requires backend(RequestFor(config, prompt)) == Content(content)
    ensures Respond(true, config, prompt, backend) == Ok(content)
  {
  }

  /** An error the backend throws reaches the caller with its description. */
  lemma BackendErrorPassedOn(config: LLMConfiguration, prompt: string, backend: Backend, description: string)
    requires backend(RequestFor(config, prompt)) == Thrown(description)
    ensures Respond(true, config, prompt, backend) == Err(BackendError(description))
  {
  }

  class LLMService {
    /** Set once by the constructor; no method assigns it. */
    const config: LLMConfiguration
    var isInitialized: bool
    /** Every request sent to a backend session, oldest first. */
    var requests: seq<Request>

    constructor (config: LLMConfiguration)
      ensures this.config == config
      ensures !isInitialized && requests == []
    {
      this.config := config;
      isInitialized := false;
      requests := [];
    }

    /** Maps the model's availability to a state; the service counts as
        initialized afterwards whatever the availability was. */
    method Initialize(availability: Availability) returns (state: LLMState)
      modifies this`isInitialized
      ensures state == StateFor(availability)
      ensures isInitialized
    {
      state := StateFor(availability);
      isInitialized := true;
    }

    /** Fails fast before `initialize`; otherwise sends one request to a
        fresh session and yields its content or its error. */
    method GenerateResponse(prompt: string, backend: Backend) returns (r: Result<string>)
      modifies this`requests
      ensures r == Respond(isInitialized, config, prompt, backend)
      ensures !isInitialized ==> r == Err(NotInitializedError) && requests == old(requests)
      ensures isInitialized ==> requests == old(requests) + [RequestFor(config, prompt)]
      ensures isInitialized ==> r == Deliver(backend(requests[|requests| - 1]))
    {
      if !isInitialized {
        return Err(NotInitializedError);
      }
      var options := GenerationOptions(config.temperature);
      var request := Request(config.defaultInstructions, options, prompt);
      requests := requests + [request];
      r := Deliver(backend(request));
    }
  }

  /** A service used before `initialize` never reaches the backend; after an
      `initialize` that reported a failure it does. */
  method InitializeThenGenerate(prompt: string, backend: Backend) returns (before: Result<string>, after: Result<string>)
    ensures before == Err(NotInitializedError)
    ensures after == Deliver(backend(RequestFor(DefaultConfiguration, prompt)))
  {
    var service := new LLMService(DefaultConfiguration);
    before := service.GenerateResponse(prompt, backend);
    assert service.requests == [];
    var state := service.Initialize(Unavailable(ModelNotReady));
    assert state == Failure("Model not ready");
    after := service.GenerateResponse(prompt, backend);
    assert |service.requests| == 1;
  }
}
