/** The pure decisions of the generate button: the ordered checks of `handleGenerateClick`,
    the prompt check of the request handler, and how that handler classifies what the
    server sent back. The button state they drive is in module App. */
module Generate {
  import opened Wrappers
  import opened JsStrings
  import opened Jwt

  /** How a click on the generate button ends in `handleGenerateClick`. */
  datatype ClickOutcome =
    | SignInRequired   // not logged in: the sign-up modal is shown
    | MissingPhoto     // no file chosen: 'Please upload a room photo!'
    | MissingPrompt    // null, empty or blank prompt: 'Please describe your dream room!'
    | Started          // all checks passed: the button goes busy and the mock request starts

  /** The checks of `handleGenerateClick`, in their order: logged in, then a file, then a
      prompt that is not null and not blank after `trim`. */
  function CheckGenerateClick(isLoggedIn: bool, hasFile: bool, prompt: Option<string>): (r: ClickOutcome)
    ensures r == SignInRequired <==> !isLoggedIn
    ensures r == MissingPhoto <==> isLoggedIn && !hasFile
    ensures r == MissingPrompt <==> isLoggedIn && hasFile && (prompt.None? || AllWhitespace(prompt.value))
    ensures r == Started <==> isLoggedIn && hasFile && prompt.Some? && !AllWhitespace(prompt.value)
  {
    if !isLoggedIn then SignInRequired
    else if !hasFile then MissingPhoto
    else if prompt.None? || prompt.value == "" then MissingPrompt
    else
      TrimEmptyIff(prompt.value);
      if Trim(prompt.value) == "" then MissingPrompt else Started
  }

  /** The prompt the request handler sends: `promptInput.value.trim()`, or None when that is
      empty and the handler stops with an alert. */
  function RequestPrompt(value: string): (r: Option<string>)
    ensures r.None? <==> AllWhitespace(value)
    ensures r.Some? ==> r.value != "" && !IsJsWhitespace(r.value[0]) && !IsJsWhitespace(r.value[|r.value| - 1])
    ensures r.Some? ==> |r.value| <= |value|
    ensures r.Some? ==> IsPieceBetweenWhitespace(value, |value| - |TrimStart(value)|, r.value)
  {
    TrimEmptyIff(value);
    TrimIsInfix(value);
    var prompt := Trim(value);
    if prompt == "" then None else Some(prompt)
  }

  /** How the `fetch` call settles: it rejects (a network failure), or it yields a response
      with its `ok` flag and the result of `response.json()` (None when that rejects). */
  datatype FetchResult =
    | Rejected
    | Response(ok: bool, body: Option<JsonValue>)

  /** What the request handler shows once the call has settled. */
  datatype GenerationOutcome =
    | Succeeded(imageUrl: string)   // the image is shown
    | NoImageReturned               // 'No image returned from AI.'
    | Failed                        // 'Something went wrong. Please try again.'

  /** The handler's `try` block: a rejection, a non-OK status, a body that does not parse and
      a `null` body (reading `imageUrl` from it throws) all land in `catch`; otherwise a
      truthy `imageUrl` is shown and anything else is reported as no image. */
  function ClassifyResponse(result: FetchResult): (r: GenerationOutcome)
    ensures r == Failed <==>
      result.Rejected? || !result.ok || result.body.None? || result.body.value.Null?
    ensures r.Succeeded? <==>
      && result.Response? && result.ok && result.body.Some? && result.body.value.Object?
      && "imageUrl" in result.body.value.fields && result.body.value.fields["imageUrl"] != ""
    ensures r.Succeeded? ==> r.imageUrl == result.body.value.fields["imageUrl"] && r.imageUrl != ""
    ensures result.Response? && !result.ok ==> r == Failed
  {
    match result
    case Rejected => Failed
    case Response(ok, body) =>
      if !ok then Failed
      else
        match body
        case None => Failed
        case Some(Null) => Failed
        case Some(Object(fields)) =>
          if "imageUrl" in fields && fields["imageUrl"] != "" then Succeeded(fields["imageUrl"])
          else NoImageReturned
  }
}
