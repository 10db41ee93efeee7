# Room-design page: session store, generate button and token helpers

This project models the small piece of logic inside the room-design page's browser script
(`app.js`): the session that is mirrored into `localStorage` under the key `'user'`, the
generate button's guards and its busy/idle cycle, the classification of the image-generation
response, and the helpers `parseJwt` and the profile initial. The browser is reduced to plain
fields of one `Page` object: the global `state` record (`isLoggedIn`, `googleUser`), a
`map<string, string>` for `localStorage`, the `style.display` strings of the sign-up modal,
the sign-in button, the profile and its dropdown, the profile texts, the generate button's
label and `disabled` flag, the result image, and the list of `alert` messages.

Modules:

- `JsStrings` (`js_strings.dfy`): `trim` with the ECMAScript whitespace set, `split` on one
  character with its `join`, global one-character `replace`, upper-casing of one character.
- `Jwt` (`jwt.dfy`): `parseJwt` — the payload segment `token.split('.')[1]` of a compact JWS/JWT
  (RFC 7515 section 7.1, RFC 7519 section 3), the rewrite from the base64url alphabet
  (RFC 4648 section 5) to the standard one (RFC 4648 section 4), and the `%XX` escaping built
  from `toString(16)` and `slice(-2)`. `atob`, `decodeURIComponent` and `JSON.parse` are
  parameters returning `None` where they throw; the result falls back to `{}` on every failure.
- `Session` (`session.dfy`): the user record, the record built from the token claims, the
  object `JSON.stringify` writes, the decision `restoreSession` takes, the profile initial.
- `Generate` (`generate.dfy`): the ordered checks of `handleGenerateClick`, the prompt check of
  the request handler, the three-way classification of the settled `fetch`.
- `App` (`app.dfy`): class `Page` with one method per handler, each stating the whole new
  state through field-level `modifies` frames, and keeping `isLoggedIn <==> googleUser != null`.

Behaviours of the code that the model keeps as they are: the code signs in even when the credential has no payload segment or its payload cannot be
decoded (the record is then blank: no `id`, all other fields `''`); it keeps a signed-in session whose token had no `email` (the record then holds `''`, and
such a session is not restored after a reload); it reports a response without `imageUrl` with
its own "No image returned" alert rather than as a failure; and nothing but the button's
`disabled` flag stands between two requests — there is no in-flight check in the code.

## Model

| member | source | states |
|---|---|---|
| `JsStrings.TrimStart` | app.js:37 | the result is the longest suffix not starting with whitespace; everything removed is ECMAScript whitespace |
| `JsStrings.TrimEnd` | app.js:37 | the result is the longest prefix not ending with whitespace; everything removed is whitespace |
| `JsStrings.Trim` | app.js:37 | a non-empty trimmed string neither starts nor ends with whitespace |
| `JsStrings.TrimEmptyIff` | app.js:265 | `s.trim()` is empty exactly when every character of `s` is whitespace (the blank-prompt test) |
| `JsStrings.TrimIsInfix` | app.js:37 | the trimmed prompt is the contiguous piece of what was typed that starts where the leading whitespace ends, with only whitespace before and after it |
| `JsStrings.Split` | app.js:436 | `split('.')` gives one piece more than there are dots, and no piece contains a dot |
| `JsStrings.SplitHasSecondIff` | app.js:436 | `token.split('.')[1]` exists exactly when the token contains a dot |
| `JsStrings.JoinSplit` | app.js:436 | joining the pieces with the separator gives back the token |
| `JsStrings.SplitJoin` | app.js:436 | splitting a join of separator-free pieces gives back the pieces |
| `JsStrings.ReplaceAll` | app.js:437 | a global one-character `replace` keeps the length, replaces every occurrence and nothing else |
| `JsStrings.ToUpperChar` | app.js:393 | ASCII lower-case letters become upper case, every other character is kept |
| `Jwt.PayloadSegment` | app.js:436 | a segment is selected exactly when the token has a dot, and it holds no dot |
| `Jwt.PayloadSegmentOfCompact` | app.js:436 | for `header.payload.signature` and `header.payload` the selected segment is the payload |
| `Jwt.ToStandardAlphabet` | app.js:437 | `.replace(/-/g, '+').replace(/_/g, '/')` keeps the length, turns `-` into `+` and `_` into `/`, and keeps every other character |
| `Jwt.ToStandardAlphabetSpec` | app.js:437 | the substitution keeps the length, turns `-` into `+` and `_` into `/`, leaves all else, and maps base64url text to standard base64 text |
| `Jwt.AlphabetRoundTrip` | app.js:437 | on base64url text the substitution is undone by the encoder's `+`→`-`, `/`→`_`, and conversely |
| `Jwt.ToHexString` | app.js:439 | `toString(16)` has one digit exactly for values below 16 |
| `Jwt.HexStringRoundTrip` | app.js:439 | reading the digits of `n.toString(16)` back gives `n` |
| `Jwt.LastHexDigit` | app.js:439 | the last digit of `n.toString(16)` is the digit of `n % 16` |
| `Jwt.LastTwoHexDigits` | app.js:439 | `('00' + n.toString(16)).slice(-2)` is the two low hexadecimal digits of `n` |
| `Jwt.EscapeUnit` | app.js:439 | each character becomes `%` followed by the two low hexadecimal digits of its code |
| `Jwt.PercentEncode` | app.js:438-440 | the escaped text has three characters per input character, group `i` being the escape of character `i` |
| `Jwt.PercentRoundTrip` | app.js:438-440 | decoding the escapes gives back each character's octet, so the bytes from `atob` reach `decodeURIComponent` intact |
| `Jwt.DecodePayload` | app.js:437-444 | a failing `atob` yields `{}`; any other result came from `JSON.parse` of the decoded text; when all three routines succeed the result is `JSON.parse`'s value |
| `Jwt.ParseJwt` | app.js:434-445 | total (never throws); a token without a dot yields `{}` |
| `Jwt.ParseJwtReadsOnlyPayload` | app.js:434-445 | header and signature are neither read nor verified: tokens with the same payload segment decode alike |
| `Session.Lookup` | app.js:344 | a property read is defined exactly when the property is present, and then gives its value |
| `Session.FieldOrEmpty` | app.js:345-347 | `obj.key \|\| ''` is the value when present and `''` otherwise |
| `Session.UserFromClaims` | app.js:343-348 | `id` is `sub` as it is (absent when missing); `name`, `email`, `picture` are copied or default to `''` |
| `Session.TokenWithoutPayloadGivesBlankUser` | app.js:339-348 | a credential without a dot still signs in, with no `id` and `''` for `name`, `email` and `picture` |
| `Session.RecordFields` | app.js:351 | the serialized object has `id` exactly when the record has one, and no properties beyond the four |
| `Session.UserFromRecord` | app.js:365-369 | a restored object is read through its `id`, `name`, `email` and `picture` properties, each copied when present, `id` absent and the others `''` when missing |
| `Session.RecordRoundTrip` | app.js:351 | reading the serialized object back gives the record that was written |
| `Session.DecideRestore` | app.js:361-375 | missing or `''` value: nothing; `JSON.parse` throws: remove the key; a non-empty `email`: adopt the record; otherwise nothing |
| `Session.SignInSurvivesReloadIff` | app.js:351 | a session written by sign-in is adopted by the next restore exactly when its `email` is non-empty |
| `Session.ProfileInitial` | app.js:392-393 | the upper-cased first character of `name`, else of `email`, else `'U'`; never an ASCII lower-case letter |
| `Generate.CheckGenerateClick` | app.js:255-269 | checks in order: not logged in asks for sign-in; then no file; then a null or blank prompt; only all passing starts |
| `Generate.RequestPrompt` | app.js:37-42 | the handler stops exactly when the prompt is blank; otherwise it sends the trimmed prompt: the piece of the input between its leading and trailing whitespace, which it neither starts nor ends with |
| `Generate.ClassifyResponse` | app.js:57-71 | rejection, non-OK status, unparsable or `null` body fail; a non-empty `imageUrl` succeeds with that URL; anything else is "no image" |
| `App.ToggledDisplay` | app.js:427-428 | the dropdown becomes hidden exactly when it was `'block'`, and shown otherwise |
| `App.Page.constructor` | app.js:83-86 | a loaded page starts logged out with no user, over the stored values |
| `App.Page.ApplyLoggedInUI` | app.js:380-398 | the modal and sign-in button are hidden, the profile shown with the initial and the email |
| `App.Page.HandleGoogleSignIn` | app.js:339-356 | storage `'user'` holds the serialized record, `googleUser` is it, `isLoggedIn` is true; a `null` payload throws and changes nothing |
| `App.Page.RestoreSession` | app.js:361-375 | applies the four cases of `DecideRestore` and changes nothing else; keeps the session invariant |
| `App.Page.HandleLogout` | app.js:403-420 | key removed, `googleUser` null, logged out, profile and dropdown hidden, sign-in button and modal shown |
| `App.Page.ToggleProfileDropdown` | app.js:425-429 | the dropdown display is toggled between `'block'` and `'none'` |
| `App.Page.CloseDropdownOnOutsideClick` | app.js:166-175 | an outside click closes an open dropdown and otherwise changes nothing |
| `App.Page.ShowLoadingState` | app.js:271-274 | the button shows the spinner label and is disabled |
| `App.Page.ResetGenerateButton` | app.js:284-287 | the button is enabled with its idle label |
| `App.Page.HandleGenerateClick` | app.js:255-269 | the outcome is `CheckGenerateClick`'s; only `Started` makes the button busy, each refusal has its own single effect |
| `App.Page.CompleteMockDesign` | app.js:276-282 | after the mock completes the button is idle again and the ready message is shown |
| `App.Page.StartGenerateRequest` | app.js:36-47 | a blank prompt only alerts; otherwise the button is busy and the trimmed prompt is sent |
| `App.Page.SettleGenerateRequest` | app.js:57-75 | the outcome is shown as classified, and the `finally` block leaves the button idle whatever the outcome |

## Left out

- DOM lookups and the `if (elements.x)` guards: every element the modelled code touches is assumed present.
- The mobile menu, drag-and-drop, the `FileReader` preview, the contact form, the style templates and their toast (app.js:186-250, 292-301, 533-659): UI plumbing with no state the core reads.
- `fetch`, the Google Identity script loader and EmailJS (app.js:317-333, 561-588): network and third-party calls; a settled `fetch` is the `FetchResult` parameter.
- The internals of `atob`, `decodeURIComponent`, `JSON.parse` and `JSON.stringify`: foreign routines, given as parameters (`App.Browser`).
- The other generate handlers (app.js:446-475, 476-487, 496-528) and the fact that several click handlers are registered on the same button: event-loop interleaving is not modelled; the handler at app.js:36-76 stands for the request path.
- Timers: the mock completion (app.js:278-281) is the explicit `App.Page.CompleteMockDesign` step, and the `fetch` settling is the explicit `App.Page.SettleGenerateRequest` step. A request that never settles simply never takes that step.
- Clicks on a disabled button are not delivered by the browser; that is what keeps a second request from starting, and it is not part of the code.
- `console.log` / `console.error` output.
- A throwing `localStorage` (storage blocked or over quota): `setItem` would then throw at app.js:351 before `state` is updated, and `getItem` at app.js:362 outside the `try`; storage is a plain map that never fails.
- JSON values are seen through their string-valued properties: a property holding a number or an object is not modelled, and a non-null JSON value that is not an object (a number, a boolean, a string, an array) is represented as an object without the properties read, which has the same effect on every read the code does.
- `App.Page.RestoreSession`: the restored `googleUser` is the parsed object itself in the code; the model keeps its four properties `id`, `name`, `email`, `picture`, which are all the page reads.
- `App.Page.HandleGoogleSignIn`: a response without `credential` is not modelled; the credential is a string.
- `JsStrings.ToUpperChar`: only ASCII letters are upper-cased; `toUpperCase` also maps other letters, some to two characters.
- `Session.ProfileInitial`: `name[0]` is a UTF-16 code unit in JavaScript; here it is a whole character.
