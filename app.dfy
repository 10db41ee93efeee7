/** The page itself: the global `state` record, `localStorage`, and the element properties the
    session and generate code writes (display styles, texts, the button's label and disabled
    flag, the image shown), with one method per handler. `alert` calls are recorded in order
    in `alerts`. */
module App {
  import opened Wrappers
  import opened Jwt
  import opened Session
  import opened Generate

  /** The browser routines the page calls without this model seeing inside them; None stands
      for a thrown exception. */
  datatype Browser = Browser(
    atob: string -> Option<string>,
    decodeUriComponent: string -> Option<string>,
    jsonParse: string -> Option<JsonValue>,
    jsonStringify: JsonValue -> string)

  const IdleLabel: string := "Generate AI Design"
  const LoadingLabel: string := "<i class=\"fas fa-spinner fa-spin\"></i> Generating..."
  const RequestingLabel: string := "Generating..."

  const UploadPhotoAlert: string := "Please upload a room photo!"
  const DescribeRoomAlert: string := "Please describe your dream room!"
  const DesignReadyAlert: string := "\U{1F389} Your AI design is ready!"
  const EnterDescriptionAlert: string := "\U{26A0}\U{FE0F} Please enter a description for your dream room!"
  const NoImageAlert: string := "\U{274C} No image returned from AI."
  const FailureAlert: string := "\U{274C} Something went wrong. Please try again."

  /** The profile dropdown's `style.display` after a click on the profile circle. */
  function ToggledDisplay(display: string): (r: string)
    ensures r == "none" <==> display == "block"
    ensures r == "block" <==> display != "block"
  {
    if display == "block" then "none" else "block"
  }

  class Page {
    // the global `state`
    var isLoggedIn: bool
    var googleUser: Option<User>
    // `localStorage`
    var storage: map<string, string>
    // `style.display` of the sign-up modal, the sign-in button, the profile and its dropdown
    var signupModalDisplay: string
    var signInButtonDisplay: string
    var profileWrapperDisplay: string
    var profileDropdownDisplay: string
    // texts of the profile circle and the profile email
    var profileCircleText: string
    var profileEmailText: string
    // the generate button
    var generateLabel: string
    var generateDisabled: bool
    // the result area of the request handler
    var resultDisplay: string
    var resultImageSrc: string
    // every `alert` so far, oldest first
    var alerts: seq<string>

    /** `isLoggedIn` is true exactly when there is a `googleUser`. */
    predicate SessionConsistent()
      reads this
    {
      isLoggedIn <==> googleUser.Some?
    }

    /** The profile as `applyLoggedInUI` leaves it for `u`. */
    predicate ShowsLoggedIn(u: User)
      reads this
    {
      && signupModalDisplay == "none"
      && signInButtonDisplay == "none"
      && profileWrapperDisplay == "flex"
      && profileCircleText == [ProfileInitial(u)]
      && profileEmailText == u.email
    }

    /** A freshly loaded page over what `localStorage` already holds, before `restoreSession`:
        `state` is `{ isLoggedIn: false, googleUser: null }`. */
    constructor (stored: map<string, string>, buttonLabel: string)
      ensures SessionConsistent() && !isLoggedIn && googleUser == None && storage == stored
      ensures generateLabel == buttonLabel && !generateDisabled && alerts == []
    {
      isLoggedIn, googleUser, storage := false, None, stored;
      signupModalDisplay, signInButtonDisplay, profileWrapperDisplay, profileDropdownDisplay := "", "", "", "";
      profileCircleText, profileEmailText := "", "";
      generateLabel, generateDisabled := buttonLabel, false;
      resultDisplay, resultImageSrc := "", "";
      alerts := [];
    }

    /** `applyLoggedInUI(user)`. */
    method ApplyLoggedInUI(u: User)
      modifies this`signupModalDisplay, this`signInButtonDisplay, this`profileWrapperDisplay,
               this`profileCircleText, this`profileEmailText
      ensures ShowsLoggedIn(u)
    {
      signupModalDisplay := "none";
      signInButtonDisplay := "none";
      profileWrapperDisplay := "flex";
      profileCircleText := [ProfileInitial(u)];
      profileEmailText := u.email;
    }

    /** `handleGoogleSignIn({ credential })`. It returns false where the handler throws, which
        is when the token payload is JSON `null` (reading `payload.sub` fails); then nothing
        has changed. Otherwise the record is persisted under `'user'`, becomes `googleUser`,
        and the user is logged in. */
    method HandleGoogleSignIn(credential: string, browser: Browser) returns (completed: bool)
      requires SessionConsistent()
      modifies this`isLoggedIn, this`googleUser, this`storage,
               this`signupModalDisplay, this`signInButtonDisplay, this`profileWrapperDisplay,
               this`profileCircleText, this`profileEmailText
      ensures var payload := ParseJwt(credential, browser.atob, browser.decodeUriComponent, browser.jsonParse);
        && (completed <==> payload.Object?)
        && (!completed ==> unchanged(this))
        && (completed ==>
              var u := UserFromClaims(payload.fields);
              && storage == old(storage)[UserKey := browser.jsonStringify(Object(RecordFields(u)))]
              && googleUser == Some(u)
              && isLoggedIn
              && ShowsLoggedIn(u))
      ensures SessionConsistent()
    {
      var payload := ParseJwt(credential, browser.atob, browser.decodeUriComponent, browser.jsonParse);
      if payload.Null? {
        return false;
      }
      var user := UserFromClaims(payload.fields);
      storage := storage[UserKey := browser.jsonStringify(Object(RecordFields(user)))];
      googleUser := Some(user);
      isLoggedIn := true;
      ApplyLoggedInUI(user);
      return true;
    }

    /** `restoreSession()`: the four cases of `DecideRestore` applied to the page. */
    method RestoreSession(browser: Browser)
      requires SessionConsistent()
      modifies this`isLoggedIn, this`googleUser, this`storage,
               this`signupModalDisplay, this`signInButtonDisplay, this`profileWrapperDisplay,
               this`profileCircleText, this`profileEmailText
      ensures SessionConsistent()
      ensures var action := DecideRestore(Lookup(old(storage), UserKey), browser.jsonParse);
        && (action.Adopt? ==>
              && googleUser == Some(action.user) && isLoggedIn
              && storage == old(storage)
              && ShowsLoggedIn(action.user))
        && (action == RemoveMalformed ==>
              && storage == old(storage) - {UserKey}
              && UserKey !in storage
              && isLoggedIn == old(isLoggedIn) && googleUser == old(googleUser)
              && unchanged(this`signupModalDisplay, this`signInButtonDisplay, this`profileWrapperDisplay,
                           this`profileCircleText, this`profileEmailText))
        && (action == NothingStored || action == IgnoreRecord ==> unchanged(this))
    {
      var raw := Lookup(storage, UserKey);
      var action := DecideRestore(raw, browser.jsonParse);
      match action {
        case NothingStored =>
        case IgnoreRecord =>
        case RemoveMalformed =>
          storage := storage - {UserKey};
        case Adopt(user) =>
          googleUser := Some(user);
          isLoggedIn := true;
          ApplyLoggedInUI(user);
      }
    }

    /** `handleLogout()`: storage and `state` are cleared, the profile and its dropdown are
        hidden, and the sign-in button and the sign-up modal are shown again. */
    method HandleLogout()
      modifies this`isLoggedIn, this`googleUser, this`storage,
               this`profileDropdownDisplay, this`profileWrapperDisplay,
               this`signInButtonDisplay, this`signupModalDisplay
      ensures SessionConsistent()
      ensures storage == old(storage) - {UserKey} && UserKey !in storage
      ensures googleUser == None && !isLoggedIn
      ensures profileDropdownDisplay == "none" && profileWrapperDisplay == "none"
      ensures signInButtonDisplay == "block" && signupModalDisplay == "flex"
    {
      storage := storage - {UserKey};
      googleUser := None;
      isLoggedIn := false;
      profileDropdownDisplay := "none";
      profileWrapperDisplay := "none";
      signInButtonDisplay := "block";
      signupModalDisplay := "flex";
    }

    /** `toggleProfileDropdown()`. */
    method ToggleProfileDropdown()
      modifies this`profileDropdownDisplay
      ensures profileDropdownDisplay == ToggledDisplay(old(profileDropdownDisplay))
    {
      profileDropdownDisplay := if profileDropdownDisplay == "block" then "none" else "block";
    }

    /** The document click listener that closes an open dropdown when the click is outside the
        profile. */
    method CloseDropdownOnOutsideClick(insideProfile: bool)
      modifies this`profileDropdownDisplay
      ensures !insideProfile && old(profileDropdownDisplay) == "block" ==> profileDropdownDisplay == "none"
      ensures insideProfile || old(profileDropdownDisplay) != "block" ==> unchanged(this)
    {
      if !insideProfile && profileDropdownDisplay == "block" {
        profileDropdownDisplay := "none";
      }
    }

    /** `showLoadingState()`: the button is busy. */
    method ShowLoadingState()
      modifies this`generateLabel, this`generateDisabled
      ensures generateLabel == LoadingLabel && generateDisabled
    {
      generateLabel := LoadingLabel;
      generateDisabled := true;
    }

    /** `resetGenerateButton()`: the button is idle again. */
    method ResetGenerateButton()
      modifies this`generateLabel, this`generateDisabled
      ensures generateLabel == IdleLabel && !generateDisabled
    {
      generateLabel := IdleLabel;
      generateDisabled := false;
    }

    /** `handleGenerateClick()` with the chosen file's presence and the prompt element's value
        (None when there is no prompt element). Only a click that passes every check makes the
        button busy; the mock completion is then pending (`CompleteMockDesign`). */
    method HandleGenerateClick(hasFile: bool, prompt: Option<string>) returns (outcome: ClickOutcome)
      modifies this`signupModalDisplay, this`alerts, this`generateLabel, this`generateDisabled
      ensures outcome == CheckGenerateClick(old(isLoggedIn), hasFile, prompt)
      ensures outcome == SignInRequired ==>
        signupModalDisplay == "flex" && unchanged(this`alerts, this`generateLabel, this`generateDisabled)
      ensures outcome == MissingPhoto ==>
        alerts == old(alerts) + [UploadPhotoAlert]
        && unchanged(this`signupModalDisplay, this`generateLabel, this`generateDisabled)
      ensures outcome == MissingPrompt ==>
        alerts == old(alerts) + [DescribeRoomAlert]
        && unchanged(this`signupModalDisplay, this`generateLabel, this`generateDisabled)
      ensures outcome == Started ==>
        generateLabel == LoadingLabel && generateDisabled
        && unchanged(this`signupModalDisplay, this`alerts)
    {
      outcome := CheckGenerateClick(isLoggedIn, hasFile, prompt);
      match outcome {
        case SignInRequired =>
          signupModalDisplay := "flex";
        case MissingPhoto =>
          alerts := alerts + [UploadPhotoAlert];
        case MissingPrompt =>
          alerts := alerts + [DescribeRoomAlert];
        case Started =>
          ShowLoadingState();
      }
    }

    /** The timer callback of the mock `generateAIDesign`: the button is idle again and the
        ready message is shown. */
    method CompleteMockDesign()
      modifies this`generateLabel, this`generateDisabled, this`alerts
      ensures generateLabel == IdleLabel && !generateDisabled
      ensures alerts == old(alerts) + [DesignReadyAlert]
    {
      ResetGenerateButton();
      alerts := alerts + [DesignReadyAlert];
    }

    /** The request handler up to its `fetch`: a blank prompt is refused with an alert;
        otherwise the button reads "Generating..." and is disabled, and the trimmed prompt is
        what gets sent. */
    method StartGenerateRequest(promptValue: string) returns (sent: Option<string>)
      modifies this`alerts, this`generateLabel, this`generateDisabled
      ensures sent == RequestPrompt(promptValue)
      ensures sent.None? ==>
        alerts == old(alerts) + [EnterDescriptionAlert] && unchanged(this`generateLabel, this`generateDisabled)
      ensures sent.Some? ==>
        generateLabel == RequestingLabel && generateDisabled && alerts == old(alerts)
    {
      sent := RequestPrompt(promptValue);
      if sent.None? {
        alerts := alerts + [EnterDescriptionAlert];
        return;
      }
      generateLabel := RequestingLabel;
      generateDisabled := true;
    }

    /** The request handler once `fetch` has settled: the outcome is shown, and the `finally`
        block makes the button idle again whatever the outcome. */
    method SettleGenerateRequest(result: FetchResult)
      modifies this`alerts, this`resultImageSrc, this`resultDisplay, this`generateLabel, this`generateDisabled
      ensures generateLabel == IdleLabel && !generateDisabled
      ensures ClassifyResponse(result).Succeeded? ==>
        && resultImageSrc == ClassifyResponse(result).imageUrl && resultDisplay == "block"
        && alerts == old(alerts)
      ensures ClassifyResponse(result) == NoImageReturned ==>
        alerts == old(alerts) + [NoImageAlert] && unchanged(this`resultImageSrc, this`resultDisplay)
      ensures ClassifyResponse(result) == Failed ==>
        alerts == old(alerts) + [FailureAlert] && unchanged(this`resultImageSrc, this`resultDisplay)
    {
      match ClassifyResponse(result) {
        case Succeeded(url) =>
          resultImageSrc := url;
          resultDisplay := "block";
        case NoImageReturned =>
          alerts := alerts + [NoImageAlert];
        case Failed =>
          alerts := alerts + [FailureAlert];
      }
      generateLabel := IdleLabel;
      generateDisabled := false;
    }
  }
}
