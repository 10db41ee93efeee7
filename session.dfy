/** The session record and the pure decisions around it: the user record built from the
    identity token's claims, what a stored value restores to, and the initial shown in the
    profile circle. The page object that applies these decisions is in module App. */
module Session {
  import opened Wrappers
  import opened JsStrings
  import opened Jwt

  /** The `localStorage` key the session is mirrored under. */
  const UserKey: string := "user"

  /** The user record `{ id, name, email, picture }`. `id` is the token's `sub` copied without
      a default, so it is absent when the token has none. */
  datatype User = User(id: Option<string>, name: string, email: string, picture: string)

  /** `obj[key]` for a string-valued property: None for `undefined`. */
  function Lookup(fields: map<string, string>, key: string): (r: Option<string>)
    ensures r.Some? <==> key in fields
    ensures r.Some? ==> r.value == fields[key]
  {
    if key in fields then Some(fields[key]) else None
  }

  /** `obj[key] || ''` for a string-valued property: the value, or `''` when it is missing
      (an empty string is falsy and gives `''` as well). */
  function FieldOrEmpty(fields: map<string, string>, key: string): (r: string)
    ensures key in fields ==> r == fields[key]
    ensures key !in fields ==> r == ""
  {
    Lookup(fields, key).GetOr("")
  }

  /** The record `handleGoogleSignIn` builds from the token payload: `sub` becomes `id` as it
      is, and `name`, `email` and `picture` default to `''`. */
  function UserFromClaims(claims: map<string, string>): (u: User)
    ensures u.id.Some? <==> "sub" in claims
    ensures u.id.Some? ==> u.id.value == claims["sub"]
    ensures "name" in claims ==> u.name == claims["name"]
    ensures "email" in claims ==> u.email == claims["email"]
    ensures "picture" in claims ==> u.picture == claims["picture"]
    ensures "name" !in claims ==> u.name == ""
    ensures "email" !in claims ==> u.email == ""
    ensures "picture" !in claims ==> u.picture == ""
  {
    User(Lookup(claims, "sub"), FieldOrEmpty(claims, "name"), FieldOrEmpty(claims, "email"),
         FieldOrEmpty(claims, "picture"))
  }

  /** A credential without a payload segment is not refused: `parseJwt` yields `{}`, and
      sign-in goes ahead with a record whose `id` is absent and whose other fields are all
      `''`. */
  lemma TokenWithoutPayloadGivesBlankUser(credential: string, atob: string -> Option<string>,
                                          decodeUriComponent: string -> Option<string>,
                                          jsonParse: string -> Option<JsonValue>)
    requires '.' !in credential
    ensures ParseJwt(credential, atob, decodeUriComponent, jsonParse).Object?
    ensures UserFromClaims(ParseJwt(credential, atob, decodeUriComponent, jsonParse).fields)
         == User(None, "", "", "")
  {
  }

  /** The object `JSON.stringify` serializes for a record: `id` is dropped when it is
      `undefined`, the other three properties are always there. */
  function RecordFields(u: User): (fields: map<string, string>)
    ensures "id" in fields <==> u.id.Some?
    ensures fields.Keys <= {"id", "name", "email", "picture"}
  {
    var shown := map["name" := u.name, "email" := u.email, "picture" := u.picture];
    if u.id.Some? then shown["id" := u.id.value] else shown
  }

  /** A restored object read back as a record: the four properties the page reads from it. */
  function UserFromRecord(fields: map<string, string>): (u: User)
    ensures u.id.Some? <==> "id" in fields
    ensures u.id.Some? ==> u.id.value == fields["id"]
    ensures "name" in fields ==> u.name == fields["name"]
    ensures "email" in fields ==> u.email == fields["email"]
    ensures "picture" in fields ==> u.picture == fields["picture"]
    ensures "name" !in fields ==> u.name == ""
    ensures "email" !in fields ==> u.email == ""
    ensures "picture" !in fields ==> u.picture == ""
  {
    User(Lookup(fields, "id"), FieldOrEmpty(fields, "name"), FieldOrEmpty(fields, "email"),
         FieldOrEmpty(fields, "picture"))
  }

  /** Reading back the serialized object gives the record that was written. */
  lemma RecordRoundTrip(u: User)
    ensures UserFromRecord(RecordFields(u)) == u
  {
    var f := RecordFields(u);
    assert f["name"] == u.name && f["email"] == u.email && f["picture"] == u.picture;
  }

  /** What `restoreSession` does with the value stored under `'user'`. */
  datatype RestoreAction =
    | NothingStored          // the key is missing or holds `''`: nothing happens
    | RemoveMalformed        // `JSON.parse` throws: the key is removed
    | Adopt(user: User)      // a record with a non-empty `email`: it becomes the session
    | IgnoreRecord           // anything else that parses: nothing happens, the key stays

  /** The decision `restoreSession` takes for the stored value `raw` (None when the key is
      missing). */
  function DecideRestore(raw: Option<string>, jsonParse: string -> Option<JsonValue>): (r: RestoreAction)
    ensures r == NothingStored <==> raw.None? || raw.value == ""
    ensures r == RemoveMalformed <==> raw.Some? && raw.value != "" && jsonParse(raw.value).None?
    ensures r.Adopt? <==>
      && raw.Some? && raw.value != ""
      && jsonParse(raw.value).Some? && jsonParse(raw.value).value.Object?
      && FieldOrEmpty(jsonParse(raw.value).value.fields, "email") != ""
    ensures r.Adopt? ==> r.user == UserFromRecord(jsonParse(raw.value).value.fields) && r.user.email != ""
  {
    if raw.None? || raw.value == "" then NothingStored
    else
      match jsonParse(raw.value)
      case None => RemoveMalformed
      case Some(Null) => IgnoreRecord
      case Some(Object(fields)) =>
        if FieldOrEmpty(fields, "email") != "" then Adopt(UserFromRecord(fields)) else IgnoreRecord
  }

  /** A session written by sign-in is restored after a reload exactly when its `email` is
      non-empty, provided `JSON.stringify` writes a non-empty text (it always writes at least
      `{}` for an object) and `JSON.parse` reads back what it wrote. A sign-in whose
      token carries no email is current until the page is reloaded, and not after. */
  lemma SignInSurvivesReloadIff(u: User, jsonParse: string -> Option<JsonValue>,
                                jsonStringify: JsonValue -> string)
    requires jsonStringify(Object(RecordFields(u))) != ""
    requires jsonParse(jsonStringify(Object(RecordFields(u)))) == Some(Object(RecordFields(u)))
    ensures DecideRestore(Some(jsonStringify(Object(RecordFields(u)))), jsonParse) == (if u.email != "" then Adopt(u) else IgnoreRecord)
  {
    RecordRoundTrip(u);
    var f := RecordFields(u);
    assert "email" in f && f["email"] == u.email;
  }

  /** The character shown in the profile circle:
      `((name && name[0]) || (email && email[0]) || 'U').toUpperCase()`. */
  function ProfileInitial(u: User): (c: char)
    ensures u.name != "" ==> c == ToUpperChar(u.name[0])
    ensures u.name == "" && u.email != "" ==> c == ToUpperChar(u.email[0])
    ensures u.name == "" && u.email == "" ==> c == 'U'
    ensures !('a' <= c <= 'z')
  {
    var first := if u.name != "" then u.name[0] else if u.email != "" then u.email[0] else 'U';
    ToUpperChar(first)
  }
}
