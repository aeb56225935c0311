/** The form validation of the new-channel route's `action`. */
module ChannelNew {
  import opened Wrappers

  /** The submitted form; a field that was not sent is `None`. */
  datatype ChannelForm = ChannelForm(name: Option<string>, description: Option<string>, isPrivate: bool)

  /** The `errors` record: one optional message per field. */
  datatype Errors = Errors(name: Option<string>, description: Option<string>, form: Option<string>)

  /** A 400 response with the errors, or the arguments handed on to channel creation. */
  datatype Outcome =
    | BadRequest(status: int, errors: Errors)
    | Create(name: string, description: Option<string>, channelType: string)

  const NameError := "Invalid channel name."
  const DescriptionError := "Description is too long."
  const MinNameLength := 2
  const MaxNameLength := 32
  const MaxDescriptionLength := 512

  /** The names the router already uses below `/app/c/`. */
  const ReservedNames := ["new", "join", "favorite"]

  /** The class `[a-z0-9-]`. */
  predicate NameChar(c: char) {
    ('a' <= c <= 'z') || ('0' <= c <= '9') || c == '-'
  }

  /** `/^[a-z0-9-]+$/.test(name)`. */
  predicate MatchesPattern(name: string) {
    |name| >= 1 && forall i :: 0 <= i < |name| ==> NameChar(name[i])
  }

  /** A channel name the action lets through. */
  predicate AcceptableName(name: Option<string>) {
    && name.Some?
    && MinNameLength <= |name.value| <= MaxNameLength
    && MatchesPattern(name.value)
    && name.value !in ReservedNames
  }

  /** A description the action rejects. */
  predicate DescriptionTooLong(description: Option<string>) {
    description.Some? && |description.value| > MaxDescriptionLength
  }

  /** The validation part of `action`: fill `errors` field by field, then answer 400 if any was set. */
  method Validate(form: ChannelForm) returns (r: Outcome)
    ensures r.BadRequest? <==> !AcceptableName(form.name) || DescriptionTooLong(form.description)
    ensures r.BadRequest? ==> r.status == 400 && r.errors.form.None?
    ensures r.BadRequest? ==> (r.errors.name.Some? <==> !AcceptableName(form.name))
    ensures r.BadRequest? ==> (r.errors.description.Some? <==> DescriptionTooLong(form.description))
    ensures r.BadRequest? && r.errors.name.Some? ==> r.errors.name.value == NameError
    ensures r.BadRequest? && r.errors.description.Some? ==> r.errors.description.value == DescriptionError
    ensures r.Create? ==> Some(r.name) == form.name && r.description == form.description
    ensures r.Create? ==> r.channelType == if form.isPrivate then "private" else "public"
  {
    var errors := Errors(None, None, None);
    var name := form.name;
    if name.None? || name.value == "" || |name.value| < MinNameLength || |name.value| > MaxNameLength
       || !(|name.value| >= 1 && forall i | 0 <= i < |name.value| :: NameChar(name.value[i]))
    {
      errors := errors.(name := Some(NameError));
    }
    if name == Some("new") || name == Some("join") || name == Some("favorite") {
      errors := errors.(name := Some(NameError));
    }
    var description := form.description;
    if description.Some? && description.value != "" && |description.value| > MaxDescriptionLength {
      errors := errors.(description := Some(DescriptionError));
    }
    if errors.name.Some? || errors.description.Some? || errors.form.Some? {
      return BadRequest(400, errors);
    }
    r := Create(name.value, description, if form.isPrivate then "private" else "public");
  }

  /** The reserved names pass the pattern and the length rule and are still refused. */
  lemma ReservedNamesRefused(name: string)
    requires name in ReservedNames
    ensures MatchesPattern(name) && MinNameLength <= |name| <= MaxNameLength
    ensures !AcceptableName(Some(name))
  {
  }

  /** A missing or empty description never errors. */
  lemma EmptyDescriptionAccepted(description: Option<string>)
    requires description.None? || description == Some("")
    ensures !DescriptionTooLong(description)
  {
  }
}
