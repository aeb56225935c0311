/** The user profile popover: the name and initials it shows for a user. */
module UserProfilePopover {
  import opened Wrappers
  import opened Strings
  import opened Initials
  import Settings

  /** The user fields the popover reads. */
  datatype User = User(email: string, displayName: Option<string>)

  /** The popover's own copy of `getInitials`, written part by part. */
  function GetInitials(name: string): (r: string)
    ensures |r| == if NonEmptyCount(Split(name, ' ')) < 2 then NonEmptyCount(Split(name, ' ')) else 2
    ensures forall i :: 0 <= i < |r| ==> !IsLowerAscii(r[i])
    ensures r == ToUpper(Heads(Split(name, ' ')))[..|r|]
  {
    var upper := ToUpper(Heads(Split(name, ' ')));
    if |upper| <= 2 then upper else upper[..2]
  }

  /** The same on every input as the settings page's `getInitials`. */
  lemma AgreesWithSettings(name: string)
    ensures GetInitials(name) == Settings.GetInitials(name)
  {
  }

  /** `user.displayName || user.email`. */
  function DisplayName(user: User): (r: string)
    ensures r == if user.displayName.Some? && user.displayName.value != "" then user.displayName.value else user.email
  {
    Settings.DisplayName(user.displayName, user.email)
  }

  /** The initials in the popover's avatar fallback. */
  function UserInitials(user: User): (r: string)
    ensures |r| <= 2
    ensures user.displayName.Some? && user.displayName.value != "" ==> r == GetInitials(user.displayName.value)
    ensures user.displayName.None? || user.displayName == Some("") ==> r == GetInitials(user.email)
  {
    GetInitials(DisplayName(user))
  }
}
