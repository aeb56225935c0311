/** The profile settings page: its `getInitials`, the name it shows, and the action's field normalisation. */
module Settings {
  import opened Wrappers
  import opened Strings
  import opened Seqs
  import opened Initials

  /** `getInitials`: split on spaces, take first characters, upper-case, keep at most two. */
  function GetInitials(name: string): (r: string)
    ensures |r| == if NonEmptyCount(Split(name, ' ')) < 2 then NonEmptyCount(Split(name, ' ')) else 2
    ensures forall i :: 0 <= i < |r| ==> !IsLowerAscii(r[i])
    ensures r == ToUpper(Heads(Split(name, ' ')))[..|r|]
  {
    SliceTo(ToUpper(Heads(Split(name, ' '))), 2)
  }

  /** `user.displayName || user.email`. */
  function DisplayName(displayName: Option<string>, email: string): (r: string)
    ensures displayName.Some? && displayName.value != "" ==> r == displayName.value
    ensures displayName.None? || displayName.value == "" ==> r == email
  {
    if displayName.Some? && displayName.value != "" then displayName.value else email
  }

  /** `value || null` in the action: an absent or empty field is stored as `null`. */
  function Normalised(value: Option<string>): (r: Option<string>)
    ensures r.None? <==> value.None? || value.value == ""
    ensures r.Some? ==> r == value
  {
    if value.Some? && value.value != "" then value else None
  }

  /** The fields the action hands to `updateUser`. */
  datatype ProfileUpdate = ProfileUpdate(displayName: Option<string>, avatarUrl: Option<string>)

  function UpdateFor(displayName: Option<string>, avatarUrl: Option<string>): (u: ProfileUpdate)
    ensures u.displayName == Normalised(displayName) && u.avatarUrl == Normalised(avatarUrl)
  {
    ProfileUpdate(Normalised(displayName), Normalised(avatarUrl))
  }

  /** Normalising twice changes nothing, and a stored name shows itself instead of the email. */
  lemma NormalisedStable(value: Option<string>, email: string)
    ensures Normalised(Normalised(value)) == Normalised(value)
    ensures Normalised(value).Some? ==> DisplayName(Normalised(value), email) == value.value
    ensures Normalised(value).None? ==> DisplayName(Normalised(value), email) == email
  {
  }

  /** Two words give their upper-cased first letters. */
  lemma TwoWords(a: string, b: string)
    requires a != "" && b != "" && ' ' !in a && ' ' !in b
    ensures GetInitials(a + " " + b) == [UpperChar(a[0]), UpperChar(b[0])]
  {
    SplitAfterFirst(a, ' ', b);
    assert a + " " + b == a + [' '] + b;
    SplitNone(b, ' ');
    assert [a] + [b] == [a, b];
    assert [a, b][..1] == [a];
    assert [a][..0] == [];
    var h := Heads([a, b]);
    assert Heads([a]) == Heads([]) + [a[0]];
    assert h == Heads([a]) + [b[0]];
    assert h == [a[0], b[0]];
    var u := ToUpper(h);
    assert u == [UpperChar(a[0]), UpperChar(b[0])];
    assert SliceTo(u, 2) == u;
  }

  /** Empty parts, from repeated or surrounding spaces, contribute nothing. */
  lemma ExtraSpacesIgnored(a: seq<string>, b: seq<string>)
    ensures Heads(a + [""] + b) == Heads(a + b)
  {
    HeadsConcat(a + [""], b);
    HeadsConcat(a, [""]);
    HeadsConcat(a, b);
    assert [""][..0] == [];
  }
}
