/** The shared `Avatar` component's initials. */
module Avatar {
  import opened Wrappers
  import opened Strings
  import opened Seqs
  import opened Initials
  import Settings

  /** The user the avatar is drawn for; `name` may be missing, `null` or empty. */
  datatype AvatarUser = AvatarUser(email: string, name: Option<string>)

  predicate HasName(user: AvatarUser) {
    user.name.Some? && user.name.value != ""
  }

  /** The initials: every part's first letter for a name, otherwise the first letter of the email.
      Without a name, `email[0]` of an empty email is `undefined` and `toUpperCase` throws a
      `TypeError`: that render fails, which is `None`. */
  function AvatarInitials(user: AvatarUser): (r: Option<string>)
    ensures r.None? <==> !HasName(user) && user.email == ""
    ensures HasName(user) ==> r == Some(ToUpper(Heads(Split(user.name.value, ' '))))
    ensures HasName(user) ==> |r.value| == NonEmptyCount(Split(user.name.value, ' '))
    ensures !HasName(user) && user.email != "" ==> r == Some([UpperChar(user.email[0])])
    ensures r.Some? ==> forall i :: 0 <= i < |r.value| ==> !IsLowerAscii(r.value[i])
  {
    if HasName(user) then Some(ToUpper(Heads(Split(user.name.value, ' '))))
    else if user.email == "" then None
    else
      var upper := ToUpper([user.email[0]]);
      assert upper == [UpperChar(user.email[0])];
      Some(upper)
  }

  /** With a name, the avatar shows the settings page's initials without the cut to two letters. */
  lemma TruncationIsTheOnlyDifference(user: AvatarUser)
    requires HasName(user)
    ensures Settings.GetInitials(user.name.value) == SliceTo(AvatarInitials(user).value, 2)
  {
  }

  /** Three words give three letters, where the settings page's `getInitials` keeps two. */
  lemma ThreeWords(email: string, a: string, b: string, c: string)
    requires a != "" && b != "" && c != "" && ' ' !in a && ' ' !in b && ' ' !in c
    ensures AvatarInitials(AvatarUser(email, Some(a + " " + b + " " + c))) ==
      Some([UpperChar(a[0]), UpperChar(b[0]), UpperChar(c[0])])
    ensures Settings.GetInitials(a + " " + b + " " + c) == [UpperChar(a[0]), UpperChar(b[0])]
  {
    SplitThree(a, b, c);
    HeadsThree(a, b, c);
    var u := ToUpper(Heads([a, b, c]));
    assert u == [UpperChar(a[0]), UpperChar(b[0]), UpperChar(c[0])];
    assert SliceTo(u, 2) == u[..2];
  }

  lemma SplitThree(a: string, b: string, c: string)
    requires ' ' !in a && ' ' !in b && ' ' !in c
    ensures Split(a + " " + b + " " + c, ' ') == [a, b, c]
  {
    assert a + " " + b + " " + c == a + [' '] + (b + [' '] + c);
    SplitAfterFirst(a, ' ', b + [' '] + c);
    SplitAfterFirst(b, ' ', c);
    SplitNone(c, ' ');
  }

  lemma HeadsThree(a: string, b: string, c: string)
    requires a != "" && b != "" && c != ""
    ensures Heads([a, b, c]) == [a[0], b[0], c[0]]
  {
    assert [a, b, c][..2] == [a, b] && [a, b][..1] == [a] && [a][..0] == [];
    assert Heads([a]) == [a[0]];
    assert Heads([a, b]) == [a[0], b[0]];
  }
}
