/** The chat's system-message line (`getMessage` of `SystemMessage`). */
module SystemMessage {
  import opened Wrappers
  import opened Strings

  /** The `type` prop; `Other` is any value outside the declared four, which falls to `default`. */
  datatype MessageType = Join | Leave | UpdateName | UpdateDescription | Other(name: string)

  datatype MessageUser = MessageUser(displayName: Option<string>, email: string)

  /** The `switch (type)` on the prop's string: each `case` label names its type, and every
      other string, and only such a string, is `Other`. */
  function TypeOf(s: string): (kind: MessageType)
    ensures kind.Other? <==> s != "join" && s != "leave" && s != "update_name" && s != "update_description"
    ensures kind.Other? ==> kind.name == s
    ensures kind == Join <==> s == "join"
    ensures kind == Leave <==> s == "leave"
    ensures kind == UpdateName <==> s == "update_name"
    ensures kind == UpdateDescription <==> s == "update_description"
  {
    if s == "join" then Join
    else if s == "leave" then Leave
    else if s == "update_name" then UpdateName
    else if s == "update_description" then UpdateDescription
    else Other(s)
  }

  /** `user.displayName || user.email`. */
  function UserName(user: MessageUser): (r: string)
    ensures user.displayName.Some? && user.displayName.value != "" ==> r == user.displayName.value
    ensures user.displayName.None? || user.displayName.value == "" ==> r == user.email
  {
    if user.displayName.Some? && user.displayName.value != "" then user.displayName.value else user.email
  }

  /** A template literal prints a missing value as `undefined`. */
  function Interpolated(v: Option<string>): string {
    if v.Some? then v.value else "undefined"
  }

  /** The text the line shows. */
  function GetMessage(kind: MessageType, user: MessageUser, newValue: Option<string>): (r: string)
    ensures r == "" <==> kind.Other?
    ensures !kind.Other? ==> StartsWith(r, UserName(user) + " ")
  {
    var userName := UserName(user);
    match kind
    case Join => userName + " joined the channel"
    case Leave => userName + " left the channel"
    case UpdateName => userName + " renamed the channel to \"" + Interpolated(newValue) + "\""
    case UpdateDescription => userName + " updated the channel description"
    case Other(_) => ""
  }

  /** After the user's name comes a text fixed by the type, except that a rename quotes the new name. */
  lemma MessageTail(kind: MessageType, user: MessageUser, newValue: Option<string>)
    requires !kind.Other?
    ensures var n := |UserName(user)|;
      var r := GetMessage(kind, user, newValue);
      r[n..] == match kind
        case Join => " joined the channel"
        case Leave => " left the channel"
        case UpdateName => " renamed the channel to \"" + Interpolated(newValue) + "\""
        case UpdateDescription => " updated the channel description"
  {
    var userName := UserName(user);
    var r := GetMessage(kind, user, newValue);
    match kind
    case Join => assert r == userName + " joined the channel";
    case Leave => assert r == userName + " left the channel";
    case UpdateName => assert r == userName + (" renamed the channel to \"" + Interpolated(newValue) + "\"");
    case UpdateDescription => assert r == userName + " updated the channel description";
  }

  /** A rename shows the new name between double quotes at the end of the line. */
  lemma RenameQuotesValue(user: MessageUser, v: string)
    ensures var r := GetMessage(UpdateName, user, Some(v));
      && |r| >= |v| + 2
      && r[|r| - 1] == '"' && r[|r| - |v| - 2] == '"'
      && r[|r| - |v| - 1..|r| - 1] == v
  {
    var p := UserName(user) + " renamed the channel to \"";
    var r := GetMessage(UpdateName, user, Some(v));
    assert r == p + v + "\"";
    assert r[|p| - 1] == p[|p| - 1] == '"';
    assert r[|p|..|r| - 1] == v;
  }
}
