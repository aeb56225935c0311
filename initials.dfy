/** The `.map(part => part[0]).join("")` step shared by the initials helpers. */
module Initials {

  function NonEmptyCount(parts: seq<string>): nat {
    if parts == [] then 0 else NonEmptyCount(parts[..|parts| - 1]) + (if parts[|parts| - 1] == "" then 0 else 1)
  }

  /** The first character of every part, joined; an empty part's `part[0]` is `undefined`,
      which `join` writes as nothing. */
  function Heads(parts: seq<string>): (r: string)
    ensures |r| == NonEmptyCount(parts)
  {
    if parts == [] then ""
    else
      var last := parts[|parts| - 1];
      Heads(parts[..|parts| - 1]) + (if last == "" then "" else [last[0]])
  }

  /** The heads of two runs of parts are the heads of each, in order. */
  lemma {:induction false} HeadsConcat(a: seq<string>, b: seq<string>)
    ensures Heads(a + b) == Heads(a) + Heads(b)
    decreases |b|
  {
    if b == [] {
      assert a + b == a;
    } else {
      var init := b[..|b| - 1];
      assert (a + b)[..|a + b| - 1] == a + init;
      HeadsConcat(a, init);
    }
  }

  /** Every character of the result is the first character of some non-empty part. */
  lemma {:induction false} HeadsFromParts(parts: seq<string>, i: int)
    requires 0 <= i < |Heads(parts)|
    ensures exists j :: 0 <= j < |parts| && parts[j] != "" && Heads(parts)[i] == parts[j][0]
  {
    var init := parts[..|parts| - 1];
    var last := parts[|parts| - 1];
    if i < |Heads(init)| {
      HeadsFromParts(init, i);
      var j :| 0 <= j < |init| && init[j] != "" && Heads(init)[i] == init[j][0];
      assert parts[j] == init[j];
    } else {
      assert Heads(parts)[i] == last[0];
    }
  }
}
