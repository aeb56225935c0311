/** Grouping a message's reactions by emoji (`getGroupedReactions`). */
module Reactions {
  import opened Wrappers
  import opened Seqs

  /** The user fields selected with each reaction. */
  datatype ReactionUser = ReactionUser(id: string, username: string, displayName: Option<string>, avatarUrl: Option<string>)

  /** One `MessageReaction` row with its user; rows arrive ordered by creation time. */
  datatype Reaction = Reaction(emoji: string, user: ReactionUser)

  /** One entry of the grouped result. */
  datatype Group = Group(emoji: string, users: seq<ReactionUser>, count: nat)

  function EmojisOf(rs: seq<Reaction>): (es: seq<string>)
    ensures |es| == |rs| && forall i :: 0 <= i < |rs| ==> es[i] == rs[i].emoji
  {
    seq(|rs|, i requires 0 <= i < |rs| => rs[i].emoji)
  }

  /** The emojis in the order the map first meets them. */
  function EmojiOrder(rs: seq<Reaction>): seq<string> {
    FirstSeen(EmojisOf(rs))
  }

  /** The users who reacted with `e`, in reaction order. */
  function UsersWith(rs: seq<Reaction>, e: string): seq<ReactionUser> {
    if rs == [] then []
    else UsersWith(rs[..|rs| - 1], e) + (if rs[|rs| - 1].emoji == e then [rs[|rs| - 1].user] else [])
  }

  function GroupOf(rs: seq<Reaction>, e: string): Group {
    var us := UsersWith(rs, e);
    Group(e, us, |us|)
  }

  function GroupsFor(rs: seq<Reaction>, ks: seq<string>): (gs: seq<Group>)
    ensures |gs| == |ks| && forall j :: 0 <= j < |ks| ==> gs[j] == GroupOf(rs, ks[j])
  {
    seq(|ks|, j requires 0 <= j < |ks| => GroupOf(rs, ks[j]))
  }

  /** The specification of `getGroupedReactions`: one group per distinct emoji. */
  function Grouped(rs: seq<Reaction>): seq<Group> {
    GroupsFor(rs, EmojiOrder(rs))
  }

  function TotalCount(gs: seq<Group>): nat {
    if gs == [] then 0 else TotalCount(gs[..|gs| - 1]) + gs[|gs| - 1].count
  }

  // ---------------------------------------------------------------------------
  // Facts about the specification

  lemma {:induction false} UsersAbsent(rs: seq<Reaction>, e: string)
    requires e !in EmojiOrder(rs)
    ensures UsersWith(rs, e) == []
  {
    if rs != [] {
      var init := rs[..|rs| - 1];
      assert EmojisOf(rs) == EmojisOf(init) + [rs[|rs| - 1].emoji];
      FirstSeenSnoc(EmojisOf(init), rs[|rs| - 1].emoji);
      UsersAbsent(init, e);
    }
  }

  lemma EmojiOrderSnoc(rs: seq<Reaction>, r: Reaction)
    ensures EmojiOrder(rs + [r]) ==
      if r.emoji in EmojiOrder(rs) then EmojiOrder(rs) else EmojiOrder(rs) + [r.emoji]
  {
    assert EmojisOf(rs + [r]) == EmojisOf(rs) + [r.emoji];
    FirstSeenSnoc(EmojisOf(rs), r.emoji);
  }

  /** One more reaction adds its user to its emoji's group and leaves every other group alone. */
  lemma GroupSnoc(rs: seq<Reaction>, r: Reaction, e: string)
    ensures GroupOf(rs + [r], e) ==
      if e == r.emoji then Group(e, GroupOf(rs, e).users + [r.user], GroupOf(rs, e).count + 1)
      else GroupOf(rs, e)
  {
    assert (rs + [r])[..|rs|] == rs;
  }

  /** Group emojis are distinct, each one is the emoji of some reaction, every reaction's emoji
      has a group, groups come in order of first appearance, and each count is its user list's length. */
  lemma GroupedShape(rs: seq<Reaction>)
    ensures NoDuplicates(seq(|Grouped(rs)|, j requires 0 <= j < |Grouped(rs)| => Grouped(rs)[j].emoji))
    ensures forall j :: 0 <= j < |Grouped(rs)| ==>
      Grouped(rs)[j].emoji in EmojisOf(rs) && Grouped(rs)[j].count == |Grouped(rs)[j].users| > 0
    ensures forall i :: 0 <= i < |rs| ==> exists j :: 0 <= j < |Grouped(rs)| && Grouped(rs)[j].emoji == rs[i].emoji
    ensures forall i, j :: 0 <= i < j < |Grouped(rs)| ==>
      FirstIndex(EmojisOf(rs), Grouped(rs)[i].emoji) < FirstIndex(EmojisOf(rs), Grouped(rs)[j].emoji)
  {
    var order := EmojiOrder(rs);
    FirstSeenOrder(EmojisOf(rs));
    forall j | 0 <= j < |order| ensures |UsersWith(rs, order[j])| > 0 {
      var i := FirstIndex(EmojisOf(rs), order[j]);
      UsersMember(rs, i);
    }
    forall i | 0 <= i < |rs| ensures exists j :: 0 <= j < |order| && order[j] == rs[i].emoji {
      assert EmojisOf(rs)[i] == rs[i].emoji;
      var j := FirstIndex(order, rs[i].emoji);
    }
    assert seq(|Grouped(rs)|, j requires 0 <= j < |Grouped(rs)| => Grouped(rs)[j].emoji) == order;
  }

  /** Every reaction's user is listed, at the reaction's emoji. */
  lemma {:induction false} UsersMember(rs: seq<Reaction>, i: int)
    requires 0 <= i < |rs|
    ensures rs[i].user in UsersWith(rs, rs[i].emoji)
  {
    var init := rs[..|rs| - 1];
    if i < |rs| - 1 {
      assert init[i] == rs[i];
      UsersMember(init, i);
    }
  }

  /** Only users of reactions with `e` are listed at `e`. */
  lemma {:induction false} UsersSound(rs: seq<Reaction>, e: string, u: ReactionUser)
    requires u in UsersWith(rs, e)
    ensures exists i :: 0 <= i < |rs| && rs[i].emoji == e && rs[i].user == u
  {
    var init := rs[..|rs| - 1];
    if u in UsersWith(init, e) {
      UsersSound(init, e, u);
      var i :| 0 <= i < |init| && init[i].emoji == e && init[i].user == u;
      assert rs[i] == init[i];
    } else {
      assert rs[|rs| - 1].emoji == e && rs[|rs| - 1].user == u;
    }
  }

  /** Users keep reaction order: listing distributes over concatenation of the reactions. */
  lemma {:induction false} UsersConcat(a: seq<Reaction>, b: seq<Reaction>, e: string)
    ensures UsersWith(a + b, e) == UsersWith(a, e) + UsersWith(b, e)
    decreases |b|
  {
    if b == [] {
      assert a + b == a;
    } else {
      var init := b[..|b| - 1];
      assert (a + b)[..|a + b| - 1] == a + init;
      UsersConcat(a, init, e);
    }
  }

  lemma ReactionInGroup(rs: seq<Reaction>, i: int)
    requires 0 <= i < |rs|
    ensures exists j :: 0 <= j < |Grouped(rs)| && Grouped(rs)[j].emoji == rs[i].emoji
                        && rs[i].user in Grouped(rs)[j].users
  {
    GroupedShape(rs);
    UsersMember(rs, i);
  }

  function CountSum(rs: seq<Reaction>, ks: seq<string>): nat {
    if ks == [] then 0 else CountSum(rs, ks[..|ks| - 1]) + |UsersWith(rs, ks[|ks| - 1])|
  }

  lemma {:induction false} TotalCountSum(rs: seq<Reaction>, ks: seq<string>)
    ensures TotalCount(GroupsFor(rs, ks)) == CountSum(rs, ks)
  {
    if ks != [] {
      var init := ks[..|ks| - 1];
      assert GroupsFor(rs, ks)[..|ks| - 1] == GroupsFor(rs, init);
      TotalCountSum(rs, init);
    }
  }

  lemma {:induction false} CountSumSnoc(rs: seq<Reaction>, r: Reaction, ks: seq<string>)
    requires NoDuplicates(ks)
    ensures CountSum(rs + [r], ks) == CountSum(rs, ks) + (if r.emoji in ks then 1 else 0)
  {
    if ks != [] {
      var init := ks[..|ks| - 1];
      var last := ks[|ks| - 1];
      assert ks == init + [last];
      assert r.emoji in ks <==> r.emoji in init || r.emoji == last;
      assert last == r.emoji ==> r.emoji !in init;
      CountSumSnoc(rs, r, init);
      GroupSnoc(rs, r, last);
    }
  }

  lemma {:induction false} CountSumAbsent(rs: seq<Reaction>, ks: seq<string>, e: string)
    requires UsersWith(rs, e) == []
    ensures CountSum(rs, ks + [e]) == CountSum(rs, ks)
  {
    assert (ks + [e])[..|ks|] == ks;
  }

  /** The counts add up to the number of reactions: every reaction is counted exactly once. */
  lemma {:induction false} CountsTotal(rs: seq<Reaction>)
    ensures TotalCount(Grouped(rs)) == |rs|
  {
    TotalCountSum(rs, EmojiOrder(rs));
    CountsTotalSum(rs);
  }

  lemma {:induction false} CountsTotalSum(rs: seq<Reaction>)
    ensures CountSum(rs, EmojiOrder(rs)) == |rs|
  {
    if rs != [] {
      var init := rs[..|rs| - 1];
      var r := rs[|rs| - 1];
      assert rs == init + [r];
      CountsTotalSum(init);
      EmojiOrderSnoc(init, r);
      var p := EmojiOrder(init);
      CountSumSnoc(init, r, p);
      if r.emoji !in p {
        UsersAbsent(init, r.emoji);
        CountSumAbsent(init, p, r.emoji);
        CountSumSnoc(init, r, p + [r.emoji]);
        assert CountSum(rs, p + [r.emoji]) == CountSum(rs, p) + |UsersWith(rs, r.emoji)|;
        GroupSnoc(init, r, r.emoji);
      }
    }
  }

  // ---------------------------------------------------------------------------
  // The reduce loop

  /** The state of the reduce after reactions `done`: `keys` is the map's insertion order. */
  ghost predicate Reduced(done: seq<Reaction>, keys: seq<string>, acc: map<string, Group>) {
    && keys == EmojiOrder(done)
    && (forall e :: e in acc <==> e in keys)
    && (forall e :: e in acc ==> acc[e] == GroupOf(done, e))
  }

  method ReduceStep(done: seq<Reaction>, r: Reaction, keys: seq<string>, acc: map<string, Group>)
    returns (keys': seq<string>, acc': map<string, Group>)
    requires Reduced(done, keys, acc)
    ensures Reduced(done + [r], keys', acc')
  {
    EmojiOrderSnoc(done, r);
    var existing: Group;
    if r.emoji in acc {
      existing := acc[r.emoji];
      keys' := keys;
    } else {
      UsersAbsent(done, r.emoji);
      existing := Group(r.emoji, [], 0);
      keys' := keys + [r.emoji];
    }
    existing := existing.(users := existing.users + [r.user], count := existing.count + 1);
    acc' := acc[r.emoji := existing];
    forall e | e in acc' ensures acc'[e] == GroupOf(done + [r], e) {
      GroupSnoc(done, r, e);
    }
  }

  /** `getGroupedReactions` after the query: reduce into a map keyed by emoji, then list its values. */
  method GroupedReactions(reactions: seq<Reaction>) returns (groups: seq<Group>)
    ensures groups == Grouped(reactions)
  {
    var keys: seq<string> := [];
    var acc: map<string, Group> := map[];
    for i := 0 to |reactions|
      invariant Reduced(reactions[..i], keys, acc)
    {
      assert reactions[..i + 1] == reactions[..i] + [reactions[i]];
      keys, acc := ReduceStep(reactions[..i], reactions[i], keys, acc);
    }
    assert reactions[..|reactions|] == reactions;
    groups := seq(|keys|, j requires 0 <= j < |keys| && keys[j] in acc => acc[keys[j]]);
  }
}
