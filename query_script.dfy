/** The membership report's group-by in the database query script (`queryDatabase`). */
module QueryScript {
  import opened Wrappers
  import opened Seqs

  /** One row of the channel / member left join. */
  datatype ChannelRow = ChannelRow(
    channelId: string, channelName: string, channelType: string,
    memberEmail: Option<string>, memberUsername: Option<string>)

  datatype ChannelMember = ChannelMember(email: string, username: Option<string>)

  /** The value stored in `channelMap` for one channel. */
  datatype Channel = Channel(name: string, channelType: string, members: seq<ChannelMember>)

  /** A map entry in iteration order: the channel id and its value. */
  datatype Entry = Entry(id: string, channel: Channel)

  /** `if (row.memberEmail)`: null and the empty string are falsy. */
  predicate HasMember(row: ChannelRow) {
    row.memberEmail.Some? && row.memberEmail.value != ""
  }

  function MemberOf(row: ChannelRow): ChannelMember
    requires HasMember(row)
  {
    ChannelMember(row.memberEmail.value, row.memberUsername)
  }

  function IdsOf(rows: seq<ChannelRow>): (ids: seq<string>)
    ensures |ids| == |rows| && forall i :: 0 <= i < |rows| ==> ids[i] == rows[i].channelId
  {
    seq(|rows|, i requires 0 <= i < |rows| => rows[i].channelId)
  }

  /** The members of channel `id`, in row order. */
  function MembersOf(rows: seq<ChannelRow>, id: string): seq<ChannelMember> {
    if rows == [] then []
    else
      var last := rows[|rows| - 1];
      MembersOf(rows[..|rows| - 1], id) + (if last.channelId == id && HasMember(last) then [MemberOf(last)] else [])
  }

  /** Channel `id` as the loop leaves it: name and type from its first row. */
  function ChannelOf(rows: seq<ChannelRow>, id: string): Channel
    requires id in IdsOf(rows)
  {
    var first := rows[FirstIndex(IdsOf(rows), id)];
    Channel(first.channelName, first.channelType, MembersOf(rows, id))
  }

  /** The specification of the grouping: one entry per distinct channel id, in order of first appearance. */
  function Report(rows: seq<ChannelRow>): (r: seq<Entry>)
    ensures |r| == |FirstSeen(IdsOf(rows))|
  {
    var order := FirstSeen(IdsOf(rows));
    seq(|order|, j requires 0 <= j < |order| => Entry(order[j], ChannelOf(rows, order[j])))
  }

  // ---------------------------------------------------------------------------
  // Facts about the specification

  /** Channel ids are distinct, every row's channel is listed (also one without members), every listed
      channel has a row, and entries come in order of first appearance. */
  lemma ReportShape(rows: seq<ChannelRow>)
    ensures forall i, j :: 0 <= i < j < |Report(rows)| ==> Report(rows)[i].id != Report(rows)[j].id
    ensures forall i :: 0 <= i < |rows| ==> exists j :: 0 <= j < |Report(rows)| && Report(rows)[j].id == rows[i].channelId
    ensures forall j :: 0 <= j < |Report(rows)| ==> Report(rows)[j].id in IdsOf(rows)
    ensures forall i, j :: 0 <= i < j < |Report(rows)| ==>
      FirstIndex(IdsOf(rows), Report(rows)[i].id) < FirstIndex(IdsOf(rows), Report(rows)[j].id)
  {
    var order := FirstSeen(IdsOf(rows));
    FirstSeenOrder(IdsOf(rows));
    forall i | 0 <= i < |rows| ensures exists j :: 0 <= j < |Report(rows)| && Report(rows)[j].id == rows[i].channelId {
      assert IdsOf(rows)[i] == rows[i].channelId;
      var j := FirstIndex(order, rows[i].channelId);
      assert Report(rows)[j].id == rows[i].channelId;
    }
  }

  /** A channel's name and type are those of the first row that mentions it. */
  lemma NameFromFirstRow(rows: seq<ChannelRow>, j: int)
    requires 0 <= j < |Report(rows)|
    ensures exists i :: (0 <= i < |rows|
      && rows[i].channelId == Report(rows)[j].id
      && rows[i].channelName == Report(rows)[j].channel.name
      && rows[i].channelType == Report(rows)[j].channel.channelType
      && forall k :: 0 <= k < i ==> rows[k].channelId != Report(rows)[j].id)
  {
    var id := Report(rows)[j].id;
    var i := FirstIndex(IdsOf(rows), id);
    assert forall k :: 0 <= k < i ==> IdsOf(rows)[k] != id;
  }

  /** The members listed for `id` are exactly those of its rows with a truthy email. */
  lemma {:induction false} MembersMeaning(rows: seq<ChannelRow>, id: string, m: ChannelMember)
    ensures m in MembersOf(rows, id) <==>
      exists i :: 0 <= i < |rows| && rows[i].channelId == id && HasMember(rows[i]) && MemberOf(rows[i]) == m
  {
    if rows != [] {
      var init := rows[..|rows| - 1];
      MembersMeaning(init, id, m);
      assert forall i :: 0 <= i < |init| ==> init[i] == rows[i];
      if m in MembersOf(rows, id) && m !in MembersOf(init, id) {
        assert rows[|rows| - 1].channelId == id;
      }
    }
  }

  /** Members keep row order: listing distributes over concatenation of the rows. */
  lemma {:induction false} MembersConcat(a: seq<ChannelRow>, b: seq<ChannelRow>, id: string)
    ensures MembersOf(a + b, id) == MembersOf(a, id) + MembersOf(b, id)
    decreases |b|
  {
    if b == [] {
      assert a + b == a;
    } else {
      var init := b[..|b| - 1];
      assert (a + b)[..|a + b| - 1] == a + init;
      MembersConcat(a, init, id);
    }
  }

  /** Every row's member appears in the list of that row's channel. */
  lemma MemberListed(rows: seq<ChannelRow>, i: int, j: int)
    requires 0 <= i < |rows| && HasMember(rows[i])
    requires 0 <= j < |Report(rows)| && Report(rows)[j].id == rows[i].channelId
    ensures MemberOf(rows[i]) in Report(rows)[j].channel.members
  {
    MembersMeaning(rows, rows[i].channelId, MemberOf(rows[i]));
  }

  // ---------------------------------------------------------------------------
  // The loop

  /** The state after rows `done`: `keys` is the map's insertion order. */
  ghost predicate Grouped(done: seq<ChannelRow>, keys: seq<string>, channelMap: map<string, Channel>) {
    && keys == FirstSeen(IdsOf(done))
    && (forall id :: id in channelMap <==> id in keys)
    && (forall id :: id in channelMap ==> id in IdsOf(done) && channelMap[id] == ChannelOf(done, id))
  }

  lemma ChannelSnoc(done: seq<ChannelRow>, row: ChannelRow, id: string)
    requires id in IdsOf(done)
    ensures id in IdsOf(done + [row])
    ensures ChannelOf(done + [row], id) ==
      var c := ChannelOf(done, id);
      c.(members := c.members + (if row.channelId == id && HasMember(row) then [MemberOf(row)] else []))
  {
    assert IdsOf(done + [row]) == IdsOf(done) + [row.channelId];
    FirstIndexPrefix(IdsOf(done), [row.channelId], id);
    assert (done + [row])[..|done|] == done;
  }

  lemma {:induction false} MembersAbsent(rows: seq<ChannelRow>, id: string)
    requires id !in IdsOf(rows)
    ensures MembersOf(rows, id) == []
  {
    if rows != [] {
      var init := rows[..|rows| - 1];
      assert IdsOf(rows) == IdsOf(init) + [rows[|rows| - 1].channelId];
      MembersAbsent(init, id);
    }
  }

  lemma ChannelNew(done: seq<ChannelRow>, row: ChannelRow)
    requires row.channelId !in IdsOf(done)
    ensures row.channelId in IdsOf(done + [row])
    ensures ChannelOf(done + [row], row.channelId) ==
      Channel(row.channelName, row.channelType, if HasMember(row) then [MemberOf(row)] else [])
  {
    var ids := IdsOf(done + [row]);
    assert ids == IdsOf(done) + [row.channelId];
    assert FirstIndex(ids, row.channelId) == |done|;
    MembersAbsent(done, row.channelId);
    assert (done + [row])[..|done|] == done;
  }

  /** The value the loop body leaves at `row.channelId`. */
  function Updated(channelMap: map<string, Channel>, row: ChannelRow): Channel {
    var c := if row.channelId in channelMap then channelMap[row.channelId]
             else Channel(row.channelName, row.channelType, []);
    if HasMember(row) then c.(members := c.members + [MemberOf(row)]) else c
  }

  /** What the loop body does to the map, stated pointwise: `row.channelId` now holds
      `Updated(channelMap, row)` and every other entry is unchanged. */
  ghost predicate StepDone(channelMap: map<string, Channel>, row: ChannelRow, channelMap': map<string, Channel>) {
    && (forall id :: id in channelMap' <==> id in channelMap || id == row.channelId)
    && row.channelId in channelMap' && channelMap'[row.channelId] == Updated(channelMap, row)
    && (forall id :: id in channelMap && id != row.channelId ==> channelMap'[id] == channelMap[id])
  }

  lemma ValuesSnoc(done: seq<ChannelRow>, row: ChannelRow, channelMap: map<string, Channel>, channelMap': map<string, Channel>)
    requires forall id :: id in channelMap ==> id in IdsOf(done) && channelMap[id] == ChannelOf(done, id)
    requires row.channelId in channelMap <==> row.channelId in IdsOf(done)
    requires StepDone(channelMap, row, channelMap')
    ensures forall id :: id in channelMap' ==> id in IdsOf(done + [row]) && channelMap'[id] == ChannelOf(done + [row], id)
  {
    forall id | id in channelMap' ensures id in IdsOf(done + [row]) && channelMap'[id] == ChannelOf(done + [row], id) {
      if id != row.channelId {
        ChannelSnoc(done, row, id);
      } else if id in channelMap {
        ChannelSnoc(done, row, id);
      } else {
        ChannelNew(done, row);
      }
    }
  }

  lemma GroupedSnoc(done: seq<ChannelRow>, row: ChannelRow, keys: seq<string>, channelMap: map<string, Channel>,
                    keys': seq<string>, channelMap': map<string, Channel>)
    requires Grouped(done, keys, channelMap)
    requires keys' == if row.channelId in channelMap then keys else keys + [row.channelId]
    requires StepDone(channelMap, row, channelMap')
    ensures Grouped(done + [row], keys', channelMap')
  {
    assert IdsOf(done + [row]) == IdsOf(done) + [row.channelId];
    FirstSeenSnoc(IdsOf(done), row.channelId);
    ValuesSnoc(done, row, channelMap, channelMap');
  }

  /** One iteration of the loop over the rows. */
  method GroupStep(done: seq<ChannelRow>, row: ChannelRow, keys: seq<string>, channelMap: map<string, Channel>)
    returns (keys': seq<string>, channelMap': map<string, Channel>)
    requires Grouped(done, keys, channelMap)
    ensures Grouped(done + [row], keys', channelMap')
  {
    keys', channelMap' := keys, channelMap;
    if row.channelId !in channelMap' {
      channelMap' := channelMap'[row.channelId := Channel(row.channelName, row.channelType, [])];
      keys' := keys' + [row.channelId];
    }
    if HasMember(row) {
      var c := channelMap'[row.channelId];
      channelMap' := channelMap'[row.channelId := c.(members := c.members + [MemberOf(row)])];
    }
    GroupedSnoc(done, row, keys, channelMap, keys', channelMap');
  }

  /** The grouping loop of `queryDatabase`, returning the map's entries in iteration order. */
  method GroupChannels(rows: seq<ChannelRow>) returns (entries: seq<Entry>)
    ensures entries == Report(rows)
  {
    var keys: seq<string> := [];
    var channelMap: map<string, Channel> := map[];
    for i := 0 to |rows|
      invariant Grouped(rows[..i], keys, channelMap)
    {
      assert rows[..i + 1] == rows[..i] + [rows[i]];
      keys, channelMap := GroupStep(rows[..i], rows[i], keys, channelMap);
    }
    assert rows[..|rows|] == rows;
    entries := seq(|keys|, j requires 0 <= j < |keys| && keys[j] in channelMap => Entry(keys[j], channelMap[keys[j]]));
  }
}
