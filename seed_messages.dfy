/** The seed data's tab-separated message parser (`readMessages`). */
module SeedMessages {
  import opened Wrappers
  import opened Strings

  /** One parsed line; a piece the line does not have is `None` (`undefined`). */
  datatype MessageRow = MessageRow(channel: string, sender: Option<string>, content: Option<string>)

  /** `lines.filter(line => line.trim())`. */
  function NonBlank(lines: seq<string>): (kept: seq<string>)
    ensures |kept| <= |lines|
    ensures forall i :: 0 <= i < |kept| ==> kept[i] in lines && Trim(kept[i]) != ""
  {
    if lines == [] then []
    else
      var last := lines[|lines| - 1];
      var init := NonBlank(lines[..|lines| - 1]);
      assert forall i :: 0 <= i < |init| ==> init[i] in lines;
      init + (if Trim(last) != "" then [last] else [])
  }

  /** `const [channel, sender, content] = line.split("\t")`. */
  function ParseLine(line: string): (row: MessageRow)
    ensures '\t' !in row.channel
    ensures row.sender.Some? ==> '\t' !in row.sender.value
    ensures row.content.Some? ==> '\t' !in row.content.value
  {
    var pieces := Split(line, '\t');
    MessageRow(
      pieces[0],
      if |pieces| > 1 then Some(pieces[1]) else None,
      if |pieces| > 2 then Some(pieces[2]) else None)
  }

  /** `readMessages` once the file has been read: `content` is the file's text. */
  function ReadMessages(content: string): (rows: seq<MessageRow>)
    ensures |rows| == |NonBlank(Split(content, '\n')[1..])|
    ensures forall i :: 0 <= i < |rows| ==> rows[i] == ParseLine(NonBlank(Split(content, '\n')[1..])[i])
  {
    var kept := NonBlank(Split(content, '\n')[1..]);
    seq(|kept|, i requires 0 <= i < |kept| => ParseLine(kept[i]))
  }

  // ---------------------------------------------------------------------------
  // Facts

  /** The filter keeps line order: it distributes over concatenation and keeps exactly the non-blank lines. */
  lemma {:induction false} NonBlankConcat(a: seq<string>, b: seq<string>)
    ensures NonBlank(a + b) == NonBlank(a) + NonBlank(b)
    decreases |b|
  {
    if b == [] {
      assert a + b == a;
    } else {
      var init := b[..|b| - 1];
      assert (a + b)[..|a + b| - 1] == a + init;
      NonBlankConcat(a, init);
    }
  }

  lemma NonBlankOne(line: string)
    ensures NonBlank([line]) == if IsBlank(line) then [] else [line]
  {
    TrimProperties(line);
    assert [line][..0] == [];
  }

  /** The first line is always the header and is dropped, whatever it holds, even when blank. */
  lemma HeaderIgnored(h1: string, h2: string, rest: string)
    requires '\n' !in h1 && '\n' !in h2
    ensures ReadMessages(h1 + "\n" + rest) == ReadMessages(h2 + "\n" + rest)
  {
    SplitAfterFirst(h1, '\n', rest);
    SplitAfterFirst(h2, '\n', rest);
    assert ([h1] + Split(rest, '\n'))[1..] == Split(rest, '\n');
    assert ([h2] + Split(rest, '\n'))[1..] == Split(rest, '\n');
  }

  /** A file of only a header has no rows. */
  lemma HeaderOnly(h: string)
    requires '\n' !in h
    ensures ReadMessages(h) == []
  {
    SplitCount(h, '\n');
    CountCharAbsent(h, '\n');
  }

  /** Pieces split out of a string are free of any character the string is free of. */
  lemma {:induction false} SplitAvoids(s: string, sep: char, c: char)
    requires c !in s
    ensures forall i :: 0 <= i < |Split(s, sep)| ==> c !in Split(s, sep)[i]
    decreases |s|
  {
    if s != [] {
      assert c !in s[1..];
      SplitAvoids(s[1..], sep, c);
    }
  }

  /** No field holds a newline or a tab. */
  lemma FieldsClean(content: string, i: int)
    requires 0 <= i < |ReadMessages(content)|
    ensures var row := ReadMessages(content)[i];
      && '\n' !in row.channel && '\t' !in row.channel
      && (row.sender.Some? ==> '\n' !in row.sender.value && '\t' !in row.sender.value)
      && (row.content.Some? ==> '\n' !in row.content.value && '\t' !in row.content.value)
  {
    var lines := Split(content, '\n');
    var kept := NonBlank(lines[1..]);
    var line := kept[i];
    assert line in lines;
    SplitAvoids(line, '\t', '\n');
  }

  /** Every row comes from a non-blank line after the header. */
  lemma RowsFromLines(content: string, i: int)
    requires 0 <= i < |ReadMessages(content)|
    ensures exists j :: (1 <= j < |Split(content, '\n')|
      && !IsBlank(Split(content, '\n')[j]) && ReadMessages(content)[i] == ParseLine(Split(content, '\n')[j]))
  {
    var lines := Split(content, '\n');
    var kept := NonBlank(lines[1..]);
    TrimProperties(kept[i]);
    var j :| 0 <= j < |lines[1..]| && lines[1..][j] == kept[i];
    assert lines[j + 1] == kept[i];
  }

  /** A line with three or more pieces gives its first three; extra pieces are ignored. */
  lemma ThreePieces(a: string, b: string, c: string, extra: string)
    requires '\t' !in a && '\t' !in b && '\t' !in c
    ensures ParseLine(a + "\t" + b + "\t" + c + "\t" + extra) == MessageRow(a, Some(b), Some(c))
  {
    var tail := c + "\t" + extra;
    SplitAfterFirst(c, '\t', extra);
    assert b + "\t" + tail == b + ['\t'] + tail;
    SplitAfterFirst(b, '\t', tail);
    assert a + "\t" + b + "\t" + c + "\t" + extra == a + ['\t'] + (b + ['\t'] + tail);
    SplitAfterFirst(a, '\t', b + ['\t'] + tail);
  }

  /** A line with only a channel leaves sender and content undefined. */
  lemma OnePiece(a: string)
    requires '\t' !in a
    ensures ParseLine(a) == MessageRow(a, None, None)
  {
    SplitCount(a, '\t');
    CountCharAbsent(a, '\t');
    JoinSplit(a, '\t');
  }
}
