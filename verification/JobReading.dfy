/** A workflow file read line by line: what the parser makes of a block with two jobs. */
module JobReading {
  import opened Options
  import opened Lines
  import opened JobParser
  import opened JobScan

  predicate KeyText(s: string) {
    s != "" && forall i :: 0 <= i < |s| ==> IsKeyChar(s[i])
  }

  function Indented(n: nat, content: string): string {
    seq(n, _ => ' ') + content
  }

  lemma IndentIs(n: nat, content: string)
    requires content != "" && !IsSpace(content[0])
    ensures LeadingSpaces(Indented(n, content)) == n && Indented(n, content)[n..] == content
  {
    assert IsSpace(' ');
    hide IsSpace;
    assert Indented(n, content)[n] == content[0];
  }

  lemma ReadsAt(n: nat, content: string)
    requires content != "" && Trimmed(content)
    ensures Trim(Indented(n, content)) != ""
    ensures Read(Indented(n, content))
         == Item(n, content == "jobs:", JobId(content), content[0] == '-', NameEntry(content))
  {
    hide IsSpace, JobId, NameEntry, Trim, LeadingSpaces, Indented;
    IndentIs(n, content);
    TrimmedIsBlank(Indented(n, content));
    assert Indented(n, content)[n] == content[0];
  }

  /** A text without quotes and comments stays as it is. */
  lemma PlainStays(n: nat, content: string)
    requires Plain(content) && content != "" && Trimmed(content)
    ensures Uncommented(Indented(n, content)) == Indented(n, content)
  {
    var line := Indented(n, content);
    assert line[|line| - 1] == content[|content| - 1];
    hide IsSpace;
    NoCommentIn(line, line);
    assert line[..|line|] == line;
    TrimRightUnique(line, "");
    assert line + "" == line;
  }

  lemma KeyIsText(id: string)
    requires KeyText(id)
    ensures Plain(id) && Trimmed(id) && ':' !in id
  {
    assert forall i :: 0 <= i < |id| ==> !IsSpace(id[i]);
  }

  lemma KeyLineIsText(id: string, value: string)
    requires KeyText(id) && Plain(value) && (value != "" ==> !IsSpace(value[|value| - 1]))
    ensures Plain(id + ":" + value) && Trimmed(id + ":" + value)
  {
    assert !IsSpace(':');
    hide IsSpace;
    KeyIsText(id);
    var line := id + ":" + value;
    assert line[0] == id[0] && line[|line| - 1] == if value == "" then ':' else value[|value| - 1];
    assert forall i :: 0 <= i < |line| ==>
      line[i] == if i < |id| then id[i] else if i == |id| then ':' else value[i - |id| - 1];
  }

  lemma JobIdOf(id: string)
    requires KeyText(id)
    ensures JobId(id + ":") == Some(id)
  {
    hide Trim, IsSpace, IsKeyChar;
    KeyIsText(id);
    assert (id + ":")[..|id + ":"| - 1] == id;
    TrimTakesBlanks("", id, "");
    assert "" + id + "" == id;
  }

  const UPPER_CASE := {'A', 'B', 'C', 'D', 'E', 'F', 'G', 'H', 'I', 'J', 'K', 'L', 'M',
                       'N', 'O', 'P', 'Q', 'R', 'S', 'T', 'U', 'V', 'W', 'X', 'Y', 'Z'}
  const LOWER_CASE := {'a', 'b', 'c', 'd', 'e', 'f', 'g', 'h', 'i', 'j', 'k', 'l', 'm',
                       'n', 'o', 'p', 'q', 'r', 's', 't', 'u', 'v', 'w', 'x', 'y', 'z'}
  const OTHERS := {'0', '1', '2', '3', '4', '5', '6', '7', '8', '9', '_', '-'}

  predicate IsKeyCharacter(c: char) {
    c in UPPER_CASE || c in LOWER_CASE || c in OTHERS
  }

  lemma LowerCase(c: char)
    ensures 'a' <= c <= 'z' <==> c in LOWER_CASE
  {
  }

  lemma KeyCharacters(c: char)
    ensures IsKeyChar(c) <==> IsKeyCharacter(c)
  {
    LowerCase(c);
  }

  /** A text could declare a job exactly if it is a word of letters, digits, `_` and `-` with a colon behind it, blanks
      around the word aside. */
  lemma JobIdExactly(before: string, id: string, after: string)
    requires Blank(before) && Blank(after) && Trimmed(id)
    ensures JobId(before + id + after + ":").Some?
      <==> id != "" && forall i :: 0 <= i < |id| ==> IsKeyCharacter(id[i])
    ensures JobId(before + id + after + ":").Some? ==> JobId(before + id + after + ":") == Some(id)
    ensures JobId(id).Some? ==> id != "" && id[|id| - 1] == ':'
  {
    hide Trim, IsSpace, IsKeyChar;
    var line := before + id + after + ":";
    assert line[..|line| - 1] == before + id + after;
    TrimTakesBlanks(before, id, after);
    forall i | 0 <= i < |id| ensures IsKeyChar(id[i]) <==> IsKeyCharacter(id[i]) {
      KeyCharacters(id[i]);
    }
  }

  lemma QuotedNameEntry(name: string)
    requires Trimmed(name)
    ensures NameEntry("name: " + (['\''] + name + ['\''])) == Some(name)
  {
    hide Trim, NormalizeScalar, MappingEntry;
    var quoted := ['\''] + name + ['\''];
    EntrySplits("name", " " + quoted);
    assert "name: " + quoted == "name" + ":" + (" " + quoted);
    assert "name"[0] == 'n' && !IsSpace('n') && !IsSpace('e') && !IsSpace('\'') && Blank(" ") && Blank("");
    TrimTakesBlanks("", "name", "");
    assert "" + "name" + "" == "name";
    TrimTakesBlanks(" ", quoted, "");
    assert " " + quoted + "" == " " + quoted;
    QuotesComeOff("", '\'', name, "");
    assert "" + quoted + "" == quoted;
    TrimTakesBlanks("", name, "");
    assert "" + name + "" == name;
  }

  lemma QuotedNameLine(n: nat, name: string, comment: string)
    requires '\'' !in name
    ensures Uncommented(Indented(n, "name: " + (['\''] + name + ['\'']) + " #" + comment))
         == Indented(n, "name: " + (['\''] + name + ['\'']))
  {
    hide Uncommented, OpenQuotes;
    var start := Indented(n, "name: ");
    CommentBehindQuotesGoes(start, '\'', name, comment);
    assert Indented(n, "name: " + (['\''] + name + ['\'']) + " #" + comment)
        == start + ['\''] + name + ['\''] + " #" + comment;
    assert Indented(n, "name: " + (['\''] + name + ['\''])) == start + ['\''] + name + ['\''];
  }

  lemma NameRead(n: nat, name: string, comment: string)
    requires '\'' !in name && Trimmed(name)
    ensures ItemOf(Indented(n, "name: " + (['\''] + name + ['\'']) + " #" + comment))
         == [Item(n, false, None, false, Some(name))]
  {
    var content := "name: " + (['\''] + name + ['\'']);
    assert content[|content| - 1] == '\'' && content[0] == 'n' && !IsSpace('\'') && !IsSpace('n');
    hide Uncommented, Trim, Read, NameEntry, IsSpace;
    QuotedNameLine(n, name, comment);
    ReadsAt(n, content);
    QuotedNameEntry(name);
    assert "jobs:"[0] == 'j';
  }

  /** The line `name: 'text' #comment`. */
  function NameLine(n: nat, name: string, comment: string): string {
    Indented(n, "name: " + (['\''] + name + ['\'']) + " #" + comment)
  }

  /** A job block with two jobs. Below the header of the first stand a list item, its quoted name with a comment,
      another key with a deeper `name` below it, and a second name; the second job has another property, no name. */
  function TwoJobs(top: string, a: string, item: string, name: string, comment: string, list: string, deeper: string,
                   second: string, b: string, key: string, value: string): seq<string>
  {
    [Indented(0, top + ":"), Indented(0, "jobs" + ":"), Indented(2, a + ":"), Indented(6, "- " + item),
     NameLine(4, name, comment), Indented(4, list + ":"), NameLine(6, deeper, comment), NameLine(4, second, comment),
     Indented(2, b + ":"), Indented(4, key + ":" + value)]
  }

  lemma HeaderLine(n: nat, id: string)
    requires KeyText(id)
    ensures var r := ItemOf(Indented(n, id + ":"));
      |r| == 1 && r[0].indent == n && r[0].jobId == Some(id) && (r[0].opensJobs <==> id == "jobs")
  {
    hide JobId, NameEntry, IsSpace, Indented, Trim, Uncommented, Read;
    KeyLineIsText(id, "");
    assert id + ":" + "" == id + ":";
    PlainStays(n, id + ":");
    ReadsAt(n, id + ":");
    JobIdOf(id);
    assert (id + ":")[..|id|] == id && "jobs:"[..4] == "jobs";
    assert id == "jobs" ==> id + ":" == "jobs:";
  }

  lemma PropertyLine(n: nat, key: string, value: string)
    requires KeyText(key) && Plain(value) && (value != "" ==> !IsSpace(value[|value| - 1]))
    requires key != "name" && key[0] != '-'
    ensures var r := ItemOf(Indented(n, key + ":" + value));
      |r| == 1 && r[0].indent == n && !r[0].listItem && r[0].name == None
  {
    hide JobId, IsSpace, Indented, Trim, Uncommented, Read, MappingEntry;
    KeyLineIsText(key, value);
    PlainStays(n, key + ":" + value);
    ReadsAt(n, key + ":" + value);
    KeyIsText(key);
    EntrySplits(key, value);
    TrimTakesBlanks("", key, "");
    assert "" + key + "" == key;
  }

  lemma ListLine(n: nat, item: string)
    requires Plain(item) && item != "" && !IsSpace(item[|item| - 1])
    ensures var r := ItemOf(Indented(n, "- " + item));
      |r| == 1 && r[0].indent == n && r[0].listItem
  {
    assert !IsSpace('-');
    hide JobId, NameEntry, IsSpace, Indented, Trim, Uncommented, Read;
    var line := "- " + item;
    assert line[0] == '-' && line[|line| - 1] == item[|item| - 1];
    assert forall i :: 0 <= i < |line| ==> line[i] == if i == 0 then '-' else if i == 1 then ' ' else item[i - 2];
    PlainStays(n, line);
    ReadsAt(n, line);
  }

  lemma JobsIsKey()
    ensures KeyText("jobs")
  {
  }

  lemma ScanNothing<L>(lines: seq<L>, read: L -> seq<Item>)
    ensures ScanLines(lines[..0], read) == START
  {
  }

  lemma ScannedItems(lines: seq<string>)
    ensures ScanLines(lines, ItemOf) == ScanFrom(START, Items(lines))
  {
  }

  lemma TwoJobsScanned<L>(lines: seq<L>, read: L -> seq<Item>, a: string, name: string, b: string)
    requires |lines| == 10 && forall i :: 0 <= i < 10 ==> |read(lines[i])| == 1
    requires !OpensJobs(read(lines[0])[0]) && OpensJobs(read(lines[1])[0])
    requires read(lines[2])[0].indent == 2 && read(lines[2])[0].jobId == Some(a)
    requires read(lines[3])[0].indent == 6 && read(lines[3])[0].listItem
    requires read(lines[4])[0] == Item(4, false, None, false, Some(name))
    requires read(lines[5])[0].indent == 4 && !read(lines[5])[0].listItem && read(lines[5])[0].name == None
    requires read(lines[6])[0].indent == 6 && read(lines[6])[0].jobId == None
    requires read(lines[7])[0].indent == 4 && read(lines[7])[0].jobId == None
    requires read(lines[8])[0].indent == 2 && read(lines[8])[0].jobId == Some(b)
    requires read(lines[9])[0].indent == 4 && !read(lines[9])[0].listItem && read(lines[9])[0].name == None
    ensures var s := ScanLines(lines, read);
      Flush(s.parsed, s.current) == [Job(a, if name == "" then a else name), Job(b, b)]
  {
    hide ScanLines;
    ScanNothing(lines, read);
    ScanLine(lines, 0, read);
    ScanLine(lines, 1, read);
    assert ScanLines(lines[..2], read) == START.(started := true);
    ScanLine(lines, 2, read);
    ScanLine(lines, 3, read);
    assert ScanLines(lines[..4], read) == Scan(true, false, Some(2), Some(Current(a, None, None)), []);
    ScanLine(lines, 4, read);
    assert ScanLines(lines[..5], read) == Scan(true, false, Some(2), Some(Current(a, Some(name), Some(4))), []);
    ScanLine(lines, 5, read);
    ScanLine(lines, 6, read);
    ScanLine(lines, 7, read);
    assert ScanLines(lines[..8], read) == Scan(true, false, Some(2), Some(Current(a, Some(name), Some(4))), []);
    ScanLine(lines, 8, read);
    ScanLine(lines, 9, read);
    assert lines[..10] == lines;
  }

  /** Such a file yields the first job under its first name at the indent of its properties, quotes and comment gone,
      or under its id if that name is empty, and the second under its id. */
  lemma TwoJobsRead(top: string, a: string, item: string, name: string, comment: string, list: string, deeper: string,
                    second: string, b: string, key: string, value: string)
    requires KeyText(top) && top != "jobs" && KeyText(a) && KeyText(b)
    requires Plain(item) && item != "" && !IsSpace(item[|item| - 1])
    requires '\'' !in name && Trimmed(name) && '\'' !in deeper && Trimmed(deeper) && '\'' !in second && Trimmed(second)
    requires KeyText(list) && list != "name" && list[0] != '-' && KeyText(key) && key != "name" && key[0] != '-'
    requires Plain(value) && (value != "" ==> !IsSpace(value[|value| - 1]))
    ensures Parsed(Items(TwoJobs(top, a, item, name, comment, list, deeper, second, b, key, value)))
         == [Job(a, if name == "" then a else name), Job(b, b)]
  {
    hide ItemOf, ScanLines, Indented, Parsed, Gather, ScanFrom, IsSpace, IsKeyChar;
    var lines := TwoJobs(top, a, item, name, comment, list, deeper, second, b, key, value);
    HeaderLine(0, top);
    JobsIsKey();
    HeaderLine(0, "jobs");
    HeaderLine(2, a);
    ListLine(6, item);
    NameRead(4, name, comment);
    PropertyLine(4, list, "");
    assert list + ":" + "" == list + ":";
    NameRead(6, deeper, comment);
    NameRead(4, second, comment);
    HeaderLine(2, b);
    PropertyLine(4, key, value);
    TwoJobsScanned(lines, ItemOf, a, name, b);
    ScanFindsJobs(Items(lines));
    ScannedItems(lines);
  }
}
