/** The line-based reader of the jobs of a workflow file. */
module JobParser {
  import opened Options
  import opened Lines

  /** An id of the workflow's jobs block and the check name it produces. */
  datatype Job = Job(id: string, name: string)

  /** What the parser looks at in a line: its indent, whether it opens the jobs block, the job id it could
      declare, whether it is a list item, and the value it gives to the key `name`. */
  datatype Item = Item(indent: nat, opensJobs: bool, jobId: Option<string>, listItem: bool, name: Option<string>)

  predicate IsKeyChar(c: char) {
    'A' <= c <= 'Z' || 'a' <= c <= 'z' || '0' <= c <= '9' || c == '_' || c == '-'
  }

  function JobId(content: string): Option<string> {
    if content == "" || content[|content| - 1] != ':' then None
    else
      var id := Trim(content[..|content| - 1]);
      if id != "" && forall i :: 0 <= i < |id| ==> IsKeyChar(id[i]) then Some(id) else None
  }

  function NameEntry(content: string): Option<string> {
    var entry := MappingEntry(content);
    if entry.Some? && entry.value.0 == "name" then Some(NormalizeScalar(entry.value.1)) else None
  }

  function Read(line: string): Item {
    var content := line[LeadingSpaces(line)..];
    Item(LeadingSpaces(line), content == "jobs:", JobId(content),
         content != "" && content[0] == '-', NameEntry(content))
  }

  function ItemOf(line: string): seq<Item> {
    if Trim(Uncommented(line)) == "" then [] else [Read(Uncommented(line))]
  }

  /** The items of a file, in order. */
  function Gather<L>(lines: seq<L>, read: L -> seq<Item>): seq<Item> {
    if lines == [] then [] else Gather(lines[..|lines| - 1], read) + read(lines[|lines| - 1])
  }

  /** The lines that are not blank once their comment is gone. */
  function Items(lines: seq<string>): seq<Item> {
    Gather(lines, ItemOf)
  }

  // ---------------------------------------------------------------- the jobs of a file

  function First(items: seq<Item>, p: Item -> bool): (i: nat)
    ensures i <= |items| && (i < |items| ==> p(items[i])) && forall j :: 0 <= j < i ==> !p(items[j])
  {
    if items == [] then 0
    else
      var i := First(items[..|items| - 1], p);
      assert forall j :: 0 <= j < |items| - 1 ==> items[..|items| - 1][j] == items[j];
      if i < |items| - 1 || p(items[i]) then i else |items|
  }

  lemma FirstOfMore(items: seq<Item>, l: Item, p: Item -> bool)
    ensures First(items + [l], p) == if First(items, p) < |items| || p(l) then First(items, p) else |items| + 1
  {
    assert (items + [l])[..|items|] == items;
  }

  predicate OpensJobs(l: Item) {
    l.indent == 0 && l.opensJobs
  }

  predicate IsTop(l: Item) {
    l.indent == 0
  }

  predicate Opened(items: seq<Item>) {
    First(items, OpensJobs) < |items|
  }

  function AfterJobs(items: seq<Item>): seq<Item> {
    if Opened(items) then items[First(items, OpensJobs) + 1..] else []
  }

  /** The lines between `jobs:` and the next line at the left margin. */
  function Block(items: seq<Item>): seq<Item> {
    AfterJobs(items)[..First(AfterJobs(items), IsTop)]
  }

  predicate Closed(items: seq<Item>) {
    First(AfterJobs(items), IsTop) < |AfterJobs(items)|
  }

  function JobIndent(body: seq<Item>): Option<nat> {
    var i := First(body, (l: Item) => l.jobId.Some?);
    if i < |body| then Some(body[i].indent) else None
  }

  predicate IsHeader(l: Item, indent: nat) {
    l.jobId.Some? && l.indent == indent
  }

  function LastHeader(body: seq<Item>, indent: nat): (last: Option<nat>)
    ensures last.Some? ==> last.value < |body| && IsHeader(body[last.value], indent)
                           && forall j :: last.value < j < |body| ==> !IsHeader(body[j], indent)
    ensures last.None? ==> forall j :: 0 <= j < |body| ==> !IsHeader(body[j], indent)
  {
    if body == [] then None
    else if IsHeader(body[|body| - 1], indent) then Some(|body| - 1)
    else
      assert forall j :: 0 <= j < |body| - 1 ==> body[..|body| - 1][j] == body[j];
      LastHeader(body[..|body| - 1], indent)
  }

  predicate IsProperty(l: Item, indent: nat) {
    l.indent > indent && !l.listItem
  }

  /** The indent of a job's properties, given the lines below its header. */
  function PropertyIndent(own: seq<Item>, indent: nat): Option<nat> {
    var i := First(own, (l: Item) => IsProperty(l, indent));
    if i < |own| then Some(own[i].indent) else None
  }

  predicate NamesJob(l: Item, indent: nat, property: Option<nat>) {
    IsProperty(l, indent) && Some(l.indent) == property && l.name.Some?
  }

  /** The first `name` at the property indent. */
  function NameOf(own: seq<Item>, indent: nat): Option<string> {
    var i := First(own, (l: Item) => NamesJob(l, indent, PropertyIndent(own, indent)));
    if i < |own| && own[i].name.Some? then own[i].name else None
  }

  function Named(id: string, name: Option<string>): Job {
    Job(id, if name.Some? && name.value != "" then name.value else id)
  }

  function JobOf(header: Item, own: seq<Item>, indent: nat): Job
    requires header.jobId.Some?
  {
    Named(header.jobId.value, NameOf(own, indent))
  }

  function Jobs(body: seq<Item>, indent: nat): seq<Job> {
    var last := LastHeader(body, indent);
    if last.None? then []
    else Jobs(body[..last.value], indent) + [JobOf(body[last.value], body[last.value + 1..], indent)]
  }

  function JobsOf(body: seq<Item>): seq<Job> {
    if JobIndent(body).Some? then Jobs(body, JobIndent(body).value) else []
  }

  /** What the parser returns: the jobs of the block, the last one twice when a line closes the block. */
  function Parsed(items: seq<Item>): seq<Job> {
    var jobs := JobsOf(Block(items));
    if Closed(items) && jobs != [] then jobs + [jobs[|jobs| - 1]] else jobs
  }

  /** The positions of the headers. */
  function Headers(body: seq<Item>, indent: nat): (hs: seq<nat>)
    ensures forall k :: 0 <= k < |hs| ==> hs[k] < |body| && IsHeader(body[hs[k]], indent)
    ensures forall j, k :: 0 <= j < k < |hs| ==> hs[j] < hs[k]
  {
    var last := LastHeader(body, indent);
    if last.None? then [] else Headers(body[..last.value], indent) + [last.value]
  }

  lemma {:induction false} HeadersAreAll(body: seq<Item>, indent: nat, i: nat)
    requires i < |body|
    ensures i in Headers(body, indent) <==> IsHeader(body[i], indent)
  {
    var last := LastHeader(body, indent);
    if last.Some? && i < last.value {
      HeadersAreAll(body[..last.value], indent, i);
    }
  }

  /** The lines between a header and the next, or the end of the block. */
  function Own(body: seq<Item>, indent: nat, k: nat): seq<Item>
    requires k < |Headers(body, indent)|
  {
    var hs := Headers(body, indent);
    body[hs[k] + 1..if k + 1 < |hs| then hs[k + 1] else |body|]
  }

  lemma {:induction false} JobCount(body: seq<Item>, indent: nat)
    ensures |Jobs(body, indent)| == |Headers(body, indent)|
  {
    var last := LastHeader(body, indent);
    if last.Some? {
      JobCount(body[..last.value], indent);
    }
  }

  lemma OwnBefore(body: seq<Item>, indent: nat, last: nat, k: nat)
    requires LastHeader(body, indent) == Some(last) && k < |Headers(body[..last], indent)|
    ensures Own(body, indent, k) == Own(body[..last], indent, k)
  {
    var hs := Headers(body[..last], indent);
  }

  /** One pair per header, in order, each made from the header and the lines up to the next one. */
  lemma {:induction false} OnePairPerHeader(body: seq<Item>, indent: nat, k: nat)
    requires k < |Headers(body, indent)|
    ensures |Jobs(body, indent)| == |Headers(body, indent)|
    ensures Jobs(body, indent)[k] == JobOf(body[Headers(body, indent)[k]], Own(body, indent, k), indent)
  {
    JobCount(body, indent);
    var last := LastHeader(body, indent).value;
    JobCount(body[..last], indent);
    if k < |Headers(body[..last], indent)| {
      OnePairPerHeader(body[..last], indent, k);
      OwnBefore(body, indent, last, k);
    } else {
      assert body[last + 1..] == body[last + 1..|body|];
    }
  }
}
