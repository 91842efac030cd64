/** The scan of parse_workflow_jobs: its loop, step by step, computes the jobs of the file. */
module JobScan {
  import opened Options
  import opened Lines
  import opened JobParser

  /** The job whose lines are being read. */
  datatype Current = Current(id: string, name: Option<string>, property: Option<nat>)

  datatype Scan = Scan(started: bool, closed: bool, jobIndent: Option<nat>, current: Option<Current>, parsed: seq<Job>)

  const START := Scan(false, false, None, None, [])

  function Flush(parsed: seq<Job>, current: Option<Current>): seq<Job> {
    if current.Some? then parsed + [Named(current.value.id, current.value.name)] else parsed
  }

  function ReadProperty(c: Current, l: Item): Current {
    var property := if c.property.None? then Some(l.indent) else c.property;
    c.(property := property,
       name := if Some(l.indent) == property && c.name.None? && l.name.Some? then l.name else c.name)
  }

  predicate BeginsJob(s: Scan, l: Item) {
    l.jobId.Some? && (s.jobIndent.None? || s.jobIndent == Some(l.indent))
  }

  function Inside(s: Scan, l: Item): Scan {
    if BeginsJob(s, l) then
      s.(parsed := Flush(s.parsed, s.current), current := Some(Current(l.jobId.value, None, None)),
         jobIndent := Some(l.indent))
    else if s.current.None? || s.jobIndent.None? || !IsProperty(l, s.jobIndent.value) then s
    else s.(current := Some(ReadProperty(s.current.value, l)))
  }

  function Step(s: Scan, l: Item): Scan {
    if s.closed then s
    else if !s.started then s.(started := OpensJobs(l))
    else if IsTop(l) then s.(closed := true, parsed := Flush(s.parsed, s.current))
    else Inside(s, l)
  }

  function ScanFrom(s: Scan, items: seq<Item>): Scan {
    if items == [] then s else Step(ScanFrom(s, items[..|items| - 1]), items[|items| - 1])
  }

  // ---------------------------------------------------------------- the scan finds the jobs

  lemma NameFound(own: seq<Item>, indent: nat) returns (i: nat)
    ensures i <= |own| && (i < |own| ==> NamesJob(own[i], indent, PropertyIndent(own, indent)))
    ensures forall j :: 0 <= j < i ==> !NamesJob(own[j], indent, PropertyIndent(own, indent))
    ensures NameOf(own, indent) == if i < |own| then own[i].name else None
  {
    i := First(own, (l: Item) => NamesJob(l, indent, PropertyIndent(own, indent)));
  }

  lemma NoPropertyNoName(own: seq<Item>, indent: nat)
    requires PropertyIndent(own, indent).None?
    ensures forall j :: 0 <= j < |own| ==> !IsProperty(own[j], indent)
    ensures NameOf(own, indent) == None
  {
    var i := NameFound(own, indent);
  }

  function CurrentOf(header: Item, own: seq<Item>, indent: nat): Current
    requires header.jobId.Some?
  {
    Current(header.jobId.value, NameOf(own, indent), PropertyIndent(own, indent))
  }

  predicate InJob(s: Scan, body: seq<Item>, indent: nat)
    requires s.current.Some?
  {
    var last := LastHeader(body, indent);
    && last.Some?
    && s.parsed == Jobs(body[..last.value], indent)
    && s.current.value == CurrentOf(body[last.value], body[last.value + 1..], indent)
  }

  /** The scan inside the block, in terms of the lines of the block read so far. */
  predicate InBlock(s: Scan, body: seq<Item>) {
    && s.jobIndent == JobIndent(body)
    && (s.current.Some? <==> s.jobIndent.Some?)
    && (s.jobIndent.None? ==> s.parsed == [])
    && (s.jobIndent.Some? ==> InJob(s, body, s.jobIndent.value))
  }

  lemma FlushedJobs(s: Scan, body: seq<Item>)
    requires InBlock(s, body)
    ensures Flush(s.parsed, s.current) == JobsOf(body)
  {
  }

  lemma NoHeaderYet(body: seq<Item>, indent: nat)
    requires JobIndent(body).None?
    ensures Jobs(body, indent) == []
  {
    assert forall j :: 0 <= j < |body| ==> body[j].jobId.None?;
  }

  lemma HeaderInside(s: Scan, body: seq<Item>, l: Item)
    requires InBlock(s, body) && BeginsJob(s, l)
    ensures InBlock(Inside(s, l), body + [l])
  {
    FlushedJobs(s, body);
    assert (body + [l])[..|body|] == body && (body + [l])[|body| + 1..] == [];
    if s.jobIndent.None? {
      NoHeaderYet(body, l.indent);
    }
    assert CurrentOf(l, [], l.indent) == Current(l.jobId.value, None, None) by {
      NoPropertyNoName([], l.indent);
    }
  }

  lemma CurrentOfMore(header: Item, own: seq<Item>, l: Item, indent: nat)
    requires header.jobId.Some?
    ensures CurrentOf(header, own + [l], indent)
         == if IsProperty(l, indent) then ReadProperty(CurrentOf(header, own, indent), l)
            else CurrentOf(header, own, indent)
  {
    if PropertyIndent(own, indent).None? {
      NoPropertyNoName(own, indent);
    }
  }

  lemma CutMore(body: seq<Item>, l: Item, i: nat)
    requires i < |body|
    ensures (body + [l])[i] == body[i] && (body + [l])[..i] == body[..i]
    ensures (body + [l])[i + 1..] == body[i + 1..] + [l]
  {
  }

  lemma JobMore(body: seq<Item>, l: Item, indent: nat, last: nat)
    requires LastHeader(body, indent) == Some(last) && !IsHeader(l, indent)
    ensures LastHeader(body + [l], indent) == Some(last) && (body + [l])[last] == body[last]
    ensures Jobs((body + [l])[..last], indent) == Jobs(body[..last], indent)
    ensures CurrentOf(body[last], (body + [l])[last + 1..], indent)
         == var c := CurrentOf(body[last], body[last + 1..], indent);
            if IsProperty(l, indent) then ReadProperty(c, l) else c
  {
    CutMore(body, l, last);
    CurrentOfMore(body[last], body[last + 1..], l, indent);
  }

  lemma InJobMore(s: Scan, body: seq<Item>, l: Item, indent: nat)
    requires s.current.Some? && s.jobIndent == Some(indent) && InJob(s, body, indent) && !IsHeader(l, indent)
    ensures Inside(s, l).current.Some? && InJob(Inside(s, l), body + [l], indent)
  {
    JobMore(body, l, indent, LastHeader(body, indent).value);
  }

  lemma LineInside(s: Scan, body: seq<Item>, l: Item)
    requires InBlock(s, body) && !BeginsJob(s, l)
    ensures InBlock(Inside(s, l), body + [l])
  {
    if s.jobIndent.Some? {
      InJobMore(s, body, l, s.jobIndent.value);
    }
  }

  /** The scan after some lines of the file. */
  predicate Means(s: Scan, items: seq<Item>) {
    && s.started == Opened(items)
    && s.closed == Closed(items)
    && (!s.started ==> s == START)
    && (s.started && !s.closed ==> InBlock(s, Block(items)))
    && (s.closed ==> Flush(s.parsed, s.current) == Parsed(items))
  }

  lemma OpenedOfMore(items: seq<Item>, l: Item)
    ensures Opened(items + [l]) <==> Opened(items) || OpensJobs(l)
    ensures Opened(items) ==> AfterJobs(items + [l]) == AfterJobs(items) + [l]
    ensures !Opened(items) ==> AfterJobs(items + [l]) == []
  {
    FirstOfMore(items, l, OpensJobs);
  }

  lemma BlockOfMore(items: seq<Item>, l: Item)
    requires Opened(items)
    ensures Closed(items + [l]) <==> Closed(items) || IsTop(l)
    ensures Block(items + [l]) == if Closed(items) || IsTop(l) then Block(items) else Block(items) + [l]
  {
    OpenedOfMore(items, l);
    FirstOfMore(AfterJobs(items), l, IsTop);
  }

  lemma StepInBlock(s: Scan, items: seq<Item>, l: Item)
    requires Means(s, items) && s.started && !s.closed && !IsTop(l)
    ensures Means(Step(s, l), items + [l])
  {
    OpenedOfMore(items, l);
    BlockOfMore(items, l);
    if BeginsJob(s, l) {
      HeaderInside(s, Block(items), l);
    } else {
      LineInside(s, Block(items), l);
    }
  }

  lemma StepClosing(s: Scan, items: seq<Item>, l: Item)
    requires Means(s, items) && s.started && !s.closed && IsTop(l)
    ensures Means(Step(s, l), items + [l])
  {
    OpenedOfMore(items, l);
    BlockOfMore(items, l);
    FlushedJobs(s, Block(items));
  }

  lemma OpeningBlock(items: seq<Item>)
    requires AfterJobs(items) == []
    ensures !Closed(items) && Block(items) == [] && InBlock(START.(started := true), [])
  {
  }

  lemma StepOutside(s: Scan, items: seq<Item>, l: Item)
    requires Means(s, items) && (!s.started || s.closed)
    ensures Means(Step(s, l), items + [l])
  {
    OpenedOfMore(items, l);
    if s.started {
      BlockOfMore(items, l);
    } else {
      OpeningBlock(items);
      OpeningBlock(items + [l]);
    }
  }

  lemma StepMeans(s: Scan, items: seq<Item>, l: Item)
    requires Means(s, items)
    ensures Means(Step(s, l), items + [l])
  {
    if !s.started || s.closed {
      StepOutside(s, items, l);
    } else if IsTop(l) {
      StepClosing(s, items, l);
    } else {
      StepInBlock(s, items, l);
    }
  }

  lemma {:induction false} ScanMeans(items: seq<Item>)
    ensures Means(ScanFrom(START, items), items)
  {
    if items == [] {
      OpeningBlock([]);
    } else {
      assert items == items[..|items| - 1] + [items[|items| - 1]];
      ScanMeans(items[..|items| - 1]);
      StepMeans(ScanFrom(START, items[..|items| - 1]), items[..|items| - 1], items[|items| - 1]);
    }
  }

  /** What the parser returns is what the file declares. */
  lemma {:induction false} ScanFindsJobs(items: seq<Item>)
    ensures var s := ScanFrom(START, items);
      Flush(s.parsed, s.current) == Parsed(items)
  {
    ScanMeans(items);
    var s := ScanFrom(START, items);
    if s.started && !s.closed {
      FlushedJobs(s, Block(items));
    } else if !s.started {
      OpeningBlock(items);
    }
  }

  // ---------------------------------------------------------------- the loop

  lemma {:induction false} ScanConcat(s: Scan, a: seq<Item>, b: seq<Item>)
    ensures ScanFrom(s, a + b) == ScanFrom(ScanFrom(s, a), b)
  {
    if b == [] {
      assert a + b == a;
    } else {
      assert (a + b)[..|a + b| - 1] == a + b[..|b| - 1];
      ScanConcat(s, a, b[..|b| - 1]);
    }
  }

  lemma {:induction false} ClosedStays(s: Scan, items: seq<Item>)
    requires s.closed
    ensures ScanFrom(s, items) == s
  {
    if items != [] {
      ClosedStays(s, items[..|items| - 1]);
    }
  }

  function ReadInto(s: Scan, read: seq<Item>): Scan {
    if read == [] then s else Step(s, read[0])
  }

  function ScanLines<L>(lines: seq<L>, read: L -> seq<Item>): Scan {
    ScanFrom(START, Gather(lines, read))
  }

  lemma {:induction false} GatherConcat<L>(a: seq<L>, b: seq<L>, read: L -> seq<Item>)
    ensures Gather(a + b, read) == Gather(a, read) + Gather(b, read)
  {
    if b == [] {
      assert a + b == a;
    } else {
      assert (a + b)[..|a + b| - 1] == a + b[..|b| - 1];
      GatherConcat(a, b[..|b| - 1], read);
    }
  }

  lemma ScanSplit<L>(a: seq<L>, b: seq<L>, read: L -> seq<Item>)
    ensures ScanLines(a + b, read) == ScanFrom(ScanLines(a, read), Gather(b, read))
  {
    GatherConcat(a, b, read);
    ScanConcat(START, Gather(a, read), Gather(b, read));
  }

  lemma ScanLine<L>(lines: seq<L>, i: nat, read: L -> seq<Item>)
    requires i < |lines| && |read(lines[i])| <= 1
    ensures ScanLines(lines[..i + 1], read) == ReadInto(ScanLines(lines[..i], read), read(lines[i]))
  {
    assert lines[..i + 1] == lines[..i] + [lines[i]];
    ScanSplit(lines[..i], [lines[i]], read);
  }

  lemma NothingAfterClosed<L>(a: seq<L>, b: seq<L>, read: L -> seq<Item>)
    requires ScanLines(a, read).closed
    ensures ScanLines(a + b, read) == ScanLines(a, read)
  {
    ScanSplit(a, b, read);
    ClosedStays(ScanLines(a, read), Gather(b, read));
  }

  lemma ScanEnds<L>(lines: seq<L>, i: nat, read: L -> seq<Item>)
    requires i <= |lines| && (i < |lines| ==> ScanLines(lines[..i], read).closed)
    ensures ScanLines(lines, read) == ScanLines(lines[..i], read)
  {
    if i < |lines| {
      NothingAfterClosed(lines[..i], lines[i..], read);
      assert lines == lines[..i] + lines[i..];
    } else {
      assert lines[..i] == lines;
    }
  }

  lemma Inserted<L>(before: seq<L>, line: L, after: seq<L>, read: L -> seq<Item>)
    requires |read(line)| <= 1
    requires ReadInto(ScanLines(before, read), read(line)) == ScanLines(before, read)
    ensures ScanLines(before + [line] + after, read) == ScanLines(before + after, read)
  {
    ScanSplit(before + [line], after, read);
    ScanSplit(before, after, read);
    ScanSplit(before, [line], read);
  }

  function Pack(id: Option<string>, name: Option<string>, property: Option<nat>): Option<Current> {
    if id.Some? then Some(Current(id.value, name, property)) else None
  }

  /** A line inside the block, below a header. */
  method TakeProperty(l: Item, name: Option<string>, property: Option<nat>)
    returns (newName: Option<string>, newProperty: Option<nat>)
    ensures forall id :: Current(id, newName, newProperty) == ReadProperty(Current(id, name, property), l)
  {
    newName, newProperty := name, property;
    if newProperty.None? {
      newProperty := Some(l.indent);
    }
    if l.indent == newProperty.value && l.name.Some? && name.None? {
      newName := l.name;
    }
  }

  method NextItem(line: string) returns (l: Option<Item>)
    ensures ItemOf(line) == if l.Some? then [l.value] else []
  {
    var stripped := StripInlineComment(line);
    l := if Trim(stripped) == "" then None else Some(Read(stripped));
  }

  /** The body of the loop for a line that is not blank. */
  method TakeItem(l: Item, started: bool, jobIndent: Option<nat>, jobId: Option<string>, jobName: Option<string>,
                  property: Option<nat>, parsed: seq<Job>)
    returns (nowStarted: bool, closed: bool, newIndent: Option<nat>, newId: Option<string>, newName: Option<string>,
             newProperty: Option<nat>, nowParsed: seq<Job>)
    ensures Scan(nowStarted, closed, newIndent, Pack(newId, newName, newProperty), nowParsed)
         == Step(Scan(started, false, jobIndent, Pack(jobId, jobName, property), parsed), l)
  {
    nowStarted, closed, newIndent, newId, newName, newProperty, nowParsed :=
      started, false, jobIndent, jobId, jobName, property, parsed;
    if !started {
      nowStarted := OpensJobs(l);
    } else if IsTop(l) {
      nowParsed, closed := Flush(parsed, Pack(jobId, jobName, property)), true;
    } else if l.jobId.Some? && (jobIndent.None? || jobIndent == Some(l.indent)) {
      nowParsed := Flush(parsed, Pack(jobId, jobName, property));
      newId, newName, newProperty, newIndent := l.jobId, None, None, Some(l.indent);
    } else if jobId.Some? && jobIndent.Some? && IsProperty(l, jobIndent.value) {
      newName, newProperty := TakeProperty(l, jobName, property);
    }
  }

  lemma Next<L>(lines: seq<L>, i: nat, l: Option<Item>, read: L -> seq<Item>)
    requires i < |lines| && read(lines[i]) == if l.Some? then [l.value] else []
    ensures ScanLines(lines[..i + 1], read)
         == if l.Some? then Step(ScanLines(lines[..i], read), l.value) else ScanLines(lines[..i], read)
  {
    ScanLine(lines, i, read);
  }

  /** One pair per header of the block, the k-th made from the k-th header and its own lines. */
  ghost predicate PairPerHeader(jobs: seq<Job>, body: seq<Item>, indent: nat) {
    var headers := Headers(body, indent);
    && (forall i :: 0 <= i < |body| ==> (i in headers <==> IsHeader(body[i], indent)))
    && |jobs| == |headers|
    && (forall k :: 0 <= k < |headers| ==> jobs[k] == JobOf(body[headers[k]], Own(body, indent, k), indent))
  }

  lemma JobsArePairs(body: seq<Item>, indent: nat)
    ensures PairPerHeader(Jobs(body, indent), body, indent)
  {
    hide Headers, Jobs, Own, JobOf;
    JobCount(body, indent);
    forall i | 0 <= i < |body| ensures i in Headers(body, indent) <==> IsHeader(body[i], indent) {
      HeadersAreAll(body, indent, i);
    }
    forall k | 0 <= k < |Headers(body, indent)|
      ensures Jobs(body, indent)[k] == JobOf(body[Headers(body, indent)[k]], Own(body, indent, k), indent)
    {
      OnePairPerHeader(body, indent, k);
    }
  }

  lemma SomeJob(body: seq<Item>)
    requires JobIndent(body).Some?
    ensures Jobs(body, JobIndent(body).value) != []
  {
    var first := First(body, (l: Item) => l.jobId.Some?);
    assert IsHeader(body[first], JobIndent(body).value);
  }

  /** What a file with these items yields: nothing without a job header; otherwise one pair per header, and
      the last one again when a line at the left margin closes the block. */
  ghost predicate PairsOf(jobs: seq<Job>, items: seq<Item>) {
    var body := Block(items);
    match JobIndent(body)
    case None => jobs == []
    case Some(indent) =>
      var n := |jobs| - if Closed(items) then 1 else 0;
      && 0 < n && PairPerHeader(jobs[..n], body, indent)
      && (Closed(items) ==> jobs[n] == jobs[n - 1])
  }

  lemma ParsedIsPairs(items: seq<Item>)
    ensures PairsOf(Parsed(items), items)
  {
    hide PairPerHeader, Block, Closed, JobIndent, Jobs;
    var body := Block(items);
    if JobIndent(body).Some? {
      var jobs := Jobs(body, JobIndent(body).value);
      JobsArePairs(body, JobIndent(body).value);
      SomeJob(body);
      assert (jobs + [jobs[|jobs| - 1]])[..|jobs|] == jobs && jobs[..|jobs|] == jobs;
    }
  }

  lemma PairsAgree(a: seq<Job>, b: seq<Job>, body: seq<Item>, indent: nat)
    requires PairPerHeader(a, body, indent) && PairPerHeader(b, body, indent)
    ensures a == b
  {
    hide Headers, Own, JobOf;
  }

  /** And nothing else fits: the pairs of a file are what the parser returns. */
  lemma PairsAreParsed(jobs: seq<Job>, items: seq<Item>)
    ensures PairsOf(jobs, items) <==> jobs == Parsed(items)
  {
    ParsedIsPairs(items);
    hide PairPerHeader, Block, Closed, JobIndent, Parsed;
    var parsed := Parsed(items);
    if PairsOf(jobs, items) && JobIndent(Block(items)).Some? {
      var m, n := |parsed| - (if Closed(items) then 1 else 0), |jobs| - (if Closed(items) then 1 else 0);
      PairsAgree(jobs[..n], parsed[..m], Block(items), JobIndent(Block(items)).value);
      assert jobs == jobs[..n] + jobs[n..] && parsed == parsed[..m] + parsed[m..];
    }
  }

  /** parse_workflow_jobs */
  method ParseWorkflowJobs(lines: seq<string>) returns (jobs: seq<Job>)
    ensures jobs == Parsed(Items(lines)) && PairsOf(jobs, Items(lines))
  {
    var started, closed, parsed := false, false, [];
    var jobIndent: Option<nat>, propertyIndent: Option<nat> := None, None;
    var jobId: Option<string>, jobName: Option<string> := None, None;
    var i := 0;
    while i < |lines| && !closed
      invariant 0 <= i <= |lines|
      invariant ScanLines(lines[..i], ItemOf)
        == Scan(started, closed, jobIndent, Pack(jobId, jobName, propertyIndent), parsed)
    {
      var next := NextItem(lines[i]);
      Next(lines, i, next, ItemOf);
      i := i + 1;
      if next.Some? {
        started, closed, jobIndent, jobId, jobName, propertyIndent, parsed :=
          TakeItem(next.value, started, jobIndent, jobId, jobName, propertyIndent, parsed);
      }
    }
    ScanEnds(lines, i, ItemOf);
    ScanFindsJobs(Items(lines));
    ParsedIsPairs(Items(lines));
    jobs := Flush(parsed, Pack(jobId, jobName, propertyIndent));
  }

  // ---------------------------------------------------------------- lines that do not matter

  /** Inside a job whose property indent is established, a line nested deeper. */
  predicate Nested(items: seq<Item>, l: Item) {
    && Opened(items) && !Closed(items)
    && var indent := JobIndent(Block(items));
    && indent.Some?
    && var last := LastHeader(Block(items), indent.value);
    && last.Some?
    && var property := PropertyIndent(Block(items)[last.value + 1..], indent.value);
    && property.Some? && l.indent > property.value
  }

  lemma {:induction false} NestedChangesNothing(items: seq<Item>, l: Item)
    requires Nested(items, l)
    ensures Step(ScanFrom(START, items), l) == ScanFrom(START, items)
  {
    hide ScanFrom, NameOf, Jobs, AfterJobs, Block, JobIndent;
    ScanMeans(items);
  }

  /** Inserting a blank line, a line with only a comment, or a line nested deeper than the properties of
      its job never changes the jobs found, wherever it is inserted. */
  lemma InsertedLineIgnored(before: seq<string>, line: string, after: seq<string>)
    requires OnlyComment(line) || Nested(Items(before), Read(Uncommented(line)))
    ensures Parsed(Items(before + [line] + after)) == Parsed(Items(before + after))
  {
    StrippedIsBlank(line);
    if !OnlyComment(line) {
      NestedChangesNothing(Items(before), Read(Uncommented(line)));
    }
    Inserted(before, line, after, ItemOf);
    ScanFindsJobs(Items(before + [line] + after));
    ScanFindsJobs(Items(before + after));
  }

  /** The last job is returned twice exactly when a line at the left margin closes a block with jobs. */
  lemma DuplicateExactly(items: seq<Item>)
    ensures Parsed(items) == JobsOf(Block(items)) <==> !(Closed(items) && JobIndent(Block(items)).Some?)
  {
    if JobIndent(Block(items)).Some? {
      SomeJob(Block(items));
    }
  }
}
