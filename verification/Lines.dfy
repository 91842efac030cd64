/** Lines of a workflow file: whitespace, inline comments, indentation and mapping entries. */
module Lines {
  import opened Options

  /** str.isspace of one character. */
  predicate IsSpace(c: char) {
    var u := c as int;
    || 0x09 <= u <= 0x0D || 0x1C <= u <= 0x20 || u == 0x85 || u == 0xA0 || u == 0x1680
    || 0x2000 <= u <= 0x200A || u == 0x2028 || u == 0x2029 || u == 0x202F || u == 0x205F || u == 0x3000
  }

  function TrimRight(s: string): (t: string)
    ensures t <= s && (t != [] ==> !IsSpace(t[|t| - 1]))
    ensures forall i :: |t| <= i < |s| ==> IsSpace(s[i])
  {
    if s != [] && IsSpace(s[|s| - 1]) then
      var t := TrimRight(s[..|s| - 1]);
      assert forall i :: |t| <= i < |s| - 1 ==> s[..|s| - 1][i] == s[i];
      t
    else s
  }

  function TrimLeft(s: string): (t: string)
    ensures |t| <= |s| && t == s[|s| - |t|..] && (t != [] ==> !IsSpace(t[0]))
    ensures forall i :: 0 <= i < |s| - |t| ==> IsSpace(s[i])
  {
    if s != [] && IsSpace(s[0]) then
      var t := TrimLeft(s[1..]);
      assert forall i :: 0 < i < |s| - |t| ==> s[i] == s[1..][i - 1];
      t
    else s
  }

  function Trim(s: string): string {
    TrimLeft(TrimRight(s))
  }

  lemma TrimmedIsBlank(s: string)
    ensures Trim(s) == "" <==> forall i :: 0 <= i < |s| ==> IsSpace(s[i])
  {
    var t := TrimRight(s);
    assert t != "" ==> t[|t| - 1] == s[|t| - 1] && !IsSpace(t[|t| - 1]);
  }

  // ---------------------------------------------------------------- comments

  /** Whether a single or a double quotation is open after the characters of s. */
  function OpenQuotes(s: string): (bool, bool) {
    if s == "" then (false, false)
    else
      var (single, double) := OpenQuotes(s[..|s| - 1]);
      var c := s[|s| - 1];
      if c == '\'' && !double then (!single, double)
      else if c == '"' && !single then (single, !double)
      else (single, double)
  }

  predicate StartsComment(line: string, i: nat) {
    && i < |line| && line[i] == '#' && OpenQuotes(line[..i]) == (false, false)
    && (i == 0 || IsSpace(line[i - 1]))
  }

  predicate CommentFree(s: string) {
    forall i :: 0 <= i < |s| ==> !StartsComment(s, i)
  }

  lemma PrefixComments(line: string, n: nat)
    requires n <= |line|
    ensures forall i :: 0 <= i < n ==> (StartsComment(line[..n], i) <==> StartsComment(line, i))
  {
    forall i | 0 <= i < n
      ensures StartsComment(line[..n], i) <==> StartsComment(line, i)
    {
      assert line[..n][..i] == line[..i];
    }
  }

  /** Where the comment of the line starts. */
  function CommentStart(line: string): (n: nat)
    ensures n <= |line| && (n < |line| ==> StartsComment(line, n))
    ensures forall i :: 0 <= i < n ==> !StartsComment(line, i)
  {
    if line == "" then 0
    else
      var n := CommentStart(line[..|line| - 1]);
      PrefixComments(line, |line| - 1);
      if n < |line| - 1 then n
      else if StartsComment(line, n) then n
      else |line|
  }

  function Uncommented(line: string): string {
    TrimRight(line[..CommentStart(line)])
  }

  /** _strip_inline_comment */
  method StripInlineComment(line: string) returns (s: string)
    ensures s == Uncommented(line)
  {
    var single, double := false, false;
    var stripped := "";
    var i := 0;
    while i < |line|
      invariant 0 <= i <= |line| && stripped == line[..i] && OpenQuotes(line[..i]) == (single, double)
      invariant i <= CommentStart(line)
    {
      assert line[..i + 1][..i] == line[..i];
      var c := line[i];
      if c == '\'' && !double {
        single := !single;
      } else if c == '"' && !single {
        double := !double;
      } else if c == '#' && !single && !double {
        if i == 0 || IsSpace(line[i - 1]) {
          assert StartsComment(line, i);
          break;
        }
      }
      stripped := stripped + [c];
      i := i + 1;
    }
    s := TrimRight(stripped);
  }

  /** Stripping keeps a prefix without comments, and stripping again changes nothing. */
  lemma StrippingIsIdempotentPrefix(line: string)
    ensures Uncommented(line) <= line && CommentFree(Uncommented(line))
    ensures Uncommented(Uncommented(line)) == Uncommented(line)
  {
    var s := Uncommented(line);
    assert s == line[..|s|];
    PrefixComments(line, |s|);
    assert s[..CommentStart(s)] == s;
  }

  /** A line is stripped to nothing exactly when it is blank or only a comment. */
  predicate OnlyComment(line: string) {
    TrimLeft(line) == "" || TrimLeft(line)[0] == '#'
  }

  lemma {:induction false} NoQuotesInSpace(s: string)
    requires forall i :: 0 <= i < |s| ==> IsSpace(s[i])
    ensures OpenQuotes(s) == (false, false)
  {
    if s != "" {
      NoQuotesInSpace(s[..|s| - 1]);
    }
  }

  lemma SpacesStrip(line: string, n: nat)
    requires n <= |line| && CommentStart(line) <= n && forall i :: 0 <= i < n ==> IsSpace(line[i])
    ensures Uncommented(line) == ""
  {
    var kept := line[..CommentStart(line)];
    assert forall i :: 0 <= i < |kept| ==> kept[i] == line[i];
  }

  lemma TextStays(line: string, n: nat)
    requires n < |line| && n < CommentStart(line) && !IsSpace(line[n])
    ensures Uncommented(line) != ""
  {
    assert line[..CommentStart(line)][n] == line[n];
  }

  lemma StripsToNothing(line: string)
    ensures Uncommented(line) == "" <==> OnlyComment(line)
  {
    var rest := TrimLeft(line);
    var n := |line| - |rest|;
    if rest == "" {
      SpacesStrip(line, |line|);
    } else if rest[0] == '#' {
      assert forall i :: 0 <= i < n ==> line[..n][i] == line[i];
      NoQuotesInSpace(line[..n]);
      assert StartsComment(line, n);
      SpacesStrip(line, n);
    } else {
      assert rest[0] == line[n];
      var k := CommentStart(line);
      assert k <= n ==> k < |line| && (line[k] == '#' && (IsSpace(line[k]) || k == n));
      TextStays(line, n);
    }
  }

  lemma StrippedIsBlank(line: string)
    ensures Trim(Uncommented(line)) == "" <==> OnlyComment(line)
  {
    var s := Uncommented(line);
    StripsToNothing(line);
    TrimmedIsBlank(s);
    assert s != "" ==> !IsSpace(s[|s| - 1]);
  }

  // ---------------------------------------------------------------- entries

  function LeadingSpaces(s: string): (n: nat)
    ensures n <= |s| && (n < |s| ==> s[n] != ' ') && forall i :: 0 <= i < n ==> s[i] == ' '
  {
    if s == "" || s[0] != ' ' then 0
    else
      var n := LeadingSpaces(s[1..]);
      assert forall i :: 0 < i < |s| ==> s[i] == s[1..][i - 1];
      1 + n
  }

  function Colon(s: string): (n: nat)
    ensures n <= |s| && (n < |s| ==> s[n] == ':') && forall i :: 0 <= i < n ==> s[i] != ':'
  {
    if s == "" || s[0] == ':' then 0
    else
      var n := Colon(s[1..]);
      assert forall i :: 0 < i < |s| ==> s[i] == s[1..][i - 1];
      1 + n
  }

  /** _parse_mapping_entry */
  function MappingEntry(s: string): Option<(string, string)> {
    var n := Colon(s);
    if n == |s| || Trim(s[..n]) == "" then None
    else Some((Trim(s[..n]), Trim(s[n + 1..])))
  }

  /** _normalize_scalar */
  function NormalizeScalar(s: string): string {
    var t := Trim(s);
    if |t| >= 2 && t[0] == t[|t| - 1] && (t[0] == '\'' || t[0] == '"') then Trim(t[1..|t| - 1]) else t
  }

  // ---------------------------------------------------------------- what the readers make of a text

  predicate Blank(s: string) {
    forall i :: 0 <= i < |s| ==> IsSpace(s[i])
  }

  /** Neither starts nor ends with a blank. */
  predicate Trimmed(s: string) {
    s != "" ==> !IsSpace(s[0]) && !IsSpace(s[|s| - 1])
  }

  lemma TrimRightUnique(s: string, blanks: string)
    requires Blank(blanks) && (s != "" ==> !IsSpace(s[|s| - 1]))
    ensures TrimRight(s + blanks) == s
  {
    assert (s + blanks)[..|s|] == s;
  }

  lemma TrimLeftUnique(blanks: string, s: string)
    requires Blank(blanks) && (s != "" ==> !IsSpace(s[0]))
    ensures TrimLeft(blanks + s) == s
  {
    assert (blanks + s)[|blanks|..] == s;
  }

  /** Trimming takes the blanks from both ends and nothing else. */
  lemma TrimTakesBlanks(before: string, s: string, after: string)
    requires Blank(before) && Blank(after) && Trimmed(s)
    ensures Trim(before + s + after) == s
  {
    if s == "" {
      assert Blank(before + s + after);
      TrimmedIsBlank(before + s + after);
    } else {
      assert (before + s)[|before + s| - 1] == s[|s| - 1];
      TrimRightUnique(before + s, after);
      TrimLeftUnique(before, s);
    }
  }

  predicate IsQuote(c: char) {
    c == '\'' || c == '"'
  }

  /** A pair of equal quotes around a scalar comes off, and the blanks inside and outside with it. */
  lemma QuotesComeOff(before: string, q: char, s: string, after: string)
    requires Blank(before) && Blank(after) && IsQuote(q)
    ensures NormalizeScalar(before + ([q] + s + [q]) + after) == Trim(s)
  {
    var quoted := [q] + s + [q];
    assert !IsSpace('\'') && !IsSpace('"');
    hide Trim, IsSpace, Blank;
    TrimTakesBlanks(before, quoted, after);
    assert quoted[1..|quoted| - 1] == s;
  }

  /** Any other scalar is only trimmed. */
  lemma UnquotedStays(before: string, s: string, after: string)
    requires Blank(before) && Blank(after) && Trimmed(s)
    requires |s| < 2 || s[0] != s[|s| - 1] || !IsQuote(s[0])
    ensures NormalizeScalar(before + s + after) == s
  {
    hide Trim, IsSpace, Blank;
    TrimTakesBlanks(before, s, after);
  }

  /** A line is an entry exactly if it has a colon with more than blanks before the first; the key is what stands
      before that colon and the value what stands behind, trimmed. */
  lemma EntrySplits(key: string, value: string)
    requires ':' !in key
    ensures MappingEntry(key + ":" + value) == if Blank(key) then None else Some((Trim(key), Trim(value)))
    ensures MappingEntry(key) == None
  {
    var line := key + ":" + value;
    assert line[|key|] == ':';
    assert forall i :: 0 <= i < |key| ==> line[i] == key[i];
    assert Colon(line) == |key|;
    assert line[..|key|] == key && line[|key| + 1..] == value;
    TrimmedIsBlank(key);
    assert forall i :: 0 <= i < |key| ==> key[i] in key;
  }

  /** No quote and no hash. */
  predicate Plain(s: string) {
    forall i :: 0 <= i < |s| ==> !IsQuote(s[i]) && s[i] != '#'
  }

  lemma {:induction false} PlainOpensNothing(s: string)
    requires forall i :: 0 <= i < |s| ==> !IsQuote(s[i])
    ensures OpenQuotes(s) == (false, false)
  {
    if s != "" {
      PlainOpensNothing(s[..|s| - 1]);
    }
  }

  lemma NoCommentIn(s: string, line: string)
    requires s <= line && Plain(s)
    ensures CommentStart(line) >= |s|
  {
    assert forall i :: 0 <= i < |s| ==> line[i] == s[i];
  }

  lemma HashStarts(s: string, comment: string)
    requires Plain(s) && (s == "" || IsSpace(s[|s| - 1]))
    ensures StartsComment(s + "#" + comment, |s|)
  {
    hide IsSpace;
    var line := s + "#" + comment;
    PlainOpensNothing(s);
    assert line[..|s|] == s && line[|s|] == '#';
    assert s != "" ==> line[|s| - 1] == s[|s| - 1];
  }

  /** A hash at the start of a line or after a blank starts a comment. */
  lemma {:induction false} HashAfterBlankCuts(s: string, comment: string)
    requires Plain(s) && (s == "" || IsSpace(s[|s| - 1]))
    ensures Uncommented(s + "#" + comment) == TrimRight(s)
  {
    hide IsSpace, CommentStart, TrimRight, OpenQuotes, StartsComment, Plain;
    var line := s + "#" + comment;
    assert line[..|s|] == s && s <= line;
    NoCommentIn(s, line);
    HashStarts(s, comment);
  }

  /** A hash inside a word does not. */
  lemma HashInWordStays(s: string, rest: string)
    requires Plain(s) && Plain(rest) && s != "" && !IsSpace(s[|s| - 1])
    ensures Uncommented(s + "#" + rest) == TrimRight(s + "#" + rest)
  {
    var line := s + "#" + rest;
    NoCommentIn(s, line);
    assert line[|s| - 1] == s[|s| - 1];
    assert !StartsComment(line, |s|);
    assert forall i :: |s| < i < |line| ==> line[i] == rest[i - |s| - 1];
    assert line[..|line|] == line;
  }

  lemma {:induction false} QuoteStaysOpen(s: string, q: char, inner: string)
    requires Plain(s) && IsQuote(q) && q !in inner
    ensures OpenQuotes(s + [q] + inner) == (q == '\'', q == '"')
  {
    if inner == "" {
      PlainOpensNothing(s);
      assert (s + [q] + inner)[..|s|] == s;
    } else {
      var m := |inner| - 1;
      QuoteStaysOpen(s, q, inner[..m]);
      assert (s + [q] + inner)[..|s + [q] + inner| - 1] == s + [q] + inner[..m];
      assert (s + [q] + inner)[|s + [q] + inner| - 1] == inner[m];
      assert inner[m] in inner;
    }
  }

  /** Nor does a hash inside quotes, whatever stands before it there. */
  lemma HashInQuotesStays(s: string, q: char, inner: string, rest: string)
    requires Plain(s) && IsQuote(q) && q !in inner
    ensures CommentStart(s + [q] + inner + [q] + rest) >= |s| + 1 + |inner|
  {
    var line := s + [q] + inner + [q] + rest;
    assert s <= line && line[|s|] == q;
    NoCommentIn(s, line);
    forall i | |s| < i < |s| + 1 + |inner| ensures !StartsComment(line, i) {
      QuoteStaysOpen(s, q, inner[..i - |s| - 1]);
      assert line[..i] == s + [q] + inner[..i - |s| - 1];
    }
  }

  lemma OutOfQuotes(s: string, q: char, inner: string)
    requires Plain(s) && IsQuote(q) && q !in inner
    ensures OpenQuotes(s + [q] + inner + [q]) == (false, false)
    ensures OpenQuotes(s + [q] + inner + [q] + " ") == (false, false)
  {
    QuoteStaysOpen(s, q, inner);
    var quoted := s + [q] + inner + [q];
    assert quoted[..|quoted| - 1] == s + [q] + inner && quoted[|quoted| - 1] == q;
    assert (quoted + " ")[..|quoted|] == quoted;
  }

  lemma StartBehindQuotes(s: string, q: char, inner: string, comment: string)
    requires Plain(s) && IsQuote(q) && q !in inner
    ensures CommentStart(s + [q] + inner + [q] + " #" + comment) == |s + [q] + inner + [q]| + 1
  {
    assert IsSpace(' ');
    hide IsSpace, CommentStart, OpenQuotes;
    var quoted := s + [q] + inner + [q];
    var line := quoted + " #" + comment;
    HashInQuotesStays(s, q, inner, " #" + comment);
    assert line == s + [q] + inner + [q] + (" #" + comment);
    OutOfQuotes(s, q, inner);
    assert line[|quoted| - 1] == q && line[|quoted|] == ' ' && line[|quoted| + 1] == '#';
    assert line[..|quoted| + 1] == quoted + " ";
    assert !StartsComment(line, |quoted| - 1) && !StartsComment(line, |quoted|) && StartsComment(line, |quoted| + 1);
    hide StartsComment;
  }

  /** A comment behind a quoted text goes, whatever the text. */
  lemma CommentBehindQuotesGoes(s: string, q: char, inner: string, comment: string)
    requires Plain(s) && IsQuote(q) && q !in inner
    ensures Uncommented(s + [q] + inner + [q] + " #" + comment) == s + [q] + inner + [q]
  {
    assert !IsSpace('\'') && !IsSpace('"') && IsSpace(' ');
    hide IsSpace, CommentStart, OpenQuotes;
    StartBehindQuotes(s, q, inner, comment);
    var quoted := s + [q] + inner + [q];
    assert (quoted + " #" + comment)[..|quoted| + 1] == quoted + " ";
    TrimRightUnique(quoted, " ");
  }
}
