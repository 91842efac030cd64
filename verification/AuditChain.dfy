/** The audit_events table and its two triggers: one seals every inserted row into a hash chain,
    the other refuses updates and deletions. Instants are integers. */
module AuditChain {
  import opened Options

  /** What the database supplies: hex(sha256(s)), and the text of an instant. */
  datatype Functions = Functions(digest: string -> string, text: int -> string)

  const DIGEST_LENGTH := 64

  ghost predicate FixedLength(f: Functions) {
    forall s :: |f.digest(s)| == DIGEST_LENGTH
  }

  datatype Row = Row(
    actor: string, action: string, target: string, decision: string,
    policyId: Option<string>, policyVersion: Option<string>, requestId: Option<string>,
    payload: string, policyReason: Option<string>, riskScore: Option<int>,
    createdAt: int, prevHash: Option<string>, eventHash: Option<string>)

  function Coalesce(s: Option<string>): string {
    if s.Some? then s.value else ""
  }

  /** The columns under the hash, run together. */
  function Covered(f: Functions, row: Row): string {
    row.actor + row.action + row.target + row.decision + Coalesce(row.policyId) + Coalesce(row.policyVersion)
    + Coalesce(row.requestId) + f.text(row.createdAt)
  }

  function Hashed(f: Functions, row: Row): string {
    Coalesce(row.prevHash) + Covered(f, row)
  }

  // ---------------------------------------------------------------- the triggers

  /** ORDER BY created_at DESC LIMIT 1 may return any of the newest rows. */
  predicate IsNewest(rows: seq<Row>, i: nat) {
    i < |rows| && forall k :: 0 <= k < |rows| ==> rows[k].createdAt <= rows[i].createdAt
  }

  predicate Answers(rows: seq<Row>, newest: Option<nat>) {
    if rows == [] then newest.None? else newest.Some? && IsNewest(rows, newest.value)
  }

  function LatestHash(rows: seq<Row>, newest: Option<nat>): Option<string>
    requires Answers(rows, newest)
  {
    if newest.Some? then rows[newest.value].eventHash else None
  }

  /** What the insert trigger makes of a row, given the row its query returned. */
  function Seal(f: Functions, latest: Option<string>, row: Row): Row {
    var linked := row.(prevHash := Some(if row.prevHash.Some? then row.prevHash.value else Coalesce(latest)));
    linked.(eventHash := Some(f.digest(Hashed(f, linked))))
  }

  /** What an UPDATE or DELETE statement does to one row. */
  datatype Edit = Keep | Replace(row: Row) | Remove

  /** What a row-level trigger does about an edit: let it happen, or abort the statement. */
  datatype Verdict = Proceed | Raise

  /** audit_events_immutable_guard */
  function ImmutableGuard(row: Row): Verdict {
    Raise
  }

  /** The first n rows as a statement rewrites them, its trigger fired before every row that is touched;
      None once the trigger has raised. */
  function Rewritten(rows: seq<Row>, plan: nat -> Edit, guard: Row -> Verdict, n: nat): Option<seq<Row>>
    requires n <= |rows|
  {
    if n == 0 then Some([])
    else
      match Rewritten(rows, plan, guard, n - 1)
      case None => None
      case Some(done) =>
        match plan(n - 1)
        case Keep => Some(done + [rows[n - 1]])
        case Replace(row) => if guard(rows[n - 1]).Raise? then None else Some(done + [row])
        case Remove => if guard(rows[n - 1]).Raise? then None else Some(done)
  }

  /** The table after the statement: rewritten, or rolled back when a trigger raised. */
  function AfterChange(rows: seq<Row>, plan: nat -> Edit, guard: Row -> Verdict): seq<Row> {
    var rewritten := Rewritten(rows, plan, guard, |rows|);
    if rewritten.Some? then rewritten.value else rows
  }

  lemma {:induction false} GuardStopsFirstTouch(rows: seq<Row>, plan: nat -> Edit, n: nat)
    requires n <= |rows|
    ensures Rewritten(rows, plan, ImmutableGuard, n)
         == if forall i: nat :: i < n ==> plan(i).Keep? then Some(rows[..n]) else None
  {
    if n > 0 {
      GuardStopsFirstTouch(rows, plan, n - 1);
      assert rows[..n] == rows[..n - 1] + [rows[n - 1]];
    }
  }

  /** Under the guard a statement completes exactly when it touches no row, and no statement changes the table. */
  lemma {:induction false} GuardKeepsTable(rows: seq<Row>, plan: nat -> Edit)
    ensures Rewritten(rows, plan, ImmutableGuard, |rows|).Some? <==> forall i: nat :: i < |rows| ==> plan(i).Keep?
    ensures AfterChange(rows, plan, ImmutableGuard) == rows
  {
    GuardStopsFirstTouch(rows, plan, |rows|);
    assert rows[..|rows|] == rows;
  }

  lemma {:induction false} OneRowReplaced(rows: seq<Row>, plan: nat -> Edit, k: nat, row: Row, n: nat)
    requires n <= |rows| && k < |rows|
    requires forall i: nat :: i < n ==> plan(i) == if i == k then Replace(row) else Keep
    ensures Rewritten(rows, plan, _ => Proceed, n) == Some(rows[k := row][..n])
  {
    if n > 0 {
      OneRowReplaced(rows, plan, k, row, n - 1);
      assert rows[k := row][..n] == rows[k := row][..n - 1] + [rows[k := row][n - 1]];
    }
  }

  /** It is the guard that does it: without it an UPDATE of one row changes that row. */
  lemma UnguardedUpdateChanges(rows: seq<Row>, k: nat, row: Row)
    requires k < |rows|
    ensures AfterChange(rows, i => if i == k then Replace(row) else Keep, _ => Proceed) == rows[k := row]
  {
    OneRowReplaced(rows, i => if i == k then Replace(row) else Keep, k, row, |rows|);
  }

  class AuditTable {
    const functions: Functions
    var rows: seq<Row>

    constructor (functions: Functions, rows: seq<Row>)
      ensures this.functions == functions && this.rows == rows
    {
      this.functions := functions;
      this.rows := rows;
    }

    method Newest() returns (newest: Option<nat>)
      ensures Answers(rows, newest)
    {
      if rows == [] {
        return None;
      }
      var best := 0;
      for i := 1 to |rows|
        invariant 0 <= best < i && forall k :: 0 <= k < i ==> rows[k].createdAt <= rows[best].createdAt
      {
        if rows[best].createdAt < rows[i].createdAt {
          best := i;
        }
      }
      newest := Some(best);
    }

    method Insert(row: Row) returns (ghost newest: Option<nat>)
      modifies this
      ensures Answers(old(rows), newest)
      ensures rows == old(rows) + [Seal(functions, LatestHash(old(rows), newest), row)]
    {
      var found := Newest();
      newest := found;
      var latest := if found.Some? then rows[found.value].eventHash else None;
      rows := rows + [Seal(functions, latest, row)];
    }

    /** UPDATE and DELETE: the rows are rewritten one after the other until the guard raises, which rolls
        the statement back. */
    method Change(plan: nat -> Edit) returns (ok: bool)
      modifies this
      ensures rows == old(rows)
      ensures ok <==> forall i: nat :: i < |rows| ==> plan(i).Keep?
    {
      var done := [];
      GuardKeepsTable(rows, plan);
      for i := 0 to |rows|
        invariant rows == old(rows) && Rewritten(rows, plan, ImmutableGuard, i) == Some(done)
        invariant forall j: nat :: j < i ==> plan(j).Keep?
      {
        if !plan(i).Keep? && ImmutableGuard(rows[i]).Raise? {
          return false;
        }
        done := done + [rows[i]];
      }
      rows := done;
      return true;
    }
  }

  // ---------------------------------------------------------------- chains

  function HashBefore(rows: seq<Row>, k: nat): string
    requires k <= |rows|
  {
    if k == 0 then "" else Coalesce(rows[k - 1].eventHash)
  }

  predicate Links(f: Functions, rows: seq<Row>, k: nat)
    requires k < |rows|
  {
    rows[k].prevHash == Some(HashBefore(rows, k)) && rows[k].eventHash == Some(f.digest(Hashed(f, rows[k])))
  }

  /** The rows from `start` on are one verified chain. */
  predicate Chain(f: Functions, rows: seq<Row>, start: nat) {
    forall k :: start <= k < |rows| ==> Links(f, rows, k)
  }

  /** An insert keeps the chain exactly when the hash it links to is the last row's. */
  lemma InsertChainsExactly(f: Functions, rows: seq<Row>, start: nat, newest: Option<nat>, row: Row)
    requires start <= |rows| && Chain(f, rows, start) && Answers(rows, newest)
    ensures var latest := LatestHash(rows, newest);
      Chain(f, rows + [Seal(f, latest, row)], start)
      <==> (if row.prevHash.Some? then row.prevHash.value else Coalesce(latest)) == HashBefore(rows, |rows|)
  {
    var after := rows + [Seal(f, LatestHash(rows, newest), row)];
    assert HashBefore(after, |rows|) == HashBefore(rows, |rows|);
    assert Links(f, after, |rows|) <==> after[|rows|].prevHash == Some(HashBefore(rows, |rows|));
    forall k | start <= k < |rows|
      ensures Links(f, after, k)
    {
      assert Links(f, rows, k);
    }
  }

  datatype Statement = Insert(row: Row, newest: Option<nat>) | Change(plan: nat -> Edit)

  function Step(f: Functions, rows: seq<Row>, s: Statement): seq<Row> {
    match s
    case Insert(row, newest) =>
      if Answers(rows, newest) then rows + [Seal(f, LatestHash(rows, newest), row)] else rows
    case Change(plan) => AfterChange(rows, plan, ImmutableGuard)
  }

  function RunFrom(f: Functions, rows: seq<Row>, statements: seq<Statement>): seq<Row> {
    if statements == [] then rows
    else Step(f, RunFrom(f, rows, statements[..|statements| - 1]), statements[|statements| - 1])
  }

  /** The row is newer than every row of the table and supplies no prev_hash. */
  predicate Serial(rows: seq<Row>, s: Statement) {
    s.Insert? ==> s.row.prevHash.None? && forall k :: 0 <= k < |rows| ==> rows[k].createdAt < s.row.createdAt
  }

  predicate SerialRun(f: Functions, rows: seq<Row>, statements: seq<Statement>) {
    statements != [] ==>
      && SerialRun(f, rows, statements[..|statements| - 1])
      && Serial(RunFrom(f, rows, statements[..|statements| - 1]), statements[|statements| - 1])
  }

  predicate Unhashed(rows: seq<Row>) {
    forall k :: 0 <= k < |rows| ==> rows[k].eventHash.None?
  }

  /** Past the rows older than the triggers, the last row is the newest. */
  predicate Ordered(rows: seq<Row>, start: nat) {
    forall i, k :: start <= k < |rows| && 0 <= i < k ==> rows[i].createdAt < rows[k].createdAt
  }

  lemma StepChains(f: Functions, rows: seq<Row>, start: nat, s: Statement)
    requires start <= |rows| && Unhashed(rows[..start]) && Ordered(rows, start) && Chain(f, rows, start)
      && Serial(rows, s)
    ensures var after := Step(f, rows, s);
      rows <= after && Ordered(after, start) && Chain(f, after, start)
  {
    if s.Change? {
      GuardKeepsTable(rows, s.plan);
    } else if Answers(rows, s.newest) {
      InsertChainsExactly(f, rows, start, s.newest, s.row);
      if |rows| > start {
        assert rows[|rows| - 1].createdAt <= rows[s.newest.value].createdAt;
        assert s.newest.value == |rows| - 1;
      } else if rows != [] {
        assert rows[..start] == rows;
        assert rows[|rows| - 1].eventHash.None? && rows[s.newest.value].eventHash.None?;
      }
    }
  }

  /** Over a table of unhashed rows, serial inserts with increasing instants build one chain, and
      whatever else is attempted leaves every row in place. */
  lemma {:induction false} SerialRunIsChain(f: Functions, legacy: seq<Row>, statements: seq<Statement>)
    requires Unhashed(legacy) && SerialRun(f, legacy, statements)
    ensures var rows := RunFrom(f, legacy, statements);
      legacy <= rows && Ordered(rows, |legacy|) && Chain(f, rows, |legacy|)
  {
    if statements != [] {
      var before := statements[..|statements| - 1];
      SerialRunIsChain(f, legacy, before);
      var rows := RunFrom(f, legacy, before);
      assert rows[..|legacy|] == legacy;
      StepChains(f, rows, |legacy|, statements[|statements| - 1]);
    }
  }

  lemma StepAppends(f: Functions, rows: seq<Row>, s: Statement)
    ensures rows <= Step(f, rows, s)
  {
    if s.Change? {
      GuardKeepsTable(rows, s.plan);
    }
  }

  /** Over every run the guard and the insert trigger together only ever append: what the table held it keeps. */
  lemma {:induction false} AppendOnly(f: Functions, rows: seq<Row>, a: seq<Statement>, b: seq<Statement>)
    ensures RunFrom(f, rows, a) <= RunFrom(f, rows, a + b)
  {
    if b == [] {
      assert a + b == a;
    } else {
      AppendOnly(f, rows, a, b[..|b| - 1]);
      StepAppends(f, RunFrom(f, rows, a + b[..|b| - 1]), b[|b| - 1]);
      assert (a + b)[..|a + b| - 1] == a + b[..|b| - 1];
    }
  }

  /** A row older than the newest one forks the table: the row after it links to the same
      predecessor, and the table is a chain only if two rows hash alike. */
  lemma LateRowForks(f: Functions, rows: seq<Row>, start: nat, late: Row, next: Row, first: Option<nat>,
                     second: Option<nat>)
    requires start < |rows| && Ordered(rows, start) && Chain(f, rows, start)
    requires late.prevHash.None? && next.prevHash.None? && late.createdAt < rows[|rows| - 1].createdAt
    requires Answers(rows, first)
    requires Answers(rows + [Seal(f, LatestHash(rows, first), late)], second)
    ensures var forked := rows + [Seal(f, LatestHash(rows, first), late)];
      var after := forked + [Seal(f, LatestHash(forked, second), next)];
      && after[|rows|].prevHash == after[|rows| + 1].prevHash == rows[|rows| - 1].eventHash
      && Chain(f, forked, start)
      && (Chain(f, after, start) <==> after[|rows|].eventHash == rows[|rows| - 1].eventHash)
  {
    var last := |rows| - 1;
    assert Links(f, rows, last);
    assert rows[last].createdAt <= rows[first.value].createdAt;
    assert first.value == last;
    var forked := rows + [Seal(f, LatestHash(rows, first), late)];
    assert forked[last].createdAt <= forked[second.value].createdAt;
    assert second.value == last;
    InsertChainsExactly(f, rows, start, first, late);
    InsertChainsExactly(f, forked, start, second, next);
  }

  // ---------------------------------------------------------------- what a chain commits to

  predicate Agree(f: Functions, a: Row, b: Row) {
    a.prevHash == b.prevHash && Covered(f, a) == Covered(f, b)
  }

  /** Two different strings with one digest. */
  predicate Collide(f: Functions, a: Row, b: Row) {
    Hashed(f, a) != Hashed(f, b) && f.digest(Hashed(f, a)) == f.digest(Hashed(f, b))
  }

  lemma EqualHashesAgree(f: Functions, a: seq<Row>, b: seq<Row>, k: nat)
    requires FixedLength(f) && Chain(f, a, 0) && Chain(f, b, 0) && k < |a| && k < |b|
    requires a[k].eventHash == b[k].eventHash && !Collide(f, a[k], b[k])
    ensures Agree(f, a[k], b[k]) && (k > 0 ==> a[k - 1].eventHash == b[k - 1].eventHash)
  {
    assert Links(f, a, k) && Links(f, b, k);
    if k > 0 {
      assert Links(f, a, k - 1) && Links(f, b, k - 1);
    }
    var p, q := HashBefore(a, k), HashBefore(b, k);
    assert |p| == |q|;
    assert p == (p + Covered(f, a[k]))[..|p|] == (q + Covered(f, b[k]))[..|q|] == q;
    assert Covered(f, a[k]) == (p + Covered(f, a[k]))[|p|..];
    assert Covered(f, b[k]) == (q + Covered(f, b[k]))[|q|..];
  }

  /** Two chains of one length that end in one hash agree at every index on the link and on the
      hashed columns, or exhibit a collision of the digest. */
  lemma {:induction false} Commitment(f: Functions, a: seq<Row>, b: seq<Row>, n: nat)
    requires FixedLength(f) && Chain(f, a, 0) && Chain(f, b, 0)
    requires 0 < n <= |a| && n <= |b| && a[n - 1].eventHash == b[n - 1].eventHash
    ensures (forall k :: 0 <= k < n ==> Agree(f, a[k], b[k])) || exists k :: 0 <= k < n && Collide(f, a[k], b[k])
  {
    if !Collide(f, a[n - 1], b[n - 1]) {
      EqualHashesAgree(f, a, b, n - 1);
      if n > 1 {
        Commitment(f, a, b, n - 1);
      }
    }
  }

  lemma CoveredStartsWithActor(f: Functions, row: Row, link: string)
    ensures Covered(f, row.(prevHash := Some(""), actor := link + row.actor)) == link + Covered(f, row)
  {
    var rest := row.action + row.target + row.decision + Coalesce(row.policyId)
                + Coalesce(row.policyVersion) + Coalesce(row.requestId) + f.text(row.createdAt);
    assert Covered(f, row) == row.actor + rest;
    assert Covered(f, row.(prevHash := Some(""), actor := link + row.actor)) == link + row.actor + rest;
    assert link + row.actor + rest == link + (row.actor + rest);
  }

  /** Equal lengths are needed: a chain of two rows and a chain of one can end in the same hash
      without any collision, the one row's actor holding the first row's hash. */
  lemma ShorterChainAbsorbsLink(f: Functions, rows: seq<Row>)
    requires Chain(f, rows, 0) && |rows| == 2
    ensures var forged := rows[1].(prevHash := Some(""), actor := HashBefore(rows, 1) + rows[1].actor);
      Chain(f, [forged], 0) && Hashed(f, forged) == Hashed(f, rows[1])
  {
    var link := HashBefore(rows, 1);
    var forged := rows[1].(prevHash := Some(""), actor := link + rows[1].actor);
    assert Links(f, rows, 1);
    CoveredStartsWithActor(f, rows[1], link);
    assert Hashed(f, forged) == "" + (link + Covered(f, rows[1])) == Hashed(f, rows[1]);
    assert Links(f, [forged], 0);
  }

  /** Verification sees a row only through its two hashes and the hashed columns run together. */
  lemma ChainSeesOnlyCovered(f: Functions, rows: seq<Row>, start: nat, k: nat, other: Row)
    requires k < |rows| && other.prevHash == rows[k].prevHash && other.eventHash == rows[k].eventHash
    requires Covered(f, other) == Covered(f, rows[k])
    ensures Chain(f, rows[k := other], start) <==> Chain(f, rows, start)
  {
    var altered := rows[k := other];
    forall i | start <= i < |rows|
      ensures Links(f, altered, i) <==> Links(f, rows, i)
    {
      assert HashBefore(altered, i) == HashBefore(rows, i);
    }
    if Chain(f, rows, start) {
      assert forall i :: start <= i < |rows| ==> Links(f, rows, i) && Links(f, altered, i);
    }
    if Chain(f, altered, start) {
      assert forall i :: start <= i < |rows| ==> Links(f, altered, i) && Links(f, rows, i);
    }
  }

  /** The payload, the reason and the risk score are outside the hash, and text may move from one
      hashed column to the next. */
  lemma UncoveredChanges(f: Functions, rows: seq<Row>, start: nat, k: nat, payload: string, reason: Option<string>,
                         risk: Option<int>, cut: nat)
    requires Chain(f, rows, start) && k < |rows| && cut <= |rows[k].actor|
    ensures var moved := rows[k].(payload := payload, policyReason := reason, riskScore := risk,
                                  actor := rows[k].actor[..cut], action := rows[k].actor[cut..] + rows[k].action);
      Chain(f, rows[k := moved], start)
  {
    var row := rows[k];
    var moved := row.(payload := payload, policyReason := reason, riskScore := risk,
                      actor := row.actor[..cut], action := row.actor[cut..] + row.action);
    assert row.actor[..cut] + (row.actor[cut..] + row.action) == row.actor + row.action;
    ChainSeesOnlyCovered(f, rows, start, k, moved);
  }

  /** Any other change of a row of a chain is found, unless the digests collide. */
  lemma CoveredChangeIsFound(f: Functions, rows: seq<Row>, start: nat, k: nat, other: Row)
    requires Chain(f, rows, start) && start <= k < |rows|
    requires other.prevHash == rows[k].prevHash && other.eventHash == rows[k].eventHash
    ensures Chain(f, rows[k := other], start)
      <==> Covered(f, other) == Covered(f, rows[k]) || Collide(f, other, rows[k])
  {
    var altered := rows[k := other];
    assert Links(f, rows, k);
    assert HashBefore(altered, k) == HashBefore(rows, k);
    if Covered(f, other) == Covered(f, rows[k]) {
      ChainSeesOnlyCovered(f, rows, start, k, other);
    } else {
      var p := Coalesce(other.prevHash);
      assert Covered(f, other) == (p + Covered(f, other))[|p|..];
      assert Covered(f, rows[k]) == (p + Covered(f, rows[k]))[|p|..];
      assert Chain(f, altered, start) ==> Links(f, altered, k);
      if Collide(f, other, rows[k]) {
        forall i | start <= i < |rows|
          ensures Links(f, altered, i)
        {
          assert Links(f, rows, i) && HashBefore(altered, i) == HashBefore(rows, i);
        }
      }
    }
  }

  // ---------------------------------------------------------------- which columns are hashed

  /** The texts of the eight columns that the chain covers, in the order in which they are hashed. */
  function Columns(f: Functions, row: Row): (texts: seq<string>)
    ensures |texts| == 8
  {
    [row.actor, row.action, row.target, row.decision, Coalesce(row.policyId), Coalesce(row.policyVersion),
     Coalesce(row.requestId), f.text(row.createdAt)]
  }

  function Joined(texts: seq<string>): string {
    if texts == [] then "" else texts[0] + Joined(texts[1..])
  }

  lemma CoveredJoins(f: Functions, row: Row)
    ensures Covered(f, row) == Joined(Columns(f, row))
  {
    var t := Columns(f, row);
    assert Joined(t[8..]) == "";
    assert Joined(t[7..]) == t[7] + Joined(t[8..]);
    assert Joined(t[6..]) == t[6] + Joined(t[7..]);
    assert Joined(t[5..]) == t[5] + Joined(t[6..]);
    assert Joined(t[4..]) == t[4] + Joined(t[5..]);
    assert Joined(t[3..]) == t[3] + Joined(t[4..]);
    assert Joined(t[2..]) == t[2] + Joined(t[3..]);
    assert Joined(t[1..]) == t[1] + Joined(t[2..]);
    assert t[0..] == t;
  }

  lemma {:induction false} JoinedOneDiffers(a: seq<string>, b: seq<string>, k: nat)
    requires |a| == |b| && k < |a| && forall i :: 0 <= i < |a| && i != k ==> a[i] == b[i]
    ensures Joined(a) == Joined(b) <==> a[k] == b[k]
  {
    if k == 0 {
      assert a[1..] == b[1..];
      if Joined(a) == Joined(b) {
        assert |a[0]| == |b[0]|;
        assert a[0] == Joined(a)[..|a[0]|] == Joined(b)[..|b[0]|] == b[0];
      }
    } else {
      JoinedOneDiffers(a[1..], b[1..], k - 1);
      assert Joined(a[1..]) == Joined(a)[|a[0]|..] && Joined(b[1..]) == Joined(b)[|b[0]|..];
    }
  }

  /** Each of the eight columns is covered: a change of one of them alone is found, unless the digests collide. */
  lemma EveryColumnCounts(f: Functions, rows: seq<Row>, start: nat, k: nat, other: Row, column: nat)
    requires Chain(f, rows, start) && start <= k < |rows| && column < 8
    requires other.prevHash == rows[k].prevHash && other.eventHash == rows[k].eventHash
    requires forall i :: 0 <= i < 8 && i != column ==> Columns(f, other)[i] == Columns(f, rows[k])[i]
    requires Columns(f, other)[column] != Columns(f, rows[k])[column]
    ensures Chain(f, rows[k := other], start) <==> f.digest(Hashed(f, other)) == f.digest(Hashed(f, rows[k]))
    ensures Hashed(f, other) != Hashed(f, rows[k])
  {
    CoveredJoins(f, other);
    CoveredJoins(f, rows[k]);
    JoinedOneDiffers(Columns(f, other), Columns(f, rows[k]), column);
    CoveredChangeIsFound(f, rows, start, k, other);
    var p := Coalesce(other.prevHash);
    assert Covered(f, other) == Hashed(f, other)[|p|..] && Covered(f, rows[k]) == Hashed(f, rows[k])[|p|..];
  }

  lemma {:induction false} JoinedMoves(a: seq<string>, b: seq<string>, k: nat, text: string)
    requires |a| == |b| && k + 1 < |a| && forall i :: 0 <= i < |a| && i != k && i != k + 1 ==> a[i] == b[i]
    requires a[k] == b[k] + text && b[k + 1] == text + a[k + 1]
    ensures Joined(a) == Joined(b)
  {
    if k == 0 {
      assert a[1..][1..] == b[1..][1..];
      assert Joined(a) == a[0] + (a[1] + Joined(a[1..][1..]));
      assert Joined(b) == b[0] + (b[1] + Joined(b[1..][1..]));
    } else {
      JoinedMoves(a[1..], b[1..], k - 1, text);
    }
  }

  /** But the columns run together: text at the end of one may move to the start of the next, at every seam. */
  lemma TextMovesAtEverySeam(f: Functions, rows: seq<Row>, start: nat, k: nat, other: Row, column: nat, text: string)
    requires Chain(f, rows, start) && k < |rows| && column < 7
    requires other.prevHash == rows[k].prevHash && other.eventHash == rows[k].eventHash
    requires forall i :: 0 <= i < 8 && i != column && i != column + 1 ==> Columns(f, other)[i] == Columns(f, rows[k])[i]
    requires Columns(f, rows[k])[column] == Columns(f, other)[column] + text
    requires Columns(f, other)[column + 1] == text + Columns(f, rows[k])[column + 1]
    ensures Chain(f, rows[k := other], start)
  {
    CoveredJoins(f, other);
    CoveredJoins(f, rows[k]);
    JoinedMoves(Columns(f, rows[k]), Columns(f, other), column, text);
    ChainSeesOnlyCovered(f, rows, start, k, other);
  }
}
