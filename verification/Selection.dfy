/** Weighted least-connections selection, with exact reals for the scores. */
module Selection {

  datatype Status = Healthy | Degraded | Unhealthy | Offline

  /** What selection reads of a pool. */
  datatype Pool = Pool(weight: int, maxSessions: int, currentSessions: int, status: Status, responseMs: real)

  /** A pool that passed the capacity test; its counters are never negative. */
  predicate HasCapacity(p: Pool) {
    0 <= p.currentSessions < p.maxSessions
  }

  lemma QuotientBelowOne(x: real, y: real)
    requires 0.0 <= x < y
    ensures 0.0 <= x / y < 1.0 && (x > 0.0 ==> x / y > 0.0)
  {
    assert x == (x / y) * y;
  }

  lemma FactorsInRange(p: Pool)
    ensures HasCapacity(p) ==> 0.0 <= p.currentSessions as real / p.maxSessions as real < 1.0
    ensures p.responseMs > 0.0 ==> 0.0 < 1000.0 / (p.responseMs + 1000.0) < 1.0
  {
    if HasCapacity(p) {
      QuotientBelowOne(p.currentSessions as real, p.maxSessions as real);
    }
    if p.responseMs > 0.0 {
      QuotientBelowOne(1000.0, p.responseMs + 1000.0);
    }
  }

  lemma Factors(a: real, b: real, c: real, d: real)
    ensures a > 0.0 && b >= 0.0 && c > 0.0 && d > 0.0 ==> a * b * c * d >= 0.0
    ensures a > 0.0 && b > 0.0 && c > 0.0 && d > 0.0 ==> a * b * c * d > 0.0
  {
    if a > 0.0 && b >= 0.0 && c > 0.0 && d > 0.0 {
      assert a * b >= 0.0;
      assert (a * b) * c >= 0.0;
      assert (a * b * c) * d >= 0.0;
      if b > 0.0 {
        assert a * b > 0.0;
        assert (a * b) * c > 0.0;
        assert (a * b * c) * d > 0.0;
      }
    }
  }

  function Score(p: Pool): (s: real)
    ensures HasCapacity(p) && p.weight >= 0 && p.responseMs >= 0.0 ==> s >= 0.0
    ensures HasCapacity(p) && p.weight > 0 && p.responseMs >= 0.0 && p.status in {Healthy, Degraded} ==> s > 0.0
  {
    var utilization := if p.maxSessions > 0 then p.currentSessions as real / p.maxSessions as real else 1.0;
    var health := if p.status == Degraded then 0.7 else 1.0;
    var response := if p.responseMs > 0.0 then 1000.0 / (p.responseMs + 1000.0) else 1.0;
    FactorsInRange(p);
    Factors(1.0 - utilization, p.weight as real, health, response);
    (1.0 - utilization) * p.weight as real * health * response
  }

  // ---------------------------------------------------------------- what the score prefers

  lemma Regrouped(a: real, b: real, c: real, d: real)
    ensures a * b * c * d == a * (b * c * d) == b * (a * c * d) == c * (a * b * d) == d * (a * b * c)
  {
    assert a * b * c == a * (b * c) == b * (a * c) == c * (a * b);
  }

  lemma QuotientTimes(x: real, y: real)
    requires y != 0.0
    ensures x / y * y == x
  {
  }

  lemma FactorOut(u: real, m: real, c: real, k: real)
    requires u * m == c
    ensures ((1.0 - u) * k) * m == (m - c) * k
  {
    assert ((1.0 - u) * k) * m == (m - u * m) * k;
  }

  /** An idle healthy pool that answered at once scores its weight. */
  lemma IdleScore(p: Pool)
    requires p.maxSessions > 0 && p.currentSessions == 0 && p.status == Healthy && p.responseMs == 0.0
    ensures Score(p) == p.weight as real
  {
  }

  /** Sessions take from the score in proportion to the room they take. */
  lemma ScoreByRoom(p: Pool)
    requires p.maxSessions > 0
    ensures Score(p) * p.maxSessions as real
         == (p.maxSessions - p.currentSessions) as real * Score(p.(currentSessions := 0))
  {
    var health := if p.status == Degraded then 0.7 else 1.0;
    var response := if p.responseMs > 0.0 then 1000.0 / (p.responseMs + 1000.0) else 1.0;
    var u := p.currentSessions as real / p.maxSessions as real;
    var rest := p.weight as real * health * response;
    QuotientTimes(p.currentSessions as real, p.maxSessions as real);
    Regrouped(1.0 - u, p.weight as real, health, response);
    Regrouped(1.0, p.weight as real, health, response);
    FactorOut(u, p.maxSessions as real, p.currentSessions as real, rest);
    assert Score(p.(currentSessions := 0)) == rest;
  }

  lemma SwapFactors(a: real, b: real, k: real)
    ensures (a * k) * b == (b * k) * a
  {
  }

  /** The score is in proportion to the weight. */
  lemma ScoreByWeight(p: Pool, weight: int)
    ensures Score(p) * weight as real == Score(p.(weight := weight)) * p.weight as real
  {
    var u := if p.maxSessions > 0 then p.currentSessions as real / p.maxSessions as real else 1.0;
    var health := if p.status == Degraded then 0.7 else 1.0;
    var response := if p.responseMs > 0.0 then 1000.0 / (p.responseMs + 1000.0) else 1.0;
    Regrouped(1.0 - u, p.weight as real, health, response);
    Regrouped(1.0 - u, weight as real, health, response);
    SwapFactors(p.weight as real, weight as real, (1.0 - u) * health * response);
  }

  /** A degraded pool keeps seven tenths of its score. */
  lemma ScoreByHealth(p: Pool)
    ensures 10.0 * Score(p.(status := Degraded)) == 7.0 * Score(p.(status := Healthy))
  {
    var u := if p.maxSessions > 0 then p.currentSessions as real / p.maxSessions as real else 1.0;
    var response := if p.responseMs > 0.0 then 1000.0 / (p.responseMs + 1000.0) else 1.0;
    Regrouped(1.0 - u, p.weight as real, 0.7, response);
    Regrouped(1.0 - u, p.weight as real, 1.0, response);
  }

  lemma MoveFactor(rest: real, r: real, d: real, n: real)
    requires r * d == n
    ensures (rest * r) * d == n * rest
  {
    assert (rest * r) * d == rest * (r * d);
  }

  /** A pool that answered after one second keeps half of its score, after four a fifth. */
  lemma ScoreByResponse(p: Pool)
    requires p.responseMs > 0.0
    ensures Score(p) * (p.responseMs + 1000.0) == 1000.0 * Score(p.(responseMs := 0.0))
  {
    var u := if p.maxSessions > 0 then p.currentSessions as real / p.maxSessions as real else 1.0;
    var health := if p.status == Degraded then 0.7 else 1.0;
    var response := 1000.0 / (p.responseMs + 1000.0);
    var rest := (1.0 - u) * p.weight as real * health;
    QuotientTimes(1000.0, p.responseMs + 1000.0);
    assert Score(p) == rest * response;
    assert Score(p.(responseMs := 0.0)) == rest;
    MoveFactor(rest, response, p.responseMs + 1000.0, 1000.0);
  }

  lemma ProductOrder(a: real, b: real, s: real, x: real, y: real, m: real)
    requires s > 0.0 && m > 0.0 && x * m == a * s && y * m == b * s
    ensures x > y <==> a > b
  {
    if a > b {
      assert (a - b) * s > 0.0;
      assert (x - y) * m > 0.0;
    } else {
      assert (b - a) * s >= 0.0;
      assert (y - x) * m >= 0.0;
    }
  }

  /** Least connections: of two pools alike but for their sessions the one with fewer scores strictly more. */
  lemma FewerSessionsScoreMore(p: Pool, sessions: int)
    requires p.maxSessions > 0 && p.weight > 0 && p.responseMs >= 0.0 && p.status in {Healthy, Degraded}
    ensures Score(p) > Score(p.(currentSessions := sessions)) <==> p.currentSessions < sessions
  {
    var q := p.(currentSessions := sessions);
    ScoreByRoom(p);
    ScoreByRoom(q);
    var idle := Score(p.(currentSessions := 0));
    assert idle > 0.0;
    ProductOrder((p.maxSessions - p.currentSessions) as real, (p.maxSessions - sessions) as real, idle,
                 Score(p), Score(q), p.maxSessions as real);
  }

  // ---------------------------------------------------------------- ranking

  /** A pool's position in the list of available pools, with its score. */
  datatype Scored = Scored(index: nat, score: real)

  ghost predicate Descending(s: seq<Scored>) {
    forall i, j :: 0 <= i < j < |s| ==> s[i].score >= s[j].score
  }

  /** Put x before the first entry that does not score higher: list.sort(reverse=True) is stable. */
  function Insert(x: Scored, s: seq<Scored>): seq<Scored> {
    if s == [] || x.score >= s[0].score then [x] + s else [s[0]] + Insert(x, s[1..])
  }

  function Rank(s: seq<Scored>): seq<Scored> {
    if s == [] then [] else Insert(s[0], Rank(s[1..]))
  }

  lemma {:induction false} InsertKeepsAll(x: Scored, s: seq<Scored>)
    ensures multiset(Insert(x, s)) == multiset(s) + multiset{x}
  {
    if s != [] && x.score < s[0].score {
      InsertKeepsAll(x, s[1..]);
      assert s == [s[0]] + s[1..];
    }
  }

  lemma {:induction false} InsertBelow(x: Scored, s: seq<Scored>, bound: real)
    requires x.score <= bound && forall i :: 0 <= i < |s| ==> s[i].score <= bound
    ensures forall i :: 0 <= i < |Insert(x, s)| ==> Insert(x, s)[i].score <= bound
  {
    if s != [] && x.score < s[0].score {
      InsertBelow(x, s[1..], bound);
    }
  }

  lemma {:induction false} InsertDescends(x: Scored, s: seq<Scored>)
    requires Descending(s)
    ensures Descending(Insert(x, s))
  {
    if s != [] && x.score < s[0].score {
      InsertDescends(x, s[1..]);
      InsertBelow(x, s[1..], s[0].score);
    }
  }

  /** Ranking permutes the scored pools into descending order. */
  lemma {:induction false} RankSorts(s: seq<Scored>)
    ensures Descending(Rank(s)) && multiset(Rank(s)) == multiset(s) && |Rank(s)| == |s|
  {
    if s != [] {
      RankSorts(s[1..]);
      InsertKeepsAll(s[0], Rank(s[1..]));
      InsertDescends(s[0], Rank(s[1..]));
      assert s == [s[0]] + s[1..];
      assert |multiset(Rank(s))| == |multiset(s)|;
    }
  }

  function Top(s: seq<Scored>): seq<Scored> {
    if |s| <= 3 then s else s[..3]
  }

  /** Sum of the first n scores. */
  function Prefix(s: seq<Scored>, n: nat): real
    requires n <= |s|
  {
    if n == 0 then 0.0 else Prefix(s, n - 1) + s[n - 1].score
  }

  ghost predicate NonNegative(s: seq<Scored>) {
    forall i :: 0 <= i < |s| ==> s[i].score >= 0.0
  }

  lemma {:induction false} PrefixRises(s: seq<Scored>, m: nat, n: nat)
    requires m <= n <= |s| && forall i :: m <= i < n ==> s[i].score >= 0.0
    ensures Prefix(s, m) <= Prefix(s, n)
  {
    if m < n {
      PrefixRises(s, m, n - 1);
    }
  }

  // ---------------------------------------------------------------- the draw

  /** r lies in the interval of position i: above the sum before it and at most the sum up to it;
      the first interval also holds zero. */
  ghost predicate InInterval(s: seq<Scored>, i: nat, r: real)
    requires i < |s|
  {
    (if i == 0 then 0.0 <= r else Prefix(s, i) < r) && r <= Prefix(s, i + 1)
  }

  /** The intervals tile [0, total]: every r lies in one. */
  lemma {:induction false} IntervalsTile(s: seq<Scored>, n: nat, r: real) returns (i: nat)
    requires 0 < n <= |s| && 0.0 <= r <= Prefix(s, n)
    ensures i < n && InInterval(s, i, r)
    decreases n
  {
    if n == 1 || r > Prefix(s, n - 1) {
      i := n - 1;
    } else {
      i := IntervalsTile(s, n - 1, r);
    }
  }

  lemma IntervalsApart(s: seq<Scored>, i: nat, j: nat, r: real)
    requires Descending(s) && i < j < |s| && InInterval(s, j, r)
    ensures !InInterval(s, i, r)
  {
    assert s[j].score > 0.0;
    assert forall k :: i + 1 <= k < j ==> s[k].score >= s[j].score;
    PrefixRises(s, i + 1, j);
  }

  /** And in one only, even when some scores are negative: a negative score has an empty interval. */
  lemma IntervalsDisjoint(s: seq<Scored>, i: nat, j: nat, r: real)
    requires Descending(s) && i < |s| && j < |s| && InInterval(s, i, r) && InInterval(s, j, r)
    ensures i == j
  {
    if i < j {
      IntervalsApart(s, i, j, r);
    } else if j < i {
      IntervalsApart(s, j, i, r);
    }
  }

  /** An interval is as long as its score. */
  lemma IntervalLength(s: seq<Scored>, i: nat)
    requires i < |s|
    ensures Prefix(s, i + 1) - Prefix(s, i) == s[i].score
  {
  }

  lemma {:induction false} NothingAbove(s: seq<Scored>, n: nat)
    requires Descending(s) && n <= |s| && |s| > 0 && s[0].score <= 0.0
    ensures Prefix(s, n) <= 0.0
  {
    if n > 0 {
      NothingAbove(s, n - 1);
      assert s[0].score >= s[n - 1].score;
    }
  }

  /** With a positive total, a pool whose score is not positive is never drawn. */
  lemma ZeroNeverDrawn(s: seq<Scored>, i: nat, r: real)
    requires Descending(s) && i < |s| && Prefix(s, |s|) > 0.0
    requires InInterval(s, i, r)
    ensures s[i].score > 0.0
  {
    if i == 0 && s[0].score <= 0.0 {
      NothingAbove(s, |s|);
      assert false;
    }
  }

  /** The loop passes every position whose sum is below r, and stops; past the end it returns the last. */
  ghost predicate StopsAt(top: seq<Scored>, r: real, k: nat)
    requires k < |top|
  {
    && (forall n :: 1 <= n <= k ==> Prefix(top, n) < r)
    && (r <= Prefix(top, k + 1) || k == |top| - 1)
  }

  /** The accumulating loop over the top pools with a drawn r. When r lies in [0, total] it stops at the
      one position whose interval holds r, so the fall-through after the loop is never reached. */
  method Draw(top: seq<Scored>, r: real) returns (chosen: nat)
    requires top != []
    ensures chosen < |top| && StopsAt(top, r, chosen)
    ensures Descending(top) && 0.0 <= r <= Prefix(top, |top|) ==>
      forall i :: 0 <= i < |top| ==> (InInterval(top, i, r) <==> i == chosen)
  {
    var cumulative := 0.0;
    for index := 0 to |top|
      invariant cumulative == Prefix(top, index)
      invariant forall n :: 1 <= n <= index ==> Prefix(top, n) < r
    {
      cumulative := cumulative + top[index].score;
      if r <= cumulative {
        if Descending(top) && 0.0 <= r {
          assert InInterval(top, index, r);
          forall i | 0 <= i < |top| && InInterval(top, i, r) ensures i == index {
            IntervalsDisjoint(top, i, index, r);
          }
        }
        return index;
      }
    }
    return |top| - 1;
  }

  /** The scores of the available pools, in their order. */
  function Scores(pools: seq<Pool>): (s: seq<Scored>)
    ensures |s| == |pools| && forall i :: 0 <= i < |s| ==> s[i] == Scored(i, Score(pools[i]))
  {
    seq(|pools|, i requires 0 <= i < |pools| => Scored(i, Score(pools[i])))
  }

  ghost predicate Selectable(pools: seq<Pool>) {
    forall i :: 0 <= i < |pools| ==> HasCapacity(pools[i]) && pools[i].weight >= 0 && pools[i].responseMs >= 0.0
  }

  /** What random.uniform(0, total) returns: a number between 0 and the total, whatever its sign. */
  ghost predicate IsUniformDraw(uniform: real -> real) {
    forall total :: if total >= 0.0 then 0.0 <= uniform(total) <= total else total <= uniform(total) <= 0.0
  }

  /** The pool at `selected` holds rank k among the top three. */
  ghost predicate RanksAt(pools: seq<Pool>, selected: nat, k: nat) {
    var top := Top(Rank(Scores(pools)));
    selected < |pools| && k < |top| && top[k] == Scored(selected, Score(pools[selected]))
  }

  /** Rank k was drawn: by its interval when the total is positive, by random.choice when it is zero. A
      negative total, which takes a negative weight, leaves what the loop makes of the number drawn. */
  ghost predicate DrawnRank(top: seq<Scored>, k: nat, uniform: real -> real, pick: nat)
    requires k < |top|
  {
    var total := Prefix(top, |top|);
    if total == 0.0 then k == pick % |top|
    else if total > 0.0 then forall i :: 0 <= i < |top| ==> (InInterval(top, i, uniform(total)) <==> i == k)
    else StopsAt(top, uniform(total), k)
  }

  /** The pool at `selected` holds rank k among the top three, and rank k was drawn. */
  ghost predicate SelectedBy(pools: seq<Pool>, selected: nat, k: nat, uniform: real -> real, pick: nat) {
    RanksAt(pools, selected, k) && DrawnRank(Top(Rank(Scores(pools))), k, uniform, pick)
  }

  method DrawRank(top: seq<Scored>, uniform: real -> real, pick: nat) returns (k: nat)
    requires top != [] && Descending(top) && IsUniformDraw(uniform)
    ensures k < |top| && DrawnRank(top, k, uniform, pick)
  {
    var total := Prefix(top, |top|);
    if total == 0.0 {
      return pick % |top|;
    }
    k := Draw(top, uniform(total));
  }

  /** Every ranked entry is a pool with its own score, the best first; no score of a pool with capacity
      and a non-negative weight is negative. */
  lemma RankedScores(pools: seq<Pool>)
    ensures var ranked := Rank(Scores(pools));
      && |ranked| == |pools| && Descending(ranked) && (Selectable(pools) ==> NonNegative(ranked))
      && forall i :: 0 <= i < |ranked| ==>
           ranked[i].index < |pools| && ranked[i] == Scored(ranked[i].index, Score(pools[ranked[i].index]))
  {
    var s := Scores(pools);
    RankSorts(s);
    var ranked := Rank(s);
    forall i | 0 <= i < |ranked|
      ensures ranked[i].index < |pools| && ranked[i] == Scored(ranked[i].index, Score(pools[ranked[i].index]))
    {
      assert ranked[i] in multiset(ranked);
      assert ranked[i] in multiset(s);
    }
  }

  /** _select_weighted_pool: the position of the selected pool. `uniform(total)` is what
      random.uniform(0, total) draws, and `pick` what random.choice draws. */
  method SelectWeighted(pools: seq<Pool>, uniform: real -> real, pick: nat) returns (found: bool, selected: nat)
    requires IsUniformDraw(uniform)
    ensures found <==> pools != []
    ensures found ==> exists k :: SelectedBy(pools, selected, k, uniform, pick)
  {
    if pools == [] {
      return false, 0;
    }
    var top := Top(Rank(Scores(pools)));
    RankedScores(pools);
    var k := DrawRank(top, uniform, pick);
    assert SelectedBy(pools, top[k].index, k, uniform, pick);
    return true, top[k].index;
  }

  /** With positive weights every available pool can be drawn: its score is positive, so its interval is not
      empty once it ranks among the top three. */
  lemma PositiveWeightsDrawable(pools: seq<Pool>, k: nat)
    requires Selectable(pools) && pools != []
    requires forall i :: 0 <= i < |pools| ==> pools[i].weight > 0 && pools[i].status in {Healthy, Degraded}
    requires k < |Top(Rank(Scores(pools)))|
    ensures var top := Top(Rank(Scores(pools)));
      Prefix(top, k) < Prefix(top, k + 1) <= Prefix(top, |top|)
  {
    RankedScores(pools);
    var top := Top(Rank(Scores(pools)));
    assert top[k].score == Score(pools[top[k].index]);
    PrefixRises(top, k + 1, |top|);
    PrefixRises(top, 0, k);
  }

  /** Of such pools the scores are never negative, so the total is zero only if every score is. */
  lemma {:induction false} ZeroTotal(s: seq<Scored>, n: nat)
    requires NonNegative(s) && n <= |s|
    ensures Prefix(s, n) >= 0.0
    ensures Prefix(s, n) == 0.0 <==> forall i :: 0 <= i < n ==> s[i].score == 0.0
  {
    if n > 0 {
      ZeroTotal(s, n - 1);
    }
  }

  /** Three candidates are kept, or all if there are fewer: the best ones. */
  lemma TopIsThree(ranked: seq<Scored>)
    ensures Top(ranked) <= ranked && |Top(ranked)| == if |ranked| < 3 then |ranked| else 3
  {
  }

  /** Pools that score alike keep the order of the list. */
  ghost predicate TiesInOrder(s: seq<Scored>) {
    forall i, j :: 0 <= i < j < |s| && s[i].score == s[j].score ==> s[i].index < s[j].index
  }

  lemma {:induction false} InsertKeepsTies(x: Scored, s: seq<Scored>)
    requires Descending(s) && TiesInOrder(s) && forall i :: 0 <= i < |s| ==> x.index < s[i].index
    ensures TiesInOrder(Insert(x, s))
  {
    if s != [] && x.score < s[0].score {
      InsertKeepsTies(x, s[1..]);
      InsertBelow(x, s[1..], s[0].score);
      var rest := Insert(x, s[1..]);
      forall j | 0 <= j < |rest| && rest[j].score == s[0].score ensures s[0].index < rest[j].index {
        InsertKeepsAll(x, s[1..]);
        assert rest[j] in multiset(rest);
        assert rest[j] in multiset(s[1..]);
      }
    }
  }

  lemma {:induction false} RankKeepsTies(s: seq<Scored>)
    requires forall i, j :: 0 <= i < j < |s| ==> s[i].index < s[j].index
    ensures TiesInOrder(Rank(s))
  {
    if s != [] {
      RankKeepsTies(s[1..]);
      RankSorts(s[1..]);
      var rest := Rank(s[1..]);
      forall i | 0 <= i < |rest| ensures s[0].index < rest[i].index {
        assert rest[i] in multiset(rest);
        assert rest[i] in multiset(s[1..]);
      }
      InsertKeepsTies(s[0], rest);
    }
  }

  /** The sort is stable. */
  lemma RankedInOrder(pools: seq<Pool>)
    ensures TiesInOrder(Rank(Scores(pools)))
  {
    RankKeepsTies(Scores(pools));
  }

  /** When the total is positive every rank with a positive score is drawn by some number. */
  lemma PositiveRankDrawable(top: seq<Scored>, k: nat)
    requires Descending(top) && k < |top| && Prefix(top, |top|) > 0.0 && top[k].score > 0.0
    ensures DrawnRank(top, k, _ => Prefix(top, k + 1), 0)
  {
    var r := Prefix(top, k + 1);
    PrefixRises(top, 0, k);
    assert InInterval(top, k, r);
    hide InInterval, Prefix;
    forall i | 0 <= i < |top| && InInterval(top, i, r) ensures i == k {
      IntervalsDisjoint(top, i, k, r);
    }
  }

  /** When it is zero every rank is drawn by some choice. */
  lemma EveryRankChosen(top: seq<Scored>, k: nat, uniform: real -> real)
    requires k < |top| && Prefix(top, |top|) == 0.0
    ensures DrawnRank(top, k, uniform, k)
  {
  }

  lemma RankOfTwo(a: Pool, b: Pool)
    requires Score(b) > Score(a)
    ensures Rank(Scores([a, b])) == [Scored(1, Score(b)), Scored(0, Score(a))]
  {
    var s := Scores([a, b]);
    assert s == [Scored(0, Score(a)), Scored(1, Score(b))];
    assert s[1..] == [s[1]] && s[1..][1..] == [];
    assert Rank(s[1..]) == [s[1]];
    assert [s[1]][1..] == [] && Insert(s[0], []) == [s[0]];
    assert Rank(s) == Insert(s[0], [s[1]]) == [s[1]] + [s[0]];
  }

  /** Of two pools the better one is drawn at half the total, wherever it stands in the list. */
  lemma HalfDrawPicksBetter(a: Pool, b: Pool, pick: nat)
    requires Score(b) > Score(a) >= 0.0
    ensures SelectedBy([a, b], 1, 0, total => total / 2.0, pick)
  {
    RankOfTwo(a, b);
    var top := Top(Rank(Scores([a, b])));
    assert Prefix(top, 1) == Score(b) && Prefix(top, 2) == Score(b) + Score(a);
    assert InInterval(top, 0, Prefix(top, 2) / 2.0);
    assert !InInterval(top, 1, Prefix(top, 2) / 2.0);
  }

  /** Fewer than three pools score strictly higher than any pool among the top ones. */
  lemma TopHasFewAbove(ranked: seq<Scored>, k: nat, j: nat)
    requires Descending(ranked) && k < |Top(ranked)| && j < |ranked| && ranked[j].score > ranked[k].score
    ensures j < k <= 2
  {
  }

  /** A pool whose score is zero is selected only when no pool scores higher. */
  lemma ZeroSelected(pools: seq<Pool>, selected: nat, k: nat, uniform: real -> real, pick: nat)
    requires Selectable(pools) && IsUniformDraw(uniform) && SelectedBy(pools, selected, k, uniform, pick)
    requires Score(pools[selected]) == 0.0
    ensures Rank(Scores(pools))[0].score == 0.0
  {
    RankedScores(pools);
    var top := Top(Rank(Scores(pools)));
    ZeroTotal(top, |top|);
    var total := Prefix(top, |top|);
    if total > 0.0 {
      ZeroNeverDrawn(top, k, uniform(total));
    }
    assert top[0].score == 0.0;
  }

  lemma RankedFirst(pools: seq<Pool>, j: nat)
    requires j < |pools|
    ensures |Rank(Scores(pools))| == |pools| && Score(pools[j]) <= Rank(Scores(pools))[0].score
  {
    var s := Scores(pools);
    RankSorts(s);
    assert s[j] in multiset(s);
    assert s[j] in multiset(Rank(s));
  }

  /** With Healthy and Degraded pools, weight zero is selected only among pools of weight zero. */
  lemma ZeroChosenAmongZeros(pools: seq<Pool>, selected: nat, k: nat, uniform: real -> real, pick: nat, j: nat)
    requires Selectable(pools) && IsUniformDraw(uniform) && SelectedBy(pools, selected, k, uniform, pick)
    requires pools[selected].weight == 0 && j < |pools| && pools[j].status in {Healthy, Degraded}
    ensures pools[j].weight == 0
  {
    assert Score(pools[selected]) == 0.0;
    ZeroSelected(pools, selected, k, uniform, pick);
    RankedFirst(pools, j);
  }
}
