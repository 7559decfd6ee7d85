/** The rank tiers and the threshold table that derives a user's rank from
    the user's score. */
module RankService {

  /** The five tiers, from lowest to highest. */
  datatype Rank = Incompetent | Beginner | Specialist | Expert | Master

  /** Position of a tier in the order incompetent < beginner < ... < master. */
  function Level(r: Rank): nat {
    match r
    case Incompetent => 0
    case Beginner => 1
    case Specialist => 2
    case Expert => 3
    case Master => 4
  }

  /** Inclusive lower score bound of each tier, in ascending order. */
  const RankThreshold: seq<(int, Rank)> :=
    [(0, Incompetent), (10, Beginner), (20, Specialist), (30, Expert), (40, Master)]

  /** Scans `ts[..n]` from its last entry towards its first and returns the
      tier of the first entry whose threshold the score reaches, or
      `Incompetent` when it reaches none. */
  function ScanDown(ts: seq<(int, Rank)>, n: nat, score: int): (r: Rank)
    requires n <= |ts|
    ensures || (exists k :: 0 <= k < n && ts[k].0 <= score && r == ts[k].1)
            || (r == Incompetent && forall k :: 0 <= k < n ==> score < ts[k].0)
  {
    if n == 0 then Incompetent
    else if score >= ts[n - 1].0 then ts[n - 1].1
    else ScanDown(ts, n - 1, score)
  }

  /** The rank a score earns: the scan over the reversed threshold table.
      It is the tier of some threshold the score reaches, or `Incompetent`
      when the score reaches none. */
  function RankForScore(score: int): (r: Rank)
    ensures || (exists k :: 0 <= k < |RankThreshold| && RankThreshold[k].0 <= score && r == RankThreshold[k].1)
            || (r == Incompetent && score < 0)
  {
    assert RankThreshold[0].0 == 0;
    ScanDown(RankThreshold, |RankThreshold|, score)
  }

  /** The downward scan returns the tier of the LAST entry of `ts[..n]` whose
      threshold the score reaches. */
  lemma {:induction false} ScanDownFindsLastReached(ts: seq<(int, Rank)>, n: nat, score: int, k: nat)
    requires k < n <= |ts|
    requires ts[k].0 <= score
    requires forall j :: k < j < n ==> score < ts[j].0
    ensures ScanDown(ts, n, score) == ts[k].1
  {
    if k < n - 1 {
      ScanDownFindsLastReached(ts, n - 1, score, k);
    }
  }

  /** When the score reaches no threshold of `ts[..n]`, the scan falls back to
      the lowest tier. */
  lemma {:induction false} ScanDownNoneReached(ts: seq<(int, Rank)>, n: nat, score: int)
    requires n <= |ts|
    requires forall j :: 0 <= j < n ==> score < ts[j].0
    ensures ScanDown(ts, n, score) == Incompetent
  {
    if n > 0 {
      ScanDownNoneReached(ts, n - 1, score);
    }
  }

  /** Index in the threshold table of the greatest threshold at most `score`. */
  function ReachedIndex(score: int): nat
    requires score >= 0
  {
    if score >= 40 then 4 else if score >= 30 then 3 else if score >= 20 then 2
    else if score >= 10 then 1 else 0
  }

  /** The rank is the tier of the greatest threshold that is at most the
      score; when no threshold is reached (a negative score) it is the lowest tier. */
  lemma RankIsGreatestReachedThreshold(score: int)
    ensures score < 0 ==> RankForScore(score) == Incompetent
    ensures score >= 0 ==>
      var k := ReachedIndex(score);
      && k < |RankThreshold| && RankThreshold[k].0 <= score
      && (forall j :: 0 <= j < |RankThreshold| && RankThreshold[j].0 <= score ==> RankThreshold[j].0 <= RankThreshold[k].0)
      && RankForScore(score) == RankThreshold[k].1
  {
    var ts := RankThreshold;
    if score < 0 {
      ScanDownNoneReached(ts, |ts|, score);
    } else {
      ScanDownFindsLastReached(ts, |ts|, score, ReachedIndex(score));
    }
  }

  /** The five-tier table, boundary by boundary, in both directions; every
      score below 10, negatives included, is `Incompetent`. */
  lemma RankTiers(score: int)
    ensures RankForScore(score) == Master <==> 40 <= score
    ensures RankForScore(score) == Expert <==> 30 <= score < 40
    ensures RankForScore(score) == Specialist <==> 20 <= score < 30
    ensures RankForScore(score) == Beginner <==> 10 <= score < 20
    ensures RankForScore(score) == Incompetent <==> score < 10
  {
    RankIsGreatestReachedThreshold(score);
  }

  /** A higher score never earns a lower tier. */
  lemma RankMonotone(a: int, b: int)
    requires a <= b
    ensures Level(RankForScore(a)) <= Level(RankForScore(b))
  {
    RankTiers(a);
    RankTiers(b);
  }
}
