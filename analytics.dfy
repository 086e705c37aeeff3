/** The integer parts of the reply analytics over the logged records:
    counts, distinct categories and intents, the most common of each, the
    shortest and longest reply, and the short/medium/long buckets. The same
    two functions are defined twice in the repository, once in each of two
    modules; this is the one model of both. */
module Analytics {
  import opened Wrappers

  /** The three columns the analytics read. */
  datatype ReplyRecord = ReplyRecord(category: string, intent: string, reply: string)

  datatype ReplyStatistics = ReplyStatistics(
    totalReplies: nat,
    uniqueCategories: nat,
    uniqueIntents: nat,
    mostCommonCategory: string,
    mostCommonIntent: string)

  datatype QualityMetrics = QualityMetrics(
    minLength: nat,
    maxLength: nat,
    shortReplies: nat,
    mediumReplies: nat,
    longReplies: nat)

  const ShortBelow := 50
  const LongFrom := 200

  function Categories(records: seq<ReplyRecord>): (xs: seq<string>)
    ensures |xs| == |records| && forall i :: 0 <= i < |records| ==> xs[i] == records[i].category
  {
    seq(|records|, i requires 0 <= i < |records| => records[i].category)
  }

  function Intents(records: seq<ReplyRecord>): (xs: seq<string>)
    ensures |xs| == |records| && forall i :: 0 <= i < |records| ==> xs[i] == records[i].intent
  {
    seq(|records|, i requires 0 <= i < |records| => records[i].intent)
  }

  /** `df['reply'].str.len()`. */
  function Lengths(records: seq<ReplyRecord>): (ls: seq<nat>)
    ensures |ls| == |records| && forall i :: 0 <= i < |records| ==> ls[i] == |records[i].reply|
  {
    seq(|records|, i requires 0 <= i < |records| => |records[i].reply|)
  }

  // ---------------------------------------------------------------------
  // Column operations

  /** The values of a column, without repetition. */
  function Distinct(xs: seq<string>): set<string> {
    set x | x in xs
  }

  /** `column.nunique()`. */
  function NUnique(xs: seq<string>): nat {
    |Distinct(xs)|
  }

  function Count(xs: seq<string>, v: string): nat {
    multiset(xs)[v]
  }

  /** Python's ordering of strings: by code point, a prefix first. */
  predicate StrLe(a: string, b: string) {
    a == [] || (b != [] && (a[0] < b[0] || (a[0] == b[0] && StrLe(a[1..], b[1..]))))
  }

  /** `v` comes before `best` in the ranking `mode()` sorts by: a higher
      count, or the same count and a smaller value. */
  predicate Ranks(xs: seq<string>, v: string, best: string) {
    Count(xs, v) > Count(xs, best) || (Count(xs, v) == Count(xs, best) && StrLe(v, best))
  }

  /** The best of `xs[i..]` and `best` in that ranking. */
  function Pick(xs: seq<string>, i: nat, best: string): string
    requires i <= |xs|
    decreases |xs| - i
  {
    if i == |xs| then best
    else Pick(xs, i + 1, if Ranks(xs, xs[i], best) then xs[i] else best)
  }

  /** `column.mode().iloc[0]`: the smallest of the most frequent values;
      `None` for an empty column, where `mode()` is empty. */
  function Mode(xs: seq<string>): Option<string> {
    if xs == [] then None else Some(Pick(xs, 1, xs[0]))
  }

  /** `m` is the first value `mode()` lists: it occurs, no value occurs
      more often, and every value that occurs as often is not smaller. */
  predicate IsFirstMode(xs: seq<string>, m: string) {
    && m in xs
    && (forall v :: v in xs ==> Count(xs, v) <= Count(xs, m))
    && (forall v :: v in xs && Count(xs, v) == Count(xs, m) ==> StrLe(m, v))
  }

  function MinOf(ls: seq<nat>): (m: nat)
    requires ls != []
    ensures m in ls && forall i :: 0 <= i < |ls| ==> m <= ls[i]
  {
    if |ls| == 1 then ls[0]
    else
      var rest := MinOf(ls[1..]);
      assert rest in ls;
      if ls[0] <= rest then ls[0] else rest
  }

  function MaxOf(ls: seq<nat>): (m: nat)
    requires ls != []
    ensures m in ls && forall i :: 0 <= i < |ls| ==> ls[i] <= m
  {
    if |ls| == 1 then ls[0]
    else
      var rest := MaxOf(ls[1..]);
      assert rest in ls;
      if ls[0] >= rest then ls[0] else rest
  }

  /** `len(lengths[(lengths >= lo) & (lengths < hi)])`, with no upper bound
      when `hi` is `None`. */
  function CountBetween(ls: seq<nat>, lo: nat, hi: Option<nat>): nat {
    if ls == [] then 0
    else (if lo <= ls[0] && (hi.None? || ls[0] < hi.value) then 1 else 0) + CountBetween(ls[1..], lo, hi)
  }

  // ---------------------------------------------------------------------
  // The two analytics

  /** `get_reply_statistics(df)`, without the mean length; `None` is the
      empty dictionary returned for an empty frame. */
  function GetReplyStatistics(records: seq<ReplyRecord>): Option<ReplyStatistics> {
    if records == [] then None
    else
      var cs := Categories(records);
      var ins := Intents(records);
      Some(ReplyStatistics(
        |records|,
        NUnique(cs),
        NUnique(ins),
        match Mode(cs) case Some(m) => m case None => "None",
        match Mode(ins) case Some(m) => m case None => "None"))
  }

  /** `analyze_reply_quality(df)`, without the mean and the standard
      deviation; `None` is the empty dictionary. */
  function AnalyzeReplyQuality(records: seq<ReplyRecord>): Option<QualityMetrics> {
    if records == [] then None
    else
      var ls := Lengths(records);
      Some(QualityMetrics(
        MinOf(ls),
        MaxOf(ls),
        CountBetween(ls, 0, Some(ShortBelow)),
        CountBetween(ls, ShortBelow, Some(LongFrom)),
        CountBetween(ls, LongFrom, None)))
  }

  // ---------------------------------------------------------------------
  // Properties of the analytics

  /** Both analytics give the empty dictionary for no records and a result
      otherwise. */
  lemma {:induction false} EmptyGivesNothing(records: seq<ReplyRecord>)
    ensures GetReplyStatistics(records).None? <==> records == []
    ensures AnalyzeReplyQuality(records).None? <==> records == []
  {
  }

  lemma {:induction false} DistinctBounded(xs: seq<string>)
    ensures NUnique(xs) <= |xs|
    ensures xs != [] ==> 1 <= NUnique(xs)
  {
    if xs != [] {
      DistinctBounded(xs[1..]);
      assert Distinct(xs) == Distinct(xs[1..]) + {xs[0]} by {
        forall x | x in Distinct(xs)
          ensures x in Distinct(xs[1..]) + {xs[0]}
        {
          var i :| 0 <= i < |xs| && xs[i] == x;
          if i > 0 {
            assert xs[1..][i - 1] == x;
          }
        }
      }
      assert xs[0] in Distinct(xs);
    }
  }

  /** `total_replies` is the number of records, and there are at least one
      and at most that many distinct categories and distinct intents. */
  lemma {:induction false} StatisticsCounts(records: seq<ReplyRecord>)
    requires records != []
    ensures var s := GetReplyStatistics(records).value;
            && s.totalReplies == |records|
            && 1 <= s.uniqueCategories <= s.totalReplies
            && 1 <= s.uniqueIntents <= s.totalReplies
  {
    DistinctBounded(Categories(records));
    DistinctBounded(Intents(records));
  }

  lemma {:induction false} StrLeTotal(a: string, b: string)
    ensures StrLe(a, b) || StrLe(b, a)
    decreases |a|
  {
    if a != [] && b != [] && a[0] == b[0] {
      StrLeTotal(a[1..], b[1..]);
    }
  }

  lemma {:induction false} StrLeTransitive(a: string, b: string, c: string)
    requires StrLe(a, b) && StrLe(b, c)
    ensures StrLe(a, c)
    decreases |a|
  {
    if a != [] && a[0] == b[0] && b[0] == c[0] {
      StrLeTransitive(a[1..], b[1..], c[1..]);
    }
  }

  /** Everything in `xs[..i]` and `best` is ranked no higher than `best`. */
  predicate Dominates(xs: seq<string>, i: nat, best: string)
    requires i <= |xs|
  {
    best in xs && forall j :: 0 <= j < i ==> Ranks(xs, best, xs[j])
  }

  lemma {:induction false} PickDominates(xs: seq<string>, i: nat, best: string)
    requires i <= |xs| && Dominates(xs, i, best)
    ensures Dominates(xs, |xs|, Pick(xs, i, best))
    decreases |xs| - i
  {
    if i < |xs| {
      var v := xs[i];
      var next := if Ranks(xs, v, best) then v else best;
      if Ranks(xs, v, best) {
        StrLeTotal(v, v);
        forall j | 0 <= j < i
          ensures Ranks(xs, v, xs[j])
        {
          if Count(xs, v) == Count(xs, xs[j]) {
            StrLeTransitive(v, best, xs[j]);
          }
        }
      } else {
        StrLeTotal(v, best);
      }
      PickDominates(xs, i + 1, next);
    }
  }

  /** The most common category and intent are each a value of highest count
      in their column, the smallest among equally common values. */
  lemma {:induction false} ModeIsFirstMode(xs: seq<string>)
    requires xs != []
    ensures Mode(xs).Some? && IsFirstMode(xs, Mode(xs).value)
  {
    StrLeTotal(xs[0], xs[0]);
    PickDominates(xs, 1, xs[0]);
    var m := Mode(xs).value;
    forall v | v in xs
      ensures Count(xs, v) <= Count(xs, m)
      ensures Count(xs, v) == Count(xs, m) ==> StrLe(m, v)
    {
      var j :| 0 <= j < |xs| && xs[j] == v;
      assert Ranks(xs, m, xs[j]);
    }
  }

  lemma {:induction false} StatisticsModes(records: seq<ReplyRecord>)
    requires records != []
    ensures IsFirstMode(Categories(records), GetReplyStatistics(records).value.mostCommonCategory)
    ensures IsFirstMode(Intents(records), GetReplyStatistics(records).value.mostCommonIntent)
  {
    ModeIsFirstMode(Categories(records));
    ModeIsFirstMode(Intents(records));
  }

  lemma {:induction false} BucketsPartition(ls: seq<nat>)
    ensures CountBetween(ls, 0, Some(ShortBelow)) + CountBetween(ls, ShortBelow, Some(LongFrom))
            + CountBetween(ls, LongFrom, None) == |ls|
  {
    if ls != [] {
      BucketsPartition(ls[1..]);
    }
  }

  /** The short, medium and long counts split the replies between them,
      and the shortest reply is no longer than the longest, both being the
      length of some reply. */
  lemma {:induction false} QualityBounds(records: seq<ReplyRecord>)
    requires records != []
    ensures var q := AnalyzeReplyQuality(records).value;
            && q.shortReplies + q.mediumReplies + q.longReplies == |records|
            && q.minLength <= q.maxLength
            && (exists i :: 0 <= i < |records| && |records[i].reply| == q.minLength)
            && (exists i :: 0 <= i < |records| && |records[i].reply| == q.maxLength)
            && (forall i :: 0 <= i < |records| ==> q.minLength <= |records[i].reply| <= q.maxLength)
  {
    var ls := Lengths(records);
    BucketsPartition(ls);
    var lo := MinOf(ls);
    var hi := MaxOf(ls);
    var i :| 0 <= i < |ls| && ls[i] == lo;
    var j :| 0 <= j < |ls| && ls[j] == hi;
    assert |records[i].reply| == lo && |records[j].reply| == hi;
  }
}
