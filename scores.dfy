// Score sheets: the Student and SubjectScore records, the fixed list of
// tracked subjects, the sum of a sheet's scores, and the two loops of the
// handlers that build and rewrite a sheet (insertUser's synthesis of random
// scores and EditStudent's merge of the request's scores followed by the
// recomputation of the total).
//
// Scores are float64 in the source. Every value insertUser stores is
// integral (rand.Intn(101) and sums of such); EditStudent stores the
// request's scores as they arrive, which the model takes to be integers too.
// So they are `int` here.

module Scores {

  datatype SubjectScore = SubjectScore(subject: string, score: int)

  datatype Student = Student(
    name: string,
    studentId: string,
    scores: map<string, SubjectScore>,
    scoresTotal: int)

  type Sheet = map<string, SubjectScore>

  /** The tracked subjects, in the order insertUser visits them. */
  const Subjects: seq<string> := ["chinese", "english", "math"]

  const MaxScore: int := 100

  ghost predicate IsTracked(s: string) {
    s in Subjects
  }

  /** The sheet insertUser builds: one entry per tracked subject, each entry
      naming its own key, each score in [0, 100]. */
  ghost predicate IsScoreSheet(m: Sheet) {
    && (forall k :: k in m <==> IsTracked(k))
    && (forall k :: k in m ==> m[k].subject == k && 0 <= m[k].score <= MaxScore)
  }

  // ---------------------------------------------------------------------
  // Sums

  /** The sum of the scores stored under `keys`, whatever order the keys are
      visited in (Go's map iteration order is unspecified). */
  ghost function SumOver(m: Sheet, keys: set<string>): (sum: int)
    requires keys <= m.Keys
    decreases keys
  {
    if keys == {} then 0
    else
      var k :| k in keys;
      m[k].score + SumOver(m, keys - {k})
  }

  /** The sum of every score in the sheet. */
  ghost function Total(m: Sheet): (total: int) {
    SumOver(m, m.Keys)
  }

  /** The sum may be split off at any key, not only the one SumOver picks. */
  lemma {:induction false} SumOverRemove(m: Sheet, keys: set<string>, k: string)
    requires keys <= m.Keys && k in keys
    ensures SumOver(m, keys) == m[k].score + SumOver(m, keys - {k})
    decreases keys
  {
    var j :| j in keys && SumOver(m, keys) == m[j].score + SumOver(m, keys - {j});
    if j != k {
      SumOverRemove(m, keys - {j}, k);
      SumOverRemove(m, keys - {k}, j);
      assert keys - {j} - {k} == keys - {k} - {j};
    }
  }

  /** The sum over the union of two disjoint key sets is the sum of the sums. */
  lemma {:induction false} SumOverSplit(m: Sheet, a: set<string>, b: set<string>)
    requires a <= m.Keys && b <= m.Keys && a !! b
    ensures SumOver(m, a + b) == SumOver(m, a) + SumOver(m, b)
    decreases a
  {
    if a != {} {
      var k :| k in a;
      SumOverRemove(m, a, k);
      SumOverRemove(m, a + b, k);
      assert (a + b) - {k} == (a - {k}) + b;
      SumOverSplit(m, a - {k}, b);
    } else {
      assert a + b == b;
    }
  }

  /** Two sheets that agree on the scores under `keys` agree on their sum. */
  lemma {:induction false} SumOverAgree(m1: Sheet, m2: Sheet, keys: set<string>)
    requires keys <= m1.Keys && keys <= m2.Keys
    requires forall k :: k in keys ==> m1[k].score == m2[k].score
    ensures SumOver(m1, keys) == SumOver(m2, keys)
    decreases keys
  {
    if keys != {} {
      var k :| k in keys;
      SumOverRemove(m1, keys, k);
      SumOverRemove(m2, keys, k);
      SumOverAgree(m1, m2, keys - {k});
    }
  }

  /** Adding an entry under a new key adds its score to the total. */
  lemma TotalInsert(m: Sheet, k: string, v: SubjectScore)
    requires k !in m
    ensures Total(m[k := v]) == v.score + Total(m)
  {
    var m' := m[k := v];
    SumOverRemove(m', m'.Keys, k);
    assert m'.Keys - {k} == m.Keys;
    SumOverAgree(m', m, m.Keys);
  }

  /** Each score in [0, 100] bounds the total by 100 times the entry count. */
  lemma {:induction false} SumOverBounds(m: Sheet, keys: set<string>)
    requires keys <= m.Keys
    requires forall k :: k in keys ==> 0 <= m[k].score <= MaxScore
    ensures 0 <= SumOver(m, keys) <= MaxScore * |keys|
    decreases keys
  {
    if keys != {} {
      var k :| k in keys;
      SumOverRemove(m, keys, k);
      SumOverBounds(m, keys - {k});
    }
  }

  /** A synthesized sheet has a total in [0, 300]. */
  lemma ScoreSheetTotalBounds(m: Sheet)
    requires IsScoreSheet(m)
    ensures 0 <= Total(m) <= MaxScore * |Subjects|
  {
    assert m.Keys == {"chinese", "english", "math"};
    SumOverBounds(m, m.Keys);
  }

  // ---------------------------------------------------------------------
  // insertUser: one random score per tracked subject, and their sum

  /** insertUser's loop over `subjects`. `draws[i]` stands for the value
      rand.Intn(101) returned on the i-th turn. */
  method SynthesizeScores(draws: seq<int>) returns (scores: Sheet, total: int)
    requires |draws| == |Subjects|
    requires forall i :: 0 <= i < |draws| ==> 0 <= draws[i] <= MaxScore
    ensures IsScoreSheet(scores)
    ensures forall i :: 0 <= i < |Subjects| ==> scores[Subjects[i]].score == draws[i]
    ensures total == Total(scores)
  {
    scores := map[];
    total := 0;
    for i := 0 to |Subjects|
      invariant forall k :: k in scores <==> k in Subjects[..i]
      invariant forall j :: 0 <= j < i ==> scores[Subjects[j]] == SubjectScore(Subjects[j], draws[j])
      invariant total == Total(scores)
    {
      var sub := Subjects[i];
      var sc := draws[i];
      assert sub !in Subjects[..i];
      TotalInsert(scores, sub, SubjectScore(sub, sc));
      scores := scores[sub := SubjectScore(sub, sc)];
      total := total + sc;
    }
    assert Subjects[..|Subjects|] == Subjects;
  }

  // ---------------------------------------------------------------------
  // EditStudent: merge the request's scores, then re-sum

  /** The stored sheet after the request's entries overwrite it. */
  function Merge(stored: Sheet, update: Sheet): (r: Sheet)
    ensures r.Keys == stored.Keys + update.Keys
    ensures forall k :: k in update ==> r[k] == update[k]
    ensures forall k :: k in stored && k !in update ==> r[k] == stored[k]
  {
    stored + update
  }

  /** EditStudent's first loop: result.Scores[sub] = value for every entry
      of the request, in Go's (unspecified) map order. */
  method MergeScores(stored: Sheet, update: Sheet) returns (merged: Sheet)
    ensures merged == Merge(stored, update)
  {
    merged := stored;
    var pending := update.Keys;
    while pending != {}
      invariant pending <= update.Keys
      invariant merged.Keys == stored.Keys + (update.Keys - pending)
      invariant forall k :: k in update.Keys - pending ==> merged[k] == update[k]
      invariant forall k :: k in stored && k !in update.Keys - pending ==> merged[k] == stored[k]
      decreases pending
    {
      var sub :| sub in pending;
      merged := merged[sub := update[sub]];
      pending := pending - {sub};
    }
  }

  /** EditStudent's second loop: total += value.Score over every entry. */
  method SumScores(scores: Sheet) returns (total: int)
    ensures total == Total(scores)
  {
    total := 0;
    var pending := scores.Keys;
    while pending != {}
      invariant pending <= scores.Keys
      invariant total + SumOver(scores, pending) == Total(scores)
      decreases pending
    {
      var sub :| sub in pending;
      SumOverRemove(scores, pending, sub);
      total := total + scores[sub].score;
      pending := pending - {sub};
    }
  }

  /** The total after a merge: the stored total, less the scores the request
      replaces, plus the request's scores. */
  lemma MergeTotal(stored: Sheet, update: Sheet)
    ensures Total(Merge(stored, update))
         == Total(stored) - SumOver(stored, stored.Keys * update.Keys) + Total(update)
  {
    var r := Merge(stored, update);
    var kept := stored.Keys - update.Keys;
    var replaced := stored.Keys * update.Keys;
    assert r.Keys == kept + update.Keys;
    SumOverSplit(r, kept, update.Keys);
    SumOverAgree(r, stored, kept);
    SumOverAgree(r, update, update.Keys);
    assert stored.Keys == kept + replaced;
    SumOverSplit(stored, kept, replaced);
  }

  /** Merging the same request twice gives what merging it once gives. */
  lemma MergeIdempotent(stored: Sheet, update: Sheet)
    ensures Merge(Merge(stored, update), update) == Merge(stored, update)
  {
  }

  /** A request that only names tracked subjects, each entry naming its own
      key and carrying a score in [0, 100], keeps the sheet a score sheet. */
  lemma MergeKeepsScoreSheet(stored: Sheet, update: Sheet)
    requires IsScoreSheet(stored)
    requires forall k :: k in update ==> IsTracked(k) && update[k].subject == k
    requires forall k :: k in update ==> 0 <= update[k].score <= MaxScore
    ensures IsScoreSheet(Merge(stored, update))
  {
  }
}
