// The two handlers that write a student record, with the stores taken out:
// insertUser receives the counter value getNextSequence would have returned
// and the values rand.Intn(101) would have drawn, and returns the document
// it inserts and the ZADD commands it issues; EditStudent receives the
// document FindOne found and the decoded request body, and returns the
// document its UpdateOne writes.

module Students {
  import opened StudentId
  import opened Scores
  import opened Ranking

  /** The record invariant insertUser establishes and EditStudent restores:
      the stored total is the sum of the stored scores. */
  ghost predicate TotalIsConsistent(student: Student) {
    student.scoresTotal == Total(student.scores)
  }

  /** insertUser(name), given the counter value and the random draws. */
  method InsertUser(name: string, seqNo: int, draws: seq<int>)
    returns (id: string, student: Student, writes: set<ZAdd>)
    requires |draws| == |Subjects|
    requires forall i :: 0 <= i < |draws| ==> 0 <= draws[i] <= MaxScore
    ensures id == student.studentId == FormatId(seqNo)
    ensures student.name == name
    ensures IsScoreSheet(student.scores)
    ensures forall i :: 0 <= i < |Subjects| ==> student.scores[Subjects[i]].score == draws[i]
    ensures TotalIsConsistent(student)
    ensures writes == ScoreWrites(student)
  {
    var newIdString := FormatId(seqNo);
    var subjectScores, total := SynthesizeScores(draws);
    student := Student(name, newIdString, subjectScores, total);
    writes := PublishScores(student);
    id := student.studentId;
  }

  /** The document EditStudent writes back: the request's name, the stored
      scores overwritten by the request's, and their recomputed sum. */
  ghost function Edited(stored: Student, request: Student): (written: Student) {
    var merged := Merge(stored.scores, request.scores);
    stored.(name := request.name, scores := merged, scoresTotal := Total(merged))
  }

  /** EditStudent for the path parameter `id`, once FindOne has found
      `stored` under it, on the decoded body `request`. */
  method EditStudent(id: string, stored: Student, request: Student) returns (written: Student)
    requires IsWellFormed(id)
    requires stored.studentId == id
    ensures written == Edited(stored, request)
    ensures written.studentId == id && written.name == request.name
    ensures TotalIsConsistent(written)
  {
    var result := stored;
    var scores := MergeScores(result.scores, request.scores);
    result := result.(scores := scores);
    var total := SumScores(result.scores);
    written := result.(name := request.name, scoresTotal := total);
  }

  /** Sending the same request twice leaves the record as sending it once. */
  lemma EditIdempotent(stored: Student, request: Student)
    ensures Edited(Edited(stored, request), request) == Edited(stored, request)
  {
    MergeIdempotent(stored.scores, request.scores);
  }

  /** The written total: the stored total, less the scores the request
      replaces, plus every score of the request, tracked subject or not. */
  lemma EditedTotal(stored: Student, request: Student)
    requires TotalIsConsistent(stored)
    ensures Edited(stored, request).scoresTotal
         == stored.scoresTotal - SumOver(stored.scores, stored.scores.Keys * request.scores.Keys)
            + Total(request.scores)
  {
    MergeTotal(stored.scores, request.scores);
  }

  /** Replacing one subject's score moves the total by the difference. */
  lemma EditOneSubject(stored: Student, request: Student, sub: string)
    requires TotalIsConsistent(stored)
    requires request.scores.Keys == {sub}
    ensures Edited(stored, request).scoresTotal
         == stored.scoresTotal
            - (if sub in stored.scores then stored.scores[sub].score else 0)
            + request.scores[sub].score
  {
    EditedTotal(stored, request);
    var m := request.scores;
    SumOverRemove(m, m.Keys, sub);
    assert m.Keys - {sub} == {};
    if sub in stored.scores {
      assert stored.scores.Keys * m.Keys == {sub};
      SumOverRemove(stored.scores, {sub}, sub);
    } else {
      assert stored.scores.Keys * m.Keys == {};
    }
  }

  /** A record insertUser created stays a score sheet with a total in
      [0, 300] under every request that names only tracked subjects, each
      entry naming its own key, with scores in [0, 100]. */
  lemma EditKeepsCreatedShape(stored: Student, request: Student)
    requires IsScoreSheet(stored.scores)
    requires forall k :: k in request.scores ==> IsTracked(k) && request.scores[k].subject == k
    requires forall k :: k in request.scores ==> 0 <= request.scores[k].score <= MaxScore
    ensures IsScoreSheet(Edited(stored, request).scores)
    ensures 0 <= Edited(stored, request).scoresTotal <= MaxScore * |Subjects|
  {
    MergeKeepsScoreSheet(stored.scores, request.scores);
    ScoreSheetTotalBounds(Edited(stored, request).scores);
  }

  /** Nothing checks the request's keys: an untracked subject is added to
      the record and counted in its total. */
  lemma EditAcceptsUntrackedSubject(stored: Student, v: SubjectScore)
    requires IsScoreSheet(stored.scores) && TotalIsConsistent(stored)
    ensures var written := Edited(stored, stored.(scores := map["music" := v]));
            && "music" in written.scores && !IsTracked("music")
            && written.scoresTotal == stored.scoresTotal + v.score
  {
    assert "music" !in stored.scores;
    EditOneSubject(stored, stored.(scores := map["music" := v]), "music");
  }
}
