// The Redis side of the handlers, as the commands they issue: addScore's
// ZADD into the sorted set "rank_" + subject, insertUser's loop that issues
// one per score entry (collected here as a set of commands), and GetRank's reading of the `number` query parameter
// (default "10", parsed by strconv.Atoi) into getTopPlayers' ZREVRANGE.
// What Redis does with the commands is not modelled.

module Ranking {
  import opened Decimal
  import opened Scores

  const RankPrefix: string := "rank_"

  /** The sorted-set key addScore writes to and getTopPlayers reads from. */
  function RankKey(subject: string): (key: string) {
    RankPrefix + subject
  }

  /** Distinct subjects have distinct sorted sets. */
  lemma RankKeyInjective(a: string, b: string)
    ensures RankKey(a) == RankKey(b) <==> a == b
  {
    if RankKey(a) == RankKey(b) {
      assert a == RankKey(a)[|RankPrefix|..];
      assert b == RankKey(b)[|RankPrefix|..];
    }
  }

  /** A ZADD command: `member` (the JSON of the student record, here the
      record itself) gets `score` in the sorted set `key`. */
  datatype ZAdd = ZAdd(key: string, score: int, member: Student)

  /** addScore(subject, student, score). */
  function AddScore(subject: string, student: Student, score: int): (command: ZAdd) {
    ZAdd(RankKey(subject), score, student)
  }

  /** The set of commands insertUser's final loop issues: the ZADD of each
      score entry. Two entries with the same subject field and score give
      the same command, which the loop sends twice and the set holds once. */
  function ScoreWrites(student: Student): (writes: set<ZAdd>) {
    set k | k in student.scores :: AddScore(student.scores[k].subject, student, student.scores[k].score)
  }

  /** insertUser's loop `for _, ss := range student.Scores`, in Go's
      (unspecified) map order. */
  method PublishScores(student: Student) returns (writes: set<ZAdd>)
    ensures writes == ScoreWrites(student)
  {
    writes := {};
    var pending := student.scores.Keys;
    while pending != {}
      invariant pending <= student.scores.Keys
      invariant writes == set k | k in student.scores.Keys - pending ::
                  AddScore(student.scores[k].subject, student, student.scores[k].score)
      decreases pending
    {
      var sub :| sub in pending;
      var ss := student.scores[sub];
      writes := writes + {AddScore(ss.subject, student, ss.score)};
      pending := pending - {sub};
    }
  }

  /** For a synthesized sheet the writes are exactly one per tracked
      subject, into that subject's sorted set, with that subject's score. */
  lemma ScoreSheetWrites(student: Student)
    requires IsScoreSheet(student.scores)
    ensures forall s :: IsTracked(s) ==> AddScore(s, student, student.scores[s].score) in ScoreWrites(student)
    ensures forall w :: w in ScoreWrites(student) ==>
              exists s :: IsTracked(s) && w == AddScore(s, student, student.scores[s].score)
    ensures |ScoreWrites(student)| == |Subjects|
  {
    var writes := ScoreWrites(student);
    var a, b, c := Subjects[0], Subjects[1], Subjects[2];
    assert student.scores.Keys == {a, b, c};
    assert writes == {AddScore(a, student, student.scores[a].score),
                      AddScore(b, student, student.scores[b].score),
                      AddScore(c, student, student.scores[c].score)};
    RankKeyInjective(a, b);
    RankKeyInjective(a, c);
    RankKeyInjective(b, c);
  }

  // ---------------------------------------------------------------------
  // GetRank

  const MaxInt64: int := 0x7FFF_FFFF_FFFF_FFFF
  const MinInt64: int := -0x8000_0000_0000_0000
  const MaxUint64: int := 0xFFFF_FFFF_FFFF_FFFF

  /** gin's c.DefaultQuery("number", "10"): the first value given for the
      key, or "10" when the query string does not mention it. */
  function NumberParam(query: map<string, seq<string>>): (number: string) {
    if "number" in query && |query["number"]| > 0 then query["number"][0] else "10"
  }

  /** The longest prefix of s made of decimal digits. */
  function DigitPrefix(s: string): (p: string)
    ensures |p| <= |s| && p == s[..|p|] && AllDigits(p)
    ensures |p| < |s| ==> !IsDigit(s[|p|])
  {
    if s == [] || !IsDigit(s[0]) then [] else [s[0]] + DigitPrefix(s[1..])
  }

  /** The part of s after an optional leading sign. */
  function Magnitude(s: string): (m: string)
    ensures |m| == |s| || (|m| == |s| - 1 && (s[0] == '+' || s[0] == '-'))
    ensures m == s[|s| - |m|..]
  {
    if |s| > 0 && (s[0] == '+' || s[0] == '-') then s[1..] else s
  }

  /** Whether s starts with a minus sign. */
  predicate IsNegative(s: string) {
    |s| > 0 && s[0] == '-'
  }

  /** strconv.Atoi's value and whether it reported no error. */
  datatype Parsed = Parsed(value: int, ok: bool)

  /** strconv.Atoi on a 64-bit platform: an optional sign, then one or more
      decimal digits. A syntax error yields 0; a value outside int64 yields
      the nearest bound with an error, and so does a run of digits that
      overflows uint64 before the first non-digit is reached. */
  function Atoi(s: string): (r: Parsed)
    ensures MinInt64 <= r.value <= MaxInt64
    // a successful parse is an optional sign and one or more digits, read
    // with the sign
    ensures r.ok ==> Magnitude(s) != [] && AllDigits(Magnitude(s))
    ensures r.ok ==> r.value == if IsNegative(s) then -(Value(Magnitude(s)) as int) else Value(Magnitude(s))
    // an error yields 0, or the int64 bound on the side of the input's sign
    ensures !r.ok ==> r.value == 0 || r.value == (if IsNegative(s) then MinInt64 else MaxInt64)
    // anything but an optional sign and digits is a syntax error, unless
    // its leading digits overflow uint64 first
    ensures ((Magnitude(s) == [] || !AllDigits(Magnitude(s)))
             && Value(DigitPrefix(Magnitude(s))) <= MaxUint64) ==> r == Parsed(0, false)
    // leading digits that overflow uint64 are a range error, whatever follows
    ensures Value(DigitPrefix(Magnitude(s))) > MaxUint64
            ==> r == Parsed(if IsNegative(s) then MinInt64 else MaxInt64, false)
    // so is an optional sign and digits whose signed value lies outside int64
    ensures (Magnitude(s) != [] && AllDigits(Magnitude(s))
             && (if IsNegative(s) then Value(Magnitude(s)) > -MinInt64 else Value(Magnitude(s)) > MaxInt64))
            ==> r == Parsed(if IsNegative(s) then MinInt64 else MaxInt64, false)
  {
    var neg := IsNegative(s);
    var body := Magnitude(s);
    var prefix := DigitPrefix(body);
    var clamped := if neg then MinInt64 else MaxInt64;
    if Value(prefix) > MaxUint64 then Parsed(clamped, false)
    else if body == [] || prefix != body then Parsed(0, false)
    else
      var v := if neg then -(Value(body) as int) else Value(body);
      if MinInt64 <= v <= MaxInt64 then Parsed(v, true) else Parsed(clamped, false)
  }

  /** Atoi reads back every non-negative int64 written in decimal. */
  lemma AtoiDigits(n: nat)
    requires n <= MaxInt64
    ensures Atoi(Digits(n)) == Parsed(n, true)
  {
    var s := Digits(n);
    DigitPrefixOfDigits(s);
    ValueOfDigits(n);
    assert s[0] != '-' && s[0] != '+';
  }

  /** ... and every negative one, after a minus sign. */
  lemma AtoiNegativeDigits(n: nat)
    requires 1 <= n <= -MinInt64
    ensures Atoi("-" + Digits(n)) == Parsed(-(n as int), true)
  {
    var s := "-" + Digits(n);
    assert s[1..] == Digits(n);
    DigitPrefixOfDigits(Digits(n));
    ValueOfDigits(n);
  }

  /** An optional sign and digits whose signed value lies in int64 always
      parse, leading zeros and a '+' included. */
  lemma AtoiAcceptsInRange(s: string)
    requires Magnitude(s) != [] && AllDigits(Magnitude(s))
    requires if IsNegative(s) then Value(Magnitude(s)) <= -MinInt64 else Value(Magnitude(s)) <= MaxInt64
    ensures Atoi(s).ok
  {
    DigitPrefixOfDigits(Magnitude(s));
  }

  lemma DigitPrefixOfDigits(s: string)
    requires AllDigits(s)
    ensures DigitPrefix(s) == s
  {
  }

  /** getTopPlayers' ZREVRANGEWITHSCORES key start stop. */
  datatype RangeQuery = ZRevRangeWithScores(key: string, start: int, stop: int)

  /** What GetRank does with a request: whether it answers 400, and the
      range query it then sends anyway (the handler does not return after
      a parse error). */
  datatype RankRequest = RankRequest(badRequest: bool, query: RangeQuery)

  /** int64 subtraction of one, wrapping at the lower bound. */
  function Pred64(x: int): (r: int)
    requires MinInt64 <= x <= MaxInt64
    ensures MinInt64 <= r <= MaxInt64
    ensures (r + 1 - x) % (MaxUint64 + 1) == 0
  {
    if x == MinInt64 then MaxInt64 else x - 1
  }

  /** getTopPlayers(subject, top). */
  function TopPlayers(subject: string, top: int): (q: RangeQuery)
    requires MinInt64 <= top <= MaxInt64
  {
    ZRevRangeWithScores(RankKey(subject), 0, Pred64(top))
  }

  /** The GetRank handler on path parameter `subject` and a query string. */
  function GetRank(subject: string, query: map<string, seq<string>>): (request: RankRequest) {
    var parsed := Atoi(NumberParam(query));
    RankRequest(!parsed.ok, TopPlayers(subject, parsed.value))
  }

  /** Without a `number` parameter GetRank asks for the ten best. */
  lemma GetRankDefault(subject: string, query: map<string, seq<string>>)
    requires "number" !in query
    ensures GetRank(subject, query) == RankRequest(false, ZRevRangeWithScores(RankKey(subject), 0, 9))
  {
    assert Digits(10) == "10";
    AtoiDigits(10);
  }

  /** With `number` a decimal n in int64, GetRank asks for the n best. */
  lemma GetRankCount(subject: string, query: map<string, seq<string>>, n: nat)
    requires 1 <= n <= MaxInt64
    requires "number" in query && |query["number"]| > 0 && query["number"][0] == Digits(n)
    ensures GetRank(subject, query) == RankRequest(false, ZRevRangeWithScores(RankKey(subject), 0, n - 1))
  {
    AtoiDigits(n);
  }

  /** A `number` that is not an optional sign followed by digits ("", "+",
      "1.5", "10abc", "--3") draws a 400, and the handler still queries with
      0, i.e. stop -1, which Redis reads as the last element. The exception
      is a run of leading digits that overflows uint64 (see Atoi). */
  lemma GetRankMalformed(subject: string, query: map<string, seq<string>>)
    requires "number" in query && |query["number"]| > 0
    requires var m := Magnitude(query["number"][0]);
             (m == [] || !AllDigits(m)) && Value(DigitPrefix(m)) <= MaxUint64
    ensures GetRank(subject, query) == RankRequest(true, ZRevRangeWithScores(RankKey(subject), 0, -1))
  {
  }

  /** For instance a fractional count: "1.5" draws a 400 and stop -1. */
  lemma GetRankFraction(subject: string, query: map<string, seq<string>>)
    requires "number" in query && |query["number"]| > 0 && query["number"][0] == "1.5"
    ensures GetRank(subject, query) == RankRequest(true, ZRevRangeWithScores(RankKey(subject), 0, -1))
  {
    var s := query["number"][0];
    assert Magnitude(s) == s && !IsDigit(s[1]);
    assert DigitPrefix(s) == "1" by {
      assert DigitPrefix(s[1..]) == [];
    }
    assert Value("1") == 1 by {
      assert "1"[..0] == [];
    }
    GetRankMalformed(subject, query);
  }

  /** "0" is accepted without a 400 and also queries with stop -1, so it
      asks for the whole sorted set. */
  lemma GetRankZero(subject: string, query: map<string, seq<string>>)
    requires "number" in query && |query["number"]| > 0 && query["number"][0] == "0"
    ensures GetRank(subject, query) == RankRequest(false, ZRevRangeWithScores(RankKey(subject), 0, -1))
  {
    assert Digits(0) == "0";
    AtoiDigits(0);
  }

  /** A negative count -n is accepted without a 400 and queries with stop
      -n-1, which wraps to the int64 maximum for n = 2^63. */
  lemma GetRankNegative(subject: string, query: map<string, seq<string>>, n: nat)
    requires 1 <= n <= -MinInt64
    requires "number" in query && |query["number"]| > 0 && query["number"][0] == "-" + Digits(n)
    ensures GetRank(subject, query)
         == RankRequest(false, ZRevRangeWithScores(RankKey(subject), 0, if n == -MinInt64 then MaxInt64 else -(n as int) - 1))
  {
    AtoiNegativeDigits(n);
  }

  /** A range error also draws a 400, and the handler still queries with the
      int64 bound Atoi returns: stop MaxInt64 - 1 for a positive count, and
      stop MaxInt64, after the wrap, for a negative one; either way Redis
      returns the whole sorted set. */
  lemma GetRankRangeError(subject: string, query: map<string, seq<string>>)
    requires "number" in query && |query["number"]| > 0
    requires var s := query["number"][0];
             var m := Magnitude(s);
             Value(DigitPrefix(m)) > MaxUint64
             || (m != [] && AllDigits(m)
                 && (if IsNegative(s) then Value(m) > -MinInt64 else Value(m) > MaxInt64))
    ensures GetRank(subject, query)
         == RankRequest(true, ZRevRangeWithScores(RankKey(subject), 0,
                                if IsNegative(query["number"][0]) then MaxInt64 else MaxInt64 - 1))
  {
  }

  /** For instance a decimal count beyond int64, such as 2^63: a 400, and the
      query is sent with stop MaxInt64 - 1. */
  lemma GetRankTooLarge(subject: string, query: map<string, seq<string>>, n: nat)
    requires n > MaxInt64
    requires "number" in query && |query["number"]| > 0 && query["number"][0] == Digits(n)
    ensures GetRank(subject, query) == RankRequest(true, ZRevRangeWithScores(RankKey(subject), 0, MaxInt64 - 1))
  {
    var s := Digits(n);
    ValueOfDigits(n);
    assert s[0] != '-' && s[0] != '+';
    GetRankRangeError(subject, query);
  }

  /** Every sorted set a created student is written into is the one GetRank
      reads for that subject, and no created student is written into the
      set GetRank reads for "total". */
  lemma CreatedStudentIsRanked(student: Student, subject: string, query: map<string, seq<string>>)
    requires IsScoreSheet(student.scores)
    ensures IsTracked(subject) ==>
              exists w :: w in ScoreWrites(student) && w.key == GetRank(subject, query).query.key
                       && w.score == student.scores[subject].score
    ensures forall w :: w in ScoreWrites(student) ==> w.key != GetRank("total", query).query.key
  {
    ScoreSheetWrites(student);
    if IsTracked(subject) {
      var w := AddScore(subject, student, student.scores[subject].score);
      assert w in ScoreWrites(student);
    }
    forall w | w in ScoreWrites(student)
      ensures w.key != RankKey("total")
    {
      var s :| IsTracked(s) && w == AddScore(s, student, student.scores[s].score);
      RankKeyInjective(s, "total");
    }
  }
}
