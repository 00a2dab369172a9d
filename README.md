# student-ranking: identifiers, score sheets and rank keys

A Dafny model of the logic inside the HTTP handlers of `main.go`, a small Go
service that stores students and their per-subject scores in MongoDB and
feeds Redis sorted sets for leaderboards. The handlers themselves are mostly
calls into gin, MongoDB and Redis; the model keeps what they compute and
takes what they receive from the stores and from `math/rand` as inputs.

- `decimal.dfy` (module `Decimal`): decimal digit strings, zero padding, and
  the value a digit string denotes. This is what `fmt`'s `%010d` and
  `strconv.Atoi` do with decimal numbers.
- `student_id.dfy` (module `StudentId`): `insertUser`'s identifier
  `fmt.Sprintf("R%010d", n)` and `EditStudent`'s check "length 11, first
  character 'R'". It also defines an inverse, `ParseId`, used to prove that
  the formatter is injective and to say which strings it can produce.
- `scores.dfy` (module `Scores`): the `SubjectScore` and `Student` records,
  the tracked subjects `chinese`, `english` and `math`, and the sum of a
  sheet's scores. It holds `insertUser`'s synthesis loop and `EditStudent`'s
  merge loop and re-summing loop, as methods proved against the spec
  functions `Total` and `Merge`.
- `ranking.dfy` (module `Ranking`): the sorted-set key `"rank_" + subject`
  and the ZADD commands `insertUser` issues. It also covers how `GetRank`
  turns its `number` query parameter (default `"10"`, parsed with
  `strconv.Atoi`) into the ZREVRANGE that `getTopPlayers` sends.
- `students.dfy` (module `Students`): the two writing handlers.
  `InsertUser` returns the inserted document and the ZADD commands.
  `EditStudent` returns the document `UpdateOne` writes. The lemmas cover
  idempotence, how the total moves, and the record invariant
  `scoresTotal == Total(scores)`.

Modelling conventions:
- A Go string is a sequence of bytes. Here each `char` stands for one byte,
  so `|s|` is `len(s)`. Since `'R'` is ASCII, `[]rune(s)[0] == 'R'` holds
  exactly when the first byte is `'R'`.
- Scores are `float64` in the source. Every value `insertUser` stores is
  integral; `EditStudent` stores the request's scores as they arrive, and
  the model takes those to be integers too (see "## Left out"). So the
  model uses `int`.
- Go's map iteration order is unspecified. The loops over maps pick an
  arbitrary remaining key, and the sum `Total` is proved not to depend on
  the order (`SumOverRemove`).
- Behaviours of the code worth knowing (the lemma showing each is named
  after it where there is one):
  - `EditStudent` validates nothing inside the `Scores` map. The struct tag
    `oneof=chinese english math` is not reached, because there is no `dive`.
    So an untracked subject is stored and counted in the total, not
    rejected (`EditAcceptsUntrackedSubject`).
  - The total is the sum of every entry, not only the tracked ones
    (`SumScores`, `EditedTotal`).
  - `EditStudent` issues no Redis command: its model returns only the
    document it writes, so a score changed by an edit is not reflected in
    the sorted sets.
  - No sorted set `rank_total` is ever written, although `GetRank` can read
    it (`CreatedStudentIsRanked`).
  - The code keeps no rank cache of its own; ranking is left to Redis
    sorted sets, whose behaviour is not modelled.
  - `GetRank` still sends its query after answering 400 for a malformed
    `number`. For a syntax error the count is 0, so the stop index is -1
    (`GetRankMalformed`, `GetRankFraction`). For a range error (a value
    outside int64, or leading digits that overflow uint64, as in
    `18446744073709551616x`) the count is the int64 bound on the input's
    side, so the stop index is 2^63 - 2, or 2^63 - 1 after the wrap for a
    negative input (`GetRankRangeError`, `GetRankTooLarge`).
  - `number=0` is accepted and also gives stop -1, i.e. the whole sorted
    set (`GetRankZero`). A negative `number` such as `-5` is accepted
    without a 400 and gives stop -6 (`GetRankNegative`).

## Model

| member | source | states |
|---|---|---|
| `StudentId.RoundTrip` | main.go:262 | reading the identifier back (`ParseId`) returns the counter value, for every integer counter value |
| `StudentId.FormatInjective` | main.go:262 | distinct counter values never get the same identifier |
| `StudentId.FormatShape` | main.go:262 | for 0 <= n < 10^10 the identifier is 'R' followed by exactly ten decimal digits (so 11 long) whose value is n |
| `StudentId.FormattedIsWellFormed` | main.go:131 | a formatted identifier passes EditStudent's check if and only if -10^9 < n < 10^10; a counter of 10^10 or more gives 12 or more characters and is rejected |
| `StudentId.CanonicalIffFormatted` | main.go:262 | a string is 'R' plus ten digits if and only if the formatter produces it for some n in [0, 10^10), namely the value of its digits |
| `StudentId.CheckAcceptsNonIdentifiers` | main.go:131 | the check looks only at length and first character: it accepts "Rmath-12345", which no counter value produces |
| `Scores.SumOverRemove` | main.go:171-175 | the sum of a sheet's scores can be split at any key, so it does not depend on the map's iteration order |
| `Scores.SynthesizeScores` | main.go:264-278 | the synthesized sheet has exactly the tracked subjects as keys; each entry names its key, has the i-th draw as its score and lies in [0, 100]; the returned total is the sum of the sheet |
| `Scores.ScoreSheetTotalBounds` | main.go:264-278 | a synthesized sheet's total lies in [0, 300] |
| `Scores.Merge` | main.go:167-169 | after the merge, each key of the request maps to the request's entry, each other stored key keeps its entry, and no key is removed |
| `Scores.MergeScores` | main.go:167-169 | the in-place key-by-key overwrite loop yields exactly `Merge(stored, update)` |
| `Scores.SumScores` | main.go:171-175 | the accumulation loop yields the sum of the scores of every entry |
| `Scores.MergeTotal` | main.go:167-175 | the total after the merge is the stored total, minus the replaced entries' scores, plus the request's scores |
| `Scores.MergeIdempotent` | main.go:167-169 | merging the same request twice gives the same sheet as merging it once |
| `Scores.MergeKeepsScoreSheet` | main.go:167-169 | a request naming only tracked subjects, each entry naming its key with a score in [0, 100], keeps the sheet a synthesized-shape sheet |
| `Ranking.RankKeyInjective` | main.go:220 | the keys `"rank_" + a` and `"rank_" + b` are equal if and only if a == b |
| `Ranking.PublishScores` | main.go:299-301 | the set of ZADDs the loop over the student's scores issues is exactly the set of the entries' ZADDs, each into the entry's subject key with its score and the student as member |
| `Ranking.ScoreSheetWrites` | main.go:299-301 | for a synthesized sheet the ZADDs are exactly three, one per tracked subject, each carrying that subject's score |
| `Ranking.CreatedStudentIsRanked` | main.go:220-229 | the sorted set written for a tracked subject is the one GetRank reads for it, and nothing is written to the set GetRank reads for "total" |
| `Ranking.Atoi` | main.go:204 | the parsed count is always an int64; a successful parse is an optional sign and one or more digits, read with that sign; anything but a sign and digits is a syntax error yielding 0, unless its leading digits overflow uint64 first; leading digits overflowing uint64, or a sign and digits whose signed value lies outside int64, are a range error yielding the int64 bound on the input's side |
| `Ranking.AtoiAcceptsInRange` | main.go:204 | an optional sign and digits (leading zeros or '+' allowed) whose signed value lies in int64 always parse without error |
| `Ranking.AtoiDigits` | main.go:204 | every non-negative int64 written in decimal parses back to itself without error |
| `Ranking.AtoiNegativeDigits` | main.go:204 | every negative int64 written with a minus sign parses back to itself without error |
| `Ranking.Pred64` | main.go:233 | `top-1` stays in int64 and is congruent to top - 1 modulo 2^64 (it wraps at the lower bound) |
| `Ranking.GetRankDefault` | main.go:203-211 | with no `number` parameter the request is accepted and asks for ranks 0..9 of `"rank_" + subject` |
| `Ranking.GetRankCount` | main.go:203-211 | with `number` a decimal n in [1, 2^63) the request is accepted and asks for ranks 0..n-1 |
| `Ranking.GetRankMalformed` | main.go:203-211 | a `number` that is not an optional sign followed by digits ("", "+", "1.5", "10abc", "--3"), and whose leading digits do not overflow uint64, gets a 400, and the range query is still sent, with stop -1 |
| `Ranking.GetRankFraction` | main.go:203-211 | `number=1.5` gets a 400 and the query is sent with stop -1 |
| `Ranking.GetRankRangeError` | main.go:203-211 | a `number` out of int64, or whose leading digits overflow uint64, gets a 400, and the query is still sent, with stop 2^63 - 2 (positive) or 2^63 - 1 (negative, after the wrap) |
| `Ranking.GetRankTooLarge` | main.go:203-211 | a decimal `number` n > 2^63 - 1 gets a 400 and the query is sent with stop 2^63 - 2 |
| `Ranking.GetRankZero` | main.go:203-211 | `number=0` is accepted without a 400 and the query is sent with stop -1, the whole sorted set |
| `Ranking.GetRankNegative` | main.go:203-211 | `number=-n` is accepted without a 400 and the query is sent with stop -n-1, wrapping to the int64 maximum for n = 2^63 |
| `Students.InsertUser` | main.go:253-304 | the returned identifier is `FormatId(seqNo)`; the document carries the name, a synthesized sheet with the draws and a total equal to its sum; the ZADDs are those of its scores |
| `Students.EditStudent` | main.go:127-183 | for a well-formed identifier whose student was found, the written document keeps the identifier, takes the request's name and the merged sheet, and its total is the sum of the merged sheet |
| `Students.EditIdempotent` | main.go:167-183 | applying the same request twice writes the same document as applying it once |
| `Students.EditedTotal` | main.go:167-183 | for a consistent stored record, the written total is the stored total minus the replaced scores plus all the request's scores |
| `Students.EditOneSubject` | main.go:167-175 | a one-subject request moves the total by the new score minus the old one (0 when the subject was absent) |
| `Students.EditKeepsCreatedShape` | main.go:167-175 | a created record edited with in-range tracked-subject entries stays a score sheet with a total in [0, 300] |
| `Students.EditAcceptsUntrackedSubject` | main.go:145-175 | a request with an untracked subject ("music") is stored, and its score is added to the total |

## Left out

- HTTP plumbing: gin routing, JSON binding, and the status-code responses of
  `AddStudent`, `EditStudent` and `GetRank`. `GetRankMalformed` records only
  that a 400 is produced.
- MongoDB: `FindOne`, `InsertOne`, `UpdateOne`, `FindOneAndUpdate` and
  `getNextSequence`. The counter value is an input of `InsertUser`. Its
  uniqueness rests on the server's atomic `$inc`, a concurrency property.
  The found document is an input of `EditStudent`.
- Redis: what ZADD and ZREVRANGEWITHSCORES do with the sorted sets, and the
  printing of the results. The commands are modelled as values. The ZADD
  member is the student record itself, not its JSON text.
- `math/rand`: the draws of `rand.Intn(101)` are an input sequence of
  integers in [0, 100].
- `float64` arithmetic: the scores in a request body can be fractional, and
  summing them in floating point can round. The model takes request scores
  as integers.
- Students.EditStudent: a malformed identifier and a failed `FindOne` are
  preconditions, not modelled paths. The handler does not return after
  either response. After a failed lookup the merge writes into a nil map,
  which panics in Go.
- `GetStudent` (a fixed lookup by the name "RiceD" that only prints), `reset`
  (empty), logging and `log.Fatal` are not modelled.
- Ranking.PublishScores: the commands are collected as a set, so two
  entries with the same subject field and the same score appear once,
  while the Go loop sends that ZADD twice. Sheets built by `insertUser` have
  distinct subjects, so there this does not arise.
- Concurrency: `EditStudent` reads with `FindOne` and writes with
  `UpdateOne`, which is not atomic. Two concurrent edits of one student can
  lose an update. `EditIdempotent` and the other edit lemmas describe one
  request with no other write in between.
- Ranking.Atoi: Go's `int` is taken to be 64 bits wide.
- Ranking.Pred64: Go's `int` is taken to be 64 bits wide.
- StudentId.FormatId takes any integer. The source's counter is an int64
  starting at 1, so the cases above int64 do not arise.
