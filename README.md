# Lao flashcards: the timed quiz engine, in Dafny

This project models the core of the lao-flashcards web app:

- **The timed multiple-choice quiz.** The quiz page fetches a random pool of
  cards. It turns those of the first `qs` cards that have a romanisation into
  questions. A question's options are the card's romanisation plus up to
  three distractors, all shuffled. The distractors come from the rest of the
  pool, or from the whole pool when nothing is left. It then runs a per-session clock anchored to a start
  instant and scores the session (+5 correct, -1 wrong, 0 blank). For a
  signed-in user it records the score and saves a review payload, at most
  once.
- **The admin allowlist check.**
- **The input checks at the start of the sign-up form.**

The modules follow the source:

| module | file | models |
|---|---|---|
| `Options` | `common.dfy` | `Option` and `Result` |
| `Text` | `text.dfy` | `trim`, `toLowerCase` and `split` on strings |
| `Shuffling` | `shuffle.dfy` | the page's Fisher–Yates `shuffle`, as a function on sequences and as the in-place array loop the source runs, proved equal |
| `Questions` | `questions.dfy` | question building in `load()`, including the `wrongs` loop as a method |
| `Clock` | `clock.dfy` | clock initialisation from the start anchor, and the one-second tick |
| `Scoring` | `scoring.dfy` | `computeResults`, as specification functions and as the single-pass method |
| `Session` | `session.dfy` | the outcomes of `load()`, and the `QuizSession` class whose methods are the page's handlers (`choose`, `next`, `prev`, the tick, the time-up effect, `finalizeAndGoResults`) |
| `Admin` | `admin.dfy` | `isAdminEmail` |
| `Signup` | `signup.dfy` | the validation prefix of `onSignup` |

Inputs the source reads from its surroundings become parameters:

- `Math.random` becomes a stream of draws (`seq<nat>`). At step `i`, a draw
  `d` picks the swap partner `d % (i + 1)`. An exhausted stream picks 0.
- `Date.now()` becomes `now` and `createdAt`.
- Whether a user is signed in becomes a `bool` in `load()`. When finalizing, the signed-in user becomes an `Option<UserId>`.
- The card-pool request becomes a `Result<seq<Card>>`.
- `NEXT_PUBLIC_ADMIN_EMAILS` becomes an `Option<string>`.

The database insert and the session-storage write are recorded as state of
`QuizSession`:

- `submitted`: the score rows;
- `stored`: the saved payload;
- `anchorCleared`: the start anchor was removed.

One might expect a question's options to be distinct ignoring case. The code
does not ensure this. It filters the candidate list before its `wrongs` loop
runs, so the `seen` set that the loop extends is never consulted again. Two
reservoir cards with the same romanisation can therefore both become options.
This happens when both land among the first `CHOICES - 1` shuffled candidates.
`Questions.DuplicateDistractorsPossible` exhibits a concrete pool where this
happens. `Questions.WellFormed` states only what the code guarantees:

- the correct answer sits at `correctIndex`;
- every other option differs from the correct answer ignoring case;
- every other option is a non-blank romanisation from the reservoir;
- each other option comes from a reservoir card of its own, so a romanisation
  repeats among the options at most as often as reservoir cards carry it
  (`Questions.RepeatNeedsTwoCards` shows a repeat that is therefore ruled
  out).

## Model

| member | source | states |
|---|---|---|
| Text.Trim | src/app/quiz/page.tsx:139 | `String.prototype.trim`, specified by `Text.TrimSpec` and `Text.TrimIdempotent` |
| Text.TrimSpec | src/app/quiz/page.tsx:139 | `trim` returns a slice of its input with only white space before and after it; the result never lengthens, neither starts nor ends with white space, and is empty exactly when the input is all white space |
| Text.TrimSlice | src/app/quiz/page.tsx:139 | the slice `trim` keeps starts right after the leading white space and is followed by white space only |
| Text.TrimIdempotent | src/app/quiz/page.tsx:139 | trimming a trimmed string changes nothing |
| Text.Lower | src/lib/is-admin.ts:4 | `toLowerCase` keeps the length; character by character it is `LowerChar` (`Text.LowerAt`), and it is idempotent (`Text.LowerIdempotent`) |
| Text.LowerIdempotent | src/lib/is-admin.ts:4 | lower-casing twice equals lower-casing once |
| Text.Split | src/lib/is-admin.ts:3 | `split(",")` yields at least one piece; no piece contains the separator; joining the pieces with the separator gives back the input |
| Text.SplitJoin | src/lib/is-admin.ts:3 | splitting a join of separator-free pieces returns those pieces (the other direction of the round trip) |
| Shuffling.Pick | src/app/quiz/page.tsx:44 | the swap partner at step `i` lies in `0..i` |
| Shuffling.Shuffle | src/app/quiz/page.tsx:41-48 | `shuffle(arr)` with the draws it leaves; specified by `Shuffling.ShufflePermutes`, and equal to what `Shuffling.ShuffleCopy` computes |
| Shuffling.ShufflePermutes | src/app/quiz/page.tsx:41-48 | `shuffle` returns a permutation of its argument (same length, same multiset); it uses one draw per step, `n - 1` for `n > 1` elements; a sequence of at most one element comes back unchanged, with the draws untouched |
| Shuffling.FisherYatesInPlace | src/app/quiz/page.tsx:43-46 | the in-place swap loop leaves the array equal to the specification function's shuffle of its old contents, and returns the draws left over |
| Shuffling.ShuffleCopy | src/app/quiz/page.tsx:41-48 | `shuffle` works on a fresh copy (`[...arr]`), leaves its argument untouched, and returns exactly `Shuffle` of the argument |
| Questions.Answer | src/app/quiz/page.tsx:139 | the trimmed romanisation, empty when there is none; its properties come from `Text.TrimSpec` |
| Questions.Subjects | src/app/quiz/page.tsx:133 | `pool.slice(0, min(qs, pool.length))`; specified by `Questions.SubjectsAndReservoir` |
| Questions.Reservoir | src/app/quiz/page.tsx:134-135 | the distractor pool; specified by `Questions.SubjectsAndReservoir` |
| Questions.SubjectsAndReservoir | src/app/quiz/page.tsx:133-135 | subjects are the first `min(qs, pool.length)` cards; the distractor reservoir is the rest, or the whole pool when nothing is left |
| Questions.Candidates | src/app/quiz/page.tsx:144-146 | the trimmed romanisations of the shuffled reservoir that are non-empty and differ from the answer ignoring case; specified by `Questions.CandidatesSound`, `Questions.CandidatesAppend` and `Questions.CandidatesPermutation` |
| Questions.CandidatesAppend | src/app/quiz/page.tsx:144-146 | the candidates of a concatenation are the concatenation of the candidates, in order |
| Questions.CandidatesSound | src/app/quiz/page.tsx:144-146 | every candidate is a non-empty trimmed romanisation from the given cards that differs from the correct answer ignoring case |
| Questions.CandidatesPermutation | src/app/quiz/page.tsx:144-146 | reordering the reservoir (the shuffle) reorders its candidates: the same candidates, each as often, so also as many |
| Questions.CandidatesAround | src/app/quiz/page.tsx:144-146 | the candidates of a sequence are, as a multiset, those of one card plus those of the others |
| Questions.PrefixSubMultiset | src/app/quiz/page.tsx:148-153 | the kept prefix of the candidates holds each candidate at most as often as the whole list |
| Questions.TakeWrongs | src/app/quiz/page.tsx:148-153 | the first `CHOICES - 1` candidates; `Questions.PickDistractors` is the loop proved equal to it |
| Questions.PickDistractors | src/app/quiz/page.tsx:148-153 | the `wrongs` loop keeps exactly the first `CHOICES - 1` candidates, and never more; `seen` ends as the lower-cased correct answer plus the lower-cased kept distractors |
| Questions.FindIndexFrom | src/app/quiz/page.tsx:156-158 | the case-insensitive `findIndex` returns -1 or an index whose option matches; no earlier option matches |
| Questions.OptionsLocateAnswer | src/app/quiz/page.tsx:155-158 | over a shuffle of the correct answer and distractors that differ from it ignoring case, `findIndex` finds the correct answer itself, and every other position holds a distractor |
| Questions.AssembledWellFormed | src/app/quiz/page.tsx:155-160 | a question assembled from a non-blank answer, distractors taken without repetition from the reservoir's candidates, and a shuffle of both is well formed |
| Questions.BuildQuestion | src/app/quiz/page.tsx:138-160 | the question for one subject, or none; specified by `Questions.BuildQuestionWellFormed`, including that each distractor comes from a reservoir card of its own |
| Questions.BuildAll | src/app/quiz/page.tsx:137-162 | `map` then `filter(Boolean)` over the subjects; specified by `Questions.BuildAllSpec`: one well-formed question per answerable subject, with distractors drawn without repetition from the reservoir's candidates |
| Questions.BuildQuestions | src/app/quiz/page.tsx:133-162 | the `built` list of `load()`; specified by `Questions.BuildQuestionsSpec`, whose well-formedness includes that distractors are drawn without repetition from the reservoir's candidates |
| Questions.BuildQuestionWellFormed | src/app/quiz/page.tsx:138-160 | a subject yields a question exactly when its trimmed romanisation is non-empty; that question keeps the card; its options are `1 + min(CHOICES - 1, candidates)` in number, hold the correct answer at `correctIndex`, and otherwise hold non-blank reservoir romanisations that differ from it ignoring case; apart from the answer, the options are a sub-multiset of the reservoir's candidates, so each distractor comes from a card of its own |
| Questions.BuildAllSpec | src/app/quiz/page.tsx:137-162 | `map` then `filter(Boolean)` gives one well-formed question per answerable subject, in subject order; well formed includes that the distractors are a sub-multiset of the reservoir's candidates |
| Questions.BuildQuestionsSpec | src/app/quiz/page.tsx:133-162 | the built list's cards are the answerable subjects in order; it has at most `min(qs, pool.length)` questions, exactly that many when every subject has a romanisation; each question is well formed (including that its distractors are a sub-multiset of the reservoir's candidates) and has between 1 and `CHOICES` options |
| Questions.AnswerableLength | src/app/quiz/page.tsx:162 | the filter never lengthens the list, and keeps every card exactly when every card has a non-blank romanisation |
| Questions.CardsLength | src/app/quiz/page.tsx:160 | one card per question |
| Questions.DuplicateExampleQuestion | src/app/quiz/page.tsx:142-160 | for a subject "nung" and two reservoir cards "song", with no draws, the question built has options ["song", "song", "nung"] with the answer at 2 |
| Questions.RepeatExampleCandidates | src/app/quiz/page.tsx:144-146 | a reservoir of one "song" card and one "pho" card yields the candidates ["song", "pho"] for the answer "nung" |
| Questions.RepeatNeedsTwoCards | src/app/quiz/page.tsx:144-153 | with a single "song" card in the reservoir, a question listing "song" twice is not well formed |
| Questions.DuplicateDistractorsPossible | src/app/quiz/page.tsx:142-153 | the pool [nung, song, song] with `qs = 1` builds a question that lists "song" twice: `seen` does not deduplicate distractors |
| Clock.ElapsedSeconds | src/app/quiz/page.tsx:180 | elapsed whole seconds are never negative, are zero for an anchor less than a second old or in the future, and are the floor of the elapsed milliseconds over 1000 otherwise |
| Clock.InitialTimeLeft | src/app/quiz/page.tsx:179-184 | the initial clock never exceeds `questions * secPerQ` and equals the full time minus the elapsed seconds, floored at zero |
| Clock.Tick | src/app/quiz/page.tsx:202 | a tick never goes below zero, never increases the time, and lowers a positive time by exactly one |
| Clock.TicksSaturate | src/app/quiz/page.tsx:202 | `k` ticks from `t` leave `max(0, t - k)` |
| Clock.InitialTimeLeftMonotone | src/app/quiz/page.tsx:179-184 | re-entering later never leaves more time |
| Clock.ResumeAgreesWithTicks | src/app/quiz/page.tsx:179-184 | once the anchor is in the past, recomputing the clock `k` seconds later gives the same value as `k` ticks |
| Clock.FortyFiveSecondQuiz | src/app/quiz/page.tsx:179-184 | 15 questions at 3 s with an anchor 10 s old start at 35 s, and reach 0 after 35 ticks and stay there |
| Scoring.ResultsOf | src/app/quiz/page.tsx:239-277 | the payload of `computeResults`; specified by `Scoring.ScoreFromCounts`, `Scoring.ScoreBounds` and `Scoring.ItemsAt`, and equal to what `Scoring.ComputeResults` computes |
| Scoring.ScoreFromCounts | src/app/quiz/page.tsx:245-256 | every question is exactly one of correct, wrong or blank; the score is `5 * correct - wrong` |
| Scoring.ScoreBounds | src/app/quiz/page.tsx:245-256 | the score lies between `-n` and `5n` for `n` questions; it has no floor at zero |
| Scoring.ItemsAt | src/app/quiz/page.tsx:258-265 | review entry `i` copies question `i` (card id, prompts, options, correct index) and its selection or null |
| Scoring.ItemsLength | src/app/quiz/page.tsx:245 | one review entry per question |
| Scoring.ComputeResults | src/app/quiz/page.tsx:239-277 | the single pass yields the specified payload: the counts sum to the question count; score = 5·correct − wrong; item `i` copies question `i` and its selection |
| Scoring.AllCorrect | src/app/quiz/page.tsx:250-252 | all selections correct gives `n` correct, no wrong or blank, and a score of `5n` |
| Scoring.AllBlank | src/app/quiz/page.tsx:248-249 | no selections gives `n` blanks and a score of zero |
| Scoring.CorrectWrongBlank | src/app/quiz/page.tsx:245-256 | selections correct, wrong and blank on three questions score 4, one of each outcome |
| Session.PoolSize | src/app/quiz/page.tsx:111 | the requested pool size is `4 * qs`, never below `qs` |
| Session.Load | src/app/quiz/page.tsx:91-188 | how `load()` ends; specified by `Session.LoadSpec` |
| Session.LoadSpec | src/app/quiz/page.tsx:91-188 | each outcome of `load()` holds exactly under its condition, checked in the source's order: no start anchor; then no signed-in user; then a failed fetch, carrying its message; then an empty pool; then no subject with a romanisation; otherwise a ready session. A ready session has 1 to `min(qs, pool.length)` well-formed questions and the clock recomputed from the anchor, which is never more than the full quiz time |
| Session.AnswerableEmpty | src/app/quiz/page.tsx:162-164 | the romanisation filter leaves nothing exactly when no card has a non-blank romanisation; `Session.LoadSpec` uses this for the "no romanised cards" outcome |
| Session.QuizSession.Start | src/app/quiz/page.tsx:174-186 | a ready session starts at question 0, with every selection null, the clock equal to `Clock.InitialTimeLeft` of the anchor and the current instant, not finished, the timer running, and nothing recorded; `Valid()` keeps the clock between 0 and the full quiz time from then on |
| Session.QuizSession.Choose | src/app/quiz/page.tsx:219-225 | only the current question's selection changes; position, clock and finished flag are kept |
| Session.QuizSession.Prev | src/app/quiz/page.tsx:235-237 | the position steps back by one, never below 0 |
| Session.QuizSession.Next | src/app/quiz/page.tsx:227-233 | before the last question the position advances and nothing else changes; on the last question it finalizes |
| Session.QuizSession.TickOnce | src/app/quiz/page.tsx:195-210 | while the interval is installed the clock ticks; after it is cleared nothing changes |
| Session.QuizSession.CheckTimeUp | src/app/quiz/page.tsx:212-217 | at zero time an unfinished session finalizes; otherwise nothing changes |
| Session.QuizSession.Finalize | src/app/quiz/page.tsx:280-306 | the first call finishes the session and stops the timer; with a signed-in user it records the user's score once, saves the payload and clears the anchor; any later call changes nothing; at most one score row is ever recorded |
| Session.AnswerEverythingCorrectly | src/app/quiz/page.tsx:219-233 | choosing the correct option and pressing next on every question records exactly one row, `(user, 5n)` |
| Session.RunOutTheClock | src/app/quiz/page.tsx:195-217 | with no answers the session finalizes after exactly as many ticks as the initial clock from the anchor, all questions blank and a score of 0 |
| Admin.CleanEntries | src/lib/is-admin.ts:4-5 | trim and lower-case each piece, drop the empty ones; specified by `Admin.CleanEntriesSpec` |
| Admin.AdminEmails | src/lib/is-admin.ts:2-5 | the allowlist read from the variable; specified by `Admin.CleanEntriesSpec` and `Admin.EmptyAllowlist` |
| Admin.IsAdminEmail | src/lib/is-admin.ts:1-9 | `isAdminEmail`; specified by `Admin.IsAdminEmailSpec` and the lemmas below |
| Admin.CleanEntriesMembers | src/lib/is-admin.ts:2-5 | an allowlist entry is exactly a non-empty trimmed, lower-cased comma-separated piece |
| Admin.CleanEntriesTrimmed | src/lib/is-admin.ts:4-5 | no allowlist entry is empty or has white space at either end |
| Admin.CleanEntriesSpec | src/lib/is-admin.ts:2-5 | an allowlist entry is exactly a non-empty trimmed, lower-cased comma-separated piece; no entry starts or ends with white space |
| Admin.IsAdminEmailSpec | src/lib/is-admin.ts:1-9 | an email is an admin email exactly when it is non-empty and some comma-separated piece, once trimmed, is non-empty and lower-cases to the email's lower-case form |
| Admin.NoEmailIsNotAdmin | src/lib/is-admin.ts:7 | a missing or empty email is never an admin email |
| Admin.EmptyAllowlist | src/lib/is-admin.ts:2-5 | with the variable unset or empty, the allowlist is empty and nobody is an admin |
| Admin.MatchIgnoresCase | src/lib/is-admin.ts:8 | emails that lower-case alike get the same answer |
| Admin.PaddedEmailNeverMatches | src/lib/is-admin.ts:8 | the email is not trimmed, so one with leading or trailing white space never matches |
| Signup.ValidateSignup | src/app/signup/page.tsx:23-33 | the first failing check decides the message, each exactly when the earlier checks pass: blank email, then blank username, then empty password, then a username outside `[a-z0-9_]{3,20}`; otherwise the account call gets the trimmed lower-cased email and username and the password exactly as typed |
| Signup.BlankPasswordPasses | src/app/signup/page.tsx:28 | the password is not trimmed: a password of one space passes the empty check and is passed on unchanged |
| Signup.MixedCaseUsernameAccepted | src/app/signup/page.tsx:24-31 | upper-case letters are accepted, because the username is lower-cased before the pattern test |

## Left out

- Network and storage calls are not modelled. The Supabase auth lookup, the
  `random_cards` request and the `quiz_scores` insert become parameters, or
  recorded state of `QuizSession`. Router navigation and `sessionStorage`
  reads are not modelled. The randomness of the database's card selection is
  not modelled.
- `Math.random` is not modelled, and neither is the uniformity of the
  shuffle. The model covers every sequence of swap partners, not their
  probabilities.
- Text.Lower: lower-cases ASCII `A`–`Z` only. The full Unicode `toLowerCase`
  (for example the Kelvin sign, or the multi-character lower-case forms) is
  not modelled.
- Reading `qs` and `secPerQ` from session storage is not modelled. The source
  applies `Number(...) || default` to both. The model takes the resulting
  natural numbers as parameters. NaN, zero, negative or fractional stored
  values are outside the model.
- The start anchor is an integer. A non-numeric anchor is not modelled, and
  neither is the NaN clock it would give.
- Rendering is not modelled: the progress bar percentage, the low-time
  colouring, the minutes and seconds display, and the option buttons.
- React's scheduling is not modelled. Each handler and effect is one atomic
  method on `QuizSession`. A stale closure that would let two
  `finalizeAndGoResults` calls both pass the `finished` guard is outside the
  model. The `_reason` argument has no effect in the source and is dropped.
- After finalizing without a signed-in user, the source redirects to the login
  page. The model records that nothing is stored.
- The in-flight `loading` guard of `onSignup`, and everything after its
  validation, are not modelled. That covers the account creation, the profile
  insert and the redirects.
- The other pages of the app are not part of this model: home, study, decks,
  leaderboard, results and the admin screens.
