/**
 * The quiz page as a state machine (src/app/quiz/page.tsx): `load()` decides
 * whether a session can start, and a `QuizSession` holds the position, the
 * selections, the clock and the finished flag that the handlers update.
 */
module Session {
  import opened Options
  import opened Questions
  import opened Clock
  import opened Scoring

  type UserId = string

  /** How `load()` ends: a message for the user, a redirect, or a ready session. */
  datatype LoadResult =
    | NotStarted                      // no start anchor: "start the quiz from Home"
    | LoginRequired                   // no signed-in user: redirect to the login page
    | FetchFailed(message: string)    // the card-pool request failed
    | NoCards                         // the pool is empty
    | NoRomanisedCards                // no subject has a romanisation
    | Ready(questions: seq<Question>, timeLeft: nat)

  /** `Math.max(qs * 4, qs)`: how many cards `load()` asks for. */
  function PoolSize(qs: nat): (n: nat)
    ensures n >= qs && n == 4 * qs
  {
    if qs * 4 >= qs then qs * 4 else qs
  }

  /**
   * `load()`: the start anchor, the signed-in user and the fetched pool are
   * inputs; `now` stands for `Date.now()` and `draws` for `Math.random`.
   */
  function Load(startAt: Option<int>, signedIn: bool, fetched: Result<seq<Card>>,
                qs: nat, secPerQ: nat, now: int, draws: seq<nat>): LoadResult
  {
    if startAt.None? then NotStarted
    else if !signedIn then LoginRequired
    else if fetched.Err? then FetchFailed(fetched.message)
    else if fetched.value == [] then NoCards
    else
      var built := BuildQuestions(fetched.value, qs, CHOICES, draws).0;
      if built == [] then NoRomanisedCards
      else Ready(built, InitialTimeLeft(|built|, secPerQ, now, startAt.value))
  }

  /**
   * `load()` ends in a ready session exactly when it was started, a user is
   * signed in, the fetch succeeded and some subject card has a romanisation.
   * A ready session has between one and `min(qs, pool.length)` questions, and
   * a clock between zero and the full quiz time.
   */
  lemma LoadSpec(startAt: Option<int>, signedIn: bool, fetched: Result<seq<Card>>,
                 qs: nat, secPerQ: nat, now: int, draws: seq<nat>)
    ensures var r := Load(startAt, signedIn, fetched, qs, secPerQ, now, draws);
      (r == NotStarted <==> startAt.None?) &&
      (r == LoginRequired <==> startAt.Some? && !signedIn) &&
      (r.FetchFailed? <==> startAt.Some? && signedIn && fetched.Err?) &&
      (r.FetchFailed? ==> r.message == fetched.message) &&
      (r == NoCards <==> startAt.Some? && signedIn && fetched.Ok? && fetched.value == []) &&
      (r == NoRomanisedCards <==> startAt.Some? && signedIn && fetched.Ok? && fetched.value != [] &&
                                  forall c :: c in Subjects(fetched.value, qs) ==> Answer(c) == [])
    ensures var r := Load(startAt, signedIn, fetched, qs, secPerQ, now, draws);
      (r.Ready? <==> startAt.Some? && signedIn && fetched.Ok? &&
                     exists c :: c in Subjects(fetched.value, qs) && Answer(c) != []) &&
      (r.Ready? ==>
        1 <= |r.questions| <= Min(qs, |fetched.value|) &&
        r.timeLeft == InitialTimeLeft(|r.questions|, secPerQ, now, startAt.value) &&
        r.timeLeft <= |r.questions| * secPerQ &&
        forall q :: q in r.questions ==> WellFormed(q, Reservoir(fetched.value, qs), CHOICES))
  {
    if startAt.Some? && signedIn && fetched.Ok? {
      var pool := fetched.value;
      BuildQuestionsSpec(pool, qs, CHOICES, draws);
      var built := BuildQuestions(pool, qs, CHOICES, draws).0;
      CardsLength(built);
      AnswerableEmpty(Subjects(pool, qs));
      if pool == [] {
        assert Subjects(pool, qs) == [];
      }
    }
  }

  /** No card survives the romanisation filter exactly when no card has a romanisation. */
  lemma {:induction false} AnswerableEmpty(cards: seq<Card>)
    ensures Answerable(cards) == [] <==> forall c :: c in cards ==> Answer(c) == []
  {
    if cards != [] {
      AnswerableEmpty(cards[1..]);
      assert forall c :: c in cards <==> c == cards[0] || c in cards[1..];
    }
  }

  /** One quiz attempt after a successful `load()`. */
  class QuizSession {
    const questions: seq<Question>
    const secPerQ: nat
    var idx: int
    var selected: seq<Option<int>>
    var timeLeft: int
    var finished: bool
    /** Whether the one-second interval is installed. */
    var timerRunning: bool
    /** Rows inserted into the score table. */
    var submitted: seq<(UserId, int)>
    /** The payload saved for the results view. */
    var stored: Option<Results>
    /** Whether the start anchor has been removed from session storage. */
    var anchorCleared: bool

    ghost predicate Valid()
      reads this
    {
      |questions| > 0 &&
      0 <= idx < |questions| &&
      |selected| == |questions| &&
      0 <= timeLeft <= |questions| * secPerQ &&
      (finished <==> !timerRunning) &&
      |submitted| <= 1 &&
      (stored.Some? <==> submitted != []) &&
      (anchorCleared <==> stored.Some?) &&
      (submitted != [] ==> finished)
    }

    /**
     * What `finalizeAndGoResults` does to the state: nothing once finished;
     * otherwise it stops the clock and, when a user is signed in, records the
     * score, saves the payload and clears the start anchor.
     */
    twostate predicate Finalized(user: Option<UserId>, createdAt: string)
      reads this
    {
      idx == old(idx) && selected == old(selected) && timeLeft == old(timeLeft) &&
      if old(finished) then
        finished && timerRunning == old(timerRunning) && submitted == old(submitted) &&
        stored == old(stored) && anchorCleared == old(anchorCleared)
      else
        finished && !timerRunning &&
        (user.Some? ==>
          submitted == old(submitted) + [(user.value, ResultsOf(questions, selected, secPerQ, createdAt).score)] &&
          stored == Some(ResultsOf(questions, selected, secPerQ, createdAt)) && anchorCleared) &&
        (user.None? ==>
          submitted == old(submitted) && stored == old(stored) && anchorCleared == old(anchorCleared))
    }

    /**
     * The state `load()` leaves: first question, nothing selected, and the
     * clock recomputed from the start anchor `startAt` at the instant `now`.
     */
    constructor Start(questions: seq<Question>, secPerQ: nat, now: int, startAt: int)
      requires |questions| > 0
      ensures Valid()
      ensures this.questions == questions && this.secPerQ == secPerQ
      ensures idx == 0 && timeLeft == InitialTimeLeft(|questions|, secPerQ, now, startAt)
      ensures selected == seq(|questions|, _ => None)
      ensures !finished && timerRunning && submitted == [] && stored == None && !anchorCleared
    {
      this.questions := questions;
      this.secPerQ := secPerQ;
      idx := 0;
      selected := seq(|questions|, _ => None);
      timeLeft := InitialTimeLeft(|questions|, secPerQ, now, startAt);
      finished := false;
      timerRunning := true;
      submitted := [];
      stored := None;
      anchorCleared := false;
    }

    /** `choose(optionIndex)`: record the selection for the current question only. */
    method Choose(optionIndex: int)
      requires Valid()
      modifies this`selected
      ensures Valid()
      ensures selected == old(selected)[idx := Some(optionIndex)]
      ensures forall i :: 0 <= i < |selected| && i != idx ==> selected[i] == old(selected)[i]
      ensures idx == old(idx) && timeLeft == old(timeLeft) && finished == old(finished)
    {
      selected := selected[idx := Some(optionIndex)];
    }

    /** `prev()`: step back, never below the first question. */
    method Prev()
      requires Valid()
      modifies this`idx
      ensures Valid()
      ensures idx == Max(0, old(idx) - 1)
    {
      idx := Max(0, idx - 1);
    }

    /**
     * `finalizeAndGoResults`: the first call stops the clock, scores the
     * session and, when a user is signed in, records the score and saves the
     * payload; any later call does nothing.
     */
    method Finalize(user: Option<UserId>, createdAt: string)
      requires Valid()
      modifies this
      ensures Valid()
      ensures Finalized(user, createdAt)
    {
      if finished {
        return;
      }
      finished := true;
      timerRunning := false;
      var results := ComputeResults(questions, selected, secPerQ, createdAt);
      if user.None? {
        return;
      }
      submitted := submitted + [(user.value, results.score)];
      stored := Some(results);
      anchorCleared := true;
    }

    /** `next()`: advance, or finalize when already on the last question. */
    method Next(user: Option<UserId>, createdAt: string)
      requires Valid()
      modifies this
      ensures Valid()
      ensures old(idx) < |questions| - 1 ==>
        idx == old(idx) + 1 && unchanged(this`selected, this`timeLeft, this`finished, this`timerRunning) &&
        unchanged(this`submitted, this`stored, this`anchorCleared)
      ensures old(idx) >= |questions| - 1 ==> Finalized(user, createdAt)
    {
      if idx >= |questions| - 1 {
        Finalize(user, createdAt);
        return;
      }
      idx := idx + 1;
    }

    /** One firing of the interval; none arrive once it is cleared. */
    method TickOnce()
      requires Valid()
      modifies this`timeLeft
      ensures Valid()
      ensures timeLeft == if timerRunning then Tick(old(timeLeft)) else old(timeLeft)
    {
      if timerRunning {
        timeLeft := Tick(timeLeft);
      }
    }

    /** The effect that finalizes when the clock reaches zero. */
    method CheckTimeUp(user: Option<UserId>, createdAt: string)
      requires Valid()
      modifies this
      ensures Valid()
      ensures old(timeLeft) <= 0 ==> Finalized(user, createdAt)
      ensures old(timeLeft) > 0 || old(finished) ==> unchanged(this)
    {
      if !finished && timeLeft <= 0 {
        Finalize(user, createdAt);
      }
    }
  }

  /**
   * A signed-in user who picks the correct option on every question and
   * presses next each time finishes on the last question with five points
   * per question, recorded once under their id.
   */
  method AnswerEverythingCorrectly(questions: seq<Question>, secPerQ: nat, now: int, startAt: int,
                                   user: UserId, createdAt: string)
    returns (score: int, recorded: seq<(UserId, int)>)
    requires |questions| > 0
    ensures score == 5 * |questions|
    ensures recorded == [(user, score)]
  {
    var s := new QuizSession.Start(questions, secPerQ, now, startAt);
    var i := 0;
    while i < |questions|
      invariant s.Valid() && s.questions == questions && s.secPerQ == secPerQ
      invariant 0 <= i <= |questions|
      invariant i < |questions| ==> !s.finished && s.idx == i && s.submitted == []
      invariant forall k :: 0 <= k < i ==> s.selected[k] == Some(questions[k].correctIndex)
      invariant i == |questions| ==>
        s.stored == Some(ResultsOf(questions, s.selected, secPerQ, createdAt)) &&
        s.submitted == [(user, ResultsOf(questions, s.selected, secPerQ, createdAt).score)]
    {
      s.Choose(questions[i].correctIndex);
      s.Next(Some(user), createdAt);
      i := i + 1;
    }
    AllCorrect(questions, s.selected, |questions|);
    score := s.stored.value.score;
    recorded := s.submitted;
  }

  /**
   * A signed-in user who answers nothing: the clock runs out after exactly
   * as many ticks as it started with, and the session finalizes with every
   * question blank and a score of zero.
   */
  method RunOutTheClock(questions: seq<Question>, secPerQ: nat, now: int, startAt: int,
                        user: UserId, createdAt: string)
    returns (ticks: nat, results: Results)
    requires |questions| > 0
    ensures ticks == InitialTimeLeft(|questions|, secPerQ, now, startAt)
    ensures results.score == 0 && results.blankCount == |questions|
    ensures results.correctCount == 0 && results.wrongCount == 0
  {
    var s := new QuizSession.Start(questions, secPerQ, now, startAt);
    var timeLeft := s.timeLeft;
    ticks := 0;
    s.CheckTimeUp(Some(user), createdAt);
    while !s.finished
      invariant s.Valid() && s.questions == questions && s.secPerQ == secPerQ
      invariant s.selected == seq(|questions|, _ => None)
      invariant !s.finished ==> s.timerRunning && s.timeLeft > 0 && ticks + s.timeLeft == timeLeft
      invariant s.finished ==>
        ticks == timeLeft && s.stored == Some(ResultsOf(questions, s.selected, secPerQ, createdAt))
      decreases s.timeLeft + (if s.finished then 0 else 1)
    {
      s.TickOnce();
      ticks := ticks + 1;
      s.CheckTimeUp(Some(user), createdAt);
    }
    AllBlank(questions, s.selected, |questions|);
    results := s.stored.value;
  }
}
