/**
 * The session clock of the quiz page (src/app/quiz/page.tsx): on entry the
 * remaining time is recomputed from the wall-clock start anchor, and after
 * that a once-per-second tick lowers it by one, never below zero.
 * Times are integers: milliseconds for instants, seconds for durations.
 */
module Clock {

  function Max(a: int, b: int): int {
    if a >= b then a else b
  }

  /**
   * `Math.max(0, Math.floor((now - startAt) / 1000))`. Dafny's `/` rounds
   * toward negative infinity for a positive divisor, as `Math.floor` does.
   */
  function ElapsedSeconds(now: int, startAt: int): (e: nat)
    ensures now - startAt < 1000 ==> e == 0
    ensures now >= startAt ==> e * 1000 <= now - startAt < (e + 1) * 1000
  {
    Max(0, (now - startAt) / 1000)
  }

  /**
   * `Math.max(0, Math.min(total, total - elapsedSec))` with
   * `total = questionCount * secPerQ`.
   */
  function InitialTimeLeft(questionCount: nat, secPerQ: nat, now: int, startAt: int): (t: nat)
    ensures t <= questionCount * secPerQ
    ensures t == Max(0, questionCount * secPerQ - ElapsedSeconds(now, startAt))
  {
    var total := questionCount * secPerQ;
    var elapsedSec := ElapsedSeconds(now, startAt);
    if total - elapsedSec <= 0 then 0
    else if total <= total - elapsedSec then total
    else total - elapsedSec
  }

  /** One tick of the interval: `t => Math.max(0, t - 1)`. */
  function Tick(t: int): (r: int)
    ensures r >= 0
    ensures r <= t || t < 0
    ensures t > 0 ==> r == t - 1
  {
    Max(0, t - 1)
  }

  /** The time left after `k` ticks. */
  function Ticks(t: int, k: nat): int
    decreases k
  {
    if k == 0 then t else Ticks(Tick(t), k - 1)
  }

  /** Ticking `k` times from a non-negative time subtracts `k`, stopping at zero. */
  lemma {:induction false} TicksSaturate(t: nat, k: nat)
    ensures Ticks(t, k) == Max(0, t - k)
    decreases k
  {
    if k > 0 {
      TicksSaturate(Tick(t), k - 1);
    }
  }

  /** A later clock reading never leaves more time. */
  lemma InitialTimeLeftMonotone(questionCount: nat, secPerQ: nat, startAt: int, now1: int, now2: int)
    requires now1 <= now2
    ensures InitialTimeLeft(questionCount, secPerQ, now2, startAt) <= InitialTimeLeft(questionCount, secPerQ, now1, startAt)
  {
    var d1, d2 := now1 - startAt, now2 - startAt;
    assert d1 / 1000 <= d2 / 1000;
  }

  /**
   * Recomputing from the anchor `k` seconds later gives what `k` ticks give:
   * the wall-clock initialisation and the tick agree once the anchor is in
   * the past.
   */
  lemma ResumeAgreesWithTicks(questionCount: nat, secPerQ: nat, startAt: int, now: int, k: nat)
    requires now >= startAt
    ensures InitialTimeLeft(questionCount, secPerQ, now + 1000 * k, startAt)
         == Ticks(InitialTimeLeft(questionCount, secPerQ, now, startAt), k)
  {
    var d := now - startAt;
    assert (d + 1000 * k) / 1000 == d / 1000 + k;
    TicksSaturate(InitialTimeLeft(questionCount, secPerQ, now, startAt), k);
  }

  /**
   * A quiz of 15 questions at 3 seconds each whose anchor is 10 seconds in
   * the past starts with 35 seconds left; 35 seconds later it has none.
   */
  lemma FortyFiveSecondQuiz(startAt: int)
    ensures InitialTimeLeft(15, 3, startAt + 10000, startAt) == 35
    ensures Ticks(35, 35) == 0 && Ticks(35, 40) == 0
  {
    TicksSaturate(35, 35);
    TicksSaturate(35, 40);
  }
}
