/**
 * Question building in `load()` (src/app/quiz/page.tsx): subjects and the
 * distractor reservoir are slices of the fetched pool; each subject with a
 * romanisation becomes one multiple-choice question whose options are the
 * correct romanisation plus up to `choices - 1` distractors, shuffled.
 */
module Questions {
  import opened Options
  import opened Text
  import opened Shuffling

  datatype Card = Card(id: string, english: string, lao: string, roman: Option<string>, audioUrl: Option<string>)

  datatype Question = Question(card: Card, options: seq<string>, correctIndex: int)

  /** Number of options per question in the quiz page. */
  const CHOICES: nat := 4

  function Min(a: int, b: int): int {
    if a <= b then a else b
  }

  /** `(card.roman ?? "").trim()`: the answer a card contributes. */
  function Answer(c: Card): string {
    Trim(if c.roman.Some? then c.roman.value else "")
  }

  /** The answers of a collection of cards. */
  function AnswerSet(cards: seq<Card>): set<string> {
    set c | c in cards :: Answer(c)
  }

  /** `pool.slice(0, Math.min(qs, pool.length))`. */
  function Subjects(pool: seq<Card>, qs: nat): seq<Card> {
    pool[..Min(qs, |pool|)]
  }

  /** The rest of the pool after the subjects, or the whole pool when nothing is left. */
  function Reservoir(pool: seq<Card>, qs: nat): seq<Card> {
    var n := |Subjects(pool, qs)|;
    if |pool| > n then pool[n..] else pool
  }

  /** How the pool is divided between subjects and distractors. */
  lemma SubjectsAndReservoir(pool: seq<Card>, qs: nat)
    ensures |Subjects(pool, qs)| == Min(qs, |pool|)
    ensures Subjects(pool, qs) == pool[..Min(qs, |pool|)]
    ensures qs < |pool| ==> Subjects(pool, qs) + Reservoir(pool, qs) == pool
    ensures qs >= |pool| ==> Subjects(pool, qs) == pool && Reservoir(pool, qs) == pool
  {
  }

  /**
   * The distractor candidates: the answers of `cards`, in order, keeping the
   * non-empty ones that differ from `correct` ignoring case.
   */
  function Candidates(cards: seq<Card>, correct: string): seq<string> {
    if cards == [] then []
    else
      var a := Answer(cards[0]);
      var rest := Candidates(cards[1..], correct);
      if a != [] && Lower(a) != Lower(correct) then [a] + rest else rest
  }

  /** Every candidate is a non-empty answer of some card that differs from `correct` ignoring case. */
  lemma {:induction false} CandidatesSound(cards: seq<Card>, correct: string)
    ensures forall k :: 0 <= k < |Candidates(cards, correct)| ==>
      var w := Candidates(cards, correct)[k];
      w != [] && Lower(w) != Lower(correct) && w in AnswerSet(cards)
  {
    if cards != [] {
      CandidatesSound(cards[1..], correct);
      assert AnswerSet(cards[1..]) <= AnswerSet(cards) by {
        forall w | w in AnswerSet(cards[1..]) ensures w in AnswerSet(cards) {
          var c :| c in cards[1..] && Answer(c) == w;
          assert c in cards;
        }
      }
    }
  }

  /** Candidates of a concatenation are the concatenation of candidates. */
  lemma {:induction false} CandidatesAppend(a: seq<Card>, b: seq<Card>, correct: string)
    ensures Candidates(a + b, correct) == Candidates(a, correct) + Candidates(b, correct)
  {
    if a != [] {
      assert (a + b)[1..] == a[1..] + b;
      CandidatesAppend(a[1..], b, correct);
    } else {
      assert a + b == b;
    }
  }

  /** Reordering the cards reorders their candidates: the same candidates, as often, in another order. */
  lemma {:induction false} CandidatesPermutation(s: seq<Card>, t: seq<Card>, correct: string)
    requires multiset(s) == multiset(t)
    ensures multiset(Candidates(s, correct)) == multiset(Candidates(t, correct))
    ensures |Candidates(s, correct)| == |Candidates(t, correct)|
    decreases |s|
  {
    if s != [] {
      var x := s[0];
      assert x in multiset(t);
      var k :| 0 <= k < |t| && t[k] == x;
      RemoveOne(s, t, k);
      CandidatesPermutation(s[1..], t[..k] + t[k + 1..], correct);
      var cx, rest := Candidates([x], correct), Candidates(s[1..], correct);
      assert Candidates(s, correct) == cx + rest by {
        assert s == [x] + s[1..];
        CandidatesAppend([x], s[1..], correct);
      }
      CandidatesAround(t, k, correct);
      assert multiset(Candidates(s, correct)) == multiset(cx) + multiset(rest);
    }
    assert |Candidates(s, correct)| == |multiset(Candidates(s, correct))|;
    assert |Candidates(t, correct)| == |multiset(Candidates(t, correct))|;
  }

  /** Taking the first card of `s` out of a reordering `t` leaves a reordering of the rest. */
  lemma RemoveOne(s: seq<Card>, t: seq<Card>, k: nat)
    requires multiset(s) == multiset(t) && s != [] && k < |t| && t[k] == s[0]
    ensures multiset(s[1..]) == multiset(t[..k] + t[k + 1..])
  {
    var x := s[0];
    assert s == [x] + s[1..];
    assert t == t[..k] + [x] + t[k + 1..];
    calc {
      multiset(s[1..]);
      multiset(s) - multiset{x};
      multiset(t) - multiset{x};
      { assert multiset(t) == multiset(t[..k]) + multiset{x} + multiset(t[k + 1..]); }
      multiset(t[..k]) + multiset(t[k + 1..]);
      multiset(t[..k] + t[k + 1..]);
    }
  }

  /** The candidates of a sequence, as a multiset: those of card `k` plus those of the others. */
  lemma CandidatesAround(t: seq<Card>, k: nat, correct: string)
    requires k < |t|
    ensures multiset(Candidates(t, correct))
         == multiset(Candidates([t[k]], correct)) + multiset(Candidates(t[..k] + t[k + 1..], correct))
  {
    var before, after := t[..k], t[k + 1..];
    assert t == before + ([t[k]] + after);
    CandidatesAppend(before, [t[k]] + after, correct);
    CandidatesAppend([t[k]], after, correct);
    CandidatesAppend(before, after, correct);
  }

  /** A prefix takes each element at most as often as the whole sequence has it. */
  lemma PrefixSubMultiset<T>(s: seq<T>, n: nat)
    requires n <= |s|
    ensures multiset(s[..n]) <= multiset(s)
  {
    assert s == s[..n] + s[n..];
  }

  /** How many distractors a question may have: `CHOICES - 1`, and none when that is negative. */
  function Limit(choices: nat): nat {
    if choices >= 1 then choices - 1 else 0
  }

  /** The distractors the `wrongs` loop keeps: the first `choices - 1` candidates. */
  function TakeWrongs(candidates: seq<string>, choices: nat): (r: seq<string>) {
    candidates[..Min(|candidates|, Limit(choices))]
  }

  /**
   * The `wrongs` loop as written: it stops once `choices - 1` distractors are
   * kept, and adds each kept distractor to `seen`. The filter that produced
   * `candidates` has already run, so `seen` does not remove duplicates.
   */
  method PickDistractors(candidates: seq<string>, correct: string, choices: nat)
    returns (wrongs: seq<string>, seen: set<string>)
    ensures wrongs == TakeWrongs(candidates, choices)
    ensures |wrongs| <= Limit(choices)
    ensures seen == {Lower(correct)} + set w | w in wrongs :: Lower(w)
  {
    seen := {Lower(correct)};
    wrongs := [];
    var k := 0;
    while k < |candidates|
      invariant 0 <= k <= |candidates|
      invariant k <= Limit(choices)
      invariant wrongs == candidates[..k]
      invariant seen == {Lower(correct)} + set w | w in wrongs :: Lower(w)
    {
      if |wrongs| >= choices - 1 {
        break;
      }
      var r := candidates[k];
      seen := seen + {Lower(r)};
      assert (set w | w in wrongs + [r] :: Lower(w)) == (set w | w in wrongs :: Lower(w)) + {Lower(r)};
      wrongs := wrongs + [r];
      k := k + 1;
    }
  }

  /** `options.findIndex(x => x.toLowerCase() === correct.toLowerCase())`, searching from `from`. */
  function FindIndexFrom(options: seq<string>, correct: string, from: nat): (r: int)
    requires from <= |options|
    ensures r == -1 || from <= r < |options|
    ensures r >= 0 ==> Lower(options[r]) == Lower(correct)
    ensures forall k :: from <= k < |options| && (r == -1 || k < r) ==> Lower(options[k]) != Lower(correct)
    decreases |options| - from
  {
    if from == |options| then -1
    else if Lower(options[from]) == Lower(correct) then from
    else FindIndexFrom(options, correct, from + 1)
  }

  function FindIndex(options: seq<string>, correct: string): int {
    FindIndexFrom(options, correct, 0)
  }

  /** The question built for one subject card, or None when its romanisation is blank. */
  function BuildQuestion(card: Card, reservoir: seq<Card>, choices: nat, draws: seq<nat>): (Option<Question>, seq<nat>) {
    var correct := Answer(card);
    if correct == [] then (None, draws)
    else
      var (shuffled, d1) := Shuffle(reservoir, draws);
      var wrongs := TakeWrongs(Candidates(shuffled, correct), choices);
      var (options, d2) := Shuffle([correct] + wrongs, d1);
      (Some(Question(card, options, FindIndex(options, correct))), d2)
  }

  /** `qCards.map(...).filter(Boolean)`: one question per subject with a romanisation, in order. */
  function BuildAll(subjects: seq<Card>, reservoir: seq<Card>, choices: nat, draws: seq<nat>): (seq<Question>, seq<nat>)
    decreases |subjects|
  {
    if subjects == [] then ([], draws)
    else
      var (q, d1) := BuildQuestion(subjects[0], reservoir, choices, draws);
      var (rest, d2) := BuildAll(subjects[1..], reservoir, choices, d1);
      (if q.Some? then [q.value] + rest else rest, d2)
  }

  /** The `built` list of `load()`, and the draws it leaves. */
  function BuildQuestions(pool: seq<Card>, qs: nat, choices: nat, draws: seq<nat>): (seq<Question>, seq<nat>) {
    BuildAll(Subjects(pool, qs), Reservoir(pool, qs), choices, draws)
  }

  /** The subject cards of a list of questions. */
  function Cards(questions: seq<Question>): seq<Card> {
    if questions == [] then [] else [questions[0].card] + Cards(questions[1..])
  }

  /** The cards whose romanisation is not blank, in order. */
  function Answerable(cards: seq<Card>): seq<Card> {
    if cards == [] then []
    else if Answer(cards[0]) != [] then [cards[0]] + Answerable(cards[1..])
    else Answerable(cards[1..])
  }

  /** Filtering never lengthens, and keeps everything exactly when every card has an answer. */
  lemma {:induction false} AnswerableLength(cards: seq<Card>)
    ensures |Answerable(cards)| <= |cards|
    ensures |Answerable(cards)| == |cards| <==> forall c :: c in cards ==> Answer(c) != []
  {
    if cards != [] {
      AnswerableLength(cards[1..]);
      assert forall c :: c in cards <==> c == cards[0] || c in cards[1..];
    }
  }

  /** Largest option count a question can have. */
  function MaxOptions(choices: nat): nat {
    if choices >= 1 then choices else 1
  }

  /**
   * What the builder guarantees about one question built from `reservoir`:
   * the correct answer appears, at `correctIndex`; every other option is a
   * non-blank romanisation from the reservoir that differs from it ignoring
   * case; there are as many distractors as the reservoir offers, up to
   * `choices - 1`; and each distractor comes from a reservoir card of its
   * own, so an answer repeats among the options at most as often as
   * reservoir cards carry it.
   */
  ghost predicate WellFormed(q: Question, reservoir: seq<Card>, choices: nat) {
    var correct := Answer(q.card);
    correct != [] &&
    |q.options| == 1 + Min(Limit(choices), |Candidates(reservoir, correct)|) &&
    0 <= q.correctIndex < |q.options| &&
    q.options[q.correctIndex] == correct &&
    multiset(q.options) - multiset{correct} <= multiset(Candidates(reservoir, correct)) &&
    forall k :: 0 <= k < |q.options| && k != q.correctIndex ==>
      q.options[k] != [] && Lower(q.options[k]) != Lower(correct) && q.options[k] in AnswerSet(reservoir)
  }

  /** Two different positions holding the same value make it occur twice. */
  lemma TwoOccurrences<T>(s: seq<T>, i: nat, j: nat)
    requires i < j < |s| && s[i] == s[j]
    ensures multiset(s)[s[i]] >= 2
  {
    assert s == s[..j] + s[j..];
    assert s[i] in multiset(s[..j]);
    assert s[j] in multiset(s[j..]);
  }

  /** Cards of a shuffled reservoir yield the same answers as the reservoir. */
  lemma AnswerSetPermutation(s: seq<Card>, t: seq<Card>)
    requires multiset(s) == multiset(t)
    ensures AnswerSet(s) == AnswerSet(t)
  {
    forall c ensures c in s <==> c in t {
      assert c in s <==> c in multiset(s);
      assert c in t <==> c in multiset(t);
    }
  }

  /**
   * The option list is a permutation of the correct answer and distractors
   * that all differ from it ignoring case, so the case-insensitive search
   * finds the correct answer itself, and finds it only once.
   */
  lemma OptionsLocateAnswer(correct: string, wrongs: seq<string>, options: seq<string>)
    requires multiset(options) == multiset([correct] + wrongs)
    requires forall w :: w in wrongs ==> Lower(w) != Lower(correct)
    ensures 0 <= FindIndex(options, correct) < |options|
    ensures options[FindIndex(options, correct)] == correct
    ensures forall k :: 0 <= k < |options| && k != FindIndex(options, correct) ==>
      options[k] in wrongs && Lower(options[k]) != Lower(correct)
  {
    var raw := [correct] + wrongs;
    var ci := FindIndex(options, correct);
    assert forall k :: 0 <= k < |options| ==> options[k] == correct || options[k] in wrongs by {
      forall k | 0 <= k < |options| ensures options[k] == correct || options[k] in wrongs {
        assert options[k] in multiset(raw);
        assert options[k] in raw;
      }
    }
    assert correct in multiset(options) by {
      assert raw[0] == correct;
      assert correct in multiset(raw);
    }
    assert ci >= 0;
    assert options[ci] == correct;
    assert multiset(raw)[correct] == 1 by {
      assert correct !in multiset(wrongs);
      assert multiset(raw) == multiset{correct} + multiset(wrongs);
    }
    forall k | 0 <= k < |options| && k != ci
      ensures options[k] in wrongs && Lower(options[k]) != Lower(correct)
    {
      if options[k] == correct {
        if ci < k { TwoOccurrences(options, ci, k); }
        assert false;
      }
    }
  }

  /** The question assembled from a non-blank answer, its distractors and a shuffle of both is well formed. */
  lemma AssembledWellFormed(card: Card, reservoir: seq<Card>, choices: nat, wrongs: seq<string>, options: seq<string>)
    requires Answer(card) != []
    requires |wrongs| == Min(Limit(choices), |Candidates(reservoir, Answer(card))|)
    requires forall w :: w in wrongs ==> w != [] && Lower(w) != Lower(Answer(card)) && w in AnswerSet(reservoir)
    requires multiset(wrongs) <= multiset(Candidates(reservoir, Answer(card)))
    requires multiset(options) == multiset([Answer(card)] + wrongs)
    ensures WellFormed(Question(card, options, FindIndex(options, Answer(card))), reservoir, choices)
  {
    var correct := Answer(card);
    OptionsLocateAnswer(correct, wrongs, options);
    assert |options| == |multiset(options)| == |[correct] + wrongs|;
    assert multiset(options) - multiset{correct} == multiset(wrongs) by {
      assert multiset([correct] + wrongs) == multiset{correct} + multiset(wrongs);
    }
    var ci := FindIndex(options, correct);
    forall k | 0 <= k < |options| && k != ci
      ensures options[k] != [] && Lower(options[k]) != Lower(correct) && options[k] in AnswerSet(reservoir)
    {
      assert options[k] in wrongs;
    }
  }

  /** A subject yields a question exactly when it has a romanisation, and that question is well formed. */
  lemma BuildQuestionWellFormed(card: Card, reservoir: seq<Card>, choices: nat, draws: seq<nat>)
    ensures BuildQuestion(card, reservoir, choices, draws).0.None? <==> Answer(card) == []
    ensures BuildQuestion(card, reservoir, choices, draws).0.Some? ==>
      BuildQuestion(card, reservoir, choices, draws).0.value.card == card &&
      WellFormed(BuildQuestion(card, reservoir, choices, draws).0.value, reservoir, choices)
  {
    var correct := Answer(card);
    if correct != [] {
      var shuffled := Shuffle(reservoir, draws).0;
      ShufflePermutes(reservoir, draws);
      var cands := Candidates(shuffled, correct);
      CandidatesSound(shuffled, correct);
      CandidatesPermutation(shuffled, reservoir, correct);
      AnswerSetPermutation(shuffled, reservoir);
      var wrongs := TakeWrongs(cands, choices);
      PrefixSubMultiset(cands, |wrongs|);
      var d1 := Shuffle(reservoir, draws).1;
      var options := Shuffle([correct] + wrongs, d1).0;
      ShufflePermutes([correct] + wrongs, d1);
      AssembledWellFormed(card, reservoir, choices, wrongs, options);
    }
  }

  /** Question building, all subjects at once. */
  lemma {:induction false} BuildAllSpec(subjects: seq<Card>, reservoir: seq<Card>, choices: nat, draws: seq<nat>)
    ensures Cards(BuildAll(subjects, reservoir, choices, draws).0) == Answerable(subjects)
    ensures forall q :: q in BuildAll(subjects, reservoir, choices, draws).0 ==> WellFormed(q, reservoir, choices)
    decreases |subjects|
  {
    if subjects != [] {
      var (q, d1) := BuildQuestion(subjects[0], reservoir, choices, draws);
      BuildQuestionWellFormed(subjects[0], reservoir, choices, draws);
      BuildAllSpec(subjects[1..], reservoir, choices, d1);
      var rest := BuildAll(subjects[1..], reservoir, choices, d1).0;
      if q.Some? {
        assert ([q.value] + rest)[1..] == rest;
      }
    }
  }

  /**
   * The `built` list: one question per subject whose trimmed romanisation is
   * not blank, in subject order, so never more than `min(qs, pool.length)`
   * and exactly that many when every subject has a romanisation; every
   * question is well formed with respect to the reservoir.
   */
  lemma BuildQuestionsSpec(pool: seq<Card>, qs: nat, choices: nat, draws: seq<nat>)
    ensures Cards(BuildQuestions(pool, qs, choices, draws).0) == Answerable(Subjects(pool, qs))
    ensures |BuildQuestions(pool, qs, choices, draws).0| <= Min(qs, |pool|)
    ensures (forall c :: c in Subjects(pool, qs) ==> Answer(c) != []) ==>
      |BuildQuestions(pool, qs, choices, draws).0| == Min(qs, |pool|)
    ensures forall q :: q in BuildQuestions(pool, qs, choices, draws).0 ==>
      WellFormed(q, Reservoir(pool, qs), choices) &&
      1 <= |q.options| <= MaxOptions(choices)
  {
    var subjects := Subjects(pool, qs);
    var reservoir := Reservoir(pool, qs);
    var built := BuildAll(subjects, reservoir, choices, draws).0;
    assert BuildQuestions(pool, qs, choices, draws).0 == built;
    BuildAllSpec(subjects, reservoir, choices, draws);
    CardsLength(built);
    AnswerableLength(subjects);
    assert |subjects| == Min(qs, |pool|);
    forall q | q in built ensures 1 <= |q.options| <= MaxOptions(choices) {
      assert WellFormed(q, reservoir, choices);
    }
  }

  lemma {:induction false} CardsLength(questions: seq<Question>)
    ensures |Cards(questions)| == |questions|
  {
    if questions != [] {
      CardsLength(questions[1..]);
    }
  }

  /** The reservoir and option shuffles of the example below, with an empty draw stream. */
  lemma DuplicateExampleShuffles(other: Card, twin: Card)
    ensures Shuffle([other, twin], []) == ([twin, other], [])
    ensures Shuffle(["nung", "song", "song"], []) == (["song", "song", "nung"], [])
  {
    assert Pick([], 1) == 0 && Pick([], 2) == 0;
    assert Swap([other, twin], 1, 0) == [twin, other];
    assert Swap(["nung", "song", "song"], 2, 0) == ["song", "song", "nung"];
    assert Swap(["song", "song", "nung"], 1, 0) == ["song", "song", "nung"];
  }

  /** The single question of the example below: both "song" cards become options. */
  lemma DuplicateExampleQuestion(subject: Card, other: Card, twin: Card)
    requires subject.roman == Some("nung") && other.roman == Some("song") && twin.roman == Some("song")
    ensures BuildQuestion(subject, [other, twin], CHOICES, []).0 == Some(Question(subject, ["song", "song", "nung"], 2))
  {
    TrimKeepsTrimmed("nung");
    TrimKeepsTrimmed("song");
    assert Answer(subject) == "nung";
    assert Answer(other) == "song" && Answer(twin) == "song";
    assert Lower("song") != Lower("nung") by {
      LowerAt("song", 0);
      LowerAt("nung", 0);
    }
    DuplicateExampleShuffles(other, twin);
    assert Candidates([other], "nung") == ["song"];
    assert Candidates([twin, other], "nung") == ["song", "song"] by {
      assert [twin, other][1..] == [other];
    }
    assert TakeWrongs(["song", "song"], CHOICES) == ["song", "song"];
    assert ["nung"] + ["song", "song"] == ["nung", "song", "song"];
    assert FindIndex(["song", "song", "nung"], "nung") == 2 by {
      assert FindIndexFrom(["song", "song", "nung"], "nung", 2) == 2;
    }
  }

  /** The candidates of the example below: one "song" card and one "pho" card. */
  lemma RepeatExampleCandidates(song: Card, pho: Card)
    requires song.roman == Some("song") && pho.roman == Some("pho")
    ensures Candidates([song, pho], "nung") == ["song", "pho"]
  {
    TrimKeepsTrimmed("song");
    TrimKeepsTrimmed("pho");
    assert Answer(song) == "song" && Answer(pho) == "pho";
    assert Lower("song") != Lower("nung") && Lower("pho") != Lower("nung") by {
      LowerAt("song", 0);
      LowerAt("pho", 0);
      LowerAt("nung", 0);
    }
    assert Candidates([pho], "nung") == ["pho"];
    assert [song, pho][1..] == [pho];
  }

  /**
   * A distractor repeats no more often than reservoir cards carry it: with a
   * single "song" card in the reservoir, "song" cannot appear twice.
   */
  lemma RepeatNeedsTwoCards(subject: Card, song: Card, pho: Card)
    requires subject.roman == Some("nung") && song.roman == Some("song") && pho.roman == Some("pho")
    ensures !WellFormed(Question(subject, ["song", "song", "nung"], 2), [song, pho], CHOICES)
  {
    TrimKeepsTrimmed("nung");
    assert Answer(subject) == "nung";
    RepeatExampleCandidates(song, pho);
    var extra := multiset(["song", "song", "nung"]) - multiset{"nung"};
    assert extra["song"] == 2;
    assert multiset(["song", "pho"])["song"] == 1;
  }

  /**
   * Distractors need not be distinct: two reservoir cards with the same
   * romanisation both survive the candidate filter and both become options.
   */
  lemma DuplicateDistractorsPossible()
    ensures var subject := Card("1", "one", "", Some("nung"), None);
      var other := Card("2", "two", "", Some("song"), None);
      var twin := Card("3", "two", "", Some("song"), None);
      BuildQuestions([subject, other, twin], 1, CHOICES, []).0
        == [Question(subject, ["song", "song", "nung"], 2)]
  {
    var subject := Card("1", "one", "", Some("nung"), None);
    var other := Card("2", "two", "", Some("song"), None);
    var twin := Card("3", "two", "", Some("song"), None);
    var pool := [subject, other, twin];
    assert Subjects(pool, 1) == [subject];
    assert Reservoir(pool, 1) == [other, twin];
    DuplicateExampleQuestion(subject, other, twin);
    assert [subject][1..] == [];
  }
}
