/**
 * The Home screen: the row of twenty progress stars, the day's quote, the two
 * hearts and the artwork carousel.
 */
module Home {
  import opened Wrappers
  import opened Calendar
  import opened Seqs
  import opened QuoteOfDay

  datatype Star = Star(size: nat, filled: bool)

  /** The size ladder `i < 5 ? 10 : i < 10 ? 14 : i < 15 ? 18 : i < 18 ? 24 : 32`. */
  function StarSize(i: nat): nat
  {
    if i < 5 then 10 else if i < 10 then 14 else if i < 15 then 18 else if i < 18 then 24 else 32
  }

  /** `i < 15 || i === 18`. */
  predicate StarFilled(i: nat)
  {
    i < 15 || i == 18
  }

  /** `[...Array(20)].map((_, i) => <Star size=... filled=... />)`. */
  function Stars(): (r: seq<Star>)
    ensures |r| == 20
    ensures forall i :: 0 <= i < 20 ==> r[i] == Star(StarSize(i), StarFilled(i))
  {
    seq(20, (i: int) requires 0 <= i => Star(StarSize(i), StarFilled(i)))
  }

  /** Stars never get smaller along the row, and the sizes run from 10 to 32. */
  lemma StarSizesGrow(i: nat, j: nat)
    requires i <= j < 20
    ensures Stars()[i].size <= Stars()[j].size
    ensures 10 <= Stars()[i].size <= 32
  {
  }

  /** Sixteen of the twenty stars are filled: all of the first fifteen and the nineteenth. */
  lemma FilledStars()
    ensures Count(Stars(), (s: Star) => s.filled) == 16
    ensures forall i :: 0 <= i < 20 ==> (Stars()[i].filled <==> i < 15 || i == 18)
  {
    var st := Stars();
    CountFilled(st, 20);
    assert st[..20] == st;
  }

  /** The number of filled stars among the first `n`. */
  lemma {:induction false} CountFilled(st: seq<Star>, n: nat)
    requires |st| == 20 && n <= 20
    requires forall i :: 0 <= i < 20 ==> st[i] == Star(StarSize(i), StarFilled(i))
    ensures Count(st[..n], (s: Star) => s.filled) == if n <= 15 then n else if n <= 18 then 15 else 16
  {
    if n > 0 {
      CountFilled(st, n - 1);
      assert st[..n] == st[..n - 1] + [st[n - 1]];
      CountSnoc(st[..n - 1], st[n - 1], (s: Star) => s.filled);
    }
  }

  // ----- the quote card, the goal card and the carousel -----

  /** The screen's state: the two hearts, the artwork shown, and the day's quote. */
  datatype HomeState = HomeState(goalCompleted: bool, quoteHearted: bool, currentImageIndex: int, todayQuote: Option<nat>)

  /** The screen as it mounts on `today` with `count` quotes: nothing hearted, the first artwork, the day's quote. */
  function Initial(today: Date, count: nat): (s: HomeState)
    requires ValidDate(today)
    ensures !s.goalCompleted && !s.quoteHearted && s.currentImageIndex == 0
    ensures s.todayQuote.Some? <==> count > 0
    ensures s.todayQuote.Some? ==> s.todayQuote.value < count
    ensures s.todayQuote == QuoteIndex(today, count)
  {
    HomeState(false, false, 0, QuoteIndex(today, count))
  }

  /** Pressing the quote's heart: `setQuoteHearted(!quoteHearted)`. */
  function PressQuoteHeart(s: HomeState): (t: HomeState)
    ensures t.quoteHearted != s.quoteHearted
    ensures t.goalCompleted == s.goalCompleted && t.currentImageIndex == s.currentImageIndex && t.todayQuote == s.todayQuote
  {
    s.(quoteHearted := !s.quoteHearted)
  }

  /** Pressing the goal's heart: `setGoalCompleted(!goalCompleted)`. */
  function PressGoalHeart(s: HomeState): (t: HomeState)
    ensures t.goalCompleted != s.goalCompleted
    ensures t.quoteHearted == s.quoteHearted && t.currentImageIndex == s.currentImageIndex && t.todayQuote == s.todayQuote
  {
    s.(goalCompleted := !s.goalCompleted)
  }

  /** The left arrow: `Math.max(0, currentImageIndex - 1)`. */
  function PreviousImage(s: HomeState): (t: HomeState)
    ensures t.currentImageIndex >= 0
    ensures s.currentImageIndex > 0 ==> t.currentImageIndex == s.currentImageIndex - 1
    ensures s.currentImageIndex <= 0 ==> t.currentImageIndex == 0
    ensures t.(currentImageIndex := s.currentImageIndex) == s
  {
    s.(currentImageIndex := if s.currentImageIndex - 1 > 0 then s.currentImageIndex - 1 else 0)
  }

  /** The right arrow: `currentImageIndex + 1`, with no upper bound. */
  function NextImage(s: HomeState): (t: HomeState)
    ensures t.currentImageIndex == s.currentImageIndex + 1
    ensures t.(currentImageIndex := s.currentImageIndex) == s
  {
    s.(currentImageIndex := s.currentImageIndex + 1)
  }

  /** Each heart press undoes the previous one. */
  lemma HeartsToggleBack(s: HomeState)
    ensures PressQuoteHeart(PressQuoteHeart(s)) == s
    ensures PressGoalHeart(PressGoalHeart(s)) == s
  {
  }

  /** The left arrow undoes the right arrow from any artwork shown. */
  lemma PreviousUndoesNext(s: HomeState)
    requires s.currentImageIndex >= 0
    ensures PreviousImage(NextImage(s)) == s
  {
  }

  /** A press of an arrow: `true` for the right arrow, `false` for the left one. */
  function Browse(s: HomeState, presses: seq<bool>): HomeState
    decreases presses
  {
    if presses == [] then s
    else Browse(if presses[0] then NextImage(s) else PreviousImage(s), presses[1..])
  }

  /**
   * Whatever the arrows pressed, the artwork index never drops below 0, and it
   * is at most the number of right presses.
   */
  lemma {:induction false} BrowseInRange(s: HomeState, presses: seq<bool>)
    requires s.currentImageIndex >= 0
    ensures Browse(s, presses).currentImageIndex >= 0
    ensures Browse(s, presses).currentImageIndex <= s.currentImageIndex + Count(presses, (b: bool) => b)
    decreases presses
  {
    if presses != [] {
      var next := if presses[0] then NextImage(s) else PreviousImage(s);
      BrowseInRange(next, presses[1..]);
    }
  }
}
