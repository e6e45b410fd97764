/** The burn streak: how many days in a row, up to today or yesterday, have seen a burn. */
module BurnStreak {

  /** The days in a row that end at `day`. */
  function RunLength(days: set<int>, day: int): nat
    decreases |days|
  {
    if day in days then 1 + RunLength(days - {day}, day - 1) else 0
  }

  function Anchor(days: set<int>, today: int): int {
    if today in days then today else today - 1
  }

  function Streak(days: set<int>, today: int): nat {
    RunLength(days, Anchor(days, today))
  }

  /** The run reaches back exactly to the first day without a burn. */
  lemma {:induction false} RunIsUnbroken(days: set<int>, day: int)
    ensures var n := RunLength(days, day);
            (forall d | day - n < d <= day :: d in days) && day - n !in days
    decreases |days|
  {
    if day in days {
      RunIsUnbroken(days - {day}, day - 1);
      var n := RunLength(days, day);
      forall d | day - n < d <= day ensures d in days {
        if d < day { assert d in days - {day}; }
      }
      assert day - n !in days - {day};
    }
  }

  /**
   * The streak is zero exactly when neither today nor yesterday has a burn; otherwise it counts back from
   * the later of them without a gap, to a day without one.
   */
  lemma StreakMeaning(days: set<int>, today: int)
    ensures Streak(days, today) == 0 <==> today !in days && today - 1 !in days
    ensures var anchor, n := Anchor(days, today), Streak(days, today);
            (forall d | anchor - n < d <= anchor :: d in days) && anchor - n !in days
  {
    RunIsUnbroken(days, Anchor(days, today));
  }

  /** The first burn of a day makes the streak one longer, another one leaves it. */
  lemma BurningToday(days: set<int>, today: int)
    ensures Streak(days + {today}, today) == Streak(days, today) + if today in days then 0 else 1
  {
    if today in days {
      assert days + {today} == days;
    } else {
      assert days + {today} - {today} == days;
    }
  }

  method ComputeStreakFromBurnDays(days: set<int>, today: int) returns (streak: nat)
    ensures streak == Streak(days, today)
  {
    var current := if today in days then today else today - 1;
    streak := 0;
    ghost var left := days;
    while current in days
      invariant left <= days && forall d | d in days && d !in left :: d > current
      invariant streak + RunLength(left, current) == Streak(days, today)
      decreases |left|
    {
      streak := streak + 1;
      left := left - {current};
      current := current - 1;
    }
  }
}
