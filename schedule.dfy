/** `_calculate_next_update_time` (feed.py): how long to wait before polling a
    feed again, from the number of its articles published in the last week.
    Python's float division and `round` are replaced by exact integer arithmetic
    with the same rounding rule; `random.randint` is the `jitter` input. */
module Schedule {

  const ThirtyMinutes := 1800
  const TwelveHours := 43200
  const OneDay := 86400
  const Week := 7 * OneDay

  predicate ValidJitter(jitter: int) {
    -ThirtyMinutes <= jitter <= ThirtyMinutes
  }

  /** `round(n / d)` in Python: the nearest integer, ties to the even one. */
  function RoundHalfEven(n: nat, d: nat): (r: nat)
    requires d > 0
    ensures -(d as int) <= 2 * n - 2 * d * r <= d
    ensures (2 * n - 2 * d * r == d || 2 * n - 2 * d * r == -(d as int)) ==> r % 2 == 0
  {
    var q, m := n / d, n % d;
    var r := if 2 * m < d then q
             else if 2 * m > d then q + 1
             else if q % 2 == 0 then q
             else q + 1;
    RoundingGap(n, d, q, m, r);
    r
  }

  /** Twice the rounding error, for the quotient or the quotient plus one. */
  lemma RoundingGap(n: nat, d: nat, q: int, m: int, r: int)
    requires n == d * q + m
    requires r == q || r == q + 1
    ensures 2 * n - 2 * d * r == if r == q then 2 * m else 2 * m - 2 * d
  {
    if r == q + 1 {
      assert d * r == d * q + d;
    }
  }

  /** The average number of articles a day over the week is at most 0.1. */
  predicate Quiet(count: nat) {
    (count as real) / 7.0 <= 0.1
  }

  /** The seconds until the next poll, given `count` articles in the last week. */
  function Interval(count: nat, jitter: int): (r: int)
    requires ValidJitter(jitter)
    // a quiet week: a day, shifted by the jitter
    ensures count == 0 ==> r == OneDay + jitter
    ensures count == 0 ==> OneDay - ThirtyMinutes <= r <= OneDay + ThirtyMinutes
    ensures count > 0 ==> 0 <= r <= TwelveHours
    // up to three articles a quarter of the mean gap exceeds twelve hours, so the cap applies
    ensures 1 <= count <= 3 ==> r == TwelveHours
    // from four articles on it is `round(151200 / count)`: the nearest integer, ties to the even one
    ensures count >= 4 ==> r == RoundHalfEven(151200, count)
    ensures count >= 4 ==> -(count as int) <= 2 * 151200 - 2 * count * r <= count
    ensures count >= 4 && (2 * 151200 - 2 * count * r == count || 2 * 151200 - 2 * count * r == -(count as int)) ==> r % 2 == 0
  {
    QuietMeansNoArticles(count);
    if Quiet(count) then OneDay + jitter
    else
      // one_day / (count / 7) / 4 == 151200 / count
      var rounded := RoundHalfEven(151200, count);
      CapBoundary(count, rounded);
      if rounded < TwelveHours then rounded else TwelveHours
  }

  /** The cap of twelve hours bites for one to three articles and never from four on. */
  lemma CapBoundary(count: nat, r: nat)
    requires count > 0 && -(count as int) <= 2 * 151200 - 2 * count * r <= count
    ensures count <= 3 ==> r >= TwelveHours
    ensures count >= 4 ==> r < TwelveHours
  {
    if count >= 4 && r >= TwelveHours {
      MulAtLeast(2 * count, r, TwelveHours);
      assert false;
    }
    if count <= 3 && r < TwelveHours {
      MulAtLeast(2 * count, TwelveHours - 1, r);
      assert false;
    }
  }

  /** The float test `count / 7 <= 0.1` holds exactly when there was no article. */
  lemma QuietMeansNoArticles(count: nat)
    ensures Quiet(count) <==> count == 0
  {
    if count > 0 {
      assert (count as real) / 7.0 >= 1.0 / 7.0;
    }
  }

  lemma MulAtLeast(a: int, b: int, c: int)
    requires a >= 0 && b >= c
    ensures a * b >= a * c
  {
  }

  /** The interval is positive unless the week held at least 302400 articles, where
      `round` yields 0 and the feed is due again at once. */
  lemma PositiveBelowFlood(count: nat, jitter: int)
    requires ValidJitter(jitter)
    ensures count > 0 ==> (Interval(count, jitter) > 0 <==> count < 302400)
  {
    QuietMeansNoArticles(count);
    if count == 0 { return; }
    var r := RoundHalfEven(151200, count);
    if r == 0 {
      assert 302400 <= count;
    } else {
      MulAtLeast(2 * count, r, 1);
      if r >= 2 {
        MulAtLeast(2 * count, r, 2);
      } else {
        assert 302400 - 2 * count != -(count as int);
      }
    }
  }

  /** A feed with eight articles a day is polled every 45 minutes. */
  lemma EightADay(jitter: int)
    requires ValidJitter(jitter)
    ensures Interval(8 * 7, jitter) == 2700
  {
    QuietMeansNoArticles(56);
    assert 151200 / 56 == 2700 && 151200 % 56 == 0;
  }

  /** A feed with one article in the week is polled every 12 hours: the cap applies. */
  lemma OneAWeek(jitter: int)
    requires ValidJitter(jitter)
    ensures Interval(1, jitter) == TwelveHours
  {
    QuietMeansNoArticles(1);
  }

  /** `now + interval`. */
  function NextUpdateTime(count: nat, now: int, jitter: int): (r: int)
    requires ValidJitter(jitter)
    ensures count == 0 ==> now + OneDay - ThirtyMinutes <= r <= now + OneDay + ThirtyMinutes
    ensures count > 0 ==> now <= r <= now + TwelveHours
    ensures r > now <==> count < 302400
  {
    PositiveBelowFlood(count, jitter);
    now + Interval(count, jitter)
  }
}
