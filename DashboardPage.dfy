/**
 * The pure helpers of the dashboard page: the clock label of an itinerary
 * item, the "mood" card picked from the statistics, and which greeting each
 * of today's items gets.
 */
module DashboardPage {
  import opened Common

  /** `s.split(c)`: the pieces between the separators, empty pieces kept. */
  function Split(s: string, c: char): (parts: seq<string>)
    ensures |parts| >= 1
  {
    if s == [] then [""]
    else
      var rest := Split(s[1..], c);
      if s[0] == c then [""] + rest else [[s[0]] + rest[0]] + rest[1..]
  }

  /** `parts.join(c)`. */
  function Join(parts: seq<string>, c: char): string
    requires |parts| >= 1
  {
    if |parts| == 1 then parts[0] else parts[0] + [c] + Join(parts[1..], c)
  }

  /** Splitting and joining on the same separator gives the text back. */
  lemma {:induction false} JoinSplit(s: string, c: char)
    ensures Join(Split(s, c), c) == s
  {
    if s != [] {
      JoinSplit(s[1..], c);
      var rest := Split(s[1..], c);
      if s[0] == c {
        assert Split(s, c)[1..] == rest;
      } else {
        var parts := Split(s, c);
        if |rest| > 1 {
          assert parts[1..] == rest[1..];
        }
        assert s == [s[0]] + s[1..];
      }
    }
  }

  /** No piece contains the separator, and there is one piece more than separators. */
  lemma {:induction false} SplitPieces(s: string, c: char)
    ensures forall k :: 0 <= k < |Split(s, c)| ==> c !in Split(s, c)[k]
    ensures |Split(s, c)| == multiset(s)[c] + 1
  {
    if s != [] {
      SplitPieces(s[1..], c);
      assert s == [s[0]] + s[1..];
      assert multiset(s) == multiset{s[0]} + multiset(s[1..]);
    }
  }

  /** `s.padStart(2, "0")`. */
  function PadTwo(s: string): (r: string)
    ensures |r| >= 2
    ensures |s| >= 2 ==> r == s
    ensures |s| < 2 ==> |r| == 2 && r[2 - |s|..] == s && forall k :: 0 <= k < 2 - |s| ==> r[k] == '0'
    decreases 2 - |s|
  {
    if |s| >= 2 then s else PadTwo(['0'] + s)
  }

  const NoTime := "--:--"

  /** `formatTime(time)`: always some five-or-more-character label. */
  function FormatTime(time: Option<string>): (r: string)
    ensures |r| >= 5
    ensures time.None? || time.value == [] ==> r == NoTime
    ensures time.Some? && |time.value| >= 5 ==> r == time.value[..5]
    ensures time.Some? && 0 < |time.value| < 5 && ':' !in time.value ==> r == NoTime
    ensures time.Some? && 0 < |time.value| < 5 && ':' in time.value ==>
      var parts := Split(time.value, ':');
      |parts| >= 2 && r == PadTwo(parts[0]) + ":" + PadTwo(parts[1])
  {
    if time.None? || time.value == [] then NoTime
    else if |time.value| >= 5 then time.value[..5]
    else
      var parts := Split(time.value, ':');
      SplitPieces(time.value, ':');
      assert ':' in time.value <==> multiset(time.value)[':'] > 0;
      if |parts| >= 2 then PadTwo(parts[0]) + ":" + PadTwo(parts[1])
      else NoTime
  }

  /**
   * A short label with a colon is read as hour and minute: the text before
   * the first colon and the text after it up to the next colon, each
   * zero-filled to two digits.
   */
  lemma ShortTimeIsHourMinute(t: string)
    requires 0 < |t| < 5 && ':' in t
    ensures exists hh, mm, rest ::
      && Join([hh, mm] + rest, ':') == t && ':' !in hh && ':' !in mm
      && FormatTime(Some(t)) == PadTwo(hh) + ":" + PadTwo(mm)
  {
    var parts := Split(t, ':');
    JoinSplit(t, ':');
    SplitPieces(t, ':');
    var hh, mm, rest := parts[0], parts[1], parts[2..];
    assert parts == [hh, mm] + rest;
    assert ':' !in hh && ':' !in mm;
    assert FormatTime(Some(t)) == PadTwo(hh) + ":" + PadTwo(mm);
  }

  /** A single-digit hour and minute are zero-filled. */
  lemma ShortTimeZeroFilled()
    ensures FormatTime(Some("9:5")) == "09:05"
    ensures FormatTime(Some("12:30:00")) == "12:30"
  {
    assert "5"[1..] == [];
    assert Split([], ':') == [""];
    assert ['5'] + "" == "5";
    assert Split("5", ':') == ["5"];
    assert ":5"[1..] == "5";
    assert Split(":5", ':') == ["", "5"];
    assert "9:5"[1..] == ":5";
    assert ['9'] + "" == "9";
    assert (["", "5"])[1..] == ["5"];
    assert Split("9:5", ':') == ["9", "5"];
    assert "12:30:00"[..5] == "12:30";
  }

  // ---------------------------------------------------------------------------
  // The mood card and the item greetings.

  /** JavaScript's `a % b`: the remainder takes the sign of `a`. */
  function JsRem(a: int, b: int): (r: int)
    requires b > 0
    ensures a >= 0 ==> 0 <= r < b
    ensures a < 0 ==> -b < r <= 0
  {
    if a >= 0 then a % b else -((-a) % b)
  }

  const MoodCount: nat := 4
  const MessageCount: nat := 5
  const ShownToday: nat := 4

  /** `moodIndexBase % moodOptions.length`. */
  function MoodIndex(activeTrips: int, totalTrips: int, upcomingThisMonth: int, usedBudgetPercent: int): int
  {
    JsRem(activeTrips + totalTrips + upcomingThisMonth + usedBudgetPercent, MoodCount)
  }

  /** With non-negative statistics the mood index picks one of the four moods. */
  lemma MoodIndexInRange(activeTrips: int, totalTrips: int, upcomingThisMonth: int, usedBudgetPercent: int)
    requires activeTrips >= 0 && totalTrips >= 0 && upcomingThisMonth >= 0 && usedBudgetPercent >= 0
    ensures 0 <= MoodIndex(activeTrips, totalTrips, upcomingThisMonth, usedBudgetPercent) < MoodCount
  {
  }

  /** A negative sum would give a negative index, which names no mood. */
  lemma NegativeBaseMissesMoods()
    ensures MoodIndex(0, 0, 0, -1) == -1
  {
  }

  /**
   * `todayItineraryItems.slice(0, 4).map((item, index) => ...)`: at most four
   * items, each paired with greeting `index % 5`.
   */
  function Greeted<T>(items: seq<T>): (r: seq<(T, nat)>)
    ensures |r| == if |items| < ShownToday then |items| else ShownToday
    ensures forall i :: 0 <= i < |r| ==> r[i] == (items[i], i % MessageCount) && r[i].1 < MessageCount
  {
    var shown := if |items| < ShownToday then items else items[..ShownToday];
    seq(|shown|, i requires 0 <= i < |shown| => (shown[i], i % MessageCount))
  }

  /** Four shown items never wrap round the five greetings, so no two share one. */
  lemma GreetingsDistinct<T>(items: seq<T>)
    ensures forall i, j :: 0 <= i < j < |Greeted(items)| ==> Greeted(items)[i].1 != Greeted(items)[j].1
  {
  }
}
