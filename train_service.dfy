/**
 * Arrival extraction and display formatting (train_service.py).
 *
 * `get_train_times` walks the decoded feed, keeps the stop-time updates of
 * one stop, turns each usable time into whole minutes from `now` and returns
 * the three earliest; `format_train_display` turns those into one line of
 * text and a colour per character. `now` is a parameter here (the source
 * reads the clock).
 */
module TrainService {
  import opened Wrappers
  import opened Wire
  import opened GtfsFeed

  /** The fixed shift from UTC to Eastern Standard Time, in seconds. */
  const EST_OFFSET: int := -5 * 3600

  /** At most this many arrivals are returned. */
  const MAX_ARRIVALS: nat := 3

  /** 24-bit RGB values from config.py. */
  type Color = nat

  const COLOR_BLUE: Color := 0x00FF66
  const COLOR_RED: Color := 0xFF0000
  const COLOR_YELLOW: Color := 0xFF00FF
  const COLOR_WHITE: Color := 0xFFFFFF

  /** One upcoming train: the trip it runs and the whole minutes until it leaves. */
  datatype Arrival = Arrival(tripId: Option<Text>, minutes: int)

  /**
   * The one way `get_train_times` fails: a trip update that carries no trip
   * descriptor, on which `.get("trip_id", ...)` is then called.
   */
  datatype ServiceError = MissingTrip

  // ---------------------------------------------------------------------------
  // Arrivals of one stop
  // ---------------------------------------------------------------------------

  /** Python truthiness of a decoded time: `None` and 0 both count as absent. */
  predicate Truthy(t: Time) {
    t.Some? && t.value != 0
  }

  /** The departure time when it is truthy, otherwise the arrival time. */
  function BestTime(u: StopTimeUpdate): Time {
    if Truthy(u.departureTime) then u.departureTime else u.arrivalTime
  }

  /**
   * `int((best + EST_OFFSET - now) // 60)`; with a positive divisor Dafny's
   * division rounds down exactly as Python's `//` does.
   */
  function MinutesUntil(best: int, now: int): int {
    (best + EST_OFFSET - now) / 60
  }

  /** What one stop-time update adds to the list: nothing, or one arrival. */
  function ArrivalFor(u: StopTimeUpdate, stopId: Text, tripId: Option<Text>, now: int): Option<Arrival> {
    if u.stopId != Some(stopId) then None
    else
      var best := BestTime(u);
      if !Truthy(best) || best.value < now then None
      else Some(Arrival(tripId, MinutesUntil(best.value, now)))
  }

  function AsSeq<T>(o: Option<T>): seq<T> {
    if o.Some? then [o.value] else []
  }

  /** The arrivals `process_stop_updates` appends for the updates `us`, in their order. */
  function StopArrivals(us: seq<StopTimeUpdate>, stopId: Text, tripId: Option<Text>, now: int): seq<Arrival>
    decreases |us|
  {
    if |us| == 0 then []
    else StopArrivals(us[..|us| - 1], stopId, tripId, now) + AsSeq(ArrivalFor(us[|us| - 1], stopId, tripId, now))
  }

  /**
   * The list `get_train_times` has built after the entities `es`: entities
   * without a trip update are passed over, and a trip update without a trip
   * descriptor ends the call with an error.
   */
  function Collected(es: seq<Entity>, stopId: Text, now: int): (r: Result<seq<Arrival>, ServiceError>)
    ensures r.Err? <==> exists i | 0 <= i < |es| :: es[i].tripUpdate.Some? && es[i].tripUpdate.value.trip.None?
    decreases |es|
  {
    if |es| == 0 then Ok([])
    else
      assert forall i | 0 <= i < |es| - 1 :: es[..|es| - 1][i] == es[i];
      var earlier :- Collected(es[..|es| - 1], stopId, now);
      var tripUpdate := es[|es| - 1].tripUpdate;
      if tripUpdate.None? then Ok(earlier)
      else if tripUpdate.value.trip.None? then Err(MissingTrip)
      else Ok(earlier + StopArrivals(tripUpdate.value.stopTimeUpdates, stopId, tripUpdate.value.trip.value.tripId, now))
  }

  // ---------------------------------------------------------------------------
  // Sorting: Python's `sorted` is stable
  // ---------------------------------------------------------------------------

  predicate SortedByMinutes(s: seq<Arrival>) {
    forall i, j | 0 <= i < j < |s| :: s[i].minutes <= s[j].minutes
  }

  /** `a` goes in front of the first element that does not leave earlier than it. */
  function Insert(a: Arrival, s: seq<Arrival>): seq<Arrival>
    decreases |s|
  {
    if |s| == 0 || a.minutes <= s[0].minutes then [a] + s
    else [s[0]] + Insert(a, s[1..])
  }

  /** `sorted(arrivals, key=lambda x: x[1])`. */
  function SortByMinutes(xs: seq<Arrival>): seq<Arrival>
    decreases |xs|
  {
    if |xs| == 0 then [] else Insert(xs[0], SortByMinutes(xs[1..]))
  }

  /** The arrivals in `s` that leave in exactly `m` minutes, in their order in `s`. */
  function WithMinutes(s: seq<Arrival>, m: int): seq<Arrival>
    decreases |s|
  {
    if |s| == 0 then []
    else (if s[0].minutes == m then [s[0]] else []) + WithMinutes(s[1..], m)
  }

  /** The result of `get_train_times` for the decoded feed `feed`. */
  function TrainTimes(feed: FeedMessage, stopId: Text, now: int): Result<seq<Arrival>, ServiceError> {
    var all :- Collected(feed.entities, stopId, now);
    var sorted := SortByMinutes(all);
    Ok(sorted[..Min(MAX_ARRIVALS, |sorted|)])
  }

  // ---------------------------------------------------------------------------
  // The loops of train_service.py
  // ---------------------------------------------------------------------------

  /** `process_stop_updates`: appends to `arrivals` the arrivals of one trip update at `stopId`. */
  method ProcessStopUpdates(tripUpdate: TripUpdate, stopId: Text, tripId: Option<Text>, now: int, arrivals: seq<Arrival>)
    returns (arrivals': seq<Arrival>)
    ensures arrivals' == arrivals + StopArrivals(tripUpdate.stopTimeUpdates, stopId, tripId, now)
  {
    arrivals' := arrivals;
    var us := tripUpdate.stopTimeUpdates;
    for k := 0 to |us|
      invariant arrivals' == arrivals + StopArrivals(us[..k], stopId, tripId, now)
    {
      assert us[..k + 1][..k] == us[..k];
      var stu := us[k];
      if stu.stopId != Some(stopId) {
        continue;
      }
      var arrTime := stu.arrivalTime;
      var depTime := stu.departureTime;
      var bestTime := if Truthy(depTime) then depTime else arrTime;
      if !Truthy(bestTime) || bestTime.value < now {
        continue;
      }
      var localTime := bestTime.value + EST_OFFSET;
      var mins := (localTime - now) / 60;
      arrivals' := arrivals' + [Arrival(tripId, mins)];
    }
    assert us[..|us|] == us;
  }

  /** `get_train_times` on a decoded feed, with the clock reading `now` passed in. */
  method GetTrainTimes(feed: FeedMessage, stopId: Text, now: int) returns (r: Result<seq<Arrival>, ServiceError>)
    ensures r == TrainTimes(feed, stopId, now)
  {
    var arrivals: seq<Arrival> := [];
    var es := feed.entities;
    for i := 0 to |es|
      invariant Collected(es[..i], stopId, now) == Ok(arrivals)
    {
      assert es[..i + 1][..i] == es[..i];
      var tripUpdate := es[i].tripUpdate;
      if tripUpdate.None? {
        continue;
      }
      if tripUpdate.value.trip.None? {
        CollectedFailureSticks(es, i + 1, stopId, now);
        return Err(MissingTrip);
      }
      var tripId := tripUpdate.value.trip.value.tripId;
      arrivals := ProcessStopUpdates(tripUpdate.value, stopId, tripId, now, arrivals);
    }
    assert es[..|es|] == es;
    var sorted := SortByMinutes(arrivals);
    return Ok(sorted[..Min(MAX_ARRIVALS, |sorted|)]);
  }

  /** Once the entities seen so far have failed, the whole call fails. */
  lemma {:induction false} CollectedFailureSticks(es: seq<Entity>, n: nat, stopId: Text, now: int)
    requires n <= |es| && Collected(es[..n], stopId, now).Err?
    ensures Collected(es, stopId, now) == Err(MissingTrip)
    decreases |es|
  {
    if n < |es| {
      var init := es[..|es| - 1];
      assert init[..n] == es[..n];
      CollectedFailureSticks(init, n, stopId, now);
    } else {
      assert es[..n] == es;
      var r := Collected(es, stopId, now);
      assert r.error.MissingTrip?;
    }
  }

  // ---------------------------------------------------------------------------
  // Properties of the extraction
  // ---------------------------------------------------------------------------

  /**
   * An update yields an arrival only for the requested stop, with a truthy
   * best time (the departure when that is truthy) not before `now`; the
   * minutes are that time, shifted to Eastern time, less `now`, rounded down
   * to whole minutes, and so never below -300.
   */
  lemma ArrivalForCharacterised(u: StopTimeUpdate, stopId: Text, tripId: Option<Text>, now: int)
    ensures ArrivalFor(u, stopId, tripId, now).Some? <==>
              u.stopId == Some(stopId) && Truthy(BestTime(u)) && BestTime(u).value >= now
    ensures Truthy(u.departureTime) ==> BestTime(u) == u.departureTime
    ensures !Truthy(u.departureTime) ==> BestTime(u) == u.arrivalTime
    ensures ArrivalFor(u, stopId, tripId, now).Some? ==>
              var a := ArrivalFor(u, stopId, tripId, now).value;
              var seconds := BestTime(u).value + EST_OFFSET - now;
              a.tripId == tripId && 60 * a.minutes <= seconds < 60 * a.minutes + 60 && a.minutes >= -300
  {
    if ArrivalFor(u, stopId, tripId, now).Some? {
      var seconds := BestTime(u).value + EST_OFFSET - now;
      assert seconds >= -18000;
      assert seconds == 60 * (seconds / 60) + seconds % 60;
    }
  }

  /** The arrivals of a trip update are exactly those its stop-time updates yield. */
  lemma {:induction false} StopArrivalsMembership(us: seq<StopTimeUpdate>, stopId: Text, tripId: Option<Text>, now: int, a: Arrival)
    ensures a in StopArrivals(us, stopId, tripId, now) <==>
              exists j | 0 <= j < |us| :: ArrivalFor(us[j], stopId, tripId, now) == Some(a)
    decreases |us|
  {
    if |us| > 0 {
      var init := us[..|us| - 1];
      StopArrivalsMembership(init, stopId, tripId, now, a);
      if a in StopArrivals(us, stopId, tripId, now) {
        if a in StopArrivals(init, stopId, tripId, now) {
          var j :| 0 <= j < |init| && ArrivalFor(init[j], stopId, tripId, now) == Some(a);
          assert us[j] == init[j];
        } else {
          assert ArrivalFor(us[|us| - 1], stopId, tripId, now) == Some(a);
        }
      }
      if exists j | 0 <= j < |us| :: ArrivalFor(us[j], stopId, tripId, now) == Some(a) {
        var j :| 0 <= j < |us| && ArrivalFor(us[j], stopId, tripId, now) == Some(a);
        if j < |init| {
          assert init[j] == us[j];
        }
      }
    }
  }

  /** The trip update of entity `i` has a descriptor, and its `j`th stop-time update yields `a`. */
  predicate Contributes(es: seq<Entity>, i: int, j: int, stopId: Text, now: int, a: Arrival) {
    0 <= i < |es| && es[i].tripUpdate.Some? && es[i].tripUpdate.value.trip.Some? &&
    0 <= j < |es[i].tripUpdate.value.stopTimeUpdates| &&
    ArrivalFor(es[i].tripUpdate.value.stopTimeUpdates[j], stopId, es[i].tripUpdate.value.trip.value.tripId, now) == Some(a)
  }

  /** Every collected arrival comes from a stop-time update at the requested stop, and every such arrival is collected. */
  lemma {:induction false} CollectedMembership(es: seq<Entity>, stopId: Text, now: int, a: Arrival)
    requires Collected(es, stopId, now).Ok?
    ensures a in Collected(es, stopId, now).value <==>
              exists i, j :: Contributes(es, i, j, stopId, now, a)
    decreases |es|
  {
    if |es| > 0 {
      var init := es[..|es| - 1];
      var last := |es| - 1;
      assert Collected(init, stopId, now).Ok?;
      CollectedMembership(init, stopId, now, a);
      forall i, j | Contributes(init, i, j, stopId, now, a) ensures Contributes(es, i, j, stopId, now, a) {
        assert es[i] == init[i];
      }
      var tu := es[last].tripUpdate;
      if tu.Some? {
        StopArrivalsMembership(tu.value.stopTimeUpdates, stopId, tu.value.trip.value.tripId, now, a);
      }
      if a in Collected(es, stopId, now).value && a !in Collected(init, stopId, now).value {
        var j :| 0 <= j < |tu.value.stopTimeUpdates| &&
                 ArrivalFor(tu.value.stopTimeUpdates[j], stopId, tu.value.trip.value.tripId, now) == Some(a);
        assert Contributes(es, last, j, stopId, now, a);
      }
      if exists i, j :: Contributes(es, i, j, stopId, now, a) {
        var i, j :| Contributes(es, i, j, stopId, now, a);
        if i < last {
          assert Contributes(init, i, j, stopId, now, a);
        } else {
          assert ArrivalFor(tu.value.stopTimeUpdates[j], stopId, tu.value.trip.value.tripId, now) == Some(a);
        }
      }
    }
  }

  /** Every collected arrival leaves at most five hours' worth of minutes before `now`: minutes >= -300. */
  lemma CollectedMinutesBound(es: seq<Entity>, stopId: Text, now: int)
    requires Collected(es, stopId, now).Ok?
    ensures forall a | a in Collected(es, stopId, now).value :: a.minutes >= -300
  {
    forall a | a in Collected(es, stopId, now).value ensures a.minutes >= -300 {
      CollectedMembership(es, stopId, now, a);
      var i, j :| Contributes(es, i, j, stopId, now, a);
      var tu := es[i].tripUpdate.value;
      ArrivalForCharacterised(tu.stopTimeUpdates[j], stopId, tu.trip.value.tripId, now);
    }
  }

  // ---------------------------------------------------------------------------
  // Properties of the sort
  // ---------------------------------------------------------------------------

  lemma {:induction false} InsertPermutes(a: Arrival, s: seq<Arrival>)
    ensures multiset(Insert(a, s)) == multiset(s) + multiset{a}
    decreases |s|
  {
    if |s| > 0 && a.minutes > s[0].minutes {
      InsertPermutes(a, s[1..]);
      assert s == [s[0]] + s[1..];
    }
  }

  lemma {:induction false} InsertSorted(a: Arrival, s: seq<Arrival>)
    requires SortedByMinutes(s)
    ensures SortedByMinutes(Insert(a, s))
    decreases |s|
  {
    if |s| == 0 || a.minutes <= s[0].minutes {
      ConsSorted(a, s);
    } else {
      var t := Insert(a, s[1..]);
      InsertSorted(a, s[1..]);
      InsertPermutes(a, s[1..]);
      forall x | x in t ensures s[0].minutes <= x.minutes {
        assert x in multiset(t);
        if x != a {
          assert x in multiset(s[1..]);
        }
      }
      ConsSorted(s[0], t);
    }
  }

  /** An arrival no later than anything in a sorted list can go in front of it. */
  lemma ConsSorted(h: Arrival, t: seq<Arrival>)
    requires SortedByMinutes(t) && forall x | x in t :: h.minutes <= x.minutes
    ensures SortedByMinutes([h] + t)
  {
    forall i, j | 0 <= i < j < |[h] + t| ensures ([h] + t)[i].minutes <= ([h] + t)[j].minutes {
      assert ([h] + t)[j] == t[j - 1];
      if i > 0 {
        assert ([h] + t)[i] == t[i - 1];
      }
    }
  }

  /** The first element and the rest of a list built by prepending. */
  lemma ConsTail<T>(x: T, s: seq<T>)
    ensures ([x] + s)[0] == x && ([x] + s)[1..] == s
  {
  }

  /** The sorted list is ordered by minutes and holds the same arrivals. */
  lemma {:induction false} SortByMinutesSorted(xs: seq<Arrival>)
    ensures SortedByMinutes(SortByMinutes(xs))
    ensures multiset(SortByMinutes(xs)) == multiset(xs)
    decreases |xs|
  {
    if |xs| > 0 {
      SortByMinutesSorted(xs[1..]);
      InsertSorted(xs[0], SortByMinutes(xs[1..]));
      InsertPermutes(xs[0], SortByMinutes(xs[1..]));
      ConsTail(xs[0], xs[1..]);
      assert xs == [xs[0]] + xs[1..];
    }
  }

  lemma {:induction false} InsertKeepsTies(a: Arrival, s: seq<Arrival>, m: int)
    ensures WithMinutes(Insert(a, s), m) == (if a.minutes == m then [a] else []) + WithMinutes(s, m)
    decreases |s|
  {
    if |s| == 0 || a.minutes <= s[0].minutes {
      ConsTail(a, s);
    } else {
      InsertKeepsTies(a, s[1..], m);
      ConsTail(s[0], Insert(a, s[1..]));
      if a.minutes == m {
        assert s[0].minutes != m;
      }
    }
  }

  /** Stability: arrivals with equal minutes keep the order in which they were collected. */
  lemma {:induction false} SortByMinutesStable(xs: seq<Arrival>, m: int)
    ensures WithMinutes(SortByMinutes(xs), m) == WithMinutes(xs, m)
    decreases |xs|
  {
    if |xs| > 0 {
      SortByMinutesStable(xs[1..], m);
      InsertKeepsTies(xs[0], SortByMinutes(xs[1..]), m);
    }
  }

  /**
   * `get_train_times` returns at most three arrivals, sorted by minutes, all
   * collected ones when there are three or fewer, and no collected arrival it
   * leaves out departs earlier than one it returns.
   */
  lemma TrainTimesEarliest(feed: FeedMessage, stopId: Text, now: int)
    requires Collected(feed.entities, stopId, now).Ok?
    ensures var all := Collected(feed.entities, stopId, now).value;
            var r := TrainTimes(feed, stopId, now);
            r.Ok? && |r.value| == Min(MAX_ARRIVALS, |all|) &&
            SortedByMinutes(r.value) &&
            multiset(r.value) <= multiset(all) &&
            forall x, y | x in r.value && y in multiset(all) - multiset(r.value) :: x.minutes <= y.minutes
  {
    var all := Collected(feed.entities, stopId, now).value;
    var sorted := SortByMinutes(all);
    SortByMinutesSorted(all);
    var n := Min(MAX_ARRIVALS, |sorted|);
    SortedSplit(sorted, n);
    var front := sorted[..n];
    forall x, y | x in front && y in multiset(all) - multiset(front) ensures x.minutes <= y.minutes {
      assert y in sorted[n..];
    }
  }

  /** A sorted list cut in two: the front is sorted and nothing behind leaves earlier than anything in front. */
  lemma SortedSplit(sorted: seq<Arrival>, n: nat)
    requires SortedByMinutes(sorted) && n <= |sorted|
    ensures SortedByMinutes(sorted[..n])
    ensures multiset(sorted) == multiset(sorted[..n]) + multiset(sorted[n..])
    ensures forall x, y | x in sorted[..n] && y in sorted[n..] :: x.minutes <= y.minutes
  {
    assert sorted == sorted[..n] + sorted[n..];
    forall x, y | x in sorted[..n] && y in sorted[n..] ensures x.minutes <= y.minutes {
      var i :| 0 <= i < n && sorted[..n][i] == x;
      var j :| 0 <= j < |sorted| - n && sorted[n..][j] == y;
      assert sorted[i] == x && sorted[n + j] == y;
    }
  }

  /** Ties in the returned list appear in the order the feed listed them. */
  lemma TrainTimesKeepFeedOrder(feed: FeedMessage, stopId: Text, now: int, m: int)
    requires Collected(feed.entities, stopId, now).Ok?
    ensures var all := Collected(feed.entities, stopId, now).value;
            var r := TrainTimes(feed, stopId, now);
            r.Ok? && WithMinutes(SortByMinutes(all), m) == WithMinutes(all, m) &&
            r.value == SortByMinutes(all)[..|r.value|]
  {
    SortByMinutesStable(Collected(feed.entities, stopId, now).value, m);
  }

  // ---------------------------------------------------------------------------
  // Colours and text
  // ---------------------------------------------------------------------------

  /** `get_time_color`: red under two minutes, yellow under five, white otherwise. */
  function TimeColor(mins: int): (c: Color)
    ensures c == COLOR_RED <==> mins < 2
    ensures c == COLOR_YELLOW <==> 2 <= mins < 5
    ensures c == COLOR_WHITE <==> 5 <= mins
  {
    if mins < 2 then COLOR_RED
    else if mins < 5 then COLOR_YELLOW
    else COLOR_WHITE
  }

  function Repeat(c: Color, n: nat): seq<Color> {
    seq(n, _ => c)
  }

  predicate IsNumeral(c: char) {
    c == '-' || '0' <= c <= '9'
  }

  function DigitChar(d: nat): char
    requires d < 10
  {
    ('0' as int + d) as char
  }

  /** The decimal digits of `n`, most significant first, without leading zeros. */
  function Digits(n: nat): (s: string)
    ensures |s| >= 1
    ensures forall k | 0 <= k < |s| :: '0' <= s[k] <= '9'
    decreases n
  {
    if n < 10 then [DigitChar(n)] else Digits(n / 10) + [DigitChar(n % 10)]
  }

  /** `str(m)` for an integer. */
  function DecimalString(m: int): (s: string)
    ensures |s| >= 1
    ensures forall k | 0 <= k < |s| :: IsNumeral(s[k])
    ensures s[0] == '-' <==> m < 0
  {
    if m < 0 then "-" + Digits(-m) else Digits(m)
  }

  /** The value of a string of decimal digits. */
  function DigitsValue(s: string): int
    decreases |s|
  {
    if |s| == 0 then 0 else 10 * DigitsValue(s[..|s| - 1]) + (s[|s| - 1] as int - '0' as int)
  }

  /** `int(s)` for an optionally signed string of digits. */
  function DecimalValue(s: string): int {
    if |s| > 0 && s[0] == '-' then -DigitsValue(s[1..]) else DigitsValue(s)
  }

  lemma {:induction false} DigitsRoundTrip(n: nat)
    ensures DigitsValue(Digits(n)) == n
    decreases n
  {
    if n >= 10 {
      DigitsRoundTrip(n / 10);
      var s := Digits(n);
      assert s[..|s| - 1] == Digits(n / 10);
    }
  }

  /** Reading back the minutes shown on the display gives the minutes. */
  lemma DecimalRoundTrip(m: int)
    ensures DecimalValue(DecimalString(m)) == m
  {
    if m < 0 {
      DigitsRoundTrip(-m);
      assert DecimalString(m)[1..] == Digits(-m);
    } else {
      DigitsRoundTrip(m);
    }
  }

  /** `" {mins}m"`. */
  function Piece(m: int): string {
    " " + DecimalString(m) + "m"
  }

  /** The colours appended for one piece: white for the space, the urgency colour for the number and the `m`. */
  function PieceColors(m: int): seq<Color> {
    [COLOR_WHITE] + Repeat(TimeColor(m), |DecimalString(m)|) + [TimeColor(m)]
  }

  /** The text appended for arrival `k`: its piece and, unless it is the last, a comma. */
  function Segment(arrivals: seq<Arrival>, k: nat): string
    requires k < |arrivals|
  {
    Piece(arrivals[k].minutes) + (if k < |arrivals| - 1 then "," else "")
  }

  function SegmentColors(arrivals: seq<Arrival>, k: nat): seq<Color>
    requires k < |arrivals|
  {
    PieceColors(arrivals[k].minutes) + (if k < |arrivals| - 1 then [COLOR_WHITE] else [])
  }

  /** The concatenation of `parts`, in order. */
  function Concat<T>(parts: seq<seq<T>>): seq<T>
    decreases |parts|
  {
    if |parts| == 0 then [] else Concat(parts[..|parts| - 1]) + parts[|parts| - 1]
  }

  /** The text appended for each arrival. */
  function SegmentTexts(arrivals: seq<Arrival>): seq<string> {
    seq(|arrivals|, k requires 0 <= k < |arrivals| => Segment(arrivals, k))
  }

  /** The colours appended for each arrival. */
  function SegmentColorLists(arrivals: seq<Arrival>): seq<seq<Color>> {
    seq(|arrivals|, k requires 0 <= k < |arrivals| => SegmentColors(arrivals, k))
  }

  const NO_TRAINS: string := " No trains"

  /** The text `format_train_display` returns. */
  function DisplayText(arrivals: seq<Arrival>, direction: string): string {
    if |arrivals| == 0 then direction + NO_TRAINS
    else direction + Concat(SegmentTexts(arrivals))
  }

  /** The colour list `format_train_display` returns. */
  function DisplayColors(arrivals: seq<Arrival>, direction: string): seq<Color> {
    if |arrivals| == 0 then Repeat(COLOR_BLUE, |direction|) + Repeat(COLOR_WHITE, |NO_TRAINS|)
    else Repeat(COLOR_BLUE, |direction|) + Concat(SegmentColorLists(arrivals))
  }

  /** `format_train_display`: grows the text and its colour list arrival by arrival. */
  method FormatTrainDisplay(arrivals: seq<Arrival>, direction: string) returns (text: string, colors: seq<Color>)
    ensures text == DisplayText(arrivals, direction)
    ensures colors == DisplayColors(arrivals, direction)
  {
    if |arrivals| == 0 {
      text := direction + NO_TRAINS;
      colors := Repeat(COLOR_BLUE, |direction|) + Repeat(COLOR_WHITE, |NO_TRAINS|);
      return;
    }
    text := direction;
    colors := Repeat(COLOR_BLUE, |direction|);
    for i := 0 to |arrivals|
      invariant text == direction + Concat(SegmentTexts(arrivals)[..i])
      invariant colors == Repeat(COLOR_BLUE, |direction|) + Concat(SegmentColorLists(arrivals)[..i])
    {
      ghost var textBefore, colorsBefore := text, colors;
      var mins := arrivals[i].minutes;
      var timeText := " " + DecimalString(mins) + "m";
      text := text + timeText;
      var minsColor := TimeColor(mins);
      colors := colors + [COLOR_WHITE];
      var digits := DecimalString(mins);
      for d := 0 to |digits|
        invariant colors == colorsBefore + [COLOR_WHITE] + Repeat(minsColor, d)
      {
        RepeatSnoc(minsColor, d);
        colors := colors + [minsColor];
      }
      colors := colors + [minsColor];
      ghost var comma, commaColor := "", [];
      if i < |arrivals| - 1 {
        text := text + ",";
        colors := colors + [COLOR_WHITE];
        comma, commaColor := ",", [COLOR_WHITE];
      }
      SegmentStep(arrivals, i, direction, textBefore, colorsBefore, timeText, comma, commaColor, text, colors);
    }
    assert SegmentTexts(arrivals)[..|arrivals|] == SegmentTexts(arrivals);
    assert SegmentColorLists(arrivals)[..|arrivals|] == SegmentColorLists(arrivals);
  }

  lemma RepeatSnoc(c: Color, n: nat)
    ensures Repeat(c, n + 1) == Repeat(c, n) + [c]
  {
  }

  lemma Assoc<T>(a: seq<T>, b: seq<T>, c: seq<T>)
    ensures a + b + c == a + (b + c)
  {
  }

  /** The first `i + 1` parts are the first `i` followed by part `i`. */
  lemma ConcatSnoc<T>(parts: seq<seq<T>>, i: nat)
    requires i < |parts|
    ensures Concat(parts[..i + 1]) == Concat(parts[..i]) + parts[i]
  {
    assert parts[..i + 1][..i] == parts[..i];
  }

  /** One turn of the loop of `format_train_display`: the text and colours of arrival `i` are appended. */
  lemma SegmentStep(arrivals: seq<Arrival>, i: nat, direction: string, textBefore: string, colorsBefore: seq<Color>,
                    timeText: string, comma: string, commaColor: seq<Color>, text: string, colors: seq<Color>)
    requires i < |arrivals|
    requires textBefore == direction + Concat(SegmentTexts(arrivals)[..i])
    requires colorsBefore == Repeat(COLOR_BLUE, |direction|) + Concat(SegmentColorLists(arrivals)[..i])
    requires timeText == Piece(arrivals[i].minutes)
    requires (comma, commaColor) == (if i < |arrivals| - 1 then (",", [COLOR_WHITE]) else ("", []))
    requires text == textBefore + timeText + comma
    requires colors == colorsBefore + [COLOR_WHITE] + Repeat(TimeColor(arrivals[i].minutes), |DecimalString(arrivals[i].minutes)|)
                       + [TimeColor(arrivals[i].minutes)] + commaColor
    ensures text == direction + Concat(SegmentTexts(arrivals)[..i + 1])
    ensures colors == Repeat(COLOR_BLUE, |direction|) + Concat(SegmentColorLists(arrivals)[..i + 1])
  {
    var m := arrivals[i].minutes;
    var ts, cs := Concat(SegmentTexts(arrivals)[..i]), Concat(SegmentColorLists(arrivals)[..i]);
    var digitColors := Repeat(TimeColor(m), |DecimalString(m)|);
    var blue := Repeat(COLOR_BLUE, |direction|);
    ConcatSnoc(SegmentTexts(arrivals), i);
    ConcatSnoc(SegmentColorLists(arrivals), i);
    assert SegmentTexts(arrivals)[i] == Segment(arrivals, i) == timeText + comma;
    Assoc(direction + ts, timeText, comma);
    Assoc(direction, ts, timeText + comma);
    assert SegmentColorLists(arrivals)[i] == SegmentColors(arrivals, i) == PieceColors(m) + commaColor;
    assert PieceColors(m) == [COLOR_WHITE] + digitColors + [TimeColor(m)];
    Assoc(colorsBefore + [COLOR_WHITE], digitColors, [TimeColor(m)]);
    Assoc(colorsBefore, [COLOR_WHITE], digitColors + [TimeColor(m)]);
    Assoc([COLOR_WHITE], digitColors, [TimeColor(m)]);
    Assoc(colorsBefore, PieceColors(m), commaColor);
    Assoc(blue, cs, SegmentColors(arrivals, i));
  }

  // ---------------------------------------------------------------------------
  // Properties of the formatting
  // ---------------------------------------------------------------------------

  /** Concatenations of parts of equal lengths have equal lengths. */
  lemma {:induction false} ConcatSameLength<T, U>(a: seq<seq<T>>, b: seq<seq<U>>)
    requires |a| == |b| && forall k | 0 <= k < |a| :: |a[k]| == |b[k]|
    ensures |Concat(a)| == |Concat(b)|
    decreases |a|
  {
    if |a| > 0 {
      ConcatSameLength(a[..|a| - 1], b[..|b| - 1]);
    }
  }

  /** Character `j` of part `k` sits in the concatenation after the parts before `k`. */
  lemma {:induction false} ConcatIndex<T>(parts: seq<seq<T>>, k: nat, j: nat)
    requires k < |parts| && j < |parts[k]|
    ensures |Concat(parts[..k])| + j < |Concat(parts)|
    ensures Concat(parts)[|Concat(parts[..k])| + j] == parts[k][j]
    decreases |parts|
  {
    var init := parts[..|parts| - 1];
    if k == |parts| - 1 {
      assert parts[..k] == init;
    } else {
      ConcatIndex(init, k, j);
      assert init[..k] == parts[..k];
    }
  }

  /** One colour per character of an arrival's text. */
  lemma SegmentLength(arrivals: seq<Arrival>, k: nat)
    requires k < |arrivals|
    ensures |SegmentColors(arrivals, k)| == |Segment(arrivals, k)|
  {
  }

  /** The text and colours appended for each arrival have matching lengths. */
  lemma SegmentListsAligned(arrivals: seq<Arrival>)
    ensures |SegmentTexts(arrivals)| == |SegmentColorLists(arrivals)| == |arrivals|
    ensures forall q | 0 <= q < |arrivals| :: |SegmentTexts(arrivals)[q]| == |SegmentColorLists(arrivals)[q]|
  {
    forall q | 0 <= q < |arrivals| ensures |SegmentTexts(arrivals)[q]| == |SegmentColorLists(arrivals)[q]| {
      SegmentLength(arrivals, q);
    }
  }

  /** Within one arrival's text the space and comma are white and every other character has the arrival's urgency colour. */
  lemma SegmentLayout(arrivals: seq<Arrival>, k: nat)
    requires k < |arrivals|
    ensures |SegmentColors(arrivals, k)| == |Segment(arrivals, k)|
    ensures forall j | 0 <= j < |Segment(arrivals, k)| ::
              SegmentColors(arrivals, k)[j] ==
                (if Segment(arrivals, k)[j] in {' ', ','} then COLOR_WHITE else TimeColor(arrivals[k].minutes))
  {
    var m := arrivals[k].minutes;
    var ds := DecimalString(m);
    var text, colors := Segment(arrivals, k), SegmentColors(arrivals, k);
    forall j | 0 <= j < |text|
      ensures colors[j] == (if text[j] in {' ', ','} then COLOR_WHITE else TimeColor(m))
    {
      if 1 <= j <= |ds| {
        assert text[j] == ds[j - 1] && IsNumeral(ds[j - 1]);
      }
    }
  }

  /** The colour list always has one entry per character of the text, whatever the minutes, and is never empty. */
  lemma DisplayAligned(arrivals: seq<Arrival>, direction: string)
    ensures |DisplayColors(arrivals, direction)| == |DisplayText(arrivals, direction)|
    ensures |DisplayColors(arrivals, direction)| > 0
  {
    if |arrivals| > 0 {
      var texts, colors := SegmentTexts(arrivals), SegmentColorLists(arrivals);
      forall k | 0 <= k < |arrivals| ensures |texts[k]| == |colors[k]| {
        SegmentLength(arrivals, k);
      }
      ConcatSameLength(texts, colors);
      ConcatIndex(colors, 0, 0);
    }
  }

  /**
   * The direction is blue; with no arrivals, " No trains" follows it in
   * white.
   */
  lemma DisplayLayout(arrivals: seq<Arrival>, direction: string)
    ensures var text, colors := DisplayText(arrivals, direction), DisplayColors(arrivals, direction);
            |colors| == |text| &&
            text[..|direction|] == direction &&
            (forall i | 0 <= i < |direction| :: colors[i] == COLOR_BLUE) &&
            (|arrivals| == 0 ==> text[|direction|..] == NO_TRAINS &&
                                 forall i | |direction| <= i < |text| :: colors[i] == COLOR_WHITE)
  {
    DisplayAligned(arrivals, direction);
  }

  /** An arrival's text is made of ASCII characters: a space, a numeral, `m` and a comma. */
  lemma SegmentAscii(arrivals: seq<Arrival>, k: nat)
    requires k < |arrivals|
    ensures forall j | 0 <= j < |Segment(arrivals, k)| :: Segment(arrivals, k)[j] as int < 128
  {
    var ds := DecimalString(arrivals[k].minutes);
    var text := Segment(arrivals, k);
    forall j | 0 <= j < |text| ensures text[j] as int < 128 {
      if 1 <= j <= |ds| {
        assert text[j] == ds[j - 1] && IsNumeral(ds[j - 1]);
      }
    }
  }

  /** A concatenation of ASCII strings is ASCII. */
  lemma {:induction false} ConcatAscii(parts: seq<string>)
    requires forall k, j | 0 <= k < |parts| && 0 <= j < |parts[k]| :: parts[k][j] as int < 128
    ensures forall i | 0 <= i < |Concat(parts)| :: Concat(parts)[i] as int < 128
    decreases |parts|
  {
    if |parts| > 0 {
      var init := parts[..|parts| - 1];
      ConcatAscii(init);
      var c, front := Concat(parts), Concat(init);
      forall i | 0 <= i < |c| ensures c[i] as int < 128 {
        if i >= |front| {
          assert c[i] == parts[|parts| - 1][i - |front|];
        }
      }
    }
  }

  /**
   * The displayed line is the direction label followed by ASCII text, so
   * only the label can hold a character outside ASCII.
   */
  lemma DisplayTextAscii(arrivals: seq<Arrival>, direction: string)
    ensures var text := DisplayText(arrivals, direction);
            |direction| <= |text| &&
            (forall i | 0 <= i < |direction| :: text[i] == direction[i]) &&
            (forall i | |direction| <= i < |text| :: text[i] as int < 128)
  {
    if |arrivals| > 0 {
      var texts := SegmentTexts(arrivals);
      forall k | 0 <= k < |texts| ensures forall j | 0 <= j < |texts[k]| :: texts[k][j] as int < 128 {
        SegmentAscii(arrivals, k);
      }
      ConcatAscii(texts);
    }
  }

  /** Character `j` of arrival `k`'s text, in the displayed line. */
  lemma DisplayTextAt(arrivals: seq<Arrival>, direction: string, k: nat, j: nat)
    requires k < |arrivals| && j < |SegmentTexts(arrivals)[k]|
    ensures var i := |direction| + |Concat(SegmentTexts(arrivals)[..k])| + j;
            i < |DisplayText(arrivals, direction)| && DisplayText(arrivals, direction)[i] == SegmentTexts(arrivals)[k][j]
  {
    PrefixedConcatIndex(direction, SegmentTexts(arrivals), k, j);
  }

  /** The colour of character `j` of arrival `k`, in the displayed colour list, at the same place. */
  lemma DisplayColorsAt(arrivals: seq<Arrival>, direction: string, k: nat, j: nat)
    requires k < |arrivals| && j < |SegmentColorLists(arrivals)[k]|
    ensures var i := |direction| + |Concat(SegmentTexts(arrivals)[..k])| + j;
            i < |DisplayColors(arrivals, direction)| && DisplayColors(arrivals, direction)[i] == SegmentColorLists(arrivals)[k][j]
  {
    SegmentListsAligned(arrivals);
    ConcatPrefixSameLength(SegmentTexts(arrivals), SegmentColorLists(arrivals), k);
    PrefixedConcatIndex(Repeat(COLOR_BLUE, |direction|), SegmentColorLists(arrivals), k, j);
  }

  /**
   * With arrivals, character `j` of arrival `k`'s text sits at
   * `|direction|` plus the length of the earlier arrivals' text plus `j`; it
   * is white when it is the space or the comma and has the arrival's urgency
   * colour otherwise.
   */
  lemma ArrivalColours(arrivals: seq<Arrival>, direction: string, k: nat, j: nat)
    requires k < |arrivals| && j < |Segment(arrivals, k)|
    ensures var text, colors := DisplayText(arrivals, direction), DisplayColors(arrivals, direction);
            var i := |direction| + |Concat(SegmentTexts(arrivals)[..k])| + j;
            i < |text| == |colors| &&
            text[i] == Segment(arrivals, k)[j] &&
            colors[i] == (if text[i] in {' ', ','} then COLOR_WHITE else TimeColor(arrivals[k].minutes))
  {
    SegmentListsAt(arrivals, k);
    SegmentLength(arrivals, k);
    DisplayTextAt(arrivals, direction, k, j);
    DisplayColorsAt(arrivals, direction, k, j);
    SegmentLayout(arrivals, k);
    DisplayAligned(arrivals, direction);
  }

  /** Entry `k` of the per-arrival lists is arrival `k`'s text and colours. */
  lemma SegmentListsAt(arrivals: seq<Arrival>, k: nat)
    requires k < |arrivals|
    ensures SegmentTexts(arrivals)[k] == Segment(arrivals, k)
    ensures SegmentColorLists(arrivals)[k] == SegmentColors(arrivals, k)
  {
  }

  /** Part `k`, character `j`, sits behind the prefix and the parts before `k`. */
  lemma PrefixedConcatIndex<T>(pre: seq<T>, parts: seq<seq<T>>, k: nat, j: nat)
    requires k < |parts| && j < |parts[k]|
    ensures var i := |pre| + |Concat(parts[..k])| + j;
            i < |pre + Concat(parts)| && (pre + Concat(parts))[i] == parts[k][j]
  {
    ConcatIndex(parts, k, j);
  }

  /** Parts of matching lengths: their first `k` have concatenations of the same length. */
  lemma ConcatPrefixSameLength<T, U>(parts: seq<seq<T>>, parts': seq<seq<U>>, k: nat)
    requires |parts| == |parts'| && k <= |parts|
    requires forall q | 0 <= q < |parts| :: |parts[q]| == |parts'[q]|
    ensures |Concat(parts[..k])| == |Concat(parts'[..k])|
  {
    var before, before' := parts[..k], parts'[..k];
    forall q | 0 <= q < k ensures |before[q]| == |before'[q]| {
      assert before[q] == parts[q] && before'[q] == parts'[q];
    }
    ConcatSameLength(before, before');
  }

  /** The line for two arrivals, as the display shows it. */
  lemma TwoArrivalsExample()
    ensures DisplayText([Arrival(None, 3), Arrival(None, 12)], "N") == "N 3m, 12m"
    ensures DisplayColors([Arrival(None, 3), Arrival(None, 12)], "N") ==
            [COLOR_BLUE, COLOR_WHITE, COLOR_YELLOW, COLOR_YELLOW, COLOR_WHITE,
             COLOR_WHITE, COLOR_WHITE, COLOR_WHITE, COLOR_WHITE]
  {
    var arrivals := [Arrival(None, 3), Arrival(None, 12)];
    assert DecimalString(3) == "3" by { assert DigitChar(3) == '3'; }
    assert DecimalString(12) == "12" by {
      assert DigitChar(1) == '1' && DigitChar(2) == '2';
      assert Digits(12) == Digits(1) + [DigitChar(2)];
    }
    assert Segment(arrivals, 0) == " 3m,";
    assert Segment(arrivals, 1) == " 12m";
    assert SegmentColors(arrivals, 0) == [COLOR_WHITE, COLOR_YELLOW, COLOR_YELLOW, COLOR_WHITE];
    assert SegmentColors(arrivals, 1) == [COLOR_WHITE, COLOR_WHITE, COLOR_WHITE, COLOR_WHITE];
    var texts, colorLists := SegmentTexts(arrivals), SegmentColorLists(arrivals);
    var firstTexts, firstColors := texts[..1], colorLists[..1];
    assert |firstTexts[..0]| == 0;
    assert |firstColors[..0]| == 0;
    assert Concat(texts[..1]) == " 3m,";
    assert Concat(colorLists[..1]) == [COLOR_WHITE, COLOR_YELLOW, COLOR_YELLOW, COLOR_WHITE];
    assert texts[..2] == texts;
    assert colorLists[..2] == colorLists;
    assert Concat(texts) == " 3m," + " 12m";
    assert Concat(colorLists) == [COLOR_WHITE, COLOR_YELLOW, COLOR_YELLOW, COLOR_WHITE] + [COLOR_WHITE, COLOR_WHITE, COLOR_WHITE, COLOR_WHITE];
  }

  /** A negative minute count keeps its sign and its urgency colour. */
  lemma NegativeMinutesExample()
    ensures DisplayText([Arrival(None, -2)], "S") == "S -2m"
    ensures DisplayColors([Arrival(None, -2)], "S") ==
            [COLOR_BLUE, COLOR_WHITE, COLOR_RED, COLOR_RED, COLOR_RED]
  {
    var arrivals := [Arrival(None, -2)];
    assert DecimalString(-2) == "-2" by { assert DigitChar(2) == '2'; }
    assert Segment(arrivals, 0) == " -2m";
    assert SegmentColors(arrivals, 0) == [COLOR_WHITE, COLOR_RED, COLOR_RED, COLOR_RED];
    var texts, colorLists := SegmentTexts(arrivals), SegmentColorLists(arrivals);
    assert |texts[..0]| == 0;
    assert |colorLists[..0]| == 0;
    assert texts[..1] == texts && colorLists[..1] == colorLists;
  }
}
