/** day_6.rs: boat races. Holding the button for `h` of a race's `time` milliseconds
    makes the boat travel `h * (time - h)` millimetres; a hold wins when that beats the
    record `distance`. */
module WaitForIt {
  import opened Wrappers
  import opened Text
  import opened Utils

  datatype Race = Race(time: nat, distance: nat)

  // ---------------------------------------------------------------- Race::get_winning_count

  /** How far the boat gets after holding `hold` milliseconds: the time left is
      `safe_sub(time, hold)`, so holding past the end travels nowhere. */
  function Travel(time: nat, hold: nat): nat {
    hold * SafeSub(time, hold)
  }

  predicate Winning(race: Race, hold: nat) {
    Travel(race.time, hold) > race.distance
  }

  /** The number of winning holds among `0, 1, ..., n - 1`. */
  function Wins(race: Race, n: nat): (w: nat)
    ensures w <= n
  {
    if n == 0 then 0 else Wins(race, n - 1) + (if Winning(race, n - 1) then 1 else 0)
  }

  /** `max_distance` when the loop reaches hold `n`: the longest travel of the holds
      before it, or 0. */
  function MaxTravel(time: nat, n: nat): (r: nat)
    ensures forall h :: 0 <= h < n ==> Travel(time, h) <= r
    ensures r == 0 || exists h :: 0 <= h < n && Travel(time, h) == r
  {
    if n == 0 then 0
    else
      var m := MaxTravel(time, n - 1);
      if Travel(time, n - 1) > m then Travel(time, n - 1) else m
  }

  /** The `break` condition of the loop at hold `hold`. */
  predicate Stops(race: Race, hold: nat) {
    MaxTravel(race.time, hold) > Travel(race.time, hold) && !Winning(race, hold)
  }

  /** The loop, as written, has an exit exactly when the race lasts at least 2
      milliseconds: for a shorter race every hold travels 0, `max_distance` stays 0 and
      the `break` condition never holds, so the source never returns. */
  lemma StopsIff(race: Race)
    ensures (exists h :: Stops(race, h)) <==> race.time >= 2
  {
    if race.time >= 2 {
      assert Travel(race.time, 1) <= MaxTravel(race.time, race.time);
      assert Stops(race, race.time);
    } else {
      forall h ensures !Stops(race, h) {
        NoTravel(race.time, h);
      }
    }
  }

  /** In a race shorter than 2 milliseconds the boat never moves. */
  lemma {:induction false} NoTravel(time: nat, n: nat)
    requires time <= 1
    ensures Travel(time, n) == 0 && MaxTravel(time, n) == 0
  {
    if n > 0 {
      NoTravel(time, n - 1);
    }
  }

  /** How many holds win, also for a race shorter than 2 milliseconds, where no hold
      wins and the count is 0. */
  method WinningCount(race: Race) returns (winningCount: nat)
    ensures winningCount == Wins(race, race.time + 1)
  {
    if race.time <= 1 {
      return 0;
    }
    winningCount := GetWinningCount(race);
  }

  /** `Race::get_winning_count`. The loop stops at the first hold that travels less
      than an earlier one and does not win; for a `time` below 2 no hold travels at
      all, nothing is ever less than the best so far and the source never returns. */
  method GetWinningCount(race: Race) returns (winningCount: nat)
    requires race.time >= 2
    ensures winningCount == Wins(race, race.time + 1)
  {
    var holdingTime := 0;
    var maxDistance := 0;
    winningCount := 0;
    ghost var best := 0;
    while true
      invariant holdingTime <= race.time
      invariant winningCount == Wins(race, holdingTime)
      invariant best <= holdingTime && maxDistance == Travel(race.time, best)
      invariant maxDistance == MaxTravel(race.time, holdingTime)
      invariant forall h :: 0 <= h < holdingTime ==> Travel(race.time, h) <= maxDistance
      decreases race.time - holdingTime
    {
      var timeLeft := SafeSub(race.time, holdingTime);
      var travelDistance := holdingTime * timeLeft;
      var willWin := travelDistance > race.distance;
      if willWin {
        winningCount := winningCount + 1;
      }
      if holdingTime == race.time {
        // at the end of the race nothing is travelled, while holding 1 travelled
        assert Travel(race.time, 1) <= maxDistance;
        assert maxDistance > travelDistance && !willWin;
      }
      if maxDistance > travelDistance && !willWin {
        LaterHoldsLose(race, best, holdingTime);
        WinsFlat(race, holdingTime, race.time + 1);
        return;
      }
      if travelDistance > maxDistance {
        maxDistance := travelDistance;
        best := holdingTime;
      }
      holdingTime := holdingTime + 1;
    }
  }

  /** The gain from holding `b` instead of `a`. */
  lemma TravelGap(time: nat, a: nat, b: nat)
    requires a <= b <= time
    ensures Travel(time, b) as int - Travel(time, a) as int == (b - a) * (time - a - b)
  {
    assert Travel(time, b) == b * (time - b);
    assert Travel(time, a) == a * (time - a);
  }

  lemma NegativeFactor(x: int, y: int)
    requires x > 0 && x * y < 0
    ensures y < 0
  {
  }

  lemma MulNegative(x: int, y: int)
    requires x > 0 && y < 0
    ensures x * y < 0
  {
  }

  /** Once a hold travels less than an earlier one, the distance only falls from
      there to the end of the race: the distances rise to a peak and then fall. */
  lemma LaterFalls(time: nat, a: nat, b: nat, c: nat)
    requires a < b < c <= time && Travel(time, a) > Travel(time, b)
    ensures Travel(time, c) < Travel(time, b)
  {
    TravelGap(time, a, b);
    NegativeFactor(b - a, time - a - b);
    TravelGap(time, b, c);
    MulNegative(c - b, time - b - c);
  }

  /** At the hold where the loop stops every hold up to the end of the race loses. */
  lemma LaterHoldsLose(race: Race, best: nat, hold: nat)
    requires best < hold <= race.time
    requires Travel(race.time, best) > Travel(race.time, hold) && !Winning(race, hold)
    ensures forall h :: hold <= h <= race.time ==> !Winning(race, h)
  {
    forall h | hold < h <= race.time ensures !Winning(race, h) {
      LaterFalls(race.time, best, hold, h);
    }
  }

  /** No win between `h` and `n` leaves the count where it was at `h`. */
  lemma {:induction false} WinsFlat(race: Race, h: nat, n: nat)
    requires h <= n && forall k :: h <= k < n ==> !Winning(race, k)
    ensures Wins(race, n) == Wins(race, h)
  {
    if h < n {
      WinsFlat(race, h, n - 1);
    }
  }

  /** Holding past the end of the race never wins: counting up to `time` counts
      every winning hold there is. */
  lemma WinsAll(race: Race, n: nat)
    requires n >= race.time + 1
    ensures Wins(race, n) == Wins(race, race.time + 1)
  {
    WinsFlat(race, race.time + 1, n);
  }

  /** The count is the size of the set of winning holds. */
  lemma {:induction false} WinsCount(race: Race, n: nat)
    ensures Wins(race, n) == |set h | 0 <= h < n && Winning(race, h)|
  {
    if n > 0 {
      WinsCount(race, n - 1);
      var before := set h | 0 <= h < n - 1 && Winning(race, h);
      var upto := set h | 0 <= h < n && Winning(race, h);
      if Winning(race, n - 1) {
        assert upto == before + {n - 1};
      } else {
        assert upto == before;
      }
    }
  }

  /** Holding `h` and holding `time - h` travel the same distance. */
  lemma TravelMirror(time: nat, h: nat)
    requires h <= time
    ensures Travel(time, time - h) == Travel(time, h)
  {
  }

  /** So the winning holds come in pairs `h`, `time - h`. */
  lemma WinningMirror(race: Race, h: nat)
    requires h <= race.time
    ensures Winning(race, h) <==> Winning(race, race.time - h)
  {
    TravelMirror(race.time, h);
  }

  // ---------------------------------------------------------------- parse_out_races

  /** `split(line, &[':']).last().unwrap()`: the last non-blank ':'-separated piece. */
  function Section(line: string): (r: Result<string>)
    ensures r.Ok? <==> Split(line, {':'}) != []
    ensures r.Ok? ==> r.value == Split(line, {':'})[|Split(line, {':'})| - 1]
  {
    var sections := Split(line, {':'});
    if sections == [] then Err("no section") else Ok(sections[|sections| - 1])
  }

  /** The numbers after the name of one line, as `collect_numbers(split(..., &[' ']))`
      reads them. */
  function NumbersOf(line: string): Result<seq<nat>> {
    match Section(line)
    case Err(e) => Err(e)
    case Ok(section) => CollectNumbers(Split(section, {' '}))
  }

  /** The numbers of both lines are readable. */
  predicate Readable(lines: seq<string>) {
    |lines| >= 2 && NumbersOf(lines[0]).Ok? && NumbersOf(lines[1]).Ok?
  }

  /** `races` pairs the last `|races|` times and distances, last first. */
  predicate PairedFromBack(races: seq<Race>, times: seq<nat>, distances: seq<nat>) {
    |races| <= |times| && |races| <= |distances|
    && forall k :: 0 <= k < |races| ==> races[k] == Race(times[|times| - 1 - k], distances[|distances| - 1 - k])
  }

  /** `parse_out_races`: the times of the first line and the distances of the second,
      popped from the backs of both lists together until either runs out, so the
      races come out last first. */
  method ParseOutRaces(input: string) returns (r: Result<seq<Race>>)
    ensures r.Ok? <==> Readable(IntoLines(input))
    ensures r.Ok? ==> (
      var times, distances := NumbersOf(IntoLines(input)[0]).value, NumbersOf(IntoLines(input)[1]).value;
      PairedFromBack(r.value, times, distances)
      && |r.value| == (if |times| <= |distances| then |times| else |distances|))
  {
    var lines := IntoLines(input);
    if |lines| < 1 {
      return Err("no time line");
    }
    var timesRead := NumbersOf(lines[0]);
    if timesRead.Err? {
      return Err(timesRead.reason);
    }
    if |lines| < 2 {
      return Err("no distance line");
    }
    var distancesRead := NumbersOf(lines[1]);
    if distancesRead.Err? {
      return Err(distancesRead.reason);
    }
    var races := PopRaces(timesRead.value, distancesRead.value);
    return Ok(races);
  }

  /** The loop of `parse_out_races`: pop a time and a distance and push their race,
      until either list is empty. */
  method PopRaces(allTimes: seq<nat>, allDistances: seq<nat>) returns (races: seq<Race>)
    ensures PairedFromBack(races, allTimes, allDistances)
    ensures |races| == if |allTimes| <= |allDistances| then |allTimes| else |allDistances|
  {
    var times, distances := allTimes, allDistances;
    races := [];
    while true
      invariant |times| + |races| == |allTimes| && times == allTimes[..|times|]
      invariant |distances| + |races| == |allDistances| && distances == allDistances[..|distances|]
      invariant PairedFromBack(races, allTimes, allDistances)
      decreases |times|
    {
      if times == [] {
        break;
      }
      var time := times[|times| - 1];
      times := times[..|times| - 1];
      if distances == [] {
        break;
      }
      var distance := distances[|distances| - 1];
      distances := distances[..|distances| - 1];
      PairedSnoc(races, allTimes, allDistances);
      races := races + [Race(time, distance)];
    }
  }

  lemma PairedSnoc(races: seq<Race>, times: seq<nat>, distances: seq<nat>)
    requires PairedFromBack(races, times, distances) && |races| < |times| && |races| < |distances|
    ensures PairedFromBack(races + [Race(times[|times| - 1 - |races|], distances[|distances| - 1 - |races|])],
                           times, distances)
  {
  }

  // ---------------------------------------------------------------- parse_out_races_better

  /** `.replace(' ', "")`: every space removed. */
  function Squeezed(s: string): (r: string)
    ensures Free(r, {' '})
  {
    if s == [] then [] else (if s[0] == ' ' then [] else [s[0]]) + Squeezed(s[1..])
  }

  /** The section of a line with its spaces removed, parsed as one `u64`. */
  function BetterNumber(line: string): Result<nat> {
    match Section(line)
    case Err(e) => Err(e)
    case Ok(section) => NumberOf(Squeezed(section))
  }

  /** `parse_out_races_better`: the digits of each line's numbers run together into
      one time and one distance. */
  function ParseOutRacesBetter(input: string): (r: Result<Race>)
    ensures r.Ok? ==> r.value.time <= U64_MAX && r.value.distance <= U64_MAX
  {
    var lines := IntoLines(input);
    if |lines| < 1 then Err("no time line")
    else
      match BetterNumber(lines[0])
      case Err(e) => Err(e)
      case Ok(time) =>
        if |lines| < 2 then Err("no distance line")
        else
          match BetterNumber(lines[1])
          case Err(e) => Err(e)
          case Ok(distance) => Ok(Race(time, distance))
  }

  lemma {:induction false} SqueezedAppend(a: string, b: string)
    ensures Squeezed(a + b) == Squeezed(a) + Squeezed(b)
  {
    if a != [] {
      assert (a + b)[0] == a[0] && (a + b)[1..] == a[1..] + b;
      SqueezedAppend(a[1..], b);
    } else {
      assert a + b == b;
    }
  }

  lemma {:induction false} SqueezedFree(s: string)
    requires Free(s, {' '})
    ensures Squeezed(s) == s
  {
    if s != [] {
      SqueezedFree(s[1..]);
    }
  }

  /** Removing the spaces from pieces joined by spaces runs the pieces together. */
  lemma {:induction false} SqueezedJoin(ps: seq<string>)
    requires forall k :: 0 <= k < |ps| ==> Free(ps[k], {' '})
    ensures Squeezed(Join(ps, ' ')) == Flatten(ps)
  {
    if |ps| == 1 {
      SqueezedFree(ps[0]);
      assert Flatten(ps) == ps[0] + Flatten([]);
    } else if |ps| > 1 {
      SqueezedJoin(ps[1..]);
      SqueezedAppend(ps[0] + [' '], Join(ps[1..], ' '));
      SqueezedAppend(ps[0], [' ']);
      SqueezedFree(ps[0]);
    }
  }

  // ---------------------------------------------------------------- reading written races

  /** A line as in the puzzle input, e.g. `Time: 7 15 30`. */
  function Line(name: string, xs: seq<nat>): string {
    name + [':'] + (" " + NumbersText(xs))
  }

  /** Both lines of an input. */
  function RacesText(times: seq<nat>, distances: seq<nat>): string {
    Line("Time", times) + "\n" + Line("Distance", distances)
  }

  predicate U64s(xs: seq<nat>) {
    forall k :: 0 <= k < |xs| ==> xs[k] <= U64_MAX
  }

  /** The section of a written line is its numbers. */
  lemma LineSection(name: string, xs: seq<nat>)
    requires Tidy(name) && Free(name, {':'}) && xs != []
    ensures Section(Line(name, xs)) == Ok(NumbersText(xs))
  {
    NumbersTextShape(xs, {':'});
    FreeConcat(" ", NumbersText(xs), {':'});
    SplitTwo(name, ':', " " + NumbersText(xs));
    TrimOfTrimmed(name);
    TrimSpaced(NumbersText(xs));
    assert Split(Line(name, xs), {':'}) == [name, NumbersText(xs)];
  }

  /** A written line reads back as its numbers. */
  lemma NumbersLine(name: string, xs: seq<nat>)
    requires Tidy(name) && Free(name, {':'}) && xs != [] && U64s(xs)
    ensures NumbersOf(Line(name, xs)) == Ok(xs)
  {
    LineSection(name, xs);
    forall k | 0 <= k < |xs| ensures Tidy(Shows(xs)[k]) && Free(Shows(xs)[k], {' '}) {
      DigitsOnly(ShowNat(xs[k]), {' '});
    }
    SplitJoin(Shows(xs), {' '}, ' ');
    NonBlankOfTidy(Shows(xs));
    forall k | 0 <= k < |xs| ensures ParseU64(Shows(xs)[k]) == Some(xs[k]) {
      ParseShow(xs[k], U64_MAX);
    }
    var items := Split(NumbersText(xs), {' '});
    assert items == Shows(xs);
    assert CollectNumbers(items).Ok?;
    assert CollectNumbers(items).value == xs;
  }

  /** A written line, read the better way, is the number its digits make together. */
  lemma BetterLine(name: string, xs: seq<nat>)
    requires Tidy(name) && Free(name, {':'}) && xs != []
    ensures BetterNumber(Line(name, xs)) == NumberOf(Flatten(Shows(xs)))
  {
    LineSection(name, xs);
    forall k | 0 <= k < |xs| ensures Free(Shows(xs)[k], {' '}) {
      DigitsOnly(ShowNat(xs[k]), {' '});
    }
    SqueezedJoin(Shows(xs));
  }

  /** Both names are tidy words without ':' or a newline. */
  lemma Names()
    ensures Tidy("Time") && Free("Time", {':', '\n'}) && Tidy("Distance") && Free("Distance", {':', '\n'})
  {
  }

  /** A written line is tidy and holds no newline. */
  lemma LineShape(name: string, xs: seq<nat>)
    requires Tidy(name) && Free(name, {'\n'}) && xs != []
    ensures Tidy(Line(name, xs)) && Free(Line(name, xs), {'\n'})
  {
    NumbersTextShape(xs, {'\n'});
    FreeConcat(" ", NumbersText(xs), {'\n'});
    FreeConcat(name, [':'], {'\n'});
    FreeConcat(name + [':'], " " + NumbersText(xs), {'\n'});
  }

  /** The two written lines are the input's lines. */
  lemma RacesLines(times: seq<nat>, distances: seq<nat>)
    requires times != [] && distances != []
    ensures IntoLines(RacesText(times, distances)) == [Line("Time", times), Line("Distance", distances)]
  {
    Names();
    var a, b := Line("Time", times), Line("Distance", distances);
    LineShape("Time", times);
    LineShape("Distance", distances);
    assert RacesText(times, distances) == Join([a, b], '\n');
    IntoLinesOfJoin([a, b]);
  }

  lemma ReadLines(times: seq<nat>, distances: seq<nat>, lines: seq<string>)
    requires times != [] && distances != [] && U64s(times) && U64s(distances)
    requires lines == [Line("Time", times), Line("Distance", distances)]
    ensures Readable(lines) && NumbersOf(lines[0]) == Ok(times) && NumbersOf(lines[1]) == Ok(distances)
  {
    Names();
    NumbersLine("Time", times);
    NumbersLine("Distance", distances);
  }

  /** Written races read back, paired from the back. */
  lemma RacesRoundTrip(times: seq<nat>, distances: seq<nat>)
    requires times != [] && distances != [] && U64s(times) && U64s(distances)
    ensures var lines := IntoLines(RacesText(times, distances));
      Readable(lines) && NumbersOf(lines[0]) == Ok(times) && NumbersOf(lines[1]) == Ok(distances)
  {
    RacesLines(times, distances);
    ReadLines(times, distances, IntoLines(RacesText(times, distances)));
  }

  lemma BetterLines(times: seq<nat>, distances: seq<nat>, lines: seq<string>)
    requires times != [] && distances != []
    requires lines == [Line("Time", times), Line("Distance", distances)]
    ensures BetterNumber(lines[0]) == NumberOf(Flatten(Shows(times)))
    ensures BetterNumber(lines[1]) == NumberOf(Flatten(Shows(distances)))
  {
    Names();
    BetterLine("Time", times);
    BetterLine("Distance", distances);
  }

  /** Written races read the better way are one race whose time and distance are the
      digits of each line run together. */
  lemma RacesBetterRoundTrip(times: seq<nat>, distances: seq<nat>)
    requires times != [] && distances != []
    ensures var time, distance := NumberOf(Flatten(Shows(times))), NumberOf(Flatten(Shows(distances)));
      var r := ParseOutRacesBetter(RacesText(times, distances));
      (r.Ok? <==> time.Ok? && distance.Ok?) && (r.Ok? ==> r.value == Race(time.value, distance.value))
  {
    RacesLines(times, distances);
    BetterLines(times, distances, IntoLines(RacesText(times, distances)));
  }
}
