/** The trip planner of src/planning_agent.py: the fallback trip parameters,
    the 40/30/20/10 budget split, the mock tool catalogues, the greedy
    cheapest-first choice of attractions, the cost estimate and the daily
    schedule. The language-model call is replaced by its parsed reply, and
    Python's floats by exact reals. */
module Planning {
  import opened Wrappers
  import opened Text

  datatype Accommodation = Accommodation(name: string, price: int, ratingTenths: int, kind: string)
  datatype Attraction = Attraction(name: string, price: int, duration: string, category: string)
  datatype Flight = Flight(airline: string, price: int, departure: string, arrival: string)
  datatype Weather = Weather(temperature: string, condition: string, precipitation: string, recommendation: string)

  /** The values of the four mock tools. */
  datatype Tools = Tools(weather: Weather, attractions: seq<Attraction>,
                         accommodations: seq<Accommodation>, flights: seq<Flight>)

  const BuiltInTools: Tools := Tools(
    Weather("18°C", "Partly cloudy", "20%", "Light jacket recommended"),
    [ Attraction("Sky Tower", 25, "2 hours", "landmark"),
      Attraction("Auckland Museum", 20, "3 hours", "museum"),
      Attraction("Waiheke Island", 35, "full day", "nature"),
      Attraction("Harbour Bridge Climb", 80, "3 hours", "adventure"),
      Attraction("Kelly Tarlton's", 30, "2 hours", "aquarium") ],
    [ Accommodation("Auckland City Hotel", 80, 42, "hotel"),
      Accommodation("Backpackers Central", 30, 38, "hostel"),
      Accommodation("Airbnb Downtown", 60, 45, "apartment"),
      Accommodation("YHA Auckland", 40, 40, "hostel") ],
    [ Flight("Air New Zealand", 120, "08:00", "10:30"),
      Flight("Jetstar", 100, "14:00", "16:30"),
      Flight("Virgin Australia", 110, "18:00", "20:30") ])

  // ---------------------------------------------------------------------------
  // Reasoning log

  /** `log_reasoning`: one tagged entry appended to the scratchpad. */
  function LogReasoning(scratchpad: seq<string>, thought: string): (r: seq<string>)
    ensures |r| == |scratchpad| + 1 && r[..|scratchpad|] == scratchpad
    ensures r[|scratchpad|] == "[REASONING] " + thought
  {
    scratchpad + ["[REASONING] " + thought]
  }

  /** The steps `plan_trip` logs, in order. Entries that format numbers or the
      parameter dictionary are named here rather than rendered. */
  datatype Thought =
    | Starting
    | ParsedParameters(params: TripParams)
    | BudgetAllocation(accommodation: real, activities: real)
    | CheckingWeather(city: string, date: string)
    | FindingAttractions(city: string)
    | FindingAccommodation(city: string, perNight: real)
    | CheckingFlights(origin: string, destination: string, date: string)
    | TotalEstimatedCost(cost: real)

  // ---------------------------------------------------------------------------
  // Parameters and budget

  datatype TripParams = TripParams(destination: string, duration: int, budgetAmount: real,
                                   budgetCurrency: string, preferences: seq<string>)

  const FallbackParams: TripParams := TripParams("Auckland", 2, 500.0, "NZD", [])

  /** The parameters used: the parsed reply, or the fixed fallback when parsing
      raised (None). */
  function Parameters(reply: Option<TripParams>): (p: TripParams)
    ensures reply.None? ==> p == TripParams("Auckland", 2, 500.0, "NZD", [])
    ensures reply.Some? ==> p == reply.value
  {
    reply.GetOr(FallbackParams)
  }

  datatype Budget = Budget(accommodation: real, activities: real, food: real, transport: real)

  function Split(total: real): (b: Budget)
    ensures b.accommodation + b.activities + b.food + b.transport == total
    ensures total >= 0.0 ==> 0.0 <= b.transport <= b.food <= b.activities <= b.accommodation
    ensures b.accommodation == 4.0 * b.transport && b.activities == 3.0 * b.transport
    ensures b.food == 2.0 * b.transport
  {
    Budget(total * 0.4, total * 0.3, total * 0.2, total * 0.1)
  }

  // ---------------------------------------------------------------------------
  // Accommodation

  /** `get_accommodation`: the catalogue entries priced within the nightly
      budget, in catalogue order. */
  function Affordable(catalogue: seq<Accommodation>, perNight: real): (r: seq<Accommodation>)
    ensures IsSubsequence(r, catalogue)
    ensures forall i :: 0 <= i < |r| ==> r[i].price as real <= perNight
  {
    if catalogue == [] then []
    else if catalogue[0].price as real <= perNight then [catalogue[0]] + Affordable(catalogue[1..], perNight)
    else Affordable(catalogue[1..], perNight)
  }

  /** With the subsequence property, the filter keeps exactly the affordable
      entries: each as often as in the catalogue, and nothing else. */
  lemma {:induction false} AffordableCount(catalogue: seq<Accommodation>, perNight: real, a: Accommodation)
    ensures multiset(Affordable(catalogue, perNight))[a] ==
            if a.price as real <= perNight then multiset(catalogue)[a] else 0
  {
    if catalogue != [] {
      AffordableCount(catalogue[1..], perNight, a);
      assert catalogue == [catalogue[0]] + catalogue[1..];
      assert multiset(catalogue) == multiset{catalogue[0]} + multiset(catalogue[1..]);
    }
  }

  // ---------------------------------------------------------------------------
  // Cheapest choice

  /** Python's `min(xs, key=price)`: the first entry of least price. */
  function CheapestIndex(prices: seq<int>): (k: nat)
    requires |prices| > 0
    ensures k < |prices|
    ensures forall i :: 0 <= i < |prices| ==> prices[k] <= prices[i]
    ensures forall i :: 0 <= i < k ==> prices[i] > prices[k]
  {
    if |prices| == 1 then 0
    else
      var k := CheapestIndex(prices[1..]);
      if prices[0] <= prices[k + 1] then 0 else k + 1
  }

  /** The `key=price` values of a catalogue, in order. */
  function Prices<T>(s: seq<T>, price: T -> int): (r: seq<int>)
    ensures |r| == |s| && forall i :: 0 <= i < |s| ==> r[i] == price(s[i])
  {
    seq(|s|, i requires 0 <= i < |s| => price(s[i]))
  }

  /** The entry `min(xs, key=price)` returns: an entry no dearer than any
      other, and the first of that price. */
  function Cheapest<T>(xs: seq<T>, price: T -> int): (x: T)
    requires xs != []
    ensures x in xs && forall y :: y in xs ==> price(x) <= price(y)
    ensures exists k :: 0 <= k < |xs| && xs[k] == x && forall i :: 0 <= i < k ==> price(xs[i]) > price(x)
  {
    var k := CheapestIndex(Prices(xs, price));
    assert forall i :: 0 <= i < |xs| ==> price(xs[k]) <= price(xs[i]);
    xs[k]
  }

  /** The stay `plan_trip` chooses among the affordable offers. */
  function CheapestStay(offers: seq<Accommodation>): (a: Accommodation)
    requires offers != []
    ensures a in offers && forall o :: o in offers ==> a.price <= o.price
  {
    Cheapest(offers, (o: Accommodation) => o.price)
  }

  /** The flight `plan_trip` chooses. */
  function CheapestFlight(flights: seq<Flight>): (f: Flight)
    requires flights != []
    ensures f in flights && forall g :: g in flights ==> f.price <= g.price
  {
    Cheapest(flights, (g: Flight) => g.price)
  }

  // ---------------------------------------------------------------------------
  // Attractions

  predicate SortedByPrice(s: seq<Attraction>) {
    forall i, j :: 0 <= i < j < |s| ==> s[i].price <= s[j].price
  }

  /** Insertion in front of the first entry that costs at least as much. */
  function InsertByPrice(x: Attraction, s: seq<Attraction>): seq<Attraction> {
    if s == [] || x.price <= s[0].price then [x] + s
    else [s[0]] + InsertByPrice(x, s[1..])
  }

  /** Insertion into a sorted list keeps it sorted and adds exactly the new
      entry. */
  lemma {:induction false} InsertSorted(x: Attraction, s: seq<Attraction>)
    requires SortedByPrice(s)
    ensures var r := InsertByPrice(x, s);
            && SortedByPrice(r)
            && multiset(r) == multiset{x} + multiset(s)
            && |r| == |s| + 1 && (r[0] == x || (|s| > 0 && r[0] == s[0]))
  {
    if s == [] || x.price <= s[0].price {
      ConsSorted(x, s);
    } else {
      var t := s[1..];
      SortedTail(s);
      InsertSorted(x, t);
      assert s == [s[0]] + t;
      assert t != [] ==> s[0].price <= t[0].price;
      ConsSorted(s[0], InsertByPrice(x, t));
    }
  }

  lemma ConsSorted(a: Attraction, s: seq<Attraction>)
    requires SortedByPrice(s) && (s == [] || a.price <= s[0].price)
    ensures SortedByPrice([a] + s)
  {
    var r := [a] + s;
    forall i, j | 0 <= i < j < |r| ensures r[i].price <= r[j].price {
      if i == 0 {
        assert r[j] == s[j - 1];
      } else {
        assert r[i] == s[i - 1] && r[j] == s[j - 1];
      }
    }
  }

  lemma SortedTail(s: seq<Attraction>)
    requires s != [] && SortedByPrice(s)
    ensures SortedByPrice(s[1..])
  {
    var t := s[1..];
    forall i, j | 0 <= i < j < |t| ensures t[i].price <= t[j].price {
      assert t[i] == s[i + 1] && t[j] == s[j + 1];
    }
  }

  /** Python's stable `sorted(xs, key=price)`. */
  function SortByPrice(s: seq<Attraction>): (r: seq<Attraction>)
    ensures SortedByPrice(r)
    ensures multiset(r) == multiset(s) && |r| == |s|
  {
    if s == [] then []
    else
      assert s == [s[0]] + s[1..];
      InsertSorted(s[0], SortByPrice(s[1..]));
      InsertByPrice(s[0], SortByPrice(s[1..]))
  }

  /** The entries of one price, in order. */
  function OfPrice(s: seq<Attraction>, p: int): seq<Attraction> {
    if s == [] then []
    else (if s[0].price == p then [s[0]] else []) + OfPrice(s[1..], p)
  }

  /** Insertion puts the new entry in front of the earlier entries of its
      price: every entry it passes is cheaper. */
  lemma {:induction false} OfPriceInsert(x: Attraction, s: seq<Attraction>, p: int)
    ensures OfPrice(InsertByPrice(x, s), p) == (if x.price == p then [x] else []) + OfPrice(s, p)
  {
    if s != [] && x.price > s[0].price {
      var t := s[1..];
      OfPriceInsert(x, t, p);
      assert s == [s[0]] + t;
      OfPriceCons(s[0], InsertByPrice(x, t), p);
      OfPriceCons(s[0], t, p);
    } else {
      OfPriceCons(x, s, p);
    }
  }

  lemma OfPriceCons(a: Attraction, r: seq<Attraction>, p: int)
    ensures OfPrice([a] + r, p) == (if a.price == p then [a] else []) + OfPrice(r, p)
  {
    assert ([a] + r)[1..] == r;
  }

  /** The sort is stable: entries of equal price keep their order. */
  lemma {:induction false} SortStable(s: seq<Attraction>, p: int)
    ensures OfPrice(SortByPrice(s), p) == OfPrice(s, p)
  {
    if s != [] {
      SortStable(s[1..], p);
      OfPriceInsert(s[0], SortByPrice(s[1..]), p);
    }
  }

  function Sum(s: seq<Attraction>): int {
    if s == [] then 0 else s[0].price + Sum(s[1..])
  }

  lemma {:induction false} SumAppend(a: seq<Attraction>, b: seq<Attraction>)
    ensures Sum(a + b) == Sum(a) + Sum(b)
  {
    if a != [] {
      SumAppend(a[1..], b);
      assert (a + b)[1..] == a[1..] + b;
    } else {
      assert a + b == b;
    }
  }

  /** The selection loop over the price-ordered candidates: a candidate is taken
      when it fits the remaining budget, and the loop stops as soon as
      `duration` attractions are taken. */
  function Pick(candidates: seq<Attraction>, remaining: real, duration: int, picked: seq<Attraction>): seq<Attraction>
    decreases |candidates|
  {
    if candidates == [] then picked
    else if candidates[0].price as real <= remaining then
      var taken := picked + [candidates[0]];
      if |taken| >= duration then taken
      else Pick(candidates[1..], remaining - candidates[0].price as real, duration, taken)
    else Pick(candidates[1..], remaining, duration, picked)
  }

  /** Each pick fitted the budget left after the picks before it. */
  predicate FitsGreedily(picks: seq<Attraction>, budget: real) {
    forall i :: 0 <= i < |picks| ==> picks[i].price as real <= budget - Sum(picks[..i]) as real
  }

  /** A pick that fits the budget left keeps the picks fitting. */
  lemma FitsAppend(picked: seq<Attraction>, c: Attraction, budget: real)
    requires FitsGreedily(picked, budget)
    requires c.price as real <= budget - Sum(picked) as real
    ensures FitsGreedily(picked + [c], budget)
  {
    var taken := picked + [c];
    forall i | 0 <= i < |taken|
      ensures taken[i].price as real <= budget - Sum(taken[..i]) as real
    {
      if i < |picked| {
        assert taken[..i] == picked[..i];
      } else {
        assert taken[..i] == picked;
      }
    }
  }

  /** What the loop keeps while it runs, stated over the picks made so far:
      over price-ordered candidates it takes a prefix of them, and each pick
      fits the budget left after the picks before it. */
  lemma {:induction false} PickInvariant(candidates: seq<Attraction>, remaining: real, duration: int,
                                         picked: seq<Attraction>, budget: real)
    requires remaining == budget - Sum(picked) as real
    requires FitsGreedily(picked, budget)
    requires |picked| < duration || picked == []
    ensures var r := Pick(candidates, remaining, duration, picked);
            && FitsGreedily(r, budget)
            && (|r| <= duration || |r| <= 1)
    decreases |candidates|
  {
    if candidates != [] {
      var c := candidates[0];
      if c.price as real <= remaining {
        var taken := picked + [c];
        FitsAppend(picked, c, budget);
        SumAppend(picked, [c]);
        if |taken| < duration {
          PickInvariant(candidates[1..], remaining - c.price as real, duration, taken, budget);
        }
      } else {
        PickInvariant(candidates[1..], remaining, duration, picked, budget);
      }
    }
  }

  lemma {:induction false} PickShape(candidates: seq<Attraction>, remaining: real, duration: int,
                                     picked: seq<Attraction>)
    requires SortedByPrice(candidates)
    ensures var r := Pick(candidates, remaining, duration, picked);
            && |picked| <= |r| <= |picked| + |candidates|
            && r == picked + candidates[..|r| - |picked|]
    decreases |candidates|
  {
    if candidates != [] {
      var c := candidates[0];
      var rest := candidates[1..];
      if c.price as real <= remaining {
        var taken := picked + [c];
        if |taken| < duration {
          PickShape(rest, remaining - c.price as real, duration, taken);
          var r := Pick(rest, remaining - c.price as real, duration, taken);
          var m := |r| - |taken|;
          assert candidates[..m + 1] == [c] + rest[..m];
          assert taken + rest[..m] == picked + ([c] + rest[..m]);
        } else {
          assert candidates[..1] == [c];
        }
      } else {
        NothingFits(rest, remaining, duration, picked);
        assert candidates[..0] == [];
      }
    }
  }

  /** Unless the loop stopped at `duration` picks, every candidate after the
      ones taken costs more than the budget left at the end: a candidate is
      skipped only when it does not fit. */
  lemma {:induction false} PickComplete(candidates: seq<Attraction>, remaining: real, duration: int,
                                        picked: seq<Attraction>, budget: real)
    requires SortedByPrice(candidates)
    requires remaining == budget - Sum(picked) as real
    ensures var r := Pick(candidates, remaining, duration, picked);
            |r| < duration || |r| == |picked| ==>
              forall j :: 0 <= j < |candidates| && j >= |r| - |picked| ==>
                candidates[j].price as real > budget - Sum(r) as real
    decreases |candidates|
  {
    if candidates != [] {
      var c := candidates[0];
      var rest := candidates[1..];
      if c.price as real <= remaining {
        var taken := picked + [c];
        SumAppend(picked, [c]);
        if |taken| < duration {
          PickComplete(rest, remaining - c.price as real, duration, taken, budget);
          PickShape(rest, remaining - c.price as real, duration, taken);
          var r := Pick(rest, remaining - c.price as real, duration, taken);
          if |r| < duration {
            forall j | 0 <= j < |candidates| && j >= |r| - |picked|
              ensures candidates[j].price as real > budget - Sum(r) as real
            {
              assert candidates[j] == rest[j - 1];
            }
          }
        }
      } else {
        NothingFits(rest, remaining, duration, picked);
      }
    }
  }

  /** Once the cheapest remaining candidate does not fit, the loop takes no
      more. */
  lemma {:induction false} NothingFits(candidates: seq<Attraction>, remaining: real, duration: int,
                                       picked: seq<Attraction>)
    requires forall j :: 0 <= j < |candidates| ==> candidates[j].price as real > remaining
    ensures Pick(candidates, remaining, duration, picked) == picked
    decreases |candidates|
  {
    if candidates != [] {
      assert forall j :: 0 <= j < |candidates| - 1 ==> candidates[1..][j] == candidates[j + 1];
      NothingFits(candidates[1..], remaining, duration, picked);
    }
  }

  lemma {:induction false} PrefixIsSubsequence<T>(s: seq<T>, n: nat)
    requires n <= |s|
    ensures IsSubsequence(s[..n], s)
    decreases n
  {
    if n > 0 {
      PrefixIsSubsequence(s[1..], n - 1);
      assert s[..n][1..] == s[1..][..n - 1];
    }
  }

  /** Greedy cheapest-first selection of attractions under the activities
      budget, at most one per day. */
  function SelectAttractions(attractions: seq<Attraction>, budget: real, duration: int): seq<Attraction> {
    Pick(SortByPrice(attractions), budget, duration, [])
  }

  /** The picks are the cheapest attractions in price order, taken as long as
      each fits the budget left; unless the day limit stopped the loop, every
      attraction after them costs more than the budget left. */
  lemma SelectionIsGreedy(attractions: seq<Attraction>, budget: real, duration: int)
    ensures var picks := SelectAttractions(attractions, budget, duration);
            var sorted := SortByPrice(attractions);
            && |picks| <= |attractions| && picks == sorted[..|picks|]
            && IsSubsequence(picks, sorted)
            && FitsGreedily(picks, budget)
            && (|picks| <= duration || |picks| <= 1)
            && (|picks| < duration || picks == [] ==>
                  forall j :: |picks| <= j < |attractions| ==> sorted[j].price as real > budget - Sum(picks) as real)
  {
    var sorted := SortByPrice(attractions);
    PickInvariant(sorted, budget, duration, [], budget);
    PickShape(sorted, budget, duration, []);
    PickComplete(sorted, budget, duration, [], budget);
    PrefixIsSubsequence(sorted, |Pick(sorted, budget, duration, [])|);
  }

  /** Stated over the attractions themselves: unless the day limit stopped the
      loop, whatever was not picked costs more than the budget left. */
  lemma SkippedUnaffordable(attractions: seq<Attraction>, budget: real, duration: int)
    ensures var picks := SelectAttractions(attractions, budget, duration);
            |picks| < duration || picks == [] ==>
              forall c :: c in multiset(attractions) - multiset(picks) ==> c.price as real > budget - Sum(picks) as real
  {
    var picks := SelectAttractions(attractions, budget, duration);
    var sorted := SortByPrice(attractions);
    SelectionIsGreedy(attractions, budget, duration);
    if |picks| < duration || picks == [] {
      forall c | c in multiset(attractions) - multiset(picks)
        ensures c.price as real > budget - Sum(picks) as real
      {
        var j := OutsidePrefix(sorted, |picks|, c);
      }
    }
  }

  /** An element the prefix `s[..n]` does not account for sits after it. */
  lemma OutsidePrefix<T>(s: seq<T>, n: nat, x: T) returns (j: nat)
    requires n <= |s| && x in multiset(s) - multiset(s[..n])
    ensures n <= j < |s| && s[j] == x
  {
    assert s == s[..n] + s[n..];
    assert multiset(s) == multiset(s[..n]) + multiset(s[n..]);
    assert x in s[n..];
    var k :| 0 <= k < |s[n..]| && s[n..][k] == x;
    j := n + k;
  }

  /** The picks never cost more than the activities budget. */
  lemma {:induction false} GreedyWithinBudget(picks: seq<Attraction>, budget: real)
    requires FitsGreedily(picks, budget) && picks != []
    ensures Sum(picks) as real <= budget
  {
    var n := |picks| - 1;
    assert picks == picks[..n] + [picks[n]];
    SumAppend(picks[..n], [picks[n]]);
  }

  // ---------------------------------------------------------------------------
  // The itinerary

  datatype DayPlan = DayPlan(day: int, activities: seq<Attraction>, mealsBudget: real, notes: string)

  const DefaultNote: string := "Enjoy your day!"

  /** The schedule for days `from` to `duration`. */
  function Days(from: int, duration: int, picks: seq<Attraction>, meals: real, recommendation: string): (r: seq<DayPlan>)
    requires from >= 1
    ensures |r| == if duration >= from then duration - from + 1 else 0
    decreases duration - from
  {
    if from > duration then []
    else
      var activities := if from - 1 < |picks| then picks[from - 1..from] else [];
      [DayPlan(from, activities, meals, if from == 1 then recommendation else DefaultNote)]
        + Days(from + 1, duration, picks, meals, recommendation)
  }

  /** Day `from + i` is numbered so, holds pick `from + i` when there is one,
      has the meals share, and carries the weather recommendation on day 1
      only. */
  lemma {:induction false} DaysShape(from: int, duration: int, picks: seq<Attraction>, meals: real, recommendation: string)
    requires from >= 1
    ensures forall i :: 0 <= i < |Days(from, duration, picks, meals, recommendation)| ==>
              DayIs(Days(from, duration, picks, meals, recommendation)[i], from + i, picks, meals, recommendation)
    decreases duration - from
  {
    if from <= duration {
      DaysShape(from + 1, duration, picks, meals, recommendation);
      var r := Days(from, duration, picks, meals, recommendation);
      var rest := Days(from + 1, duration, picks, meals, recommendation);
      var first := if from - 1 < |picks| then [picks[from - 1]] else [];
      if from - 1 < |picks| {
        assert picks[from - 1..from] == first;
      }
      assert r == [DayPlan(from, first, meals, if from == 1 then recommendation else DefaultNote)] + rest;
      forall i | 0 <= i < |r|
        ensures DayIs(r[i], from + i, picks, meals, recommendation)
      {
        if i > 0 {
          assert r[i] == rest[i - 1];
        }
      }
    }
  }

  /** Day plan `d` is the plan of day `day`: it holds pick `day` when there is
      one, the meals share, and the weather recommendation on day 1 only. */
  predicate DayIs(d: DayPlan, day: int, picks: seq<Attraction>, meals: real, recommendation: string) {
    && d.day == day
    && d.activities == (if 0 <= day - 1 < |picks| then [picks[day - 1]] else [])
    && d.notes == (if day == 1 then recommendation else DefaultNote)
    && d.mealsBudget == meals
  }

  function Activities(schedule: seq<DayPlan>): seq<Attraction> {
    if schedule == [] then [] else schedule[0].activities + Activities(schedule[1..])
  }

  /** Every pick is scheduled exactly once, in order, when there are no more
      picks than days. */
  lemma {:induction false} ScheduleCoversPicks(from: int, duration: int, picks: seq<Attraction>, meals: real, recommendation: string)
    requires 1 <= from && |picks| <= duration
    ensures Activities(Days(from, duration, picks, meals, recommendation))
            == if from - 1 <= |picks| then picks[from - 1..] else []
    decreases duration - from
  {
    if from <= duration {
      var rest := Days(from + 1, duration, picks, meals, recommendation);
      ScheduleCoversPicks(from + 1, duration, picks, meals, recommendation);
      var r := Days(from, duration, picks, meals, recommendation);
      var first := if from - 1 < |picks| then picks[from - 1..from] else [];
      assert r == [DayPlan(from, first, meals, if from == 1 then recommendation else DefaultNote)] + rest;
      assert r[1..] == rest;
      assert Activities(r) == first + Activities(rest);
      if from - 1 < |picks| {
        assert Activities(rest) == picks[from..];
        assert picks[from - 1..] == first + picks[from..];
      } else {
        assert Activities(rest) == [] && first == [];
      }
    }
  }

  datatype Itinerary = Itinerary(
    destination: string,
    duration: int,
    totalBudget: real,
    estimatedCost: real,
    budgetRemaining: real,
    accommodation: Accommodation,
    accommodationTotal: int,
    flight: Flight,
    flightTotal: int,
    activities: seq<Attraction>,
    schedule: seq<DayPlan>,
    weather: Weather,
    reasoning: seq<Thought>)

  /** Why `plan_trip` raises: division by a zero duration, or `min` of an empty
      list of offers. */
  datatype PlanError = ZeroDuration | NoAccommodation | NoFlight

  const WeatherDate: string := "2024-01-15"
  const Origin: string := "Wellington"

  /** The nightly accommodation budget; `duration` must not be 0. */
  function PerNight(p: TripParams): real
    requires p.duration != 0
  {
    Split(p.budgetAmount).accommodation / p.duration as real
  }

  /** `plan_trip`, given the parsed reply of the language model (None when
      parsing raised) and the tools' data. */
  function PlanTrip(reply: Option<TripParams>, tools: Tools): (r: Result<Itinerary, PlanError>)
    ensures var p := Parameters(reply);
            r.Err? <==> p.duration == 0 || Affordable(tools.accommodations, PerNight(p)) == [] || tools.flights == []
    ensures r.Ok? ==> && r.value.destination == Parameters(reply).destination
                      && r.value.totalBudget == Parameters(reply).budgetAmount
                      && |r.value.reasoning| > 1 && r.value.reasoning[0] == Starting
                      && r.value.reasoning[1] == ParsedParameters(Parameters(reply))
  {
    var p := Parameters(reply);
    if p.duration == 0 then Err(ZeroDuration)
    else
      var offers := Affordable(tools.accommodations, PerNight(p));
      if offers == [] then Err(NoAccommodation)
      else if tools.flights == [] then Err(NoFlight)
      else Ok(Assemble(p, tools, offers))
  }

  /** The itinerary once a stay and a flight exist. */
  function Assemble(p: TripParams, tools: Tools, offers: seq<Accommodation>): (it: Itinerary)
    requires p.duration != 0 && offers != [] && tools.flights != []
    ensures it.destination == p.destination && it.totalBudget == p.budgetAmount
    ensures |it.reasoning| > 1 && it.reasoning[0] == Starting && it.reasoning[1] == ParsedParameters(p)
  {
    var b := Split(p.budgetAmount);
    var stay := CheapestStay(offers);
    var picks := SelectAttractions(tools.attractions, b.activities, p.duration);
    var flight := CheapestFlight(tools.flights);
    var cost := (stay.price * p.duration + Sum(picks) + flight.price * 2) as real + b.food;
    Itinerary(p.destination, p.duration, p.budgetAmount, cost, p.budgetAmount - cost,
              stay, stay.price * p.duration, flight, flight.price * 2, picks,
              Days(1, p.duration, picks, b.food / p.duration as real, tools.weather.recommendation),
              tools.weather, TripLog(p, cost))
  }

  /** The reasoning entries `plan_trip` logs, in order. */
  function TripLog(p: TripParams, cost: real): (log: seq<Thought>)
    requires p.duration != 0
    ensures |log| > 1 && log[0] == Starting && log[1] == ParsedParameters(p)
  {
    var b := Split(p.budgetAmount);
    [ Starting, ParsedParameters(p), BudgetAllocation(b.accommodation, b.activities),
      CheckingWeather(p.destination, WeatherDate), FindingAttractions(p.destination),
      FindingAccommodation(p.destination, PerNight(p)),
      CheckingFlights(Origin, p.destination, WeatherDate), TotalEstimatedCost(cost) ]
  }

  /** The estimate: nights at the chosen price, the picks, a return flight and
      the food share; what is left of the budget is the difference. */
  lemma PlanTripCost(reply: Option<TripParams>, tools: Tools)
    requires PlanTrip(reply, tools).Ok?
    ensures var it := PlanTrip(reply, tools).value;
            var p := Parameters(reply);
            && it.estimatedCost == (it.accommodation.price * p.duration + Sum(it.activities)
                                    + 2 * it.flight.price) as real + Split(p.budgetAmount).food
            && it.budgetRemaining == p.budgetAmount - it.estimatedCost
            && it.accommodationTotal == it.accommodation.price * p.duration
            && it.flightTotal == 2 * it.flight.price
  {
  }

  /** The stay is the cheapest offer within the nightly budget, and the flight
      the cheapest flight. */
  lemma PlanTripChoices(reply: Option<TripParams>, tools: Tools)
    requires PlanTrip(reply, tools).Ok?
    ensures var it := PlanTrip(reply, tools).value;
            var offers := Affordable(tools.accommodations, PerNight(Parameters(reply)));
            && it.accommodation in tools.accommodations
            && it.accommodation.price as real <= PerNight(Parameters(reply))
            && (forall a :: a in offers ==> it.accommodation.price <= a.price)
            && it.flight in tools.flights
            && (forall f :: f in tools.flights ==> it.flight.price <= f.price)
  {
    var offers := Affordable(tools.accommodations, PerNight(Parameters(reply)));
    var it := PlanTrip(reply, tools).value;
    assert it.accommodation in offers;
    IsSubsequenceMembers(offers, tools.accommodations, it.accommodation);
  }

  /** The activities are the greedy picks under the activities share. */
  lemma PlanTripActivities(reply: Option<TripParams>, tools: Tools)
    requires PlanTrip(reply, tools).Ok?
    ensures var it := PlanTrip(reply, tools).value;
            var p := Parameters(reply);
            && it.activities == SelectAttractions(tools.attractions, Split(p.budgetAmount).activities, p.duration)
            && IsSubsequence(it.activities, SortByPrice(tools.attractions))
            && FitsGreedily(it.activities, Split(p.budgetAmount).activities)
            && (|it.activities| <= p.duration || |it.activities| <= 1)
  {
    var p := Parameters(reply);
    SelectionIsGreedy(tools.attractions, Split(p.budgetAmount).activities, p.duration);
  }

  /** The schedule has one entry per day, numbered from 1, and hands out the
      picks one per day, in order. */
  lemma PlanTripSchedule(reply: Option<TripParams>, tools: Tools)
    requires PlanTrip(reply, tools).Ok?
    ensures var it := PlanTrip(reply, tools).value;
            var p := Parameters(reply);
            && |it.schedule| == (if p.duration > 0 then p.duration else 0)
            && (forall d :: 0 <= d < |it.schedule| ==> it.schedule[d].day == d + 1)
            && (p.duration > 0 ==> Activities(it.schedule) == it.activities)
  {
    var it := PlanTrip(reply, tools).value;
    var p := Parameters(reply);
    var meals := Split(p.budgetAmount).food / p.duration as real;
    assert it.schedule == Days(1, p.duration, it.activities, meals, tools.weather.recommendation);
    SelectionIsGreedy(tools.attractions, Split(p.budgetAmount).activities, p.duration);
    WholeSchedule(p.duration, it.activities, meals, tools.weather.recommendation);
  }

  /** The schedule from day 1 for picks that never outnumber the days. */
  lemma WholeSchedule(duration: int, picks: seq<Attraction>, meals: real, recommendation: string)
    requires |picks| <= duration || |picks| <= 1
    ensures var r := Days(1, duration, picks, meals, recommendation);
            && |r| == (if duration > 0 then duration else 0)
            && (forall d :: 0 <= d < |r| ==> r[d].day == d + 1)
            && (duration > 0 ==> Activities(r) == picks)
  {
    DaysShape(1, duration, picks, meals, recommendation);
    if duration > 0 {
      ScheduleCoversPicks(1, duration, picks, meals, recommendation);
      assert picks[0..] == picks;
    }
  }

  lemma {:induction false} IsSubsequenceMembers<T>(a: seq<T>, b: seq<T>, x: T)
    requires IsSubsequence(a, b) && x in a
    ensures x in b
    decreases |b|
  {
    if a[0] == b[0] && IsSubsequence(a[1..], b[1..]) {
      if x != a[0] {
        IsSubsequenceMembers(a[1..], b[1..], x);
      }
    } else {
      IsSubsequenceMembers(a, b[1..], x);
    }
  }
}
