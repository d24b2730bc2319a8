// The cheapest way from one stop to a later one: a fare by distance for every hop and a hotel
// bill for every stop in between, by plain recursion and by a table.

module Airtel {
  const INT_MAX := 0x7FFF_FFFF

  datatype Prices = Prices(fares: seq<int>, hotels: seq<int>) {
    predicate Cover(s: nat, d: nat) {
      |fares| > d && |hotels| > d && |fares| > s && |hotels| > s
    }
  }

  function Min(a: int, b: int): int {
    if a > b then b else a
  }

  // The price of coming to `j` with the last hop from `k`, where `before` has been spent up to `k`.
  function Hop(p: Prices, s: nat, k: nat, j: nat, before: int): int
    requires s <= k < j && p.Cover(s, j)
  {
    before + (if k == s then 0 else p.hotels[k]) + p.fares[j - k]
  }

  // What the recursion computes.
  function Cheapest(p: Prices, s: nat, d: nat): int
    requires p.Cover(s, d)
    decreases d, 1, 0
  {
    if d == s then 0 else CheapestVia(p, s, d, d)
  }

  // The minimum over last hops from stops below `k`.
  function CheapestVia(p: Prices, s: nat, d: nat, k: nat): int
    requires p.Cover(s, d) && k <= d
    decreases d, 0, k
  {
    if k <= s then INT_MAX
    else Min(CheapestVia(p, s, d, k - 1), Hop(p, s, k - 1, d, Cheapest(p, s, k - 1)))
  }

  method RAirtelDC(p: Prices, n: int, s: nat, d: nat) returns (minCost: int)
    requires p.Cover(s, d)
    ensures minCost == Cheapest(p, s, d)
    decreases d
  {
    minCost := INT_MAX;
    if d == s {
      return 0;
    }
    var k := s;
    while k < d
      invariant s <= k && (k <= d || d < s)
      invariant minCost == if k <= d then CheapestVia(p, s, d, k) else INT_MAX
    {
      var cost := RAirtelDC(p, n, s, k);
      if k == s {
        cost := cost + p.fares[d - k];
      } else {
        cost := cost + p.hotels[k] + p.fares[d - k];
      }
      minCost := Min(minCost, cost);
      k := k + 1;
    }
  }

  // The table holds the cheapest prices between `s` and `d`; a stop before `s` costs nothing,
  // which is where the two versions part.
  method AirtelDP(p: Prices, m: array<int>, n: int, s: nat, d: nat) returns (cost: int)
    requires p.Cover(s, d) && m.Length > s && m.Length > d
    modifies m
    ensures cost == if d < s then 0 else Cheapest(p, s, d)
    ensures cost == Cheapest(p, s, d) <==> s <= d
    ensures forall j :: s <= j <= d ==> m[j] == Cheapest(p, s, j)
  {
    for i := 0 to s + 1
      invariant forall x :: 0 <= x < i ==> m[x] == 0
    {
      m[i] := 0;
    }
    var j := s + 1;
    while j <= d
      invariant s < j && (j <= d + 1 || d < s)
      invariant forall x :: 0 <= x <= s ==> m[x] == 0
      invariant forall x :: s <= x < j && x <= d ==> m[x] == Cheapest(p, s, x)
    {
      m[j] := INT_MAX;
      var k := s;
      while k < j
        invariant s <= k <= j
        invariant m[j] == CheapestVia(p, s, j, k)
        invariant forall x :: 0 <= x <= s ==> m[x] == 0
        invariant forall x :: s <= x < j ==> m[x] == Cheapest(p, s, x)
      {
        var price;
        if k == s {
          price := m[k] + p.fares[j - k];
        } else {
          price := m[k] + p.hotels[k] + p.fares[j - k];
        }
        m[j] := Min(m[j], price);
        k := k + 1;
      }
      j := j + 1;
    }
    cost := m[d];
  }

  // The stops of a journey from `s` to `d`.
  predicate Itinerary(stops: seq<nat>, s: nat, d: nat) {
    && stops != [] && stops[0] == s && stops[|stops| - 1] == d
    && forall i, j :: 0 <= i < j < |stops| ==> stops[i] < stops[j]
  }

  // Every hop's fare and every intermediate stop's hotel.
  function Price(p: Prices, stops: seq<nat>): int
    requires stops != [] && Itinerary(stops, stops[0], stops[|stops| - 1]) && p.Cover(stops[0], stops[|stops| - 1])
  {
    if |stops| == 1 then 0
    else
      var before := stops[..|stops| - 1];
      var k := before[|before| - 1];
      Price(p, before) + (if |before| == 1 then 0 else p.hotels[k]) + p.fares[stops[|stops| - 1] - k]
  }

  // The fares of the direct hops from `s` are ints.
  predicate DirectFaresFit(p: Prices, s: nat, d: nat)
    requires p.Cover(s, d)
  {
    forall i :: 0 < i <= d - s ==> p.fares[i] <= INT_MAX
  }

  lemma {:induction false} NoLastHopIsCheaper(p: Prices, s: nat, d: nat, k: nat, via: nat)
    requires p.Cover(s, d) && s <= via < k <= d
    ensures CheapestVia(p, s, d, k) <= Hop(p, s, via, d, Cheapest(p, s, via))
    decreases k
  {
    if via < k - 1 {
      NoLastHopIsCheaper(p, s, d, k - 1, via);
    }
  }

  lemma {:induction false} SomeLastHopIsCheapest(p: Prices, s: nat, d: nat, k: nat) returns (via: nat)
    requires p.Cover(s, d) && s < k <= d && Hop(p, s, s, d, 0) <= INT_MAX
    ensures s <= via < k && CheapestVia(p, s, d, k) == Hop(p, s, via, d, Cheapest(p, s, via))
    decreases k
  {
    via := k - 1;
    if k - 1 > s {
      var other := SomeLastHopIsCheapest(p, s, d, k - 1);
      if CheapestVia(p, s, d, k) == CheapestVia(p, s, d, k - 1) {
        via := other;
      }
    }
  }

  lemma {:induction false} NoItineraryIsCheaper(p: Prices, stops: seq<nat>, s: nat, d: nat)
    requires Itinerary(stops, s, d) && p.Cover(s, d)
    ensures s <= d && Cheapest(p, s, d) <= Price(p, stops)
    decreases |stops|
  {
    if |stops| > 1 {
      var before := stops[..|stops| - 1];
      var k := before[|before| - 1];
      assert stops[0] <= k < d;
      NoItineraryIsCheaper(p, before, s, k);
      NoLastHopIsCheaper(p, s, d, d, k);
    }
  }

  lemma {:induction false} SomeItineraryIsCheapest(p: Prices, s: nat, d: nat) returns (stops: seq<nat>)
    requires p.Cover(s, d) && s <= d && DirectFaresFit(p, s, d)
    ensures Itinerary(stops, s, d) && Price(p, stops) == Cheapest(p, s, d)
    decreases d
  {
    if s == d {
      stops := [s];
    } else {
      var k := SomeLastHopIsCheapest(p, s, d, d);
      var before := SomeItineraryIsCheapest(p, s, k);
      stops := before + [d];
      assert stops[..|stops| - 1] == before;
    }
  }
}
