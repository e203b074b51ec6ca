/**
 Removing near-duplicate cities from a sorted result list.
 */
module CityDedup {
  import opened Sequences
  import opened EditDistance

  // Cities are told apart by identity, as pointers are.
  datatype City = City(id: nat, country: string, name: string, score: real, lat: real, lon: real)

  // The thresholds, and the distance between two places.
  datatype Limits = Limits(score: real, distance: real, edits: int, far: ((real, real), (real, real)) -> real)

  predicate HasLatLong(c: City) {
    !(c.lat == 0.0 && c.lon == 0.0)
  }

  predicate Near(l: Limits, x: City, y: City) {
    l.far((y.lat, y.lon), (x.lat, x.lon)) <= l.distance
  }

  // The two cities appear to be the same.  The names are compared by their edit distance
  // alone.
  ghost predicate Similar(l: Limits, x: City, y: City) {
    x.country == y.country && HasLatLong(y) && Near(l, x, y) && Distance(x.name, y.name) <= l.edits
  }

  // A candidate for removal for which a better city is listed.
  ghost predicate Beaten(l: Limits, better: seq<City>, x: City) {
    x.score <= l.score && HasLatLong(x) && exists y :: y in better && Similar(l, x, y)
  }

  // The cities of a list that are not beaten by an earlier one.
  ghost function Survivors(l: Limits, cities: seq<City>): (r: seq<City>) {
    if cities == [] then []
    else
      var last := cities[|cities| - 1];
      Survivors(l, Chop(cities)) + if Beaten(l, Chop(cities), last) then [] else [last]
  }

  // Some city of every country on the list survives.
  lemma {:induction false} EveryCountrySurvives(l: Limits, cities: seq<City>, x: City)
    requires x in cities
    ensures exists y :: y in Survivors(l, cities) && y.country == x.country
  {
    var last := cities[|cities| - 1];
    if x in Chop(cities) {
      EveryCountrySurvives(l, Chop(cities), x);
    } else if Beaten(l, Chop(cities), last) {
      var y :| y in Chop(cities) && Similar(l, last, y);
      EveryCountrySurvives(l, Chop(cities), y);
    } else {
      assert last in Survivors(l, cities);
    }
  }

  // ---- The test of two names ----

  // The difference of the lengths is tested before the table is filled.
  method NamesTooFar(a: string, b: string, limit: int) returns (tooFar: bool)
    ensures tooFar <==> Distance(a, b) > limit
  {
    DistanceBounds(a, b);
    var difference := if |a| >= |b| then |a| - |b| else |b| - |a|;
    if difference > limit {
      return true;
    }
    var n := EditDistance.EditDistance(a, b);
    return n > limit;
  }

  method IsDuplicate(l: Limits, cities: seq<City>, i: nat) returns (dup: bool)
    requires i < |cities| && forall j :: 0 <= j < i ==> cities[j].country == cities[i].country
    ensures dup <==> Beaten(l, cities[..i], cities[i])
  {
    var x := cities[i];
    if x.score > l.score || !HasLatLong(x) {
      return false;
    }
    var j := i;
    while j > 0
      invariant 0 <= j <= i && forall k :: j <= k < i ==> !Similar(l, x, cities[k])
    {
      j := j - 1;
      var y := cities[j];
      if HasLatLong(y) && Near(l, x, y) {
        var tooFar := NamesTooFar(x.name, y.name, l.edits);
        if !tooFar {
          assert y in cities[..i];
          return true;
        }
      }
    }
    dup := false;
  }

  // ---- By country ----

  function Of(cities: seq<City>, country: string): (r: seq<City>)
    ensures forall i :: 0 <= i < |r| ==> r[i].country == country && r[i] in cities
  {
    if cities == [] then []
    else Of(Chop(cities), country) + if cities[|cities| - 1].country == country then [cities[|cities| - 1]] else []
  }

  lemma {:induction false} OfHasAll(cities: seq<City>, x: City)
    requires x in cities
    ensures x in Of(cities, x.country)
  {
    if x != cities[|cities| - 1] {
      OfHasAll(Chop(cities), x);
    }
  }

  // Only the cities of its own country can beat a city.
  lemma BeatenAtHome(l: Limits, cities: seq<City>, x: City)
    ensures Beaten(l, Of(cities, x.country), x) <==> Beaten(l, cities, x)
  {
    forall y | y in cities && Similar(l, x, y)
      ensures y in Of(cities, x.country)
    {
      OfHasAll(cities, y);
    }
  }

  // The beaten cities from index i on.
  ghost function BeatenFrom(l: Limits, cities: seq<City>, i: nat): (r: set<City>)
    requires i <= |cities|
    decreases |cities| - i
  {
    if i == |cities| then {}
    else BeatenFrom(l, cities, i + 1) + if Beaten(l, cities[..i], cities[i]) then {cities[i]} else {}
  }

  lemma {:induction false} BeatenFromLast(l: Limits, cities: seq<City>, i: nat)
    requires i < |cities|
    ensures BeatenFrom(l, cities, i) == BeatenFrom(l, Chop(cities), i)
      + if Beaten(l, Chop(cities), cities[|cities| - 1]) then {cities[|cities| - 1]} else {}
    decreases |cities| - i
  {
    if i < |cities| - 1 {
      BeatenFromLast(l, cities, i + 1);
      assert Chop(cities)[..i] == cities[..i];
    }
  }

  lemma {:induction false} BeatenByCountry(l: Limits, cities: seq<City>, x: City)
    ensures x in BeatenFrom(l, Of(cities, x.country), 0) <==> x in BeatenFrom(l, cities, 0)
  {
    if cities != [] {
      var last, home := cities[|cities| - 1], Of(cities, x.country);
      BeatenByCountry(l, Chop(cities), x);
      BeatenFromLast(l, cities, 0);
      if last.country == x.country {
        assert Chop(home) == Of(Chop(cities), x.country);
        BeatenFromLast(l, home, 0);
        BeatenAtHome(l, Chop(cities), last);
      } else {
        assert home == Of(Chop(cities), x.country);
      }
    }
  }

  // ---- Filtering ----

  function Except(cities: seq<City>, gone: set<City>): (r: seq<City>) {
    if cities == [] then []
    else Except(Chop(cities), gone) + if cities[|cities| - 1] in gone then [] else [cities[|cities| - 1]]
  }

  lemma {:induction false} ExceptSame(cities: seq<City>, a: set<City>, b: set<City>)
    requires forall x :: x in cities ==> (x in a <==> x in b)
    ensures Except(cities, a) == Except(cities, b)
  {
    if cities != [] {
      ExceptSame(Chop(cities), a, b);
    }
  }

  lemma {:induction false} BeatenAreListed(l: Limits, cities: seq<City>, i: nat)
    requires i <= |cities|
    ensures forall x :: x in BeatenFrom(l, cities, i) ==> x in cities
    decreases |cities| - i
  {
    if i < |cities| {
      BeatenAreListed(l, cities, i + 1);
    }
  }

  lemma {:induction false} SurvivorsAreLeft(l: Limits, cities: seq<City>)
    requires Distinct(cities)
    ensures Except(cities, BeatenFrom(l, cities, 0)) == Survivors(l, cities)
  {
    if cities != [] {
      SurvivorsAreLeft(l, Chop(cities));
      BeatenFromLast(l, cities, 0);
      BeatenAreListed(l, Chop(cities), 0);
      ExceptSame(Chop(cities), BeatenFrom(l, cities, 0), BeatenFrom(l, Chop(cities), 0));
    }
  }

  // ---- The whole operation ----

  // The list without repetitions of the same city.
  function Firsts(cities: seq<City>): (r: seq<City>)
    ensures forall x :: x in r <==> x in cities
  {
    if cities == [] then []
    else Firsts(Chop(cities)) + if cities[|cities| - 1] in Chop(cities) then [] else [cities[|cities| - 1]]
  }

  lemma {:induction false} FirstsAreDistinct(cities: seq<City>)
    ensures Distinct(Firsts(cities))
  {
    if cities != [] {
      FirstsAreDistinct(Chop(cities));
    }
  }

  method DropRepeats(cities: seq<City>) returns (r: seq<City>)
    ensures r == Firsts(cities) && Distinct(r)
  {
    r := [];
    var seen := {};
    for i := 0 to |cities|
      invariant r == Firsts(cities[..i]) && forall x :: x in seen <==> x in cities[..i]
    {
      assert Chop(cities[..i + 1]) == cities[..i];
      if cities[i] !in seen {
        seen := seen + {cities[i]};
        r := r + [cities[i]];
      }
    }
    assert cities[..|cities|] == cities;
    FirstsAreDistinct(cities);
  }

  ghost predicate Parted(parts: map<string, seq<City>>, cities: seq<City>) {
    forall c :: Of(cities, c) == if c in parts then parts[c] else []
  }

  function Filed(parts: map<string, seq<City>>, x: City): (r: map<string, seq<City>>) {
    parts[x.country := (if x.country in parts then parts[x.country] else []) + [x]]
  }

  lemma FiledParts(parts: map<string, seq<City>>, cities: seq<City>, x: City)
    requires Parted(parts, cities)
    ensures Parted(Filed(parts, x), cities + [x])
  {
    assert Chop(cities + [x]) == cities;
    forall c
      ensures Of(cities + [x], c) == if c in Filed(parts, x) then Filed(parts, x)[c] else []
    {
      assert Of(cities + [x], c) == Of(cities, c) + if x.country == c then [x] else [];
    }
  }

  method Partition(cities: seq<City>) returns (parts: map<string, seq<City>>)
    ensures Parted(parts, cities)
    ensures forall x :: x in cities ==> x.country in parts
  {
    parts := map[];
    for i := 0 to |cities|
      invariant Parted(parts, cities[..i]) == true
    {
      FiledParts(parts, cities[..i], cities[i]);
      assert cities[..i] + [cities[i]] == cities[..i + 1];
      parts := Filed(parts, cities[i]);
    }
    assert cities[..|cities|] == cities;
    PartedHasAll(parts, cities);
  }

  lemma PartedHasAll(parts: map<string, seq<City>>, cities: seq<City>)
    requires Parted(parts, cities)
    ensures forall x :: x in cities ==> x.country in parts
  {
    forall x | x in cities
      ensures x.country in parts
    {
      OfHasAll(cities, x);
    }
  }

  method BeatenOf(l: Limits, cities: seq<City>, before: set<City>) returns (gone: set<City>)
    requires forall i, j :: 0 <= i < |cities| && 0 <= j < |cities| ==> cities[i].country == cities[j].country
    ensures gone == before + BeatenFrom(l, cities, 0)
  {
    gone := before;
    var i := |cities|;
    while i > 0
      invariant 0 <= i <= |cities| && gone == before + BeatenFrom(l, cities, i)
    {
      i := i - 1;
      var dup := IsDuplicate(l, cities, i);
      if dup {
        gone := gone + {cities[i]};
      }
    }
  }

  // The beaten cities are known, but for those of the countries left.
  ghost predicate KnownBut(l: Limits, cities: seq<City>, gone: set<City>, left: set<string>) {
    forall x :: x in cities ==> (x in gone <==> x.country !in left && x in BeatenFrom(l, cities, 0))
  }

  lemma OneCountryLess(l: Limits, cities: seq<City>, gone: set<City>, left: set<string>, c: string)
    requires KnownBut(l, cities, gone, left) && c in left
    ensures KnownBut(l, cities, gone + BeatenFrom(l, Of(cities, c), 0), left - {c})
  {
    BeatenAreListed(l, Of(cities, c), 0);
    forall x | x in cities && x.country == c
      ensures x in BeatenFrom(l, Of(cities, c), 0) <==> x in BeatenFrom(l, cities, 0)
    {
      BeatenByCountry(l, cities, x);
    }
  }

  // The countries are visited in any order.
  method AllBeaten(l: Limits, cities: seq<City>) returns (gone: set<City>)
    ensures forall x :: x in cities ==> (x in gone <==> x in BeatenFrom(l, cities, 0))
  {
    var parts := Partition(cities);
    gone := {};
    var left := parts.Keys;
    while left != {}
      invariant left <= parts.Keys && KnownBut(l, cities, gone, left)
    {
      var c :| c in left;
      assert parts[c] == Of(cities, c);
      OneCountryLess(l, cities, gone, left, c);
      gone := BeatenOf(l, parts[c], gone);
      left := left - {c};
    }
  }

  // Leaves out the cities that are gone.
  method Remaining(cities: seq<City>, gone: set<City>) returns (r: seq<City>)
    ensures r == Except(cities, gone)
  {
    r := [];
    for i := 0 to |cities|
      invariant r == Except(cities[..i], gone)
    {
      assert Chop(cities[..i + 1]) == cities[..i];
      if cities[i] !in gone {
        r := r + [cities[i]];
      }
    }
    assert cities[..|cities|] == cities;
  }

  method Dedup(l: Limits, cities: seq<City>) returns (r: seq<City>)
    ensures r == Survivors(l, Firsts(cities))
  {
    var distinct := DropRepeats(cities);
    var gone := AllBeaten(l, distinct);
    SurvivorsAreLeft(l, distinct);
    ExceptSame(distinct, gone, BeatenFrom(l, distinct, 0));
    r := Remaining(distinct, gone);
  }

  // ---- Which cities stay ----

  // The i-th city scores no more than the limit and has coordinates, and an earlier one of its
  // country, with coordinates, lies within the distance and has a name within the edits.
  ghost predicate HasBetter(l: Limits, cities: seq<City>, i: nat)
    requires i < |cities|
  {
    var x := cities[i];
    && x.score <= l.score && (x.lat != 0.0 || x.lon != 0.0)
    && exists j ::
         && 0 <= j < i && cities[j].country == x.country && (cities[j].lat != 0.0 || cities[j].lon != 0.0)
         && l.far((cities[j].lat, cities[j].lon), (x.lat, x.lon)) <= l.distance
         && Distance(x.name, cities[j].name) <= l.edits
  }

  lemma BeatenIsBetter(l: Limits, cities: seq<City>, i: nat)
    requires i < |cities|
    ensures Beaten(l, cities[..i], cities[i]) <==> HasBetter(l, cities, i)
  {
    var x := cities[i];
    if Beaten(l, cities[..i], x) {
      var y :| y in cities[..i] && Similar(l, x, y);
      var j :| 0 <= j < i && cities[j] == y;
    }
    if HasBetter(l, cities, i) {
      var j :| 0 <= j < i && cities[j].country == x.country && (cities[j].lat != 0.0 || cities[j].lon != 0.0)
        && l.far((cities[j].lat, cities[j].lon), (x.lat, x.lon)) <= l.distance
        && Distance(x.name, cities[j].name) <= l.edits;
      assert cities[..i][j] == cities[j] && Similar(l, x, cities[j]);
    }
  }

  lemma {:induction false} SurvivorsAreListed(l: Limits, cities: seq<City>)
    ensures forall x :: x in Survivors(l, cities) ==> x in cities
  {
    if cities != [] {
      SurvivorsAreListed(l, Chop(cities));
    }
  }

  // Of a list without repetitions exactly the cities without a better one stay.
  lemma {:induction false} StaysIffNoneBetter(l: Limits, cities: seq<City>, i: nat)
    requires Distinct(cities) && i < |cities|
    ensures cities[i] in Survivors(l, cities) <==> !HasBetter(l, cities, i)
  {
    var n := |cities| - 1;
    SurvivorsAreListed(l, Chop(cities));
    if i < n {
      StaysIffNoneBetter(l, Chop(cities), i);
      assert HasBetter(l, Chop(cities), i) <==> HasBetter(l, cities, i);
    } else {
      BeatenIsBetter(l, cities, n);
      assert cities[..n] == Chop(cities);
    }
  }

  // A list takes its cities from another one, each where it is listed first, and in that order.
  ghost predicate InOrderOf(r: seq<City>, cities: seq<City>) {
    && (forall p :: 0 <= p < |r| ==> r[p] in cities)
    && forall p, q :: 0 <= p < q < |r| ==>
         exists j :: 0 <= j < |cities| && cities[j] == r[q] && r[q] !in cities[..j] && r[p] in cities[..j]
  }

  lemma OrderAppended(r: seq<City>, cities: seq<City>, x: City)
    requires InOrderOf(r, cities)
    ensures InOrderOf(r, cities + [x])
    ensures x !in cities ==> InOrderOf(r + [x], cities + [x])
  {
    var more := cities + [x];
    forall p, q | 0 <= p < q < |r|
      ensures exists j :: 0 <= j < |more| && more[j] == r[q] && r[q] !in more[..j] && r[p] in more[..j]
    {
      var j :| 0 <= j < |cities| && cities[j] == r[q] && r[q] !in cities[..j] && r[p] in cities[..j];
      assert more[..j] == cities[..j] && more[j] == r[q];
    }
    if x !in cities {
      assert more[..|cities|] == cities && more[|cities|] == x;
    }
  }

  lemma {:induction false} FirstsInOrder(cities: seq<City>)
    ensures InOrderOf(Firsts(cities), cities)
  {
    if cities != [] {
      FirstsInOrder(Chop(cities));
      OrderAppended(Firsts(Chop(cities)), Chop(cities), cities[|cities| - 1]);
    }
  }

  lemma {:induction false} SurvivorsInOrder(l: Limits, cities: seq<City>)
    requires Distinct(cities)
    ensures InOrderOf(Survivors(l, cities), cities)
  {
    if cities != [] {
      SurvivorsInOrder(l, Chop(cities));
      OrderAppended(Survivors(l, Chop(cities)), Chop(cities), cities[|cities| - 1]);
    }
  }
}
