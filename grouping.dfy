/** The venue index: the listing query yields one row per venue, ordered by
    city, and the handler turns those rows into one area per city, each with
    the city's state and the venues located there. */
module CityGrouping {
  import opened Records

  /** What the index shows of one venue. */
  datatype VenueEntry = VenueEntry(id: int, name: string, numUpcomingShows: int)

  /** One group of the index: a city, its state and its venues. */
  datatype Area = Area(city: string, state: string, venues: seq<VenueEntry>)

  function EntryOf(r: Row): VenueEntry {
    VenueEntry(r.id, r.name, r.numUpcomingShows)
  }

  predicate HasCity(rows: seq<Row>, c: string) {
    exists i :: 0 <= i < |rows| && rows[i].city == c
  }

  /** The position of the first row located in city `c`. */
  function FirstIndex(rows: seq<Row>, c: string): (k: nat)
    requires HasCity(rows, c)
    ensures k < |rows| && rows[k].city == c
    ensures forall j :: 0 <= j < k ==> rows[j].city != c
  {
    if rows[0].city == c then 0
    else
      var i :| 0 <= i < |rows| && rows[i].city == c;
      assert rows[1..][i - 1].city == c;
      1 + FirstIndex(rows[1..], c)
  }

  /** The state recorded for city `c`: that of the first row located there. */
  function StateOf(rows: seq<Row>, c: string): string {
    if HasCity(rows, c) then rows[FirstIndex(rows, c)].state else ""
  }

  /** The venues of city `c`, in the order of the rows. */
  function VenuesIn(rows: seq<Row>, c: string): seq<VenueEntry> {
    if rows == [] then []
    else (if rows[0].city == c then [EntryOf(rows[0])] else []) + VenuesIn(rows[1..], c)
  }

  /** The cities of the rows, each once, in order of first appearance. */
  function Cities(rows: seq<Row>): seq<string> {
    if rows == [] then []
    else
      var cs := Cities(rows[..|rows| - 1]);
      var c := rows[|rows| - 1].city;
      if c in cs then cs else cs + [c]
  }

  function AreaOf(rows: seq<Row>, c: string): Area {
    Area(c, StateOf(rows, c), VenuesIn(rows, c))
  }

  /** The index the handler renders: one area per city, in first-seen order. */
  function Areas(rows: seq<Row>): seq<Area> {
    var cs := Cities(rows);
    seq(|cs|, k requires 0 <= k < |cs| => AreaOf(rows, cs[k]))
  }

  /** The number of venue entries over all areas. */
  function TotalVenues(areas: seq<Area>): nat {
    if areas == [] then 0
    else TotalVenues(areas[..|areas| - 1]) + |areas[|areas| - 1].venues|
  }

  /** The rows come sorted by city under `le`, the collation the listing
      query's `order_by('city')` sorts with; which collation that is depends
      on the database, so it is a parameter here. */
  predicate SortedByCity(rows: seq<Row>, le: (string, string) -> bool) {
    forall i, j :: 0 <= i < j < |rows| ==> le(rows[i].city, rows[j].city)
  }

  /** The first dictionary of the grouping loop once the rows `seen` have
      been visited: each city seen so far, mapped to its venues. */
  function VenueMap(seen: seq<Row>): map<string, seq<VenueEntry>> {
    map c | c in Cities(seen) :: VenuesIn(seen, c)
  }

  /** The second dictionary: each city seen so far, mapped to its state. */
  function StateMap(seen: seq<Row>): map<string, string> {
    map c | c in Cities(seen) :: StateOf(seen, c)
  }

  /** The grouping loop of the venue index. `cityVenues` and `cityState` are
      the two dictionaries it fills; `order` keeps their keys in insertion
      order, the order in which the second loop visits them. */
  method GroupByCity(rows: seq<Row>) returns (areas: seq<Area>)
    ensures areas == Areas(rows)
  {
    var cityVenues: map<string, seq<VenueEntry>> := map[];
    var cityState: map<string, string> := map[];
    var order: seq<string> := [];
    var i := 0;
    while i < |rows|
      invariant 0 <= i <= |rows|
      invariant order == Cities(rows[..i])
      invariant cityVenues == VenueMap(rows[..i]) && cityState == StateMap(rows[..i])
    {
      var ven := rows[i];
      GroupStep(rows, i);
      if ven.city !in cityVenues {
        cityVenues := cityVenues[ven.city := []];
        cityState := cityState[ven.city := ven.state];
        order := order + [ven.city];
      }
      cityVenues := cityVenues[ven.city := cityVenues[ven.city] + [EntryOf(ven)]];
      i := i + 1;
    }
    assert rows[..i] == rows;

    areas := [];
    var k := 0;
    while k < |order|
      invariant 0 <= k <= |order|
      invariant |areas| == k
      invariant forall j :: 0 <= j < k ==> areas[j] == Areas(rows)[j]
    {
      var city := order[k];
      areas := areas + [Area(city, cityState[city], cityVenues[city])];
      k := k + 1;
    }
  }

  /** One iteration of the grouping loop: how the cities and the two
      dictionaries change when row `i` is visited. */
  lemma GroupStep(rows: seq<Row>, i: nat)
    requires i < |rows|
    ensures var p, r := rows[..i], rows[i];
      && Cities(rows[..i + 1]) == (if r.city in Cities(p) then Cities(p) else Cities(p) + [r.city])
      && StateMap(rows[..i + 1]) == (if r.city in Cities(p) then StateMap(p) else StateMap(p)[r.city := r.state])
      && VenueMap(rows[..i + 1]) ==
         (var m := if r.city in Cities(p) then VenueMap(p) else VenueMap(p)[r.city := []];
          m[r.city := m[r.city] + [EntryOf(r)]])
  {
    var p, r := rows[..i], rows[i];
    var q := rows[..i + 1];
    assert q == p + [r];
    CitiesStep(p, r);
    GroupStepVenues(p, r);
    GroupStepStates(p, r);
  }

  lemma CitiesStep(p: seq<Row>, r: Row)
    ensures Cities(p + [r]) == (if r.city in Cities(p) then Cities(p) else Cities(p) + [r.city])
  {
    var q := p + [r];
    assert q[..|q| - 1] == p;
  }

  lemma GroupStepVenues(p: seq<Row>, r: Row)
    ensures VenueMap(p + [r]) ==
      (var m := if r.city in Cities(p) then VenueMap(p) else VenueMap(p)[r.city := []];
       m[r.city := m[r.city] + [EntryOf(r)]])
  {
    var q := p + [r];
    CitiesStep(p, r);
    var m := if r.city in Cities(p) then VenueMap(p) else VenueMap(p)[r.city := []];
    var target := m[r.city := m[r.city] + [EntryOf(r)]];
    if r.city !in Cities(p) {
      assert !HasCity(p, r.city) by {
        CitiesMembership(p);
      }
      VenuesInEmpty(p, r.city);
    }
    assert VenueMap(q).Keys == target.Keys;
    forall c | c in target
      ensures VenueMap(q)[c] == target[c]
    {
      VenuesInAppend(p, r, c);
    }
  }

  lemma GroupStepStates(p: seq<Row>, r: Row)
    ensures StateMap(p + [r]) == (if r.city in Cities(p) then StateMap(p) else StateMap(p)[r.city := r.state])
  {
    var q := p + [r];
    CitiesStep(p, r);
    var target := if r.city in Cities(p) then StateMap(p) else StateMap(p)[r.city := r.state];
    assert StateMap(q).Keys == target.Keys;
    forall c | c in target
      ensures StateMap(q)[c] == target[c]
    {
      assert HasCity(p, c) <==> c in Cities(p) by {
        CitiesMembership(p);
      }
      StateOfAppend(p, r, c);
    }
  }

  // ---------------------------------------------------------------------
  // Facts about the reference definitions when one row is appended

  lemma FirstIndexUnique(rows: seq<Row>, c: string, k: nat)
    requires k < |rows| && rows[k].city == c
    requires forall j :: 0 <= j < k ==> rows[j].city != c
    ensures HasCity(rows, c) && FirstIndex(rows, c) == k
  {
    var f := FirstIndex(rows, c);
    assert !(f < k) && !(k < f);
  }

  lemma FirstIndexAppendKnown(p: seq<Row>, r: Row, c: string)
    requires HasCity(p, c)
    ensures HasCity(p + [r], c) && FirstIndex(p + [r], c) == FirstIndex(p, c)
  {
    var k := FirstIndex(p, c);
    assert (p + [r])[k] == p[k];
    FirstIndexUnique(p + [r], c, k);
  }

  lemma FirstIndexAppendNew(p: seq<Row>, r: Row)
    requires !HasCity(p, r.city)
    ensures HasCity(p + [r], r.city) && FirstIndex(p + [r], r.city) == |p|
  {
    assert forall j :: 0 <= j < |p| ==> (p + [r])[j] == p[j];
    FirstIndexUnique(p + [r], r.city, |p|);
  }

  lemma StateOfAppend(p: seq<Row>, r: Row, c: string)
    ensures HasCity(p, c) ==> StateOf(p + [r], c) == StateOf(p, c)
    ensures !HasCity(p, c) && r.city == c ==> StateOf(p + [r], c) == r.state
  {
    if HasCity(p, c) {
      FirstIndexAppendKnown(p, r, c);
    } else if r.city == c {
      FirstIndexAppendNew(p, r);
    }
  }

  lemma {:induction false} VenuesInAppend(p: seq<Row>, r: Row, c: string)
    ensures VenuesIn(p + [r], c) == VenuesIn(p, c) + (if r.city == c then [EntryOf(r)] else [])
  {
    if p != [] {
      assert (p + [r])[1..] == p[1..] + [r];
      VenuesInAppend(p[1..], r, c);
    }
  }

  lemma {:induction false} VenuesInEmpty(rows: seq<Row>, c: string)
    requires !HasCity(rows, c)
    ensures VenuesIn(rows, c) == []
  {
    if rows != [] {
      VenuesInEmpty(rows[1..], c);
    }
  }

  // ---------------------------------------------------------------------
  // The cities of the index

  /** A city heads a group exactly when some row is located there. */
  lemma {:induction false} CitiesMembership(rows: seq<Row>)
    ensures forall c :: c in Cities(rows) <==> HasCity(rows, c)
  {
    if rows != [] {
      var p := rows[..|rows| - 1];
      var r := rows[|rows| - 1];
      assert rows == p + [r];
      CitiesMembership(p);
      forall c ensures HasCity(rows, c) <==> HasCity(p, c) || r.city == c {
        if HasCity(rows, c) && r.city != c {
          var i :| 0 <= i < |rows| && rows[i].city == c;
          assert p[i].city == c;
        }
        if HasCity(p, c) {
          var i :| 0 <= i < |p| && p[i].city == c;
          assert rows[i].city == c;
        }
      }
    }
  }

  /** No city heads two groups. */
  lemma {:induction false} CitiesDistinct(rows: seq<Row>)
    ensures forall a, b :: 0 <= a < b < |Cities(rows)| ==> Cities(rows)[a] != Cities(rows)[b]
  {
    if rows != [] {
      CitiesDistinct(rows[..|rows| - 1]);
    }
  }

  /** Groups come in the order in which their cities first appear in the rows. */
  lemma {:induction false} CitiesFirstSeenOrder(rows: seq<Row>)
    ensures forall a :: 0 <= a < |Cities(rows)| ==> HasCity(rows, Cities(rows)[a])
    ensures forall a, b :: 0 <= a < b < |Cities(rows)| ==>
      FirstIndex(rows, Cities(rows)[a]) < FirstIndex(rows, Cities(rows)[b])
  {
    CitiesMembership(rows);
    if rows != [] {
      var p := rows[..|rows| - 1];
      var r := rows[|rows| - 1];
      assert rows == p + [r];
      CitiesFirstSeenOrder(p);
      CitiesMembership(p);
      var cs := Cities(p);
      forall a | 0 <= a < |cs|
        ensures HasCity(rows, cs[a]) && FirstIndex(rows, cs[a]) == FirstIndex(p, cs[a])
      {
        FirstIndexAppendKnown(p, r, cs[a]);
      }
      if r.city !in cs {
        FirstIndexAppendNew(p, r);
      }
    }
  }

  // ---------------------------------------------------------------------
  // What the index promises about the rows it was built from

  /** Every row lands in the one area of its city, and in no other. */
  lemma RowInOneArea(rows: seq<Row>, i: nat) returns (g: nat)
    requires i < |rows|
    ensures g < |Areas(rows)| && Areas(rows)[g].city == rows[i].city
    ensures EntryOf(rows[i]) in Areas(rows)[g].venues
    ensures forall h :: 0 <= h < |Areas(rows)| && h != g ==> Areas(rows)[h].city != rows[i].city
  {
    CitiesMembership(rows);
    CitiesDistinct(rows);
    var c := rows[i].city;
    assert HasCity(rows, c);
    var cs := Cities(rows);
    g :| 0 <= g < |cs| && cs[g] == c;
    EntryInVenues(rows, i);
  }

  lemma {:induction false} EntryInVenues(rows: seq<Row>, i: nat)
    requires i < |rows|
    ensures EntryOf(rows[i]) in VenuesIn(rows, rows[i].city)
  {
    if i > 0 {
      EntryInVenues(rows[1..], i - 1);
    }
  }

  /** A later row of a city never replaces the state of the first one. */
  lemma StateNotOverwritten(rows: seq<Row>, more: seq<Row>, c: string)
    requires HasCity(rows, c)
    ensures StateOf(rows + more, c) == StateOf(rows, c)
  {
    var k := FirstIndex(rows, c);
    var q := rows + more;
    assert forall j :: 0 <= j <= k ==> q[j] == rows[j];
    FirstIndexUnique(q, c, k);
  }

  /** Because the rows come sorted by city, so do the areas, with no city
      twice, whatever collation the database sorts by. */
  lemma AreasSortedByCity(rows: seq<Row>, le: (string, string) -> bool)
    requires SortedByCity(rows, le)
    ensures forall a, b :: 0 <= a < b < |Areas(rows)| ==>
      le(Areas(rows)[a].city, Areas(rows)[b].city) && Areas(rows)[a].city != Areas(rows)[b].city
  {
    CitiesFirstSeenOrder(rows);
    CitiesDistinct(rows);
    var cs := Cities(rows);
    forall a, b | 0 <= a < b < |cs|
      ensures le(cs[a], cs[b])
    {
      var ia := FirstIndex(rows, cs[a]);
      var ib := FirstIndex(rows, cs[b]);
      assert le(rows[ia].city, rows[ib].city);
    }
  }

  /** No row is dropped or duplicated: the areas hold one entry per row. */
  lemma {:induction false} NoRowDroppedOrDuplicated(rows: seq<Row>)
    ensures TotalVenues(Areas(rows)) == |rows|
  {
    if rows != [] {
      var p := rows[..|rows| - 1];
      var r := rows[|rows| - 1];
      assert rows == p + [r];
      NoRowDroppedOrDuplicated(p);
      TotalStep(p, r);
    }
  }

  lemma TotalStep(p: seq<Row>, r: Row)
    ensures TotalVenues(Areas(p + [r])) == TotalVenues(Areas(p)) + 1
  {
    CitiesMembership(p);
    if r.city in Cities(p) {
      TotalStepKnownCity(p, r);
    } else {
      TotalStepNewCity(p, r);
    }
  }

  /** Areas of cities other than the appended row's are unaffected by it. */
  lemma OtherAreasUnchanged(p: seq<Row>, r: Row, c: string)
    requires c in Cities(p) && c != r.city
    ensures AreaOf(p + [r], c) == AreaOf(p, c)
  {
    VenuesInAppend(p, r, c);
    StateOfAppend(p, r, c);
  }

  lemma TotalStepKnownCity(p: seq<Row>, r: Row)
    requires r.city in Cities(p)
    ensures TotalVenues(Areas(p + [r])) == TotalVenues(Areas(p)) + 1
  {
    var q := p + [r];
    assert q[..|q| - 1] == p;
    var cs := Cities(p);
    assert Cities(q) == cs;
    CitiesDistinct(p);
    var xs, ys := Areas(p), Areas(q);
    var g :| 0 <= g < |cs| && cs[g] == r.city;
    forall k | 0 <= k < |cs| && k != g
      ensures ys[k] == xs[k]
    {
      OtherAreasUnchanged(p, r, cs[k]);
    }
    VenuesInAppend(p, r, r.city);
    TotalBump(xs, ys, g);
  }

  lemma TotalStepNewCity(p: seq<Row>, r: Row)
    requires r.city !in Cities(p)
    ensures TotalVenues(Areas(p + [r])) == TotalVenues(Areas(p)) + 1
  {
    var q := p + [r];
    assert q[..|q| - 1] == p;
    var cs := Cities(p);
    assert Cities(q) == cs + [r.city];
    var xs, ys := Areas(p), Areas(q);
    forall k | 0 <= k < |cs|
      ensures ys[k] == xs[k]
    {
      OtherAreasUnchanged(p, r, cs[k]);
    }
    assert ys[..|ys| - 1] == xs;
    CitiesMembership(p);
    VenuesInAppend(p, r, r.city);
    VenuesInEmpty(p, r.city);
    assert |ys[|ys| - 1].venues| == 1;
  }

  lemma {:induction false} TotalBump(xs: seq<Area>, ys: seq<Area>, g: nat)
    requires |xs| == |ys| && g < |xs|
    requires forall k :: 0 <= k < |xs| && k != g ==> |ys[k].venues| == |xs[k].venues|
    requires |ys[g].venues| == |xs[g].venues| + 1
    ensures TotalVenues(ys) == TotalVenues(xs) + 1
  {
    var n := |xs| - 1;
    if g == n {
      TotalSame(xs[..n], ys[..n]);
    } else {
      TotalBump(xs[..n], ys[..n], g);
    }
  }

  lemma {:induction false} TotalSame(xs: seq<Area>, ys: seq<Area>)
    requires |xs| == |ys|
    requires forall k :: 0 <= k < |xs| ==> |ys[k].venues| == |xs[k].venues|
    ensures TotalVenues(ys) == TotalVenues(xs)
  {
    if xs != [] {
      TotalSame(xs[..|xs| - 1], ys[..|ys| - 1]);
    }
  }
}
