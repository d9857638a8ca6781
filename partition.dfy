/** The detail pages of a venue and of an artist list that entity's shows in
    two buckets, past and upcoming, relative to the moment of the request,
    together with the size of each bucket. */
module ShowPartition {

  /** What a detail page shows of one show: the counterpart (the artist on a
      venue's page, the venue on an artist's page) and the start time. */
  datatype ShowEntry = ShowEntry(counterpartId: int, counterpartName: string,
                                 counterpartImageLink: string, startTime: int)

  /** A show is upcoming when it starts at or after `now`. */
  predicate IsUpcoming(e: ShowEntry, now: int) {
    e.startTime >= now
  }

  /** The upcoming shows, in the order of the entity's show list. */
  function Upcoming(shows: seq<ShowEntry>, now: int): seq<ShowEntry> {
    if shows == [] then []
    else
      var e := shows[|shows| - 1];
      Upcoming(shows[..|shows| - 1], now) + (if IsUpcoming(e, now) then [e] else [])
  }

  /** The past shows, in the order of the entity's show list. */
  function Past(shows: seq<ShowEntry>, now: int): seq<ShowEntry> {
    if shows == [] then []
    else
      var e := shows[|shows| - 1];
      Past(shows[..|shows| - 1], now) + (if IsUpcoming(e, now) then [] else [e])
  }

  /** The loop shared by the venue and artist detail pages: each show goes
      to one bucket and bumps that bucket's counter. */
  method PartitionShows(shows: seq<ShowEntry>, now: int)
    returns (past: seq<ShowEntry>, upcoming: seq<ShowEntry>, pastCount: nat, upcomingCount: nat)
    ensures past == Past(shows, now) && upcoming == Upcoming(shows, now)
    ensures pastCount == |past| && upcomingCount == |upcoming|
    ensures pastCount + upcomingCount == |shows|
  {
    past, upcoming := [], [];
    pastCount, upcomingCount := 0, 0;
    var i := 0;
    while i < |shows|
      invariant 0 <= i <= |shows|
      invariant past == Past(shows[..i], now) && upcoming == Upcoming(shows[..i], now)
      invariant pastCount == |past| && upcomingCount == |upcoming|
    {
      var show := shows[i];
      assert shows[..i + 1][..i] == shows[..i];
      if show.startTime >= now {
        upcomingCount := upcomingCount + 1;
        upcoming := upcoming + [show];
      } else {
        pastCount := pastCount + 1;
        past := past + [show];
      }
      i := i + 1;
    }
    assert shows[..i] == shows;
    PartitionIsExact(shows, now);
  }

  /** Every show lands in exactly one bucket: together the buckets hold the
      shows of the entity, each as often as it occurs there. */
  lemma {:induction false} PartitionIsExact(shows: seq<ShowEntry>, now: int)
    ensures multiset(Past(shows, now)) + multiset(Upcoming(shows, now)) == multiset(shows)
    ensures |Past(shows, now)| + |Upcoming(shows, now)| == |shows|
  {
    if shows != [] {
      var p := shows[..|shows| - 1];
      assert shows == p + [shows[|shows| - 1]];
      PartitionIsExact(p, now);
    }
  }

  /** A show is in the upcoming bucket iff it is a show of the entity that
      starts at or after `now`, and in the past bucket iff it starts before. */
  lemma {:induction false} BucketMembership(shows: seq<ShowEntry>, now: int, e: ShowEntry)
    ensures e in Upcoming(shows, now) <==> e in shows && e.startTime >= now
    ensures e in Past(shows, now) <==> e in shows && e.startTime < now
  {
    if shows != [] {
      var p := shows[..|shows| - 1];
      assert shows == p + [shows[|shows| - 1]];
      BucketMembership(p, now, e);
    }
  }

  /** The buckets keep the order of the show list: classifying two lists one
      after the other gives the buckets of their concatenation. */
  lemma {:induction false} BucketsKeepOrder(a: seq<ShowEntry>, b: seq<ShowEntry>, now: int)
    ensures Upcoming(a + b, now) == Upcoming(a, now) + Upcoming(b, now)
    ensures Past(a + b, now) == Past(a, now) + Past(b, now)
  {
    if b != [] {
      var b' := b[..|b| - 1];
      assert (a + b)[..|a + b| - 1] == a + b';
      BucketsKeepOrder(a, b', now);
    } else {
      assert a + b == a;
    }
  }

  /** Classification is relative to `now`: as time moves on, no show returns
      from the past bucket to the upcoming one. */
  lemma {:induction false} UpcomingShrinksOverTime(shows: seq<ShowEntry>, now: int, later: int)
    requires now <= later
    ensures |Upcoming(shows, later)| <= |Upcoming(shows, now)|
    ensures multiset(Upcoming(shows, later)) <= multiset(Upcoming(shows, now))
  {
    if shows != [] {
      UpcomingShrinksOverTime(shows[..|shows| - 1], now, later);
    }
  }
}
