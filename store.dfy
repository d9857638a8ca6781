/** The stored venues, artists and shows, the detail pages read from them,
    and venue deletion with its business rule and commit-or-rollback. */
module Store {
  import opened Records
  import opened ShowPartition

  /** Records are keyed by their own id, and every show refers to a stored
      venue and a stored artist. */
  predicate Consistent(venues: map<int, Venue>, artists: map<int, Artist>, shows: seq<Show>) {
    && (forall id :: id in venues ==> venues[id].id == id)
    && (forall id :: id in artists ==> artists[id].id == id)
    && (forall s :: s in shows ==> s.venueId in venues && s.artistId in artists)
  }

  /** The shows held at a venue (the venue's `shows` relationship). */
  function ShowsAtVenue(shows: seq<Show>, venueId: int): (r: seq<Show>)
    ensures |r| <= |shows|
    ensures forall s :: s in r <==> s in shows && s.venueId == venueId
    ensures forall s :: multiset(r)[s] == if s.venueId == venueId then multiset(shows)[s] else 0
  {
    if shows == [] then []
    else
      assert shows == [shows[0]] + shows[1..];
      (if shows[0].venueId == venueId then [shows[0]] else []) + ShowsAtVenue(shows[1..], venueId)
  }

  /** The shows an artist plays (the artist's `shows` relationship). The two
      relationships are read the same way and are deliberately kept parallel. */
  function ShowsOfArtist(shows: seq<Show>, artistId: int): (r: seq<Show>)
    ensures |r| <= |shows|
    ensures forall s :: s in r <==> s in shows && s.artistId == artistId
    ensures forall s :: multiset(r)[s] == if s.artistId == artistId then multiset(shows)[s] else 0
  {
    if shows == [] then []
    else
      assert shows == [shows[0]] + shows[1..];
      (if shows[0].artistId == artistId then [shows[0]] else []) + ShowsOfArtist(shows[1..], artistId)
  }

  /** A venue's shows as its page lists them: the artist and the start time. */
  function ArtistEntries(artists: map<int, Artist>, shows: seq<Show>): (r: seq<ShowEntry>)
    requires forall s :: s in shows ==> s.artistId in artists
    ensures |r| == |shows|
    ensures forall i :: 0 <= i < |shows| ==>
      && r[i].counterpartId == artists[shows[i].artistId].id
      && r[i].counterpartName == artists[shows[i].artistId].name
      && r[i].counterpartImageLink == artists[shows[i].artistId].imageLink
      && r[i].startTime == shows[i].startTime
  {
    seq(|shows|, i requires 0 <= i < |shows| =>
      var a := artists[shows[i].artistId];
      ShowEntry(a.id, a.name, a.imageLink, shows[i].startTime))
  }

  /** An artist's shows as its page lists them: the venue and the start time. */
  function VenueEntries(venues: map<int, Venue>, shows: seq<Show>): (r: seq<ShowEntry>)
    requires forall s :: s in shows ==> s.venueId in venues
    ensures |r| == |shows|
    ensures forall i :: 0 <= i < |shows| ==>
      && r[i].counterpartId == venues[shows[i].venueId].id
      && r[i].counterpartName == venues[shows[i].venueId].name
      && r[i].counterpartImageLink == venues[shows[i].venueId].imageLink
      && r[i].startTime == shows[i].startTime
  {
    seq(|shows|, i requires 0 <= i < |shows| =>
      var v := venues[shows[i].venueId];
      ShowEntry(v.id, v.name, v.imageLink, shows[i].startTime))
  }

  datatype VenueDetail = VenueDetail(venue: Venue, pastShows: seq<ShowEntry>, upcomingShows: seq<ShowEntry>,
                                     pastShowsCount: nat, upcomingShowsCount: nat)

  datatype ArtistDetail = ArtistDetail(artist: Artist, pastShows: seq<ShowEntry>, upcomingShows: seq<ShowEntry>,
                                       pastShowsCount: nat, upcomingShowsCount: nat)

  /** What deleting a venue leads to: an unknown id (404); a venue that still
      has shows, which is kept and whose page the caller is sent back to; a
      committed deletion; a failed commit, rolled back. */
  datatype DeleteOutcome = NotFound | Blocked(venueId: int) | Deleted(name: string) | DeleteFailed(name: string)

  class Store {
    var venues: map<int, Venue>
    var artists: map<int, Artist>
    var shows: seq<Show>

    ghost predicate Valid()
      reads this
    {
      Consistent(venues, artists, shows)
    }

    constructor (venues: map<int, Venue>, artists: map<int, Artist>, shows: seq<Show>)
      requires Consistent(venues, artists, shows)
      ensures Valid()
      ensures this.venues == venues && this.artists == artists && this.shows == shows
    {
      this.venues := venues;
      this.artists := artists;
      this.shows := shows;
    }

    /** The venue page: the venue, or nothing when the id is unknown (404),
        with its shows split into past and upcoming relative to `now`. */
    method ShowVenue(venueId: int, now: int) returns (r: Option<VenueDetail>)
      requires Valid()
      ensures r.None? <==> venueId !in venues
      ensures r.Some? ==>
        var entries := ArtistEntries(artists, ShowsAtVenue(shows, venueId));
        && r.value.venue == venues[venueId]
        && r.value.pastShows == Past(entries, now)
        && r.value.upcomingShows == Upcoming(entries, now)
        && r.value.pastShowsCount == |r.value.pastShows|
        && r.value.upcomingShowsCount == |r.value.upcomingShows|
        && r.value.pastShowsCount + r.value.upcomingShowsCount == |ShowsAtVenue(shows, venueId)|
    {
      if venueId !in venues {
        return None;
      }
      var entries := ArtistEntries(artists, ShowsAtVenue(shows, venueId));
      var past, upcoming, pastCount, upcomingCount := PartitionShows(entries, now);
      r := Some(VenueDetail(venues[venueId], past, upcoming, pastCount, upcomingCount));
    }

    /** The artist page: the artist, or nothing when the id is unknown (404),
        with its shows split into past and upcoming relative to `now`. */
    method ShowArtist(artistId: int, now: int) returns (r: Option<ArtistDetail>)
      requires Valid()
      ensures r.None? <==> artistId !in artists
      ensures r.Some? ==>
        var entries := VenueEntries(venues, ShowsOfArtist(shows, artistId));
        && r.value.artist == artists[artistId]
        && r.value.pastShows == Past(entries, now)
        && r.value.upcomingShows == Upcoming(entries, now)
        && r.value.pastShowsCount == |r.value.pastShows|
        && r.value.upcomingShowsCount == |r.value.upcomingShows|
        && r.value.pastShowsCount + r.value.upcomingShowsCount == |ShowsOfArtist(shows, artistId)|
    {
      if artistId !in artists {
        return None;
      }
      var entries := VenueEntries(venues, ShowsOfArtist(shows, artistId));
      var past, upcoming, pastCount, upcomingCount := PartitionShows(entries, now);
      r := Some(ArtistDetail(artists[artistId], past, upcoming, pastCount, upcomingCount));
    }

    /** Deleting a venue. A venue with shows is never deleted. Otherwise its
        removal is staged and committed; `commitSucceeds` says whether the
        commit goes through, and a failed commit leaves the store as it was. */
    method DeleteVenue(venueId: int, commitSucceeds: bool) returns (outcome: DeleteOutcome)
      requires Valid()
      modifies this
      ensures Valid()
      ensures artists == old(artists) && shows == old(shows)
      ensures venueId !in old(venues) ==> outcome == NotFound && venues == old(venues)
      ensures venueId in old(venues) && |ShowsAtVenue(shows, venueId)| > 0 ==>
        outcome == Blocked(venueId) && venues == old(venues)
      ensures venueId in old(venues) && |ShowsAtVenue(shows, venueId)| == 0 ==>
        if commitSucceeds
        then outcome == Deleted(old(venues)[venueId].name) && venues == old(venues) - {venueId}
        else outcome == DeleteFailed(old(venues)[venueId].name) && venues == old(venues)
    {
      if venueId !in venues {
        return NotFound;
      }
      var venue := venues[venueId];
      if |ShowsAtVenue(shows, venueId)| > 0 {
        return Blocked(venueId);
      }
      var name := venue.name;
      // The session's pending state: the venue, its genres cleared, removed.
      var staged := venues[venueId := venue.(genres := [])] - {venueId};
      if commitSucceeds {
        GuardKeepsStoreConsistent(venues, artists, shows, venueId);
        assert staged == venues - {venueId};
        venues := staged;
        outcome := Deleted(name);
      } else {
        outcome := DeleteFailed(name);
      }
    }
  }

  // ---------------------------------------------------------------------
  // Why the delete guard is there

  /** Removing a venue without shows leaves every show pointing at stored records. */
  lemma GuardKeepsStoreConsistent(venues: map<int, Venue>, artists: map<int, Artist>, shows: seq<Show>, venueId: int)
    requires Consistent(venues, artists, shows)
    requires |ShowsAtVenue(shows, venueId)| == 0
    ensures Consistent(venues - {venueId}, artists, shows)
  {
  }

  /** Removing a venue that has shows would leave those shows dangling. */
  lemma UnguardedDeleteBreaksConsistency(venues: map<int, Venue>, artists: map<int, Artist>, shows: seq<Show>, venueId: int)
    requires |ShowsAtVenue(shows, venueId)| > 0
    ensures !Consistent(venues - {venueId}, artists, shows)
  {
    var s := ShowsAtVenue(shows, venueId)[0];
    assert s in ShowsAtVenue(shows, venueId);
  }

  /** Each show of a venue with a known start time appears in exactly one
      bucket of the venue's page, chosen by comparing its time with `now`. */
  lemma VenueShowInOneBucket(venues: map<int, Venue>, artists: map<int, Artist>, shows: seq<Show>,
                             venueId: int, now: int, i: nat)
    requires Consistent(venues, artists, shows)
    requires i < |ShowsAtVenue(shows, venueId)|
    ensures var entries := ArtistEntries(artists, ShowsAtVenue(shows, venueId));
      && (entries[i] in Upcoming(entries, now) <==> ShowsAtVenue(shows, venueId)[i].startTime >= now)
      && (entries[i] in Past(entries, now) <==> ShowsAtVenue(shows, venueId)[i].startTime < now)
  {
    var entries := ArtistEntries(artists, ShowsAtVenue(shows, venueId));
    BucketMembership(entries, now, entries[i]);
  }
  /** Each show of an artist appears in exactly one bucket of the artist's
      page, chosen by comparing its time with `now`. */
  lemma ArtistShowInOneBucket(venues: map<int, Venue>, artists: map<int, Artist>, shows: seq<Show>,
                              artistId: int, now: int, i: nat)
    requires Consistent(venues, artists, shows)
    requires i < |ShowsOfArtist(shows, artistId)|
    ensures var entries := VenueEntries(venues, ShowsOfArtist(shows, artistId));
      && (entries[i] in Upcoming(entries, now) <==> ShowsOfArtist(shows, artistId)[i].startTime >= now)
      && (entries[i] in Past(entries, now) <==> ShowsOfArtist(shows, artistId)[i].startTime < now)
  {
    var entries := VenueEntries(venues, ShowsOfArtist(shows, artistId));
    BucketMembership(entries, now, entries[i]);
  }
}
