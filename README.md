# Fyyur booking directory: a Dafny model of its request-handling core

Fyyur is a server-rendered directory of venues, artists and the shows that
link them. Its request handlers hold four pieces of logic worth stating
precisely. This project models each of them with the database replaced by
in-memory records:

- **The venue index** (`venues`). The listing query returns one row per venue,
  ordered by city. The handler fills two dictionaries: city to venue list,
  and city to state. It then emits one area per city. `CityGrouping.GroupByCity`
  is that loop, with the dictionaries as Dafny maps. A sequence `order`
  stands for the dictionaries' insertion order, which Python's `dict`
  keeps and a Dafny `map` does not. The loop is proved equal to a reference
  definition, `Areas`. Lemmas then show what the index promises: every row
  lands in exactly one area, the one for its city. No row is lost or
  duplicated. Areas come in first-seen order, so they are sorted when the
  rows are. A city's state is that of its first row.
- **The detail pages** (`show_venue`, `show_artist`). Each show of the
  entity goes into exactly one of two buckets. It is upcoming when its start
  time is at or after `now`, and past otherwise. Each bucket has a counter.
  `ShowPartition.PartitionShows` is that loop; the two handlers contain it
  twice and the model has it once. `Store.Store.ShowVenue` and
  `Store.Store.ShowArtist` look the entity up, returning `None` for an
  unknown id (the handler's 404). They project each show to its
  counterpart: the artist on a venue's page, the venue on an artist's page.
- **Search** (`search_venues`, `search_artists`). A record matches when the
  term, ignoring ASCII case, occurs in the string "Name City, State". The
  response carries the matching records and their count. This part is
  written as pure functions with lemmas: the empty term matches everything,
  the case of the term does not matter, a longer term never finds more,
  and the example searches written beside the handlers give the results
  they name.
- **Venue deletion** (`delete_venue`). `Store.Store` is a class holding the
  venues, artists and shows. A venue that still has shows is never deleted.
  Otherwise the removal is staged and committed. When the commit fails,
  the store is left as it was. The store invariant says every show refers
  to a stored venue and a stored artist. Lemmas show that the guard is what
  keeps that invariant.

Time is an integer timestamp, and the current time is a parameter `now`.
Whether a commit succeeds is a parameter `commitSucceeds`.

On the detail pages a show that starts exactly at `now` counts as upcoming
(app.py:172 and app.py:302).

Files: `records.dfy` (the records), `grouping.dfy`, `partition.dfy`,
`search.dfy`, `store.dfy`.

## Model

| member | source | states |
|---|---|---|
| `CityGrouping.GroupByCity` | 01_fyyur/starter_code/app.py:112-133 | The index built by the two loops equals `Areas(rows)`: one area per distinct city in first-seen order, each with that city's first state and all its venues in row order. |
| `CityGrouping.GroupStep` | 01_fyyur/starter_code/app.py:125-130 | Visiting one row: a new city is appended to the key order with the row's state and an empty list; then the row's entry is appended to its city's list; every other city is unchanged. |
| `CityGrouping.FirstIndex` | 01_fyyur/starter_code/app.py:126-128 | The first row of a city is of that city and no earlier row is. |
| `CityGrouping.CitiesMembership` | 01_fyyur/starter_code/app.py:125-127 | A city heads an area if and only if some row is located there. |
| `CityGrouping.CitiesDistinct` | 01_fyyur/starter_code/app.py:126-127 | No city heads two areas. |
| `CityGrouping.CitiesFirstSeenOrder` | 01_fyyur/starter_code/app.py:131-133 | Areas come in the order of their cities' first rows. |
| `CityGrouping.RowInOneArea` | 01_fyyur/starter_code/app.py:125-130 | Every row's entry is in the area of its city, and no other area has that city. |
| `CityGrouping.NoRowDroppedOrDuplicated` | 01_fyyur/starter_code/app.py:125-130 | The areas hold exactly as many venue entries as there are rows. |
| `CityGrouping.VenuesInAppend` | 01_fyyur/starter_code/app.py:129-130 | A row adds its entry at the end of its own city's list and changes no other list, so venues keep row order. |
| `CityGrouping.StateNotOverwritten` | 01_fyyur/starter_code/app.py:126-128 | Once a city has a row, later rows never change the state recorded for it. |
| `CityGrouping.AreasSortedByCity` | 01_fyyur/starter_code/app.py:117-133 | When the rows are sorted by city under some collation `le`, the areas are sorted by city under `le` and no city appears twice; the collation is a parameter because `order_by` sorts with the database's. |
| `ShowPartition.PartitionShows` | 01_fyyur/starter_code/app.py:167-186 | Past bucket = shows starting before `now`, upcoming bucket = the others, both in list order; each counter equals its bucket's length; the counters sum to the number of shows. |
| `ShowPartition.PartitionIsExact` | 01_fyyur/starter_code/app.py:171-184 | The two buckets together are a permutation of the show list: every show is placed exactly once. |
| `ShowPartition.BucketMembership` | 01_fyyur/starter_code/app.py:172-177 | A show is in the upcoming bucket iff it is a show of the entity starting at or after `now`, and in the past bucket iff it starts before. |
| `ShowPartition.BucketsKeepOrder` | 01_fyyur/starter_code/app.py:179-184 | The buckets of a concatenated list are the concatenated buckets, so the relative order of shows is kept. |
| `ShowPartition.UpcomingShrinksOverTime` | 01_fyyur/starter_code/app.py:172 | For a later `now`, the upcoming bucket is a sub-multiset of the earlier one and no longer. |
| `Store.Consistent` | 01_fyyur/starter_code/app.py:32-76 | The stored tables: venues and artists keyed by their own ids, every show pointing at a stored venue and a stored artist. |
| `Store.Store.Valid` | 01_fyyur/starter_code/app.py:32-76 | The store's invariant is `Consistent` over its three tables. |
| `Store.Store.constructor` | 01_fyyur/starter_code/app.py:32-76 | A store built from consistent tables holds exactly those tables and is valid. |
| `Store.ArtistEntries` | 01_fyyur/starter_code/app.py:179-184 | One entry per show of the venue, in the same order, naming the show's artist (id, name and image link) and the show's start time. |
| `Store.VenueEntries` | 01_fyyur/starter_code/app.py:309-314 | One entry per show of the artist, in the same order, naming the show's venue (id, name and image link) and the show's start time. |
| `Store.ShowsAtVenue` | 01_fyyur/starter_code/app.py:171 | A venue's shows are exactly the stored shows whose venue is that venue, each as often as it is stored, and no others. |
| `Store.ShowsOfArtist` | 01_fyyur/starter_code/app.py:301 | An artist's shows are exactly the stored shows whose artist is that artist, each as often as it is stored, and no others. |
| `Store.Store.ShowVenue` | 01_fyyur/starter_code/app.py:159-187 | An unknown id gives `None`. Otherwise the result holds the venue, its shows projected to their artists and split by `now`, and counters that match the buckets and sum to the venue's number of shows. |
| `Store.Store.ShowArtist` | 01_fyyur/starter_code/app.py:286-318 | The same for an artist, with shows projected to their venues. |
| `Store.VenueShowInOneBucket` | 01_fyyur/starter_code/app.py:171-184 | Each show on a venue's page is upcoming iff its start time is at or after `now`, and past iff it is before. |
| `Store.ArtistShowInOneBucket` | 01_fyyur/starter_code/app.py:301-314 | The same for each show on an artist's page. |
| `Store.Store.DeleteVenue` | 01_fyyur/starter_code/app.py:230-252 | Unknown id: `NotFound`, store unchanged. Venue with shows: `Blocked`, store unchanged. Otherwise a successful commit removes exactly that venue, and a failed commit leaves the store unchanged. Artists and shows never change, and the store stays consistent. |
| `Store.GuardKeepsStoreConsistent` | 01_fyyur/starter_code/app.py:235-243 | Removing a venue without shows keeps every show pointing at a stored venue and artist. |
| `Store.UnguardedDeleteBreaksConsistency` | 01_fyyur/starter_code/app.py:235-237 | Removing a venue that has shows would leave a show pointing at no venue. |
| `Search.Lower` | 01_fyyur/starter_code/app.py:151 | The case folding of `ILIKE`: the result has the input's length; each upper-case ASCII letter becomes its lower-case letter, and every other character is kept. |
| `Search.Display` | 01_fyyur/starter_code/app.py:150 | The string matched against is "Name City, State": the name, a space, the city, a comma and a space, then the state. |
| `Search.Matches` | 01_fyyur/starter_code/app.py:150-153 | A record matches iff the folded term occurs at some position of the folded display string. |
| `Search.LikeMatch` | 01_fyyur/starter_code/app.py:151-153 | SQL `LIKE` with `%` and `_`; a pattern without wildcards matches exactly the string equal to it. |
| `Search.LikeMatches` | 01_fyyur/starter_code/app.py:277-279 | The filter as the query writes it, `'%' + term + '%'` over the display string; whenever the folded term holds no wildcard it agrees with `Matches`. |
| `Search.Filter` | 01_fyyur/starter_code/app.py:150-154 | A record is in the result iff it is in the input and matches the term, and each matching record appears exactly as often as in the input; non-matching ones not at all. |
| `Search.SearchRows` | 01_fyyur/starter_code/app.py:144-155 | The response's count is the number of records in its data; the data hold each matching record exactly as often as the query returned it and nothing else, so the count is the number of matching records. |
| `Search.ContainsIffOccurs` | 01_fyyur/starter_code/app.py:151-153 | The substring test holds iff the term occurs at some position of the display string. |
| `Search.ContainsTransitive` | 01_fyyur/starter_code/app.py:151-153 | A substring of a substring is a substring. |
| `Search.EmptyTermMatchesAll` | 01_fyyur/starter_code/app.py:151-152 | The empty term, the form's default, returns every record, and the count is the number of records. |
| `Search.SearchIgnoresTermCase` | 01_fyyur/starter_code/app.py:151 | A term and its lower-case form give the same response. |
| `Search.NarrowingTermNarrowsResults` | 01_fyyur/starter_code/app.py:147-154 | If the longer term contains the shorter one, every record it finds is also found by the shorter one, and its count is no larger. |
| `Search.HopFindsMusicalHop` | 01_fyyur/starter_code/app.py:139 | "Hop" finds "The Musical Hop". |
| `Search.MusicFindsMusicalHop` | 01_fyyur/starter_code/app.py:140 | "Music" finds "The Musical Hop". |
| `Search.MusicFindsParkSquare` | 01_fyyur/starter_code/app.py:140 | "Music" finds "Park Square Live Music & Coffee". |
| `Search.AFindsGunsNPetals` | 01_fyyur/starter_code/app.py:265 | "A" finds "Guns N Petals". |
| `Search.AFindsMattQuevado` | 01_fyyur/starter_code/app.py:265 | "A" finds "Matt Quevado". |
| `Search.AFindsWildSaxBand` | 01_fyyur/starter_code/app.py:265 | "A" finds "The Wild Sax Band". |
| `Search.BandFindsWildSaxBand` | 01_fyyur/starter_code/app.py:266 | "band" finds "The Wild Sax Band". |
| `Search.LikeAgreesOnPlainTerms` | 01_fyyur/starter_code/app.py:151-153 | For a term without `%` or `_`, the query's `ILIKE '%term%'` filter holds iff the term is a substring. |
| `Search.WildcardTermMatches` | 01_fyyur/starter_code/app.py:277-279 | With the term spliced into the pattern as written, "H_p" matches a record "Hip Hop" in "LA, CA". |
| `Search.WildcardTermIsNoSubstring` | 01_fyyur/starter_code/app.py:277-279 | "H_p" does not occur in that record's display string, even ignoring case. |

## Left out

- Flask routing, template rendering, flash messages, redirects, the index page, and the 404/500 handlers are framework I/O. `Option.None` stands for the 404. `DeleteOutcome` says which message and redirect the handler picks, but not their text.
- ShowPartition.PartitionShows: reads the clock once per page. The handlers call `datetime.today()` again for every show (app.py:172, app.py:302), so a page rendered across a tick of the clock could put a later-starting show in the past bucket and an earlier-starting one in the upcoming bucket; no single `now` in the model produces that split.
- Store.Store.DeleteVenue: `DeleteFailed` assumes `sys` is in scope. The rollback branch prints `sys.exc_info()` (app.py:247), but app.py imports `sys` only if `from forms import *` supplies it, and forms.py is not part of this model; without it that line raises after the rollback and the request ends in a server error instead of the "could not be deleted" message. The store is unchanged either way.
- SQLAlchemy sessions are modelled only as all-or-nothing commits. `add`, `close`, eager loading (`joinedload`/`subqueryload`) and the per-request session are not modelled. A failed commit is the parameter `commitSucceeds`.
- The listing and search queries are not modelled. Their outer join, their `order_by`, and the helper `get_upcoming_shows_subquery` (called but defined nowhere in the repository) are replaced by rows given as input. The upcoming-show count in each row is carried through unchanged.
- The handlers use `Venue.state_id`, the `shows` relationships and `Show.show_date`, which the declared models lack. The Show model instead declares string `date`/`day`/`time` fields and string `artist`/`venue` fields. The model follows the handlers: a `state` field, relationships as filters over the stored shows, and an integer `startTime`.
- The relationship `venue.shows` declares no order, so the model uses the order of the stored shows.
- On the detail pages, each show is projected to its display entry before the partition loop runs, not inside it. The projection does not depend on the bucket, so the results are the same.
- `format_datetime` (date parsing and locale formatting) is left out because it is display only.
- The create handlers, the edit handlers and form validation are left out. The edit handlers build a fresh empty record instead of loading the stored one. The code after the create handlers' early returns mixes success and error messages and reads `data.name` from a dict.
- The artist listing and the show listing are left out. Each is one ordered query with no logic of its own.
- Logging setup and application launch are left out.
- Search folds case for ASCII letters only. The database's `ILIKE` also folds other letters, and the model does not capture this.
- The LIKE escape character (`\`) is not modelled in `Search.LikeMatch`.
- `DeleteVenue`: the handler sets the doomed venue's `genres` to an empty list before deleting it. That change is staged with the deletion and disappears with it, so the model does not track it. The route takes the id as a string, while the model takes an integer.
- `Store.Store.DeleteVenue`: the store consistency it keeps is not a promise of the handler. The handlers' relationships (`venue.shows` at app.py:164, `show.artist.id` at app.py:180) presuppose foreign keys from Show to Venue and Artist, but the declared Show model (app.py:68-76) has plain string `artist`/`venue` columns and declares none.

## Findings

| source | as written | input that shows it | evidently intended | confidence | as-written member | corrected member |
|---|---|---|---|---|---|---|
| 01_fyyur/starter_code/app.py:151-153 | The search term is pasted into an `ILIKE` pattern between two `%`, so `%` and `_` in the term act as wildcards (the same at app.py:277-279). | Term "H_p" finds a record named "Hip Hop" in "LA, CA", though "h_p" occurs nowhere in "hip hop la, ca". | Case-insensitive literal substring search, as the handlers' comments describe. | medium, not executed | `Search.WildcardTermMatches` | `Search.SearchRows` |
