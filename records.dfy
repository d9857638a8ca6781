/** The records of the booking directory: venues, artists, the shows that link
    them, and the flat rows that the listing and search queries select. */
module Records {

  datatype Option<T> = None | Some(value: T)

  /** A venue as stored; `genres` is kept as a list of genre names. */
  datatype Venue = Venue(
    id: int,
    name: string,
    city: string,
    state: string,
    address: string,
    phone: string,
    genres: seq<string>,
    imageLink: string,
    facebookLink: string,
    websiteLink: string,
    lookingForTalent: bool,
    seekingDescription: string)

  /** An artist as stored: the venue's shape with `lookingForVenues`. */
  datatype Artist = Artist(
    id: int,
    name: string,
    city: string,
    state: string,
    address: string,
    phone: string,
    genres: seq<string>,
    imageLink: string,
    facebookLink: string,
    websiteLink: string,
    lookingForVenues: bool,
    seekingDescription: string)

  /** A show of one artist at one venue; `startTime` is its timestamp. */
  datatype Show = Show(id: int, startTime: int, artistId: int, venueId: int)

  /** One row of the venue (or artist) listing and search queries:
      id, name, city, state and the number of upcoming shows. */
  datatype Row = Row(id: int, name: string, city: string, state: string, numUpcomingShows: int)
}
