/**
 * The three tables of the application (users, apartments, match log), the
 * outbound messages handed to the mail and SMS transports, and the abstract
 * shape of a fetched listings page.
 */
module Records {
  import opened Wrappers

  /** A row of the `user` table. `phone` is nullable. */
  datatype User = User(
    id: nat,
    email: string,
    phone: Option<string>,
    maxPrice: int,
    location: string,
    minBedrooms: int,
    searchActive: bool,
    notifyEmail: bool,
    notifySms: bool)

  /** A row of the `apartment` table. */
  datatype Apartment = Apartment(
    title: string,
    price: int,
    location: string,
    bedrooms: int,
    link: string)

  /** A row of the `match_log` table; the creation timestamp is not modelled. */
  datatype MatchLog = MatchLog(userId: nat, message: string)

  /** A message handed to a transport. */
  datatype Outgoing =
    | Email(recipient: string, subject: string, body: string)
    | Sms(to: string, from: string, body: string)

  /** One call into a transport and whether the transport accepted it. */
  datatype Attempt = Attempt(message: Outgoing, delivered: bool)

  /**
   * The price element of a result row: missing, text that `int` accepts
   * once the dollar signs are removed, or text it rejects.
   */
  datatype PriceTag = Absent | Numeric(value: int) | Malformed

  /**
   * One `result-row` element of a listings page. `title` is the text of the
   * title anchor (None when the anchor is missing) and `link` its `href`
   * (None when the anchor or the attribute is missing).
   */
  datatype Row = Row(title: Option<string>, link: Option<string>, price: PriceTag)

  /** The outcome of fetching and parsing one listings page. */
  datatype Page = Unavailable | Fetched(rows: seq<Row>)

  /** The deduplication key of a stored apartment. */
  function Key(a: Apartment): (string, int)
  {
    (a.title, a.price)
  }

  /** User ids are the table's primary key. */
  ghost predicate UniqueIds(users: seq<User>)
  {
    forall i, j :: 0 <= i < |users| && 0 <= j < |users| && users[i].id == users[j].id ==> i == j
  }
}
