# Apartment agent: the listing pipeline, verified

This project models, in Dafny, the core of a small apartment-hunting service
(`app.py`, a Flask application). A background job runs one tick every minute.
The tick does three things:

1. It collects the distinct locations of the users whose search is active.
2. It scrapes the Craigslist search page of each location. Only the first
   five result rows are used. Each row is shaped into an apartment: the
   title is cut to 200 characters, a missing price becomes 0, and bedrooms
   is set to 1. The apartment is inserted unless an apartment with the same
   (title, price) is already stored.
3. It matches every active user against the stored apartments (price
   ceiling, location, minimum bedrooms). For a user with matches, it logs
   an intro row and one row per match. It mails the collected lines when
   the user wants e-mail. It texts a summary when SMS is wanted and the
   user has a phone number. Then it commits.

The search toggle of a user is modelled as well.

The model is split the way the program is:

- `CraigslistUrl` is the city → subdomain lookup.
- `Ingestion` shapes rows and inserts them unless their key is stored.
- `Matching` is the three-way filter.
- `Notification` builds the log rows, the e-mail and SMS texts, and the
  transport calls of one notification.
- `Scheduler` specifies one tick.
- `Decimal` renders integers the way Python's f-strings do.
- `App` holds the imperative side: a `Session` class with the three tables,
  the rows added but not yet committed, and an outbox of transport calls.
  Its methods loop the way the source does. Each is proved against the
  functions of the other modules (`Ingest`, `Scrape`, `Entries`, `Sends`,
  `IngestLocations`, `TickEntries`, `TickSends`).

The session follows the database's rules:

- Rows added to the session are visible to later queries (autoflush), but
  they become permanent only at a commit.
- `Store()` is the apartment table as queries see it, and `History()` is
  the match log as queries see it.

Two behaviours of the code are worth knowing, and the model keeps both:

- **Scraping.** A result row with no title anchor or no `href`, or a price
  that `int` rejects, raises inside the loop. That ends the scrape of the
  whole location, not just that row. Rows added before it stay in the
  session uncommitted. Nothing rolls them back, so the next commit makes
  them permanent.
- **E-mail failures.** An e-mail failure is not caught, neither in
  `notify_user` nor in `check_new_listings`. It ends the whole tick: the
  remaining users are not processed, and that user's log rows stay
  uncommitted.

## Model

| member | source | states |
|---|---|---|
| CraigslistUrl.Domain | app.py:59-63 | the subdomain is one of the six mapped ones; a city outside the map gets `sfbay` |
| CraigslistUrl.BuildCraigslistUrl | app.py:58-64 | the URL starts with `https://` and the subdomain read back out of it is the city's subdomain |
| CraigslistUrl.KnownCities | app.py:59-62 | each of the six named cities maps to its fixed subdomain |
| CraigslistUrl.UrlShape | app.py:64 | for every city the URL is `https://{domain}.craigslist.org/search/apa?hasPic=1` |
| CraigslistUrl.SameUrlIffSameDomain | app.py:58-64 | two cities get the same URL exactly when they get the same subdomain |
| CraigslistUrl.UnknownCityFallsBack | app.py:63 | a city gets the San Francisco URL exactly when it is San Francisco or not in the map |
| Decimal.NatToDecimal | app.py:115 | the rendering of a count is a non-empty digit string; it starts with `0` exactly when the count is 0, and then it is `"0"` |
| Decimal.IntToDecimal | app.py:104 | a price renders as a non-empty string: digits for a non-negative price, a minus sign and then digits for a negative one |
| Decimal.NatToDecimalRoundTrip | app.py:115 | reading the digits of a rendered count gives the count back |
| Decimal.SignOf | app.py:104 | a rendered price starts with `-` exactly when it is negative; the rest is the digits of the magnitude; a non-negative price renders as its digits alone |
| Decimal.PriceRoundTrip | app.py:104 | reading a rendered price back gives the price: the digits for a non-negative price, the digits after the minus sign for the magnitude of a negative one |
| Decimal.IntToDecimalInjective | app.py:104 | distinct prices render differently |
| Decimal.LeadingCount | app.py:115 | a count followed by a non-digit is read back exactly from the front of a message |
| Ingestion.Truncate | app.py:77 | `title[:200]` is a prefix of the title, of length min(length, 200) |
| Ingestion.ShapeRow | app.py:73-77 | a row shapes exactly when it has a title, a link and a price that is missing or numeric; the apartment has the truncated title, price 0 when the price is missing, the requested location, one bedroom and the row's link |
| Ingestion.InsertIfNew | app.py:78-80 | the store only grows; afterwards the key is stored; exactly one row is appended exactly when the key was absent, and that row is the candidate; no duplicate keys is preserved |
| Ingestion.Ingest | app.py:72-80 | defines the insertion loop: rows are shaped and inserted in order, and the first row that raises ends the batch, keeping the earlier inserts and reporting it did not complete; its properties are the lemmas below |
| Ingestion.IngestSpec | app.py:72-80 | a batch only appends, adds at most one row per input row, keeps keys unique, completes exactly when every row shapes, and every added row is the shape of an input row |
| Ingestion.Candidates | app.py:72 | `listings[:5]` is a prefix of the page of length min(rows, 5): the whole page when it has fewer than five rows |
| Ingestion.Scrape | app.py:66-83 | defines `scrape_craigslist` from the fetched page on: an unavailable page changes nothing and reports failure; otherwise the first five rows are ingested |
| Ingestion.ScrapeSpec | app.py:66-83 | one scrape appends at most five apartments, all shaped for the location, and keeps keys unique; an unavailable page changes nothing and reports failure |
| Ingestion.DuplicateIgnored | app.py:78-80 | a candidate whose (title, price) is stored leaves the store unchanged, whatever its link or location |
| Ingestion.InsertTwiceOnce | app.py:78-80 | inserting the same key twice stores it once |
| Ingestion.ShapedPrefix | app.py:72-77 | it counts the rows before the first row that raises: all of those shape, and the row after them does not |
| Ingestion.IngestStopsAtFailure | app.py:72-83 | rows after the first row that raises are never looked at |
| Ingestion.IngestCovers | app.py:72-80 | after a batch, the key of every row before the first failure is stored |
| Ingestion.IngestNothingNew | app.py:78-80 | a batch whose keys are all stored already inserts nothing |
| Ingestion.IngestIdempotent | app.py:72-80 | ingesting the same rows a second time inserts nothing |
| Ingestion.ScrapeIdempotent | app.py:66-83 | scraping the same page a second time inserts nothing |
| Matching.Matches | app.py:86-90 | defines the filter of the query: price at most `max_price`, same location, at least `min_bedrooms` bedrooms |
| Matching.MatchUser | app.py:85-91 | defines `match_user`: the stored apartments that pass the filter, in table order; MatchUserMembers, MatchUserAppend and NoMatchEmpty state its properties |
| Matching.MatchUserMembers | app.py:85-91 | an apartment is matched exactly when it is stored, costs at most the ceiling, is in the user's location and has enough bedrooms; no row is returned more often than it is stored |
| Matching.MatchUserAppend | app.py:85-91 | matching a store that grew by appends gives the old matches, then the matches among the new rows |
| Matching.NoMatchEmpty | app.py:85-91 | the match list is empty exactly when no stored apartment satisfies the criteria |
| Notification.MatchLine | app.py:104 | defines the line for one apartment: title, ` - $`, rendered price, ` - `, link |
| Notification.MatchLineFields | app.py:104 | a match line starts with the title, holds ` - $<price> - ` right after it and ends with the link |
| Notification.EmailBody | app.py:101-106 | defines the e-mail text after a list of matches: the greeting, then a newline and the line of each match in order |
| Notification.EmailBodyContains | app.py:101-106 | the body starts with the greeting and holds a newline plus the line of the k-th match |
| Notification.EmailBodyListsEveryMatch | app.py:101-106 | the body starts with the greeting and holds a newline plus the line of every match |
| Notification.LogRows | app.py:98-105 | defines the rows staged for a list of matches: the intro row, then one row per match line |
| Notification.Entries | app.py:94-105 | defines the rows one `notify_user` call logs: none for no matches, otherwise the intro and match rows |
| Notification.LogRowsAt | app.py:98-105 | n matches give n + 1 rows: the intro row first, then the k-th match's line at position k + 1 |
| Notification.EntriesLayout | app.py:94-105 | no rows for no matches; otherwise the intro row, then one row per match in match order, all for that user |
| Notification.SmsEnabled | app.py:113 | defines the SMS gate: SMS wanted and a phone that is neither null nor empty |
| Notification.SmsBody | app.py:115 | defines the SMS text from the match count, the price ceiling and the location |
| Notification.SmsStatesCount | app.py:115 | the SMS text starts with the match count, read back as its leading number |
| Notification.SmsStatesCriteria | app.py:115 | the SMS text holds the user's price ceiling and location |
| Notification.Raises | app.py:108-111 | defines when `notify_user` raises: there are matches, e-mail is wanted and the mail transport fails |
| Notification.Sends | app.py:108-118 | defines the transport calls of one `notify_user`: the e-mail when wanted, then the SMS when enabled unless the e-mail raised; no calls for no matches |
| Notification.SendsPolicy | app.py:94-118 | no calls for no matches; an e-mail call exactly when there are matches and e-mail is wanted; an SMS call, last, exactly when there are matches, SMS is enabled with a non-empty phone and the e-mail did not raise; each call carries its text and recipient; a raising e-mail is the only call |
| Scheduler.ActiveUsers | app.py:124 | exactly the users with `search_active` are returned, none more often than in the table |
| Scheduler.ActiveUsersAppend | app.py:124 | the query keeps table order: for a table that grew by appends it returns the old active users, then the new ones |
| Scheduler.ActiveLocations | app.py:123-126 | defines the set of locations of the active users |
| Scheduler.IngestLocations | app.py:127-128 | defines the store after scraping the given locations in order, each from the page of its URL |
| Scheduler.IngestLocationsSpec | app.py:127-128 | scraping a list of locations only appends, at most five rows per location, keeps keys unique, and every new row is shaped for one of the locations |
| Scheduler.TickEntries | app.py:129-132 | defines the log rows a tick adds for the given users, in order: each user's rows for that user's matches |
| Scheduler.TickSends | app.py:129-132 | defines the transport calls a tick makes for the given users, in order |
| Scheduler.RaisesAt | app.py:129-132 | defines whether the notification of the j-th user raises |
| Scheduler.NoneRaised | app.py:129-132 | defines that no notification among the given users raises |
| Scheduler.TickEntryOwner | app.py:129-132 | every row a tick logs belongs to one of the users it handled, and that user had matches |
| Scheduler.TickLogsIffAnyMatched | app.py:129-132 | a tick logs something exactly when some user had a match |
| Scheduler.NoneRaisedIff | app.py:129-132 | no notification in a prefix of the users raises exactly when no user in it raises |
| Scheduler.InactiveUsersNotLogged | app.py:124-132 | a user whose search is off gets no log rows from a tick |
| App.FindUser | app.py:167 | the index found holds the id and no earlier index does; none is found exactly when no user has the id |
| App.ToggleUser | app.py:170 | the table keeps its length and ids; the only row that can change is the one with that id, and it changes only by flipping `search_active`; the table changes exactly when some row has the id |
| App.ToggleTwice | app.py:170 | flipping the same user twice restores the table |
| App.CollectLocations | app.py:123-126 | the loop builds exactly the set of the given users' locations |
| App.Session.Commit | app.py:81 | the rows added in the session become permanent; what queries see does not change |
| App.Session.IngestRows | app.py:72-80 | the session's store ends as `Ingest` says, the loop completes exactly when `Ingest` does, and keys stay unique |
| App.Session.ScrapeCraigslist | app.py:66-83 | the store ends as `Scrape` says and keeps keys unique; a completed scrape leaves nothing pending; on failure nothing is committed and earlier additions stay pending; the log and outbox do not change |
| App.Session.LogMatches | app.py:98-106 | the intro row and one row per match are added to the session, and the body is the specified e-mail body |
| App.Session.NotifyUser | app.py:93-120 | the log grows by the specified rows and the outbox by the specified calls; it raises exactly when an e-mail was due and failed, leaving the rows uncommitted; otherwise, with matches, everything is committed, SMS failure or not |
| App.Session.ToggleSearch | app.py:165-172 | an unknown id changes nothing and gives None; otherwise only that user's flag flips and the new value is returned |
| App.Session.ScrapeLocations | app.py:127-128 | every location is scraped exactly once, in the order reported, and the store ends as `IngestLocations` of that order says |
| App.Session.NotifyNext | app.py:129-132 | one user's turn adds that user's rows and calls and raises exactly when that user's notification raises; a turn without matches changes neither committed nor pending rows, and a raising turn commits nothing |
| App.Session.NotifyUsers | app.py:129-132 | users are handled in order until the first raise; no user before the stopping point raised, and the one it stopped at did; the log and outbox grow by the rows and calls of the users reached; if none of them matched, nothing is committed and nothing is added; after an abort, nothing is committed when no earlier user matched, and otherwise everything up to the earlier users' rows is committed and no apartments are pending |
| App.Session.CheckNewListings | app.py:122-132 | it scrapes exactly the distinct locations of active users, each once, then notifies the active users in order up to the first raise; the log and outbox grow as specified, and all is committed when the tick completes with a match |

## Left out

- Flask routes other than the flip itself are not modelled: registration,
  the match history query, and the JSON and 404 responses (app.py:134-172).
  An unknown id in the toggle is modelled as `None`.
- Application and database configuration is not modelled (app.py:12-28,
  55-56). The tables are sequences in table order. Every query without an
  `ORDER BY` is taken to return rows in insertion order.
- The HTTP fetch and HTML parsing (app.py:69-75) are a function from URL to
  an abstract `Page`. A page is either unavailable or a list of rows. Each
  row has an optional title, an optional link, and a price that is absent,
  numeric or malformed. How `int` reads price text is left to that
  abstraction.
- The mail and SMS transports (app.py:111, 116) are not modelled as
  services. Their failures are input sets of user ids whose e-mail or SMS
  fails in this tick. Every call is recorded in the outbox with its
  outcome.
- The SMS sender number (app.py:25) is a constant of the session.
- Background scheduling and threading are not modelled (app.py:174-176).
  The model covers one tick at a time.
- Timestamps are not modelled (app.py:53, 156-160), and neither is the
  30-entry history query.
- Auto-increment row ids of apartments and log rows are not modelled.
- Column widths other than the 200-character title cut are not modelled.
  The code enforces only that one.
- Integer widths are not modelled. Prices are unbounded integers. In the
  database, a price is an SQLite INTEGER, which holds 64 bits. A scraped
  price outside that range would make the flush at the next query
  (app.py:78) or the commit (app.py:81) raise inside the `try`, and that
  would end the scrape. The model inserts such a row like any other.
- `print` of failures is not modelled (app.py:83, 118).
- The session after an aborted tick is not modelled: what the framework
  does with uncommitted rows before the next tick is outside the model.
- App.Session.ScrapeLocations: the order in which a Python set is iterated
  is not modelled. The method picks any order and reports it, and its
  contract holds for every order.
- App.Session.ToggleSearch: the commit at app.py:171 is not modelled. The
  request runs in its own database session, not the scheduler's, and the
  user table is not split into committed and pending rows. So the flip
  takes effect at once, and the scheduler's pending rows are left as they
  are.
- App.Session.ScrapeLocations, App.Session.CheckNewListings: these state
  only what queries see (`Store()`, `History()`). They do not say which rows
  are committed after the scrape phase. So the split between committed and
  pending rows at the end of a tick is stated only relative to the start of
  the notify phase, by App.Session.NotifyUsers. When rows become permanent
  is stated for each single call, by App.Session.ScrapeCraigslist and
  App.Session.NotifyUser. At tick level, CheckNewListings states only that a
  completed tick with a match leaves nothing pending.
