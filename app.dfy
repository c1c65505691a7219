/**
 * The database session and the background job that drives it: the
 * imperative side of `scrape_craigslist`, `notify_user`,
 * `check_new_listings` and the `search_active` toggle.
 */
module App {
  import opened Wrappers
  import opened Records
  import opened CraigslistUrl
  import opened Ingestion
  import opened Matching
  import opened Notification
  import opened Scheduler
  import opened Sequences

  /** How a tick ended: every active user was processed, or the e-mail of `active[at]` raised. */
  datatype TickOutcome = Completed | Aborted(at: nat)
  {
    /** How many of `n` active users had their turn. */
    function Reached(n: nat): nat
    {
      if Completed? then n else at + 1
    }

    /** How many of `n` active users had their turn without raising. */
    function Cleared(n: nat): nat
    {
      if Completed? then n else at
    }
  }

  /** The first index holding user `id` (`User.query.get`). */
  function FindUser(users: seq<User>, id: nat): (r: Option<nat>)
    ensures r.Some? ==> r.value < |users| && users[r.value].id == id
    ensures r.Some? ==> forall j :: 0 <= j < r.value ==> users[j].id != id
    ensures r.None? ==> forall j :: 0 <= j < |users| ==> users[j].id != id
    decreases |users|
  {
    if users == [] then None
    else if users[0].id == id then Some(0)
    else match FindUser(users[1..], id)
      case None => None
      case Some(i) => Some(i + 1)
  }

  /** The users table after `search_active` of user `id` is flipped. */
  function ToggleUser(users: seq<User>, id: nat): (r: seq<User>)
    ensures |r| == |users|
    ensures forall j :: 0 <= j < |users| ==> r[j].id == users[j].id
    ensures forall j :: 0 <= j < |users| && r[j] != users[j] ==>
              users[j].id == id && r[j] == users[j].(searchActive := !users[j].searchActive)
    ensures (exists j :: 0 <= j < |users| && users[j].id == id) <==> r != users
  {
    match FindUser(users, id)
    case None => users
    case Some(i) => users[i := users[i].(searchActive := !users[i].searchActive)]
  }

  /** Toggling twice restores the table. */
  lemma ToggleTwice(users: seq<User>, id: nat)
    ensures ToggleUser(ToggleUser(users, id), id) == users
  {
    var t := ToggleUser(users, id);
    match FindUser(users, id)
    case None =>
    case Some(i) =>
      assert FindUser(t, id) == Some(i);
  }

  /** Lines 123-126: the set of the given users' locations, built one user at a time. */
  method CollectLocations(active: seq<User>) returns (locations: set<string>)
    ensures locations == set u | u in active :: u.location
  {
    locations := {};
    for i := 0 to |active|
      invariant locations == set u | u in active[..i] :: u.location
    {
      assert active[..i + 1] == active[..i] + [active[i]];
      locations := locations + {active[i].location};
    }
    assert active[..|active|] == active;
  }

  /**
   * The tables as one database session sees them. Rows added but not yet
   * committed are already visible to queries (the session flushes before
   * each query); a commit makes them permanent.
   */
  class Session {
    var users: seq<User>
    var listings: seq<Apartment>
    var pendingListings: seq<Apartment>
    var log: seq<MatchLog>
    var pendingLog: seq<MatchLog>
    /** Every call made into the mail and SMS transports, with its outcome. */
    var outbox: seq<Attempt>
    /** The sending number configured for SMS. */
    const smsFrom: string

    ghost predicate Valid()
      reads this
    {
      UniqueIds(users) && NoDuplicateKeys(listings + pendingListings)
    }

    /** The apartment table as queries see it. */
    function Store(): seq<Apartment>
      reads this
    {
      listings + pendingListings
    }

    /** The match log as queries see it. */
    function History(): seq<MatchLog>
      reads this
    {
      log + pendingLog
    }

    constructor (users: seq<User>, smsFrom: string)
      requires UniqueIds(users)
      ensures Valid()
      ensures this.users == users && this.smsFrom == smsFrom
      ensures listings == [] && pendingListings == [] && log == [] && pendingLog == [] && outbox == []
    {
      this.users := users;
      this.smsFrom := smsFrom;
      listings, pendingListings := [], [];
      log, pendingLog := [], [];
      outbox := [];
    }

    /** `db.session.commit()`. */
    method Commit()
      modifies this
      ensures listings == old(Store()) && pendingListings == []
      ensures log == old(History()) && pendingLog == []
      ensures users == old(users) && outbox == old(outbox)
    {
      listings, pendingListings := listings + pendingListings, [];
      log, pendingLog := log + pendingLog, [];
    }

    /**
     * Lines 72-80: shape each row and add it unless its (title, price) is
     * stored; a row that raises ends the loop, leaving earlier rows added.
     */
    method IngestRows(location: string, rows: seq<Row>) returns (completed: bool)
      requires NoDuplicateKeys(Store())
      modifies this
      ensures Store() == Ingest(old(Store()), location, rows).store
      ensures completed == Ingest(old(Store()), location, rows).completed
      ensures NoDuplicateKeys(Store())
      ensures listings == old(listings) && log == old(log) && pendingLog == old(pendingLog)
      ensures users == old(users) && outbox == old(outbox)
    {
      ghost var start := Store();
      var i := 0;
      while i < |rows|
        invariant 0 <= i <= |rows|
        invariant Ingest(start, location, rows) == Ingest(Store(), location, rows[i..])
        invariant NoDuplicateKeys(Store())
        invariant listings == old(listings) && log == old(log) && pendingLog == old(pendingLog)
        invariant users == old(users) && outbox == old(outbox)
      {
        ghost var before := Store();
        assert rows[i..][0] == rows[i];
        assert rows[i..][1..] == rows[i + 1..];
        var shaped := ShapeRow(rows[i], location);
        if shaped.None? {
          assert Ingest(before, location, rows[i..]) == IngestResult(before, false);
          return false;
        }
        var apartment := shaped.value;
        if !HasKey(Store(), Key(apartment)) {
          ConcatAssociates(listings, pendingListings, [apartment]);
          pendingListings := pendingListings + [apartment];
        }
        assert Store() == InsertIfNew(before, apartment);
        assert Ingest(before, location, rows[i..]) == Ingest(Store(), location, rows[i + 1..]);
        i := i + 1;
      }
      completed := true;
    }

    /**
     * `scrape_craigslist(location)`: fetch the page of the location's URL and
     * insert its first five rows unless already stored. A fetch failure or a
     * row that raises ends the call without a commit; rows inserted before it
     * stay in the session.
     */
    method ScrapeCraigslist(location: string, fetch: string -> Page)
      requires Valid()
      modifies this
      ensures Valid()
      ensures Store() == Scrape(old(Store()), location, fetch(BuildCraigslistUrl(location))).store
      ensures Scrape(old(Store()), location, fetch(BuildCraigslistUrl(location))).completed ==>
                pendingListings == [] && pendingLog == [] && log == old(History())
      ensures !Scrape(old(Store()), location, fetch(BuildCraigslistUrl(location))).completed ==>
                listings == old(listings) && log == old(log) && pendingLog == old(pendingLog)
      ensures History() == old(History()) && users == old(users) && outbox == old(outbox)
    {
      var page := fetch(BuildCraigslistUrl(location));
      if page.Unavailable? {
        return;
      }
      var completed := IngestRows(location, Candidates(page.rows));
      if completed {
        Commit();
      }
    }

    /**
     * Lines 98-105: stage the intro row and one row per match, and collect
     * the e-mail text line by line.
     */
    method LogMatches(user: User, matches: seq<Apartment>) returns (body: string)
      requires matches != []
      modifies this
      ensures body == EmailBody(matches)
      ensures pendingLog == old(pendingLog) + Entries(user, matches)
      ensures log == old(log) && listings == old(listings) && pendingListings == old(pendingListings)
      ensures users == old(users) && outbox == old(outbox)
    {
      pendingLog := pendingLog + [MatchLog(user.id, IntroMessage)];
      body := EmailHeader;
      for i := 0 to |matches|
        invariant pendingLog == old(pendingLog) + LogRows(user.id, matches[..i])
        invariant body == EmailBody(matches[..i])
        invariant log == old(log) && listings == old(listings) && pendingListings == old(pendingListings)
        invariant users == old(users) && outbox == old(outbox)
      {
        var line := MatchLine(matches[i]);
        assert matches[..i + 1][..i] == matches[..i];
        ConcatAssociates(old(pendingLog), LogRows(user.id, matches[..i]), [MatchLog(user.id, line)]);
        pendingLog := pendingLog + [MatchLog(user.id, line)];
        body := body + "\n" + line;
      }
      assert matches[..|matches|] == matches;
    }

    /**
     * `notify_user(user, matches)`: nothing for an empty list; otherwise log
     * the intro row and one row per match, mail the collected lines when
     * wanted, text a summary when enabled, and commit. `raised` reports the
     * e-mail failure that leaves the call before the SMS and the commit.
     */
    method NotifyUser(user: User, matches: seq<Apartment>, emailOk: bool, smsOk: bool) returns (raised: bool)
      modifies this
      ensures raised == Raises(user, matches, emailOk)
      ensures History() == old(History()) + Entries(user, matches)
      ensures outbox == old(outbox) + Sends(user, matches, emailOk, smsOk, smsFrom)
      ensures users == old(users) && Store() == old(Store())
      ensures matches == [] ==> log == old(log) && pendingLog == old(pendingLog) && listings == old(listings) && pendingListings == old(pendingListings)
      ensures matches != [] && !raised ==> pendingLog == [] && pendingListings == []
      ensures raised ==> log == old(log) && listings == old(listings) && pendingListings == old(pendingListings)
    {
      if matches == [] {
        return false;
      }
      var body := LogMatches(user, matches);
      ConcatAssociates(log, old(pendingLog), Entries(user, matches));
      if user.notifyEmail {
        outbox := outbox + [Attempt(Email(user.email, EmailSubject, body), emailOk)];
        if !emailOk {
          return true;
        }
      }
      if SmsEnabled(user) {
        var text := SmsBody(|matches|, user.maxPrice, user.location);
        outbox := outbox + [Attempt(Sms(user.phone.value, smsFrom, text), smsOk)];
      }
      Commit();
      raised := false;
    }

    /**
     * The flip at line 170 of `POST /api/toggle/<id>`: None for an unknown
     * user, otherwise the user's new `search_active`.
     */
    method ToggleSearch(id: nat) returns (r: Option<bool>)
      requires Valid()
      modifies this
      ensures Valid()
      ensures users == ToggleUser(old(users), id)
      ensures r.None? <==> FindUser(old(users), id).None?
      ensures r.Some? ==> r.value == !old(users)[FindUser(old(users), id).value].searchActive
      ensures listings == old(listings) && pendingListings == old(pendingListings)
      ensures log == old(log) && pendingLog == old(pendingLog) && outbox == old(outbox)
    {
      match FindUser(users, id)
      case None =>
        r := None;
      case Some(i) =>
        var flipped := !users[i].searchActive;
        users := users[i := users[i].(searchActive := flipped)];
        r := Some(flipped);
    }

    /**
     * Lines 127-128: scrape every location once, in an order the set leaves
     * open. `scraped` is the order taken.
     */
    method ScrapeLocations(locations: set<string>, fetch: string -> Page) returns (scraped: seq<string>)
      requires Valid()
      modifies this
      ensures Valid() && users == old(users)
      ensures forall l :: l in scraped <==> l in locations
      ensures Distinct(scraped)
      ensures Store() == IngestLocations(old(Store()), scraped, fetch)
      ensures History() == old(History()) && outbox == old(outbox)
    {
      var remaining := locations;
      scraped := [];
      while remaining != {}
        invariant remaining <= locations
        invariant forall l :: l in scraped <==> l in locations && l !in remaining
        invariant Distinct(scraped)
        invariant Valid() && users == old(users)
        invariant Store() == IngestLocations(old(Store()), scraped, fetch)
        invariant History() == old(History()) && outbox == old(outbox)
        decreases |remaining|
      {
        var city :| city in remaining;
        ScrapeCraigslist(city, fetch);
        assert (scraped + [city])[..|scraped|] == scraped;
        scraped := scraped + [city];
        remaining := remaining - {city};
      }
    }

    /**
     * Lines 130-132: the turn of `active[i]` in a tick, matched against the
     * store and notified when anything matched. Given the log and transport
     * calls of the users before it, it leaves those of one user more.
     */
    method NotifyNext(active: seq<User>, i: nat, mailFailures: set<nat>, smsFailures: set<nat>,
                      ghost log0: seq<MatchLog>, ghost outbox0: seq<Attempt>) returns (raised: bool)
      requires i < |active|
      requires History() == log0 + TickEntries(active[..i], Store())
      requires outbox == outbox0 + TickSends(active[..i], Store(), mailFailures, smsFailures, smsFrom)
      requires AnyMatched(active[..i], Store()) ==> pendingLog == [] && pendingListings == []
      modifies this
      ensures users == old(users) && Store() == old(Store())
      ensures raised == RaisesAt(active, i, Store(), mailFailures)
      ensures NoneRaised(active[..i + 1], Store(), mailFailures) <==> NoneRaised(active[..i], Store(), mailFailures) && !raised
      ensures AnyMatched(active[..i + 1], Store()) <==> AnyMatched(active[..i], Store()) || MatchUser(Store(), active[i]) != []
      ensures MatchUser(Store(), active[i]) == [] ==>
                listings == old(listings) && pendingListings == old(pendingListings) && log == old(log) && pendingLog == old(pendingLog)
      ensures raised ==> listings == old(listings) && pendingListings == old(pendingListings) && log == old(log)
      ensures History() == log0 + TickEntries(active[..i + 1], Store())
      ensures outbox == outbox0 + TickSends(active[..i + 1], Store(), mailFailures, smsFailures, smsFrom)
      ensures !raised && AnyMatched(active[..i + 1], Store()) ==> pendingLog == [] && pendingListings == []
    {
      ghost var store := Store();
      AnyMatchedStep(active, i, store);
      NoneRaisedStep(active, i, store, mailFailures);
      TickEntriesStep(log0, History(), active, i, store);
      TickSendsStep(outbox0, outbox, active, i, store, mailFailures, smsFailures, smsFrom);
      var user := active[i];
      var matches := MatchUser(Store(), user);
      if matches != [] {
        raised := NotifyUser(user, matches, MailAccepted(user, mailFailures), SmsAccepted(user, smsFailures));
      } else {
        raised := false;
      }
    }

    /**
     * Lines 129-132: match every given user against the store in order and
     * notify those with matches; the first e-mail failure ends the loop.
     */
    method NotifyUsers(active: seq<User>, mailFailures: set<nat>, smsFailures: set<nat>) returns (outcome: TickOutcome)
      modifies this
      ensures users == old(users) && Store() == old(Store())
      ensures outcome.Reached(|active|) <= |active|
      ensures NoneRaised(active[..outcome.Cleared(|active|)], Store(), mailFailures)
      ensures outcome.Aborted? ==> RaisesAt(active, outcome.at, Store(), mailFailures)
      ensures History() == old(History()) + TickEntries(active[..outcome.Reached(|active|)], Store())
      ensures outbox == old(outbox) + TickSends(active[..outcome.Reached(|active|)], Store(), mailFailures, smsFailures, smsFrom)
      ensures outcome.Completed? && AnyMatched(active[..|active|], Store()) ==> pendingLog == [] && pendingListings == []
      ensures !AnyMatched(active[..outcome.Reached(|active|)], Store()) ==>
                listings == old(listings) && pendingListings == old(pendingListings) && log == old(log) && pendingLog == old(pendingLog)
      ensures outcome.Aborted? && !AnyMatched(active[..outcome.at], Store()) ==>
                listings == old(listings) && pendingListings == old(pendingListings) && log == old(log)
      ensures outcome.Aborted? && AnyMatched(active[..outcome.at], Store()) ==>
                pendingListings == [] && log == old(History()) + TickEntries(active[..outcome.at], Store())
    {
      ghost var store := Store();
      var i := 0;
      var raised := false;
      while i < |active| && !raised
        invariant 0 <= i <= |active|
        invariant users == old(users) && Store() == store
        invariant raised ==> 0 < i && NoneRaised(active[..i - 1], store, mailFailures) && RaisesAt(active, i - 1, store, mailFailures)
        invariant !raised ==> NoneRaised(active[..i], store, mailFailures)
        invariant History() == old(History()) + TickEntries(active[..i], store)
        invariant outbox == old(outbox) + TickSends(active[..i], store, mailFailures, smsFailures, smsFrom)
        invariant !raised && AnyMatched(active[..i], store) ==> pendingLog == [] && pendingListings == []
        invariant !raised && !AnyMatched(active[..i], store) ==>
                    listings == old(listings) && pendingListings == old(pendingListings) && log == old(log) && pendingLog == old(pendingLog)
        invariant raised && !AnyMatched(active[..i - 1], store) ==>
                    listings == old(listings) && pendingListings == old(pendingListings) && log == old(log)
        invariant raised && AnyMatched(active[..i - 1], store) ==>
                    pendingListings == [] && log == old(History()) + TickEntries(active[..i - 1], store)
      {
        raised := NotifyNext(active, i, mailFailures, smsFailures, old(History()), old(outbox));
        i := i + 1;
      }
      outcome := if raised then Aborted(i - 1) else Completed;
    }

    /**
     * One tick of the background job (`check_new_listings`): scrape the
     * distinct locations of active users, each once, then match and notify
     * the active users in table order. An e-mail failure ends the tick at
     * that user. `scraped` is the order in which the locations were scraped.
     */
    method CheckNewListings(fetch: string -> Page, mailFailures: set<nat>, smsFailures: set<nat>)
        returns (scraped: seq<string>, outcome: TickOutcome)
      requires Valid()
      modifies this
      ensures Valid() && users == old(users)
      ensures forall l :: l in scraped <==> l in ActiveLocations(users)
      ensures Distinct(scraped)
      ensures Store() == IngestLocations(old(Store()), scraped, fetch)
      ensures var active := ActiveUsers(users);
        && outcome.Reached(|active|) <= |active|
        && NoneRaised(active[..outcome.Cleared(|active|)], Store(), mailFailures)
        && (outcome.Aborted? ==> RaisesAt(active, outcome.at, Store(), mailFailures))
      ensures var active := ActiveUsers(users);
        && History() == old(History()) + TickEntries(active[..outcome.Reached(|active|)], Store())
        && outbox == old(outbox) + TickSends(active[..outcome.Reached(|active|)], Store(), mailFailures, smsFailures, smsFrom)
      ensures var active := ActiveUsers(users);
        outcome.Completed? && AnyMatched(active[..|active|], Store()) ==> pendingLog == [] && pendingListings == []
    {
      var active := ActiveUsers(users);
      var locations := CollectLocations(active);
      ActiveLocationsOfActiveUsers(users);
      scraped := ScrapeLocations(locations, fetch);
      outcome := NotifyUsers(active, mailFailures, smsFailures);
    }
  }
}
