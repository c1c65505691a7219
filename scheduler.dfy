/**
 * Specification of one run of `check_new_listings`: which users are active,
 * which locations are scraped, and what the matching phase logs and sends.
 */
module Scheduler {
  import opened Records
  import opened Sequences
  import opened Ingestion
  import opened Matching
  import opened Notification
  import opened CraigslistUrl

  /** `User.query.filter_by(search_active=True).all()`, in table order. */
  function ActiveUsers(users: seq<User>): (r: seq<User>)
    ensures forall u :: u in r <==> u in users && u.searchActive
    ensures |r| <= |users| && multiset(r) <= multiset(users)
    decreases |users|
  {
    if users == [] then []
    else
      assert users == [users[0]] + users[1..];
      (if users[0].searchActive then [users[0]] else []) + ActiveUsers(users[1..])
  }

  /** The query keeps table order: the active users of a table that grew by appends are the old ones, then the new ones. */
  lemma {:induction false} ActiveUsersAppend(s: seq<User>, t: seq<User>)
    ensures ActiveUsers(s + t) == ActiveUsers(s) + ActiveUsers(t)
    decreases |s|
  {
    if s != [] {
      assert (s + t)[1..] == s[1..] + t;
      ActiveUsersAppend(s[1..], t);
    } else {
      assert s + t == t;
    }
  }

  /** The distinct locations of active users: the set built at lines 123-126. */
  function ActiveLocations(users: seq<User>): set<string>
  {
    set u | u in users && u.searchActive :: u.location
  }

  /** The locations of the active users are those of the users the active-user query returns. */
  lemma ActiveLocationsOfActiveUsers(users: seq<User>)
    ensures ActiveLocations(users) == set u | u in ActiveUsers(users) :: u.location
  {
  }

  /** Each element occurs once. */
  predicate Distinct(s: seq<string>)
  {
    forall i, j :: 0 <= i < j < |s| ==> s[i] != s[j]
  }

  /** The store after scraping the locations in the given order, each from the page of its URL. */
  function IngestLocations(store: seq<Apartment>, locations: seq<string>, fetch: string -> Page): seq<Apartment>
    decreases |locations|
  {
    if locations == [] then store
    else
      var city := locations[|locations| - 1];
      Scrape(IngestLocations(store, locations[..|locations| - 1], fetch), city, fetch(BuildCraigslistUrl(city))).store
  }

  /**
   * Scraping a list of locations only appends, at most five apartments per
   * location, keeps the table free of duplicate keys, and every apartment it
   * adds is shaped for one of those locations.
   */
  lemma {:induction false} IngestLocationsSpec(store: seq<Apartment>, locations: seq<string>, fetch: string -> Page)
    ensures var r := IngestLocations(store, locations, fetch);
      && store <= r && |r| <= |store| + MaxCandidates * |locations|
      && (NoDuplicateKeys(store) ==> NoDuplicateKeys(r))
      && forall k :: |store| <= k < |r| ==>
           |r[k].title| <= TitleLimit && r[k].bedrooms == DefaultBedrooms && r[k].location in locations
    decreases |locations|
  {
    if locations != [] {
      var init := locations[..|locations| - 1];
      var city := locations[|locations| - 1];
      var before := IngestLocations(store, init, fetch);
      IngestLocationsSpec(store, init, fetch);
      ScrapeSpec(before, city, fetch(BuildCraigslistUrl(city)));
      assert forall l :: l in init ==> l in locations;
    }
  }

  /** The mail transport accepts the message to `u` unless `u` is among the failing recipients. */
  predicate MailAccepted(u: User, mailFailures: set<nat>)
  {
    u.id !in mailFailures
  }

  /** The SMS transport accepts the message to `u` unless `u` is among the failing recipients. */
  predicate SmsAccepted(u: User, smsFailures: set<nat>)
  {
    u.id !in smsFailures
  }

  /** The log rows added while the given users are matched and notified, in order. */
  function TickEntries(us: seq<User>, store: seq<Apartment>): seq<MatchLog>
    decreases |us|
  {
    if us == [] then []
    else
      var u := us[|us| - 1];
      TickEntries(us[..|us| - 1], store) + Entries(u, MatchUser(store, u))
  }

  /** Every row a tick logs belongs to one of the users it notified, and that user had matches. */
  lemma {:induction false} TickEntryOwner(us: seq<User>, store: seq<Apartment>, k: nat)
    requires k < |TickEntries(us, store)|
    ensures exists j :: 0 <= j < |us| && us[j].id == TickEntries(us, store)[k].userId && MatchUser(store, us[j]) != []
    decreases |us|
  {
    var init := us[..|us| - 1];
    var u := us[|us| - 1];
    var prev := TickEntries(init, store);
    var last := Entries(u, MatchUser(store, u));
    assert TickEntries(us, store) == prev + last;
    if k < |prev| {
      TickEntryOwner(init, store, k);
      var j :| 0 <= j < |init| && init[j].id == prev[k].userId && MatchUser(store, init[j]) != [];
      assert us[j] == init[j];
    } else {
      EntriesLayout(u, MatchUser(store, u));
      assert TickEntries(us, store)[k] == last[k - |prev|];
    }
  }

  /** The transport calls made while the given users are matched and notified, in order. */
  function TickSends(us: seq<User>, store: seq<Apartment>, mailFailures: set<nat>, smsFailures: set<nat>, from: string): seq<Attempt>
    decreases |us|
  {
    if us == [] then []
    else
      var u := us[|us| - 1];
      TickSends(us[..|us| - 1], store, mailFailures, smsFailures, from) + Sends(u, MatchUser(store, u), MailAccepted(u, mailFailures), SmsAccepted(u, smsFailures), from)
  }

  /** The notification of `us[j]` raises: it has matches, wants e-mail, and the mail transport fails. */
  predicate RaisesAt(us: seq<User>, j: nat, store: seq<Apartment>, mailFailures: set<nat>)
    requires j < |us|
  {
    Raises(us[j], MatchUser(store, us[j]), MailAccepted(us[j], mailFailures))
  }

  /** No notification of the given users raises. */
  predicate NoneRaised(us: seq<User>, store: seq<Apartment>, mailFailures: set<nat>)
    decreases |us|
  {
    us == [] || (NoneRaised(us[..|us| - 1], store, mailFailures) && !RaisesAt(us, |us| - 1, store, mailFailures))
  }

  /** Extending the users handled by one adds that user's raise. */
  lemma NoneRaisedStep(us: seq<User>, i: nat, store: seq<Apartment>, mailFailures: set<nat>)
    requires i < |us|
    ensures NoneRaised(us[..i + 1], store, mailFailures) <==> NoneRaised(us[..i], store, mailFailures) && !RaisesAt(us, i, store, mailFailures)
  {
    assert us[..i + 1][..i] == us[..i];
  }

  /** `NoneRaised` over a prefix says that no user in the prefix raises. */
  lemma {:induction false} NoneRaisedIff(us: seq<User>, k: nat, store: seq<Apartment>, mailFailures: set<nat>)
    requires k <= |us|
    ensures NoneRaised(us[..k], store, mailFailures) <==> forall j :: 0 <= j < k ==> !RaisesAt(us, j, store, mailFailures)
    decreases k
  {
    if k > 0 {
      NoneRaisedIff(us, k - 1, store, mailFailures);
      NoneRaisedStep(us, k - 1, store, mailFailures);
    }
  }

  /** Some of the given users had at least one match. */
  predicate AnyMatched(us: seq<User>, store: seq<Apartment>)
    decreases |us|
  {
    us != [] && (AnyMatched(us[..|us| - 1], store) || MatchUser(store, us[|us| - 1]) != [])
  }

  /** A tick logs something exactly when some user had a match. */
  lemma {:induction false} TickLogsIffAnyMatched(us: seq<User>, store: seq<Apartment>)
    ensures TickEntries(us, store) != [] <==> AnyMatched(us, store)
    decreases |us|
  {
    if us != [] {
      TickLogsIffAnyMatched(us[..|us| - 1], store);
      EntriesLayout(us[|us| - 1], MatchUser(store, us[|us| - 1]));
    }
  }

  /** Extending the users handled by one: some user matched so far, or the new one has a match. */
  lemma AnyMatchedStep(us: seq<User>, i: nat, store: seq<Apartment>)
    requires i < |us|
    ensures AnyMatched(us[..i + 1], store) <==> AnyMatched(us[..i], store) || MatchUser(store, us[i]) != []
  {
    assert us[..i + 1][..i] == us[..i];
  }

  /** The log as it grows over a tick: adding the next user's rows gives the rows of one more user. */
  lemma TickEntriesStep(h0: seq<MatchLog>, h: seq<MatchLog>, us: seq<User>, i: nat, store: seq<Apartment>)
    requires i < |us| && h == h0 + TickEntries(us[..i], store)
    ensures h + Entries(us[i], MatchUser(store, us[i])) == h0 + TickEntries(us[..i + 1], store)
  {
    assert us[..i + 1][..i] == us[..i];
    ConcatAssociates(h0, TickEntries(us[..i], store), Entries(us[i], MatchUser(store, us[i])));
  }

  /** The transport calls as they grow over a tick. */
  lemma TickSendsStep(o0: seq<Attempt>, o: seq<Attempt>, us: seq<User>, i: nat, store: seq<Apartment>,
                      mailFailures: set<nat>, smsFailures: set<nat>, from: string)
    requires i < |us| && o == o0 + TickSends(us[..i], store, mailFailures, smsFailures, from)
    ensures o + Sends(us[i], MatchUser(store, us[i]), MailAccepted(us[i], mailFailures), SmsAccepted(us[i], smsFailures), from)
         == o0 + TickSends(us[..i + 1], store, mailFailures, smsFailures, from)
  {
    assert us[..i + 1][..i] == us[..i];
    ConcatAssociates(o0, TickSends(us[..i], store, mailFailures, smsFailures, from), Sends(us[i], MatchUser(store, us[i]), MailAccepted(us[i], mailFailures), SmsAccepted(us[i], smsFailures), from));
  }

  /** Users whose search is switched off get no log rows from a tick over active users. */
  lemma InactiveUsersNotLogged(users: seq<User>, us: seq<User>, store: seq<Apartment>, u: User)
    requires UniqueIds(users)
    requires forall j :: 0 <= j < |us| ==> us[j] in users && us[j].searchActive
    requires u in users && !u.searchActive
    ensures forall k :: 0 <= k < |TickEntries(us, store)| ==> TickEntries(us, store)[k].userId != u.id
  {
    forall k | 0 <= k < |TickEntries(us, store)| ensures TickEntries(us, store)[k].userId != u.id {
      TickEntryOwner(us, store, k);
      var j :| 0 <= j < |us| && us[j].id == TickEntries(us, store)[k].userId && MatchUser(store, us[j]) != [];
      var a :| 0 <= a < |users| && users[a] == us[j];
      var b :| 0 <= b < |users| && users[b] == u;
    }
  }
}
