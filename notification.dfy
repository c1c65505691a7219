/**
 * `notify_user`: the log rows, e-mail and SMS produced for one user's
 * matches, and the channel gating and failure policy around them.
 */
module Notification {
  import opened Records
  import opened Decimal
  import Sequences

  /** The fixed first log row of every notification. */
  const IntroMessage: string := "\U{1F9E0} Agent AI: I\U{2019}ve found new apartments that match your preferences!"

  const EmailSubject: string := "New Apartment Matches"
  const EmailHeader: string := "Hello! Here are your new apartment matches:\n"

  /** `t` occurs in `s` starting at index `i`. */
  predicate OccursAt(s: string, t: string, i: int)
  {
    0 <= i && i + |t| <= |s| && s[i..i + |t|] == t
  }

  /** `s` holds `t` somewhere. */
  ghost predicate Contains(s: string, t: string)
  {
    exists i :: OccursAt(s, t, i)
  }

  lemma OccursBetween(x: string, t: string, y: string)
    ensures OccursAt(x + t + y, t, |x|)
  {
    assert (x + t + y)[|x|..|x| + |t|] == t;
  }

  /** An occurrence in a prefix is an occurrence in the whole string. */
  lemma OccursInExtension(s: string, t: string, i: int, y: string)
    requires OccursAt(s, t, i)
    ensures OccursAt(s + y, t, i)
  {
    assert (s + y)[i..i + |t|] == s[i..i + |t|];
  }

  /** The line logged and mailed for one apartment: `"{title} - ${price} - {link}"`. */
  function MatchLine(a: Apartment): string
  {
    a.title + " - $" + IntToDecimal(a.price) + " - " + a.link
  }

  /** A match line starts with the title and holds the price and the link. */
  lemma MatchLineFields(a: Apartment)
    ensures a.title <= MatchLine(a)
    ensures OccursAt(MatchLine(a), " - $" + IntToDecimal(a.price) + " - ", |a.title|)
    ensures OccursAt(MatchLine(a), a.link, |MatchLine(a)| - |a.link|)
  {
    var mid := " - $" + IntToDecimal(a.price) + " - ";
    assert MatchLine(a) == a.title + mid + a.link;
    OccursBetween(a.title, mid, a.link);
    OccursBetween(a.title + mid, a.link, "");
    assert a.title + mid + a.link + "" == MatchLine(a);
  }

  /** The e-mail body after the given matches: the greeting, then a newline and the line of each match. */
  function EmailBody(ms: seq<Apartment>): string
    decreases |ms|
  {
    if ms == [] then EmailHeader else EmailBody(ms[..|ms| - 1]) + "\n" + MatchLine(ms[|ms| - 1])
  }

  lemma {:induction false} EmailBodyContains(ms: seq<Apartment>, k: nat)
    requires k < |ms|
    ensures EmailHeader <= EmailBody(ms)
    ensures Contains(EmailBody(ms), "\n" + MatchLine(ms[k]))
    decreases |ms|
  {
    var init := EmailBody(ms[..|ms| - 1]);
    var last := "\n" + MatchLine(ms[|ms| - 1]);
    var t := "\n" + MatchLine(ms[k]);
    Sequences.ConcatAssociates(init, "\n", MatchLine(ms[|ms| - 1]));
    assert EmailBody(ms) == init + last;
    if |ms| > 1 {
      EmailBodyContains(ms[..|ms| - 1], if k < |ms| - 1 then k else 0);
    }
    if k == |ms| - 1 {
      assert init + last == init + t + "";
      OccursBetween(init, t, "");
    } else {
      assert ms[..|ms| - 1][k] == ms[k];
      var i :| OccursAt(init, t, i);
      OccursInExtension(init, t, i, last);
    }
  }

  /** The e-mail starts with the greeting and carries the line of every match. */
  lemma EmailBodyListsEveryMatch(ms: seq<Apartment>)
    ensures EmailHeader <= EmailBody(ms)
    ensures forall k :: 0 <= k < |ms| ==> Contains(EmailBody(ms), "\n" + MatchLine(ms[k]))
  {
    if ms != [] {
      EmailBodyContains(ms, 0);
    }
    forall k | 0 <= k < |ms| ensures Contains(EmailBody(ms), "\n" + MatchLine(ms[k])) {
      EmailBodyContains(ms, k);
    }
  }

  /** The rows of lines 98-105 after the given matches: the intro row, then one row per match. */
  function LogRows(id: nat, ms: seq<Apartment>): seq<MatchLog>
    decreases |ms|
  {
    if ms == [] then [MatchLog(id, IntroMessage)] else LogRows(id, ms[..|ms| - 1]) + [MatchLog(id, MatchLine(ms[|ms| - 1]))]
  }

  lemma {:induction false} LogRowsAt(id: nat, ms: seq<Apartment>)
    ensures |LogRows(id, ms)| == |ms| + 1 && LogRows(id, ms)[0] == MatchLog(id, IntroMessage)
    ensures forall k :: 0 <= k < |ms| ==> LogRows(id, ms)[k + 1] == MatchLog(id, MatchLine(ms[k]))
    decreases |ms|
  {
    if ms != [] {
      LogRowsAt(id, ms[..|ms| - 1]);
      assert forall k :: 0 <= k < |ms| - 1 ==> ms[..|ms| - 1][k] == ms[k];
    }
  }

  /** Every log row one call of `notify_user` adds: none for no matches. */
  function Entries(u: User, ms: seq<Apartment>): seq<MatchLog>
  {
    if ms == [] then [] else LogRows(u.id, ms)
  }

  /** No rows for no matches; otherwise the intro row, then one row per match in match order, all owned by the user. */
  lemma EntriesLayout(u: User, ms: seq<Apartment>)
    ensures ms == [] ==> Entries(u, ms) == []
    ensures ms != [] ==> |Entries(u, ms)| == |ms| + 1 && Entries(u, ms)[0] == MatchLog(u.id, IntroMessage)
    ensures ms != [] ==> forall k :: 0 <= k < |ms| ==> Entries(u, ms)[k + 1] == MatchLog(u.id, MatchLine(ms[k]))
    ensures forall k :: 0 <= k < |Entries(u, ms)| ==> Entries(u, ms)[k].userId == u.id
  {
    LogRowsAt(u.id, ms);
    if ms != [] {
      forall k | 0 <= k < |Entries(u, ms)| ensures Entries(u, ms)[k].userId == u.id {
        if k > 0 { assert Entries(u, ms)[k] == MatchLog(u.id, MatchLine(ms[k - 1])); }
      }
    }
  }

  /** Line 113: an SMS goes out only when it is wanted and the phone is neither null nor empty. */
  predicate SmsEnabled(u: User)
  {
    u.notifySms && u.phone.Some? && u.phone.value != ""
  }

  /** `f"{len(matches)} new listings under ${user.max_price} in {user.location}. Your AI agent found them!"` */
  function SmsBody(count: nat, maxPrice: int, location: string): string
  {
    NatToDecimal(count) + " new listings under $" + IntToDecimal(maxPrice) + " in " + location + ". Your AI agent found them!"
  }

  /** The SMS text opens with the match count, read back as its leading number. */
  lemma SmsStatesCount(count: nat, maxPrice: int, location: string)
    ensures DecimalValue(LeadingDigits(SmsBody(count, maxPrice, location))) == count
  {
    var rest := " new listings under $" + IntToDecimal(maxPrice) + " in " + location + ". Your AI agent found them!";
    assert SmsBody(count, maxPrice, location) == NatToDecimal(count) + rest;
    assert rest[0] == ' ';
    LeadingCount(count, rest);
  }

  /** The SMS text holds the user's price ceiling and location. */
  lemma SmsStatesCriteria(count: nat, maxPrice: int, location: string)
    ensures Contains(SmsBody(count, maxPrice, location), IntToDecimal(maxPrice))
    ensures Contains(SmsBody(count, maxPrice, location), location)
  {
    var front := NatToDecimal(count) + " new listings under $";
    var p := IntToDecimal(maxPrice);
    var tail := ". Your AI agent found them!";
    var body := SmsBody(count, maxPrice, location);
    assert body == front + p + (" in " + location + tail);
    OccursBetween(front, p, " in " + location + tail);
    assert body == (front + p + " in ") + location + tail;
    OccursBetween(front + p + " in ", location, tail);
  }

  /** Whether the call raises: an e-mail was due and the mail transport failed. */
  predicate Raises(u: User, ms: seq<Apartment>, emailOk: bool)
  {
    ms != [] && u.notifyEmail && !emailOk
  }

  /**
   * The transport calls of one `notify_user`, in order: the e-mail when it is
   * wanted, then the SMS when it is enabled, unless the e-mail raised first.
   * An SMS failure is recorded and goes no further.
   */
  function Sends(u: User, ms: seq<Apartment>, emailOk: bool, smsOk: bool, from: string): seq<Attempt>
  {
    if ms == [] then []
    else
      var email := if u.notifyEmail then [Attempt(Email(u.email, EmailSubject, EmailBody(ms)), emailOk)] else [];
      var sms := if SmsEnabled(u) && !Raises(u, ms, emailOk)
                 then [Attempt(Sms(u.phone.value, from, SmsBody(|ms|, u.maxPrice, u.location)), smsOk)]
                 else [];
      email + sms
  }

  /**
   * Channel gating: the e-mail is attempted exactly when matches exist and
   * e-mail is wanted; the SMS exactly when matches exist, SMS is enabled and
   * the e-mail did not raise first. Each carries the text built for it.
   */
  lemma SendsPolicy(u: User, ms: seq<Apartment>, emailOk: bool, smsOk: bool, from: string)
    ensures var r := Sends(u, ms, emailOk, smsOk, from);
      && |r| == (if ms != [] && u.notifyEmail then 1 else 0)
              + (if ms != [] && SmsEnabled(u) && !Raises(u, ms, emailOk) then 1 else 0)
      && (ms == [] ==> r == [])
      && ((|r| > 0 && r[0].message.Email?) <==> ms != [] && u.notifyEmail)
      && ((|r| > 0 && r[|r| - 1].message.Sms?) <==> ms != [] && SmsEnabled(u) && !Raises(u, ms, emailOk))
      && (forall k :: 0 < k < |r| ==> r[k].message.Sms?)
      && (forall k :: 0 <= k < |r| && r[k].message.Email? ==>
            r[k] == Attempt(Email(u.email, EmailSubject, EmailBody(ms)), emailOk))
      && (forall k :: 0 <= k < |r| && r[k].message.Sms? ==>
            u.phone.Some? && r[k] == Attempt(Sms(u.phone.value, from, SmsBody(|ms|, u.maxPrice, u.location)), smsOk))
      && (Raises(u, ms, emailOk) ==> |r| == 1)
  {
    var r := Sends(u, ms, emailOk, smsOk, from);
    var email := Attempt(Email(u.email, EmailSubject, EmailBody(ms)), emailOk);
    if ms != [] && SmsEnabled(u) && !Raises(u, ms, emailOk) {
      var sms := Attempt(Sms(u.phone.value, from, SmsBody(|ms|, u.maxPrice, u.location)), smsOk);
      assert r == (if u.notifyEmail then [email] else []) + [sms];
    } else if ms != [] {
      assert r == (if u.notifyEmail then [email] else []);
    }
  }
}
