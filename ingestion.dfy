/**
 * The part of `scrape_craigslist` that runs after the page is parsed: shape
 * each of the first five result rows into an apartment and insert it unless
 * the store already holds one with the same (title, price).
 */
module Ingestion {
  import opened Wrappers
  import opened Records

  /** Only the first five result rows of a page are looked at. */
  const MaxCandidates: nat := 5

  /** The title column holds at most 200 characters. */
  const TitleLimit: nat := 200

  /** Bedrooms are never read from the page. */
  const DefaultBedrooms: int := 1

  /** Python's `s[:n]`. */
  function Truncate(s: string, n: nat): (r: string)
    ensures r <= s && |r| == if |s| <= n then |s| else n
  {
    if |s| <= n then s else s[..n]
  }

  /** The `int` value of the price element, 0 when the element is missing. */
  function PriceOf(tag: PriceTag): int
    requires !tag.Malformed?
  {
    if tag.Absent? then 0 else tag.value
  }

  /**
   * The apartment a result row becomes, or None when reading the row raises
   * (no title anchor, no `href`, or a price `int` rejects).
   */
  function ShapeRow(row: Row, location: string): (r: Option<Apartment>)
    ensures r.Some? <==> row.title.Some? && row.link.Some? && !row.price.Malformed?
    ensures r.Some? ==> |r.value.title| <= TitleLimit && r.value.title <= row.title.value
    ensures r.Some? ==> |r.value.title| == TitleLimit || r.value.title == row.title.value
    ensures r.Some? ==> r.value.price == (if row.price.Absent? then 0 else row.price.value)
    ensures r.Some? ==> r.value.location == location && r.value.bedrooms == DefaultBedrooms
    ensures r.Some? ==> r.value.link == row.link.value
  {
    if row.title.None? || row.link.None? || row.price.Malformed? then None
    else Some(Apartment(Truncate(row.title.value, TitleLimit), PriceOf(row.price), location, DefaultBedrooms, row.link.value))
  }

  /** The shape every apartment ingested for `location` has. */
  predicate WellShaped(a: Apartment, location: string)
  {
    |a.title| <= TitleLimit && a.location == location && a.bedrooms == DefaultBedrooms
  }

  /** Some stored apartment has this (title, price). */
  predicate HasKey(store: seq<Apartment>, key: (string, int))
  {
    exists i :: 0 <= i < |store| && Key(store[i]) == key
  }

  /** The deduplication invariant of the apartment table. */
  predicate NoDuplicateKeys(store: seq<Apartment>)
  {
    forall i, j :: 0 <= i < j < |store| ==> Key(store[i]) != Key(store[j])
  }

  /** Lines 78-80: add the apartment unless its (title, price) is already stored. */
  function InsertIfNew(store: seq<Apartment>, a: Apartment): (r: seq<Apartment>)
    ensures store <= r && HasKey(r, Key(a))
    ensures |r| == |store| + 1 <==> !HasKey(store, Key(a))
    ensures |r| == |store| || (|r| == |store| + 1 && r[|store|] == a)
    ensures NoDuplicateKeys(store) ==> NoDuplicateKeys(r)
  {
    if HasKey(store, Key(a)) then store
    else
      assert (store + [a])[|store|] == a;
      store + [a]
  }

  /** The store after a batch, and whether the batch ran to its end without raising. */
  datatype IngestResult = IngestResult(store: seq<Apartment>, completed: bool)

  /** Every row of `rows` shapes without raising. */
  predicate AllShape(rows: seq<Row>, location: string)
  {
    forall j :: 0 <= j < |rows| ==> ShapeRow(rows[j], location).Some?
  }

  /**
   * The loop of lines 72-80 over `rows`: insert row after row; the first row
   * that raises ends the batch, and whatever was inserted before it stays.
   */
  function Ingest(store: seq<Apartment>, location: string, rows: seq<Row>): IngestResult
    decreases |rows|
  {
    if rows == [] then IngestResult(store, true)
    else match ShapeRow(rows[0], location)
      case None => IngestResult(store, false)
      case Some(a) => Ingest(InsertIfNew(store, a), location, rows[1..])
  }

  /**
   * A batch only appends, at most one row per input row, keeps the table free
   * of duplicate keys, completes exactly when every row shapes, and every row
   * it adds is the shape of one of its input rows.
   */
  lemma {:induction false} IngestSpec(store: seq<Apartment>, location: string, rows: seq<Row>)
    ensures var r := Ingest(store, location, rows);
      && store <= r.store && |r.store| <= |store| + |rows|
      && (NoDuplicateKeys(store) ==> NoDuplicateKeys(r.store))
      && (r.completed <==> AllShape(rows, location))
      && forall k :: |store| <= k < |r.store| ==>
           exists j :: 0 <= j < |rows| && ShapeRow(rows[j], location) == Some(r.store[k])
    decreases |rows|
  {
    if rows != [] && ShapeRow(rows[0], location).Some? {
      var a := ShapeRow(rows[0], location).value;
      var r := Ingest(InsertIfNew(store, a), location, rows[1..]);
      IngestSpec(InsertIfNew(store, a), location, rows[1..]);
      assert AllShape(rows, location) <==> AllShape(rows[1..], location) by {
        if AllShape(rows[1..], location) {
          forall j | 0 <= j < |rows| ensures ShapeRow(rows[j], location).Some? {
            if j > 0 { assert rows[j] == rows[1..][j - 1]; }
          }
        }
      }
      forall k | |store| <= k < |r.store|
        ensures exists j :: 0 <= j < |rows| && ShapeRow(rows[j], location) == Some(r.store[k])
      {
        if k < |InsertIfNew(store, a)| {
          assert ShapeRow(rows[0], location) == Some(r.store[k]);
        } else {
          var j :| 0 <= j < |rows[1..]| && ShapeRow(rows[1..][j], location) == Some(r.store[k]);
          assert rows[1..][j] == rows[j + 1];
        }
      }
    }
  }

  /** The first `MaxCandidates` rows of a page (`listings[:5]`). */
  function Candidates(rows: seq<Row>): (c: seq<Row>)
    ensures c <= rows
    ensures |c| == if |rows| <= MaxCandidates then |rows| else MaxCandidates
  {
    if |rows| <= MaxCandidates then rows else rows[..MaxCandidates]
  }

  /**
   * `scrape_craigslist` from the fetched page on: an unavailable page changes
   * nothing and reports failure; otherwise the first five rows are ingested.
   */
  function Scrape(store: seq<Apartment>, location: string, page: Page): IngestResult
  {
    match page
    case Unavailable => IngestResult(store, false)
    case Fetched(rows) => Ingest(store, location, Candidates(rows))
  }

  /**
   * One scrape appends at most five apartments, all shaped for the location,
   * keeps the table free of duplicate keys, and changes nothing when the page
   * cannot be fetched.
   */
  lemma ScrapeSpec(store: seq<Apartment>, location: string, page: Page)
    ensures var r := Scrape(store, location, page);
      && store <= r.store && |r.store| <= |store| + MaxCandidates
      && (NoDuplicateKeys(store) ==> NoDuplicateKeys(r.store))
      && (forall k :: |store| <= k < |r.store| ==> WellShaped(r.store[k], location))
      && (page.Unavailable? ==> r == IngestResult(store, false))
  {
    if page.Fetched? {
      var rows := Candidates(page.rows);
      var r := Ingest(store, location, rows);
      IngestSpec(store, location, rows);
      forall k | |store| <= k < |r.store| ensures WellShaped(r.store[k], location) {
        var j :| 0 <= j < |rows| && ShapeRow(rows[j], location) == Some(r.store[k]);
      }
    }
  }

  // ---------------------------------------------------------------- lemmas

  /** A duplicate candidate leaves the store as it is, whatever its link or location. */
  lemma DuplicateIgnored(store: seq<Apartment>, a: Apartment, b: Apartment)
    requires a in store && Key(b) == Key(a)
    ensures InsertIfNew(store, b) == store
  {
    var i :| 0 <= i < |store| && store[i] == a;
    assert Key(store[i]) == Key(b);
  }

  /** Inserting the same (title, price) twice stores one row. */
  lemma InsertTwiceOnce(store: seq<Apartment>, a: Apartment, b: Apartment)
    requires Key(b) == Key(a)
    ensures InsertIfNew(InsertIfNew(store, a), b) == InsertIfNew(store, a)
  {
    var s := InsertIfNew(store, a);
    var i :| 0 <= i < |s| && Key(s[i]) == Key(a);
    assert Key(s[i]) == Key(b);
  }

  /** The rows before the first one that raises. */
  function ShapedPrefix(rows: seq<Row>, location: string): (n: nat)
    ensures n <= |rows|
    ensures forall j :: 0 <= j < n ==> ShapeRow(rows[j], location).Some?
    ensures n < |rows| ==> ShapeRow(rows[n], location).None?
    decreases |rows|
  {
    if rows == [] || ShapeRow(rows[0], location).None? then 0
    else
      var m := ShapedPrefix(rows[1..], location);
      assert forall j :: 0 < j < m + 1 ==> rows[j] == rows[1..][j - 1];
      m + 1
  }

  /** A row that raises ends the batch: the rows after it are never looked at. */
  lemma {:induction false} IngestStopsAtFailure(store: seq<Apartment>, location: string, rows: seq<Row>)
    ensures Ingest(store, location, rows).store == Ingest(store, location, rows[..ShapedPrefix(rows, location)]).store
    decreases |rows|
  {
    if rows != [] && ShapeRow(rows[0], location).Some? {
      var a := ShapeRow(rows[0], location).value;
      var n := ShapedPrefix(rows, location);
      IngestStopsAtFailure(InsertIfNew(store, a), location, rows[1..]);
      assert rows[..n][1..] == rows[1..][..n - 1];
    }
  }

  /** After a batch, the key of every row before the first failure is stored. */
  lemma {:induction false} IngestCovers(store: seq<Apartment>, location: string, rows: seq<Row>, j: nat)
    requires j < ShapedPrefix(rows, location)
    ensures HasKey(Ingest(store, location, rows).store, Key(ShapeRow(rows[j], location).value))
    decreases |rows|
  {
    var a := ShapeRow(rows[0], location).value;
    var s := InsertIfNew(store, a);
    var r := Ingest(s, location, rows[1..]);
    if j == 0 {
      IngestSpec(s, location, rows[1..]);
      var i :| 0 <= i < |s| && Key(s[i]) == Key(a);
      assert r.store[i] == s[i];
    } else {
      assert rows[1..][j - 1] == rows[j];
      IngestCovers(s, location, rows[1..], j - 1);
    }
  }

  /** A batch whose keys are all stored already inserts nothing. */
  lemma {:induction false} IngestNothingNew(store: seq<Apartment>, location: string, rows: seq<Row>)
    requires forall j :: 0 <= j < ShapedPrefix(rows, location) ==> HasKey(store, Key(ShapeRow(rows[j], location).value))
    ensures Ingest(store, location, rows).store == store
    decreases |rows|
  {
    if rows != [] && ShapeRow(rows[0], location).Some? {
      var a := ShapeRow(rows[0], location).value;
      assert HasKey(store, Key(ShapeRow(rows[0], location).value));
      assert InsertIfNew(store, a) == store;
      forall j | 0 <= j < ShapedPrefix(rows[1..], location)
        ensures HasKey(store, Key(ShapeRow(rows[1..][j], location).value))
      {
        assert rows[1..][j] == rows[j + 1];
      }
      IngestNothingNew(store, location, rows[1..]);
    }
  }

  /** Ingesting the same rows twice stores nothing the second time. */
  lemma IngestIdempotent(store: seq<Apartment>, location: string, rows: seq<Row>)
    ensures var once := Ingest(store, location, rows).store;
            Ingest(once, location, rows).store == once
  {
    var once := Ingest(store, location, rows).store;
    forall j | 0 <= j < ShapedPrefix(rows, location)
      ensures HasKey(once, Key(ShapeRow(rows[j], location).value))
    {
      IngestCovers(store, location, rows, j);
    }
    IngestNothingNew(once, location, rows);
  }

  /** Scraping the same page twice stores nothing the second time. */
  lemma ScrapeIdempotent(store: seq<Apartment>, location: string, page: Page)
    ensures var once := Scrape(store, location, page).store;
            Scrape(once, location, page).store == once
  {
    if page.Fetched? {
      IngestIdempotent(store, location, Candidates(page.rows));
    }
  }
}
