/** The search URL fetched for a city (`build_craigslist_url`). */
module CraigslistUrl {
  import opened Wrappers

  /** The six cities with a dedicated Craigslist subdomain. */
  const DomainMap: map<string, string> := map[
    "New York" := "newyork", "San Francisco" := "sfbay", "Boston" := "boston",
    "Los Angeles" := "losangeles", "Chicago" := "chicago", "Miami" := "miami"]

  /** The subdomain used for every city the map does not name. */
  const DefaultDomain: string := "sfbay"

  const UrlHead: string := "https://"
  const UrlTail: string := ".craigslist.org/search/apa?hasPic=1"

  /** `domain_map.get(city, "sfbay")`: the lookup is total and never leaves the six subdomains. */
  function Domain(city: string): (d: string)
    ensures d in DomainMap.Values
    ensures city !in DomainMap ==> d == DefaultDomain
  {
    assert DomainMap["San Francisco"] == DefaultDomain;
    if city in DomainMap then DomainMap[city] else DefaultDomain
  }

  function BuildCraigslistUrl(city: string): (url: string)
    ensures UrlHead <= url
    ensures DomainOf(url) == Some(Domain(city))
  {
    var url := UrlHead + Domain(city) + UrlTail;
    assert url[..|UrlHead|] == UrlHead;
    assert url[|url| - |UrlTail|..] == UrlTail;
    assert url[|UrlHead|..|url| - |UrlTail|] == Domain(city);
    url
  }

  /** Reads the subdomain back out of a search URL of the shape built above. */
  function DomainOf(url: string): Option<string>
  {
    if |url| >= |UrlHead| + |UrlTail| && url[..|UrlHead|] == UrlHead && url[|url| - |UrlTail|..] == UrlTail
    then Some(url[|UrlHead|..|url| - |UrlTail|])
    else None
  }

  /** The six named cities map to their fixed subdomains. */
  lemma KnownCities()
    ensures Domain("New York") == "newyork" && Domain("San Francisco") == "sfbay"
    ensures Domain("Boston") == "boston" && Domain("Los Angeles") == "losangeles"
    ensures Domain("Chicago") == "chicago" && Domain("Miami") == "miami"
  {
  }

  /** Whatever the city, the URL is the fixed search page on the city's subdomain. */
  lemma UrlShape(city: string)
    ensures BuildCraigslistUrl(city) == "https://" + Domain(city) + ".craigslist.org/search/apa?hasPic=1"
  {
  }

  /** Two cities are sent to the same page exactly when they share a subdomain. */
  lemma SameUrlIffSameDomain(c1: string, c2: string)
    ensures BuildCraigslistUrl(c1) == BuildCraigslistUrl(c2) <==> Domain(c1) == Domain(c2)
  {
  }

  /** Every city outside the map is searched on the San Francisco page. */
  lemma UnknownCityFallsBack(city: string)
    ensures BuildCraigslistUrl(city) == BuildCraigslistUrl("San Francisco") <==> city == "San Francisco" || city !in DomainMap
  {
    SameUrlIffSameDomain(city, "San Francisco");
    if city in DomainMap && city != "San Francisco" {
      assert DomainMap[city] != "sfbay";
    }
  }
}
