/** `match_user`: the apartments one user's criteria accept. */
module Matching {
  import opened Records

  /** The three conditions of the query at lines 86-90. */
  predicate Matches(a: Apartment, u: User)
  {
    a.price <= u.maxPrice && a.location == u.location && a.bedrooms >= u.minBedrooms
  }

  /** The stored apartments that satisfy the user's criteria, in table order. */
  function MatchUser(store: seq<Apartment>, u: User): seq<Apartment>
    decreases |store|
  {
    if store == [] then []
    else (if Matches(store[0], u) then [store[0]] else []) + MatchUser(store[1..], u)
  }

  /** Exactly the matching stored apartments are returned, each no more often than it is stored. */
  lemma {:induction false} MatchUserMembers(store: seq<Apartment>, u: User)
    ensures forall a :: a in MatchUser(store, u) <==> a in store && Matches(a, u)
    ensures multiset(MatchUser(store, u)) <= multiset(store)
    decreases |store|
  {
    if store != [] {
      MatchUserMembers(store[1..], u);
      assert store == [store[0]] + store[1..];
    }
  }

  /** Matching a table that grew by appends: the old matches come first. */
  lemma {:induction false} MatchUserAppend(s: seq<Apartment>, t: seq<Apartment>, u: User)
    ensures MatchUser(s + t, u) == MatchUser(s, u) + MatchUser(t, u)
    decreases |s|
  {
    if s != [] {
      assert (s + t)[1..] == s[1..] + t;
      MatchUserAppend(s[1..], t, u);
    } else {
      assert s + t == t;
    }
  }

  /** A table with no matching row gives an empty match list. */
  lemma {:induction false} NoMatchEmpty(store: seq<Apartment>, u: User)
    ensures MatchUser(store, u) == [] <==> forall k :: 0 <= k < |store| ==> !Matches(store[k], u)
  {
    MatchUserMembers(store, u);
    if MatchUser(store, u) != [] {
      var a := MatchUser(store, u)[0];
      assert a in MatchUser(store, u);
    }
  }
}
