/** The production query catalogue: a dictionary from category to a
    dictionary from query name to its SQL text and description, with the
    lookup, listing, keyword search and featured selection the dashboard
    offers over it. */
module Catalogue {
  import opened Sql
  import opened Text

  /** `{'query': ..., 'description': ...}` */
  datatype QueryEntry = QueryEntry(query: string, description: string)

  /** A dictionary with string keys, in insertion order. */
  type Dict<V> = seq<(string, V)>

  type Queries = Dict<QueryEntry>

  type Catalogue = Dict<Queries>

  /** A dictionary never holds a key twice. */
  ghost predicate DistinctKeys<V>(d: Dict<V>)
  {
    forall i, j :: 0 <= i < j < |d| ==> d[i].0 != d[j].0
  }

  /** `d.get(k)`, with `None` for a missing key. */
  function Get<V>(d: Dict<V>, k: string): (r: Option<V>)
    ensures r.Some? ==> (k, r.value) in d
    ensures r.None? <==> forall i :: 0 <= i < |d| ==> d[i].0 != k
  {
    if d == [] then None
    else if d[0].0 == k then Some(d[0].1)
    else Get(d[1..], k)
  }

  /** In a dictionary, `get` returns the value stored under the key. */
  lemma {:induction false} GetStored<V>(d: Dict<V>, k: string, v: V)
    requires DistinctKeys(d) && (k, v) in d
    ensures Get(d, k) == Some(v)
  {
    if d[0] != (k, v) {
      var n :| 0 <= n < |d| && d[n] == (k, v);
      assert n > 0 && d[0].0 != d[n].0;
      assert d[1..][n - 1] == (k, v);
      assert DistinctKeys(d[1..]) by {
        forall i, j | 0 <= i < j < |d[1..]| ensures d[1..][i].0 != d[1..][j].0 {
          assert d[1..][i] == d[i + 1] && d[1..][j] == d[j + 1];
        }
      }
      GetStored(d[1..], k, v);
    }
  }

  /** `get_query_by_category`: the queries of a category, `{}` for an
      unknown one. */
  function GetQueryByCategory(c: Catalogue, category: string): (r: Queries)
    ensures (forall i :: 0 <= i < |c| ==> c[i].0 != category) ==> r == []
    ensures (exists i :: 0 <= i < |c| && c[i].0 == category) ==> (category, r) in c
  {
    match Get(c, category)
    case None => []
    case Some(qs) => qs
  }

  /** For a category of the catalogue, the lookup gives exactly its queries. */
  lemma GetQueryByCategoryStored(c: Catalogue, category: string, qs: Queries)
    requires DistinctKeys(c) && (category, qs) in c
    ensures GetQueryByCategory(c, category) == qs
  {
    GetStored(c, category, qs);
  }

  /** `get_all_categories`: the catalogue's keys, in order. */
  function GetAllCategories(c: Catalogue): (ks: seq<string>)
    ensures |ks| == |c|
    ensures forall i :: 0 <= i < |c| ==> ks[i] == c[i].0
  {
    seq(|c|, i requires 0 <= i < |c| => c[i].0)
  }

  /** A name is listed exactly when the category lookup knows it. */
  lemma ListedIffKnown(c: Catalogue, category: string)
    ensures category in GetAllCategories(c) <==> Get(c, category).Some?
  {
    var ks := GetAllCategories(c);
    if category in ks {
      var i :| 0 <= i < |ks| && ks[i] == category;
      assert c[i].0 == category;
    }
  }

  // ---------------------------------------------------------------------
  // search_queries

  /** The keyword, lower-cased, occurs in the lower-cased name, description
      or SQL text. */
  predicate EntryMatches(keyword: string, name: string, details: QueryEntry)
  {
    Contains(Lower(name), Lower(keyword))
      || Contains(Lower(details.description), Lower(keyword))
      || Contains(Lower(details.query), Lower(keyword))
  }

  /** The `matching_queries` dictionary of one category, built front to back. */
  function MatchingQueries(qs: Queries, keyword: string): Queries
  {
    if qs == [] then []
    else
      var last := qs[|qs| - 1];
      MatchingQueries(qs[..|qs| - 1], keyword) + (if EntryMatches(keyword, last.0, last.1) then [last] else [])
  }

  /** The `results` dictionary: each category with its matching queries,
      omitted when nothing in it matches. */
  function SearchSpec(c: Catalogue, keyword: string): Catalogue
  {
    if c == [] then []
    else
      var last := c[|c| - 1];
      var m := MatchingQueries(last.1, keyword);
      SearchSpec(c[..|c| - 1], keyword) + (if m != [] then [(last.0, m)] else [])
  }

  /** `search_queries(keyword)`. */
  method SearchQueries(c: Catalogue, keyword: string) returns (results: Catalogue)
    ensures results == SearchSpec(c, keyword)
  {
    results := [];
    var i := 0;
    while i < |c|
      invariant 0 <= i <= |c|
      invariant results == SearchSpec(c[..i], keyword)
    {
      var category := c[i].0;
      var queries := c[i].1;
      var matching: Queries := [];
      var j := 0;
      while j < |queries|
        invariant 0 <= j <= |queries|
        invariant matching == MatchingQueries(queries[..j], keyword)
      {
        var name := queries[j].0;
        var details := queries[j].1;
        if Contains(Lower(name), Lower(keyword))
          || Contains(Lower(details.description), Lower(keyword))
          || Contains(Lower(details.query), Lower(keyword))
        {
          matching := matching + [(name, details)];
        }
        assert queries[..j + 1][..j] == queries[..j];
        j := j + 1;
      }
      assert queries[..j] == queries;
      if matching != [] {
        results := results + [(category, matching)];
      }
      assert c[..i + 1][..i] == c[..i];
      i := i + 1;
    }
    assert c[..i] == c;
  }

  /** A query is kept exactly when it is in the category and matches; the
      kept details are the catalogue's own. */
  lemma {:induction false} MatchingQueriesIff(qs: Queries, keyword: string, p: (string, QueryEntry))
    ensures p in MatchingQueries(qs, keyword) <==> p in qs && EntryMatches(keyword, p.0, p.1)
  {
    if qs != [] {
      var init := qs[..|qs| - 1];
      assert qs == init + [qs[|qs| - 1]];
      MatchingQueriesIff(init, keyword, p);
    }
  }

  /** A category appears in the results exactly when some query in it
      matches, and then with its matching queries. */
  lemma {:induction false} SearchSpecIff(c: Catalogue, keyword: string, category: string, m: Queries)
    ensures (category, m) in SearchSpec(c, keyword) <==>
      m != [] && exists i :: 0 <= i < |c| && c[i].0 == category && m == MatchingQueries(c[i].1, keyword)
  {
    if c != [] {
      var init := c[..|c| - 1];
      SearchSpecIff(init, keyword, category, m);
      if exists i :: 0 <= i < |c| && c[i].0 == category && m == MatchingQueries(c[i].1, keyword) {
        var i :| 0 <= i < |c| && c[i].0 == category && m == MatchingQueries(c[i].1, keyword);
        if i < |c| - 1 {
          assert init[i] == c[i];
        }
      }
      if exists i :: 0 <= i < |init| && init[i].0 == category && m == MatchingQueries(init[i].1, keyword) {
        var i :| 0 <= i < |init| && init[i].0 == category && m == MatchingQueries(init[i].1, keyword);
        assert c[i] == init[i];
      }
    }
  }

  /** Every query matches the empty keyword. */
  lemma {:induction false} MatchingQueriesEmptyKeyword(qs: Queries)
    ensures MatchingQueries(qs, "") == qs
  {
    if qs != [] {
      var init := qs[..|qs| - 1];
      var last := qs[|qs| - 1];
      MatchingQueriesEmptyKeyword(init);
      assert Lower("") == "";
      ContainsEmpty(Lower(last.0));
      assert init + [last] == qs;
    }
  }

  /** The empty keyword returns the whole catalogue, when no category is
      empty. */
  lemma {:induction false} SearchEmptyKeyword(c: Catalogue)
    requires forall i :: 0 <= i < |c| ==> c[i].1 != []
    ensures SearchSpec(c, "") == c
  {
    if c != [] {
      var init := c[..|c| - 1];
      var last := c[|c| - 1];
      SearchEmptyKeyword(init);
      MatchingQueriesEmptyKeyword(last.1);
      assert init + [last] == c;
    }
  }

  // ---------------------------------------------------------------------
  // get_featured_queries

  /** `PRODUCTION_QUERIES[category][name]`, with `None` for a key error. */
  function Lookup(c: Catalogue, category: string, name: string): (r: Option<QueryEntry>)
    ensures r.Some? ==> (name, r.value) in GetQueryByCategory(c, category)
    ensures r.None? <==> Get(c, category).None? || Get(Get(c, category).value, name).None?
  {
    match Get(c, category)
    case None => None
    case Some(qs) => Get(qs, name)
  }

  /** A category and a query name that are in the catalogue are found, with
      the stored entry. */
  lemma LookupStored(c: Catalogue, category: string, qs: Queries, name: string, e: QueryEntry)
    requires DistinctKeys(c) && (category, qs) in c
    requires DistinctKeys(qs) && (name, e) in qs
    ensures Lookup(c, category, name) == Some(e)
  {
    GetStored(c, category, qs);
    GetStored(qs, name, e);
  }

  /** A featured query: its label and where it is found in the catalogue. */
  datatype Feature = Feature(title: string, category: string, name: string)

  const FeaturedSources: seq<Feature> := [
    Feature("Quick User Lookup", "\U{1F50D} User & Account Analysis", "Get User by ID"),
    Feature("OAuth Connections", "\U{1F517} Connection Analysis", "OAuth Connections by App"),
    Feature("Recent Anomalies", "\U{26A0}\U{FE0F} Anomaly Detection", "Recent API Anomalies"),
    Feature("Canary Distribution", "\U{1F680} Canary Rollout Management", "Canary Phase Distribution"),
    Feature("Active User Tiers", "\U{1F3AF} User Segmentation & Tiers", "Active Users by Tier & Domain")
  ]

  /** The labelled entries of `sources`, or `None` when one lookup fails. */
  function FeaturedFrom(c: Catalogue, sources: seq<Feature>): (r: Option<Queries>)
    ensures r.Some? <==> forall i :: 0 <= i < |sources| ==> Lookup(c, sources[i].category, sources[i].name).Some?
    ensures r.Some? ==> |r.value| == |sources|
    ensures r.Some? ==> forall i :: 0 <= i < |sources| ==>
      r.value[i] == (sources[i].title, Lookup(c, sources[i].category, sources[i].name).value)
  {
    if sources == [] then Some([])
    else
      match Lookup(c, sources[0].category, sources[0].name)
      case None => None
      case Some(e) =>
        match FeaturedFrom(c, sources[1..])
        case None => None
        case Some(rest) => Some([(sources[0].title, e)] + rest)
  }

  /** `get_featured_queries()`: the five featured entries under their labels,
      or `None` where the dictionary indexing would raise a key error. */
  function FeaturedQueries(c: Catalogue): (r: Option<Queries>)
    ensures r.Some? <==> forall i :: 0 <= i < 5 ==> Lookup(c, FeaturedSources[i].category, FeaturedSources[i].name).Some?
    ensures r.Some? ==> |r.value| == 5 && forall i :: 0 <= i < 5 ==>
      r.value[i] == (FeaturedSources[i].title, Lookup(c, FeaturedSources[i].category, FeaturedSources[i].name).value)
  {
    FeaturedFrom(c, FeaturedSources)
  }
}
