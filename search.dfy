/** The keyword filter of app1.py: an empty query keeps every record; a
    non-empty one keeps, in order, the records whose title contains the query
    case-insensitively (`str.contains(query, case=False, na=False)`). */
module Search {
  import opened TextUtil
  import opened SeqUtil

  /** A `Title` cell of the data frame: text, or missing (NaN). */
  datatype Title = Present(text: string) | Missing

  /** One publication row. */
  datatype Record = Record(title: Title, link: string)

  /** The row mask of the filter for a non-empty query: a missing title never
      matches; otherwise the query must occur in the title, ignoring case. */
  predicate TitleMatches(title: Title, query: string)
    ensures TitleMatches(title, query) ==> title.Present? && |query| <= |title.text|
  {
    title.Present? && Contains(Lower(title.text), Lower(query))
  }

  /** The boolean mask as a function on rows. */
  function QueryMask(query: string): Record -> bool
  {
    (r: Record) => TitleMatches(r.title, query)
  }

  /** `results` of app1.py: the records kept by the keyword filter. */
  function FilterRecords(records: seq<Record>, query: string): (results: seq<Record>)
    ensures query == [] ==> results == records
    ensures query != [] ==>
              forall r :: r in results <==> r in records && TitleMatches(r.title, query)
    ensures query != [] ==>
              forall r: Record :: TitleMatches(r.title, query) ==> multiset(results)[r] == multiset(records)[r]
    ensures query != [] ==> forall i :: 0 <= i < |results| ==> results[i].title.Present?
    ensures IsSubseq(results, records)
  {
    if query == [] then
      IsSubseqRefl(records);
      records
    else Keep(records, QueryMask(query))
  }

  /** Filtering the results again with the same query changes nothing. */
  lemma FilterIdempotent(records: seq<Record>, query: string)
    ensures FilterRecords(FilterRecords(records, query), query) == FilterRecords(records, query)
  {
    if query != [] {
      KeepIdempotent(records, QueryMask(query));
    }
  }

  /** A record matches whatever the letter case of its title or of the query. */
  lemma MatchIgnoresCase(t: string, query: string)
    ensures TitleMatches(Present(t), query) == TitleMatches(Present(Lower(t)), Lower(query))
  {
    assert Lower(Lower(t)) == Lower(t);
    assert Lower(Lower(query)) == Lower(query);
  }
}
