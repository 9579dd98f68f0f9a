/** The audience dispatch of app1.py: the keyword filter runs first; an empty
    result set shows no view; otherwise exactly one of the Scientist
    (summaries of the first 15 rows), Manager (top-10 keyword counts) and
    Mission Architect (risk words highlighted in the first 20 rows) views is
    computed. The view is returned as data instead of being rendered. */
module Views {
  import opened SeqUtil
  import opened TextUtil
  import opened Summary
  import opened Search
  import opened Tokenize
  import opened Ranking
  import opened Highlight

  /** The sidebar radio button. */
  datatype Audience = Scientist | Manager | MissionArchitect

  /** Rows summarised by the Scientist view (`results.head(15)`). */
  const ScientistRows: nat := 15
  /** Rows highlighted by the Mission Architect view (`results.head(20)`). */
  const ArchitectRows: nat := 20
  /** Bars of the Manager chart (`most_common(10)`). */
  const TopKeywords: nat := 10

  /** One displayed row: its text and its "Read Paper" link. */
  datatype Item = Item(text: string, link: string)

  datatype View =
    | NoResults                    // "No results found."
    | Summaries(items: seq<Item>)
    | Trends(top: seq<Entry>)      // an empty `top` draws no chart
    | Highlights(items: seq<Item>)
    | MissingTitle                 // a row the view reads has no title: the script raises

  predicate AllPresent(rows: seq<Record>)
  {
    forall i :: 0 <= i < |rows| ==> rows[i].title.Present?
  }

  /** `results.head(n)`. */
  function Head(rows: seq<Record>, n: nat): (head: seq<Record>)
    ensures |head| == Min(n, |rows|) && head == rows[..|head|]
  {
    rows[..Min(n, |rows|)]
  }

  /** `results['Title']` when no title is missing. */
  function Titles(rows: seq<Record>): (titles: seq<string>)
    requires AllPresent(rows)
    ensures |titles| == |rows|
    ensures forall i :: 0 <= i < |rows| ==> titles[i] == rows[i].title.text
  {
    if rows == [] then [] else [rows[0].title.text] + Titles(rows[1..])
  }

  /** The Scientist view of `results`: the summaries of its first 15 rows, in
      order, each with its link. */
  predicate IsSummaryView(results: seq<Record>, view: View)
  {
    var rows := Head(results, ScientistRows);
    && (view == MissingTitle <==> !AllPresent(rows))
    && (view != MissingTitle ==>
          && view.Summaries?
          && |view.items| == |rows|
          && forall i :: 0 <= i < |rows| ==>
               && rows[i].title.Present?
               && view.items[i] == Item(MakeSummary(rows[i].title.text), rows[i].link))
  }

  /** The Mission Architect view of `results`: its first 20 rows, in order,
      with the risk words highlighted, each with its link. */
  predicate IsHighlightView(results: seq<Record>, view: View)
  {
    var rows := Head(results, ArchitectRows);
    && (view == MissingTitle <==> !AllPresent(rows))
    && (view != MissingTitle ==>
          && view.Highlights?
          && |view.items| == |rows|
          && forall i :: 0 <= i < |rows| ==>
               && rows[i].title.Present?
               && view.items[i] == Item(HighlightRisk(rows[i].title.text), rows[i].link))
  }

  /** The Manager view of `results`: the ten most common non-stopword tokens
      of all its titles. */
  predicate IsTrendView(results: seq<Record>, view: View)
  {
    && (view == MissingTitle <==> !AllPresent(results))
    && (view != MissingTitle ==>
          && AllPresent(results)
          && view.Trends?
          && IsMostCommon(ManagerTokens(Titles(results)), TopKeywords, view.top))
  }

  /** The Scientist branch: `make_summary` on each of the first 15 rows. */
  method ScientistView(results: seq<Record>) returns (view: View)
    ensures IsSummaryView(results, view)
  {
    var rows := Head(results, ScientistRows);
    var items: seq<Item> := [];
    for i := 0 to |rows|
      invariant forall j :: 0 <= j < i ==> rows[j].title.Present?
      invariant |items| == i
      invariant forall j :: 0 <= j < i ==>
                  items[j] == Item(MakeSummary(rows[j].title.text), rows[j].link)
    {
      if rows[i].title.Missing? {
        return MissingTitle;
      }
      items := items + [Item(MakeSummary(rows[i].title.text), rows[i].link)];
    }
    view := Summaries(items);
  }

  /** The Manager branch: tokenise, drop stopwords, `most_common(10)`. */
  method ManagerView(results: seq<Record>) returns (view: View)
    ensures IsTrendView(results, view)
  {
    if !AllPresent(results) {
      return MissingTitle;
    }
    var top := MostCommon(ManagerTokens(Titles(results)), TopKeywords);
    view := Trends(top);
  }

  /** The Mission Architect branch: the risk highlighter on each of the first
      20 rows. */
  method ArchitectView(results: seq<Record>) returns (view: View)
    ensures IsHighlightView(results, view)
  {
    var rows := Head(results, ArchitectRows);
    var items: seq<Item> := [];
    for i := 0 to |rows|
      invariant forall j :: 0 <= j < i ==> rows[j].title.Present?
      invariant |items| == i
      invariant forall j :: 0 <= j < i ==>
                  items[j] == Item(HighlightRisk(rows[j].title.text), rows[j].link)
    {
      if rows[i].title.Missing? {
        return MissingTitle;
      }
      var highlighted := HighlightTitle(rows[i].title.text);
      items := items + [Item(highlighted, rows[i].link)];
    }
    view := Highlights(items);
  }

  /** The page for one query and one audience: no view for an empty result
      set, otherwise the one view the audience selects. */
  method Render(records: seq<Record>, query: string, audience: Audience) returns (view: View)
    ensures FilterRecords(records, query) == [] <==> view == NoResults
    ensures FilterRecords(records, query) != [] ==>
              match audience
              case Scientist => IsSummaryView(FilterRecords(records, query), view)
              case Manager => IsTrendView(FilterRecords(records, query), view)
              case MissionArchitect => IsHighlightView(FilterRecords(records, query), view)
  {
    var results := FilterRecords(records, query);
    if |results| == 0 {
      return NoResults;
    }
    match audience
    case Scientist =>
      view := ScientistView(results);
    case Manager =>
      view := ManagerView(results);
    case MissionArchitect =>
      view := ArchitectView(results);
  }
}
