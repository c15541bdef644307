/** The scraper's run: fetchNewsInfo appends to the module-level list
    allNews, and turnToCSV annotates that list, puts it after the rows of
    News.csv (none when the file is missing), cleans the whole and writes
    it back. The file is a field of the model; reading and writing CSV text
    is not modelled. */
module Store {
  import opened Records
  import opened Articles
  import opened Sentiment
  import opened Cleaning

  /** The dataset turnToCSV writes: existing rows first, then the new ones,
      cleaned together. A missing file contributes no rows. */
  function Merged(existing: Option<seq<Row>>, newData: seq<Row>, valid: string -> bool): seq<Row>
  {
    var prior := if existing.Some? then existing.value else [];
    PreProcess(prior + newData, valid)
  }

  /** How many of the stubs' pages were fetched and parsed. */
  function Successes(stubs: seq<Stub>, fetch: string -> Option<Page>): nat
  {
    if stubs == [] then 0
    else (if fetch(BaseUrl + stubs[0].href).Some? then 1 else 0) + Successes(stubs[1..], fetch)
  }

  /** The item stub i yields, if its page was fetched and parsed. */
  function ItemAt(stubs: seq<Stub>, fetch: string -> Option<Page>, i: nat): Option<Article>
    requires i < |stubs|
  {
    var page := fetch(BaseUrl + stubs[i].href);
    if page.Some? then Some(NewsRecord(stubs[i], page.value)) else None
  }

  /** The items the stubs yield, in stub order, skipping the stubs whose
      page could not be fetched or parsed. */
  function Fetched(stubs: seq<Stub>, fetch: string -> Option<Page>): (news: seq<Article>)
    ensures |news| == Successes(stubs, fetch) <= |stubs|
    ensures (forall i :: 0 <= i < |stubs| ==> fetch(BaseUrl + stubs[i].href).Some?) ==> |news| == |stubs|
    ensures forall a :: a in news ==> a.sourceName == SourceName
  {
    if stubs == [] then []
    else
      var page := fetch(BaseUrl + stubs[0].href);
      (if page.Some? then [NewsRecord(stubs[0], page.value)] else []) + Fetched(stubs[1..], fetch)
  }

  /** The collected items are exactly the items of the stubs whose fetch
      succeeded. */
  lemma {:induction false} FetchedItems(stubs: seq<Stub>, fetch: string -> Option<Page>)
    ensures forall i :: 0 <= i < |stubs| && ItemAt(stubs, fetch, i).Some? ==>
      ItemAt(stubs, fetch, i).value in Fetched(stubs, fetch)
    ensures forall a :: a in Fetched(stubs, fetch) ==>
      exists i :: 0 <= i < |stubs| && ItemAt(stubs, fetch, i) == Some(a)
  {
    if stubs != [] {
      var tail := stubs[1..];
      FetchedItems(tail, fetch);
      forall i | 1 <= i < |stubs| ensures ItemAt(stubs, fetch, i) == ItemAt(tail, fetch, i - 1) {
        assert stubs[i] == tail[i - 1];
      }
      forall a | a in Fetched(tail, fetch) ensures exists i :: 0 <= i < |stubs| && ItemAt(stubs, fetch, i) == Some(a) {
        var j :| 0 <= j < |tail| && ItemAt(tail, fetch, j) == Some(a);
        assert ItemAt(stubs, fetch, j + 1) == Some(a);
      }
      var head := ItemAt(stubs, fetch, 0);
      assert Fetched(stubs, fetch) == (if head.Some? then [head.value] else []) + Fetched(tail, fetch);
      forall a | a in Fetched(stubs, fetch) ensures exists i :: 0 <= i < |stubs| && ItemAt(stubs, fetch, i) == Some(a) {
        if head == Some(a) {
          assert ItemAt(stubs, fetch, 0) == Some(a);
        }
      }
    }
  }

  /** A prior row that is the first of its title among the prior rows is
      also the first in the concatenation, so it is the row of that title
      that survives; any new row of the same title is dropped. */
  lemma PriorTakesPrecedence(prior: seq<Row>, newData: seq<Row>, valid: string -> bool, p: Row)
    requires FirstByTitle(prior, p.news.title) == Some(p) && valid(p.news.date)
    ensures p in Merged(Some(prior), newData, valid)
    ensures forall y :: y in Merged(Some(prior), newData, valid) && y.news.title == p.news.title ==> y == p
  {
    PreProcessMembers(prior + newData, valid);
    FirstByTitleAppend(prior, newData, p.news.title);
  }

  /** Merging a batch whose titles all appear in a dataset adds no row and
      changes no row: the result is a reordering of the dataset. */
  lemma KnownTitlesAddNothing(dataset: seq<Row>, newData: seq<Row>, valid: string -> bool)
    requires IsDataset(dataset, valid)
    requires forall r :: r in newData ==> r.news.title in Titles(dataset)
    ensures multiset(Merged(Some(dataset), newData, valid)) == multiset(dataset)
  {
    var merged := Merged(Some(dataset), newData, valid);
    PreProcessSpec(dataset + newData, valid);
    forall x ensures x in merged <==> x in dataset {
      var t := x.news.title;
      FirstByTitleAppend(dataset, newData, t);
      if t in Titles(dataset) {
        var y := FirstByTitle(dataset, t).value;
        FirstByTitleDistinct(dataset, y);
      } else {
        assert t !in Titles(newData);
      }
    }
    SameRowsSameMultiset(merged, dataset);
  }

  /** Running the merge a second time with the same batch over the dataset
      the first run wrote gives back the same rows, when every prior row
      had a valid date (as every row turnToCSV writes has). */
  lemma MergeIdempotent(prior: seq<Row>, newData: seq<Row>, valid: string -> bool)
    requires forall i :: 0 <= i < |prior| ==> valid(prior[i].news.date)
    ensures multiset(Merged(Some(Merged(Some(prior), newData, valid)), newData, valid))
         == multiset(Merged(Some(prior), newData, valid))
  {
    var once := Merged(Some(prior), newData, valid);
    var twice := Merged(Some(once), newData, valid);
    PreProcessSpec(prior + newData, valid);
    PreProcessSpec(once + newData, valid);
    forall t ensures FirstByTitle(once + newData, t) == FirstByTitle(prior + newData, t) {
      FirstByTitleAppend(once, newData, t);
      FirstByTitleAppend(prior, newData, t);
      // A title of prior that is missing from once cannot occur: its first
      // row lies in prior, has a valid date, and so was kept.
      if t in Titles(once) {
        var y := FirstByTitle(once, t).value;
        FirstByTitleDistinct(once, y);
      }
    }
    SameRowsSameMultiset(twice, once);
  }

  /** The module-level state of the script: the list filled by the fetch
      workers and the contents of News.csv (None while it does not exist). */
  class Scraper {
    var allNews: seq<Article>
    var newsCsv: Option<seq<Row>>

    constructor (existing: Option<seq<Row>>)
      ensures allNews == [] && newsCsv == existing
    {
      allNews := [];
      newsCsv := existing;
    }

    /** fetchNewsInfo for one stub. Any failure while fetching or parsing
        the page raises inside a worker whose result is never read, so the
        item is simply not appended. */
    method FetchNewsInfo(stub: Stub, fetch: string -> Option<Page>)
      modifies this`allNews
      ensures fetch(BaseUrl + stub.href).None? ==> allNews == old(allNews)
      ensures fetch(BaseUrl + stub.href).Some? ==>
        allNews == old(allNews) + [NewsRecord(stub, fetch(BaseUrl + stub.href).value)]
    {
      var link := BaseUrl + stub.href;
      var page := fetch(link);
      if page.Some? {
        var news := BuildNews(stub, page.value);
        allNews := allNews + [news];
      }
    }

    /** main's fan-out over the stubs, one fetchNewsInfo per stub, taken
        in stub order. */
    method CollectAll(stubs: seq<Stub>, fetch: string -> Option<Page>)
      modifies this`allNews
      ensures allNews == old(allNews) + Fetched(stubs, fetch)
    {
      for i := 0 to |stubs|
        invariant allNews == old(allNews) + Fetched(stubs[..i], fetch)
      {
        FetchedAppend(stubs[..i], [stubs[i]], fetch);
        assert stubs[..i + 1] == stubs[..i] + [stubs[i]];
        FetchNewsInfo(stubs[i], fetch);
      }
      assert stubs[..|stubs|] == stubs;
    }

    /** turnToCSV. With no collected items the frame built from allNews has
        no article column, sentimentsScores raises, and News.csv is left as
        it was. Otherwise the file is replaced by the cleaned merge. */
    method TurnToCSV(score: string -> Scores, valid: string -> bool) returns (ok: bool)
      modifies this`newsCsv
      ensures ok <==> allNews != []
      ensures !ok ==> newsCsv == old(newsCsv)
      ensures ok ==> newsCsv == Some(Merged(old(newsCsv), AnnotateAll(allNews, score), valid))
      ensures ok ==> IsDataset(newsCsv.value, valid)
    {
      var existing := newsCsv;
      if allNews == [] {
        ok := false;
        return;
      }
      var newData := SentimentsScores(allNews, score);
      var prior := if existing.Some? then existing.value else [];
      var df := PreProcess(prior + newData, valid);
      PreProcessDataset(prior + newData, valid);
      newsCsv := Some(df);
      ok := true;
    }
  }

  lemma {:induction false} FetchedAppend(a: seq<Stub>, b: seq<Stub>, fetch: string -> Option<Page>)
    ensures Fetched(a + b, fetch) == Fetched(a, fetch) + Fetched(b, fetch)
  {
    if a == [] {
      assert a + b == b;
    } else {
      assert (a + b)[1..] == a[1..] + b;
      FetchedAppend(a[1..], b, fetch);
    }
  }
}
